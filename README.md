# FX execution bot: session, position and order-request model

This project models the core of a console FX trading bot that talks to a
broker's REST trading API. The model covers two parts:

- **The bot** (`SaxoTradingBot` in bot/core.py), as the class
  `Core.TradingBot`. Its fields are `clientKey` and `accountKey`, both
  `Option<string>` and both `None` at construction. The class also has the
  bearer-token headers.
  - `Setup` resolves the two keys from the client profile and the account
    list. It scans the accounts in order and stops at the first one whose
    `AccountId` is the client's `DefaultAccountId`.
  - `ManagePosition` runs a first-match search over the positions for a uic,
    comparing uics as strings. It reads the matched position and returns the
    orders it places. It places one market sell when the answer, stripped and
    lower-cased, is `y`.
- **The request builders** of bot/execution.py, as pure functions that return
  the `Request` record passed to the HTTP layer: the quote query, a limit
  order, a market order and a limit-to-market conversion.

The broker's responses come in as decoded records, and a key absent from a
response is `None`. Where the source indexes a response directly, an absent
key is an error outcome that names the key, as Python's `KeyError` does.
Where it reads with `.get(..., default)`, the absent key gives that default
(`Core.Entries`, `Core.BaseOf`). The Python string builtins these files rely
on are modelled in `PyStr`:

- `str()` of an integer
- `str.join` on `,` (bot/execution.py:7), with `str.split` as its reader
  for the round-trip of the `Uics` value
- `str.strip()` with Python's whitespace set
- `str.lower()`

Each builder has an inverse reader that reads its output back:

- `Execution.ReadOrder` reads an order body back as a `Ticket`: uic, side,
  amount, market or limit-at-price, duration and account.
- `Execution.ReadAmendment` reads a conversion body back.
- `Execution.Lookup` reads one query parameter.

The two loops of the bot each have a recursive specification:
`Core.ScanFrom` for the account search and `Core.FindFrom` for the position
search. The methods' loops are proved against them, and they carry the
first-match characterisation.

Behaviour of the code worth noting:

- `setup` does not fail when no account matches the default id. It raises
  nothing and leaves `account_key` as it was (`None` on a fresh bot), and a
  later sell then carries `"AccountKey": null`.
- There is no sell-size validation against the held amount.
- There is no quote-delta classification.

## Model

| member | source | states |
|---|---|---|
| `PyStr.NatToString` | bot/execution.py:7 | the decimal rendering of a uic is non-empty and all digits; only 0 starts with `0`, and then the rendering is that one digit |
| `PyStr.IntToString` | bot/execution.py:7 | `str()` of an int is non-empty and uses only `-` and digits, so it never holds a comma |
| `PyStr.ParseIntToString` | bot/execution.py:7 | the `str()` of any integer reads back as that integer |
| `PyStr.IntToStringInjective` | bot/core.py:39 | two integers have the same `str()` exactly when they are equal |
| `PyStr.JoinShape` | bot/execution.py:7 | a join starts with the first part and ends with the last, and with two parts or more the separator follows the first part |
| `PyStr.Split` | bot/execution.py:7 | splitting always yields at least one field |
| `PyStr.SplitJoin` | bot/execution.py:7 | splitting a join on a separator that no part holds gives back the parts |
| `PyStr.JoinSplit` | bot/execution.py:7 | joining the fields of any split gives back the string |
| `PyStr.StripLeft` | bot/core.py:57 | leading strip removes an all-whitespace prefix and leaves no leading whitespace |
| `PyStr.StripRight` | bot/core.py:57 | trailing strip removes an all-whitespace suffix and leaves no trailing whitespace |
| `PyStr.Strip` | bot/core.py:57 | `strip()` returns a slice of the answer with only whitespace before and after it, and the result neither starts nor ends with whitespace |
| `PyStr.Lower` | bot/core.py:57 | `lower()` keeps the length, leaves no ASCII capital, moves each capital up by 32 and keeps every other character |
| `Execution.Render` | bot/execution.py:7 | `str()` of each uic, in order, with no comma in any field, each reading back as its uic |
| `Execution.JoinUics` | bot/execution.py:7 | the `Uics` value is empty for no uics; otherwise splitting it on `,` gives back the rendered uics |
| `Execution.UicsRoundTrip` | bot/execution.py:7 | the `Uics` value split on `,` gives each uic's `str()` in input order, and each field reads back as its uic |
| `Execution.GetFxPrices` | bot/execution.py:6-9 | the quote query is a GET with exactly five parameters: `AccountKey` the account key as text (`None` when unset), `Uics` the comma join, `AssetType=FxSpot`, `Amount=100000`, `FieldGroups=DisplayAndFormat,Quote` |
| `Execution.FxPricesFixedFields` | bot/execution.py:8-9 | `AssetType`, `Amount` and `FieldGroups` are the same whatever the account and uics |
| `Execution.PlaceLimitOrder` | bot/execution.py:12-27 | a POST body with exactly the keys `Uic`, `BuySell`, `AssetType`, `Amount`, `OrderPrice`, `OrderType`, `OrderRelation`, `ManualOrder`, `OrderDuration`, `AccountKey`; `OrderDuration` holds only `DurationType: GoodTillCancel`; it reads back as an FX spot stand-alone manual Buy of the given uic and amount, limit at the given price, for the caller's account |
| `Execution.LimitOrderDefaultAmount` | bot/execution.py:12 | a limit order without an amount is for 100000 |
| `Execution.PlaceMarketOrder` | bot/execution.py:30-44 | a POST body with exactly the keys of a limit order except `OrderPrice`; `OrderDuration` holds only `DurationType: DayOrder`; it reads back as an FX spot stand-alone manual market order with the given uic, side and amount, for the caller's account |
| `Execution.MarketOrderDefaultSide` | bot/execution.py:30 | a market order without a side is a Sell |
| `Execution.ConvertToMarketOrder` | bot/execution.py:47-57 | a PATCH body with exactly the keys `OrderType`, `OrderDuration`, `AccountKey`, `OrderId`, `AssetType`; `OrderDuration` holds only `DurationType: DayOrder`; it reads back as an amendment of the given order to Market/DayOrder for the caller's account, and is not itself an order |
| `Execution.ConversionAgreesWithMarketOrder` | bot/execution.py:32-57 | every conversion field except `OrderId` has the value a market order for the same account carries |
| `Execution.LimitDiffersFromMarketBuyOnlyInTerms` | bot/execution.py:12-44 | a limit order and a market buy differ only in `OrderPrice`, `OrderType` and `OrderDuration` |
| `Core.TradingBot.constructor` | bot/core.py:8-14 | the headers carry the bearer token and JSON content type; both keys are unset |
| `Core.TradingBot.Setup` | bot/core.py:16-28 | the new outcome and keys are those `Resolve` gives from the responses and the old keys |
| `Core.Resolve` | bot/core.py:16-28 | a missing `ClientKey` raises it and changes nothing; otherwise the client key is set; on any `KeyError` the account key is unchanged and the error names one of the keys setup reads; the account key changes only to the key of an account whose id is the default id |
| `Core.ScanFrom` | bot/core.py:25-28 | the search ends at the first account with the default id, or at the first account missing a key it reads, after passing over only accounts with another id; or passes over all of them |
| `Core.ScanSkipsPassedOver` | bot/core.py:25-28 | accounts with another id do not change where the search ends |
| `Core.ScanIgnoresLaterAccounts` | bot/core.py:25-28 | once the search ends, accounts after it are never looked at |
| `Core.ResolveSetsClientKey` | bot/core.py:22 | after setup the client key is the client record's `ClientKey` |
| `Core.ResolvePicksFirstDefault` | bot/core.py:23-28 | the account key becomes that of the first account in list order whose `AccountId` is `DefaultAccountId` |
| `Core.ResolveWithoutMatchKeepsAccountKey` | bot/core.py:25-28 | with no matching account, setup completes without error and the account key keeps its previous value |
| `Core.Entries` | bot/core.py:37 | `positions.get("Data", [])`: the list when present, empty otherwise |
| `Core.BaseOf` | bot/core.py:38 | `pos.get("PositionBase", {})`: the base when present, otherwise one with no `Uic`, `Amount` or `OpenPrice` |
| `Core.UicText` | bot/core.py:39 | `str()` of a `Uic`: a numeric one renders so that it reads back as itself, a text one is itself, and an absent one renders as `None`, which reads as no integer |
| `Core.SameUicMeaning` | bot/core.py:39 | the string comparison matches a numeric `Uic` exactly when it equals the uic, a text `Uic` exactly when it is the uic's `str()` (and such a text then reads back as the uic), and never an absent one; `SameUic` is the comparison itself |
| `Core.FindFrom` | bot/core.py:36-41 | the position found is the first in list order with the requested uic, and `None` means no entry has it |
| `Core.ReadHolding` | bot/core.py:47-50 | the four reads after the match succeed exactly when all seven keys they index are present; on success the amount is `int()` of `Amount` and P&L, symbol and open price are passed through |
| `Core.ReadHoldingOrder` | bot/core.py:47-50 | a failed read raises the first absent key in the order the source reads them |
| `Core.TruncateToInt` | bot/core.py:48 | `int()` of the amount truncates toward zero |
| `PyStr.LowerIsY` | bot/core.py:57-58 | only `y` and `Y` lower-case to `y` |
| `Core.IsYes` | bot/core.py:57-58 | the answer is a yes exactly when its stripped form is `y` or `Y` |
| `Core.YesIsOneLetter` | bot/core.py:57-58 | an answer taken as yes is one `y` or `Y` with only whitespace around it |
| `Core.OneLetterIsYes` | bot/core.py:57-58 | one `y` or `Y` with only whitespace around it is taken as yes |
| `Core.IsYesMeaning` | bot/core.py:57-58 | both directions of the two lemmas above |
| `Core.TradingBot.ManagePosition` | bot/core.py:33-70 | with no matching position it returns and places nothing; a missing key after the match raises it and places nothing; on yes it places exactly one order, the market Sell of the truncated amount for the uic and the stored account key; on any other answer it places nothing; no field of the bot changes in any case |
| `Core.SellOrderTerms` | bot/core.py:57-60 | the sell order reads back as a market DayOrder selling the truncated `Amount` of the first matching position, for the uic and the stored account key |

## Left out

- HTTP transport: every `requests.get/post/patch` call, the base URL, the endpoint paths and the headers attached to each request. Builders return the request record; responses are inputs.
- The user-profile fetch in `setup` (bot/core.py:18): its result is never used.
- Console output: every `print` in bot/core.py and the summaries of bot/account.py. The prompt text of `input` is also left out; the answer is a parameter.
- The `run` loop (bot/core.py:72-100): an interactive loop with `input` and `time.sleep` that only calls `setup` and `manage_position`. The token prompt of main.py is left out too.
- What `manage_position` does after placing the sell: the follow-up quote fetch, the read of `Data[0].Quote.Mid` (which can fail after the order is placed) and the floating-point realized P&L (bot/core.py:61-68).
- `format_datetime` (bot/utils.py:3-5): a wrapper over Python's datetime parsing and formatting.
- `PyStr.Lower` maps ASCII letters only. Python's `lower()` also maps other letters, but none of them lowercases to `y`, so the yes test is unaffected.
- `PyStr.ParseInt` is a reference reader of decimal renderings, not Python's `int()`: it rejects `+`, surrounding whitespace and underscores.
- Response values are modelled only in the types the source expects. A `Uic` may be absent, an integer or a string; a float `Uic` such as `16.0` is not modelled. A key that is present with the value `null` is not modelled, and neither is a `Data` that is not a list.
- Execution.GetFxPrices: the account key is interpolated into the URL without escaping (bot/execution.py:8-9). A key holding `&`, `=`, `#` or `+` changes the parameters the broker sees; for example the key `x&AssetType=Stock` adds a second `AssetType`. The model keeps the query as parsed name/value pairs, so `Execution.FxPricesFixedFields` and the `AccountKey` lookup hold only in that representation.
- The numbers of a position (`Amount`, `OpenPrice`, the P&L) are exact reals, not floats. On every finite float, `Core.TruncateToInt` is what Python's `int()` gives. A non-finite `Amount` (JSON `1e400` decodes to `inf`, `NaN` to `nan`) is not modelled: there `int()` at bot/core.py:48 raises `OverflowError` or `ValueError` before `Symbol` is read and before the prompt, and `ManagePosition` has no outcome for it.
- An empty uic list joins to the empty string, and splitting that gives `[""]`. `Execution.UicsRoundTrip` therefore requires at least one uic.
