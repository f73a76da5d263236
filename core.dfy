/** The session and position logic of `SaxoTradingBot` (bot/core.py). The
    broker's responses arrive as decoded records whose absent keys are `None`;
    the order the bot places leaves the model as an `Execution.Request`. */
module Core {
  import opened Wrappers
  import opened PyStr
  import Execution

  // ---------------------------------------------------------------------------
  // Decoded broker responses

  /** The client profile: `ClientKey` and `DefaultAccountId`. */
  datatype ClientInfo = ClientInfo(clientKey: Option<string>, defaultAccountId: Option<string>)

  /** One entry of the account list. */
  datatype Account = Account(accountId: Option<string>, accountKey: Option<string>)

  /** The account list response; `data` is its `Data` key. */
  datatype AccountList = AccountList(data: Option<seq<Account>>)

  /** A `Uic` value as the positions response may carry it: absent, a number
      or a string (the broker is not consistent). */
  datatype UicValue = Absent | IntUic(n: int) | TextUic(s: string)

  datatype PositionBase = PositionBase(uic: UicValue, amount: Option<real>, openPrice: Option<real>)

  datatype PositionView = PositionView(profitLoss: Option<real>)

  datatype DisplayAndFormat = DisplayAndFormat(symbol: Option<string>)

  datatype Position = Position(
    base: Option<PositionBase>,
    view: Option<PositionView>,
    display: Option<DisplayAndFormat>)

  /** The positions response; `data` is its `Data` key. */
  datatype PositionList = PositionList(data: Option<seq<Position>>)

  // ---------------------------------------------------------------------------
  // Session resolution

  /** How `setup` ends: normally, or with a `KeyError` naming the absent key. */
  datatype SetupOutcome = Completed | KeyError(key: string)

  /** The two fields `setup` may assign. */
  datatype Session = Session(clientKey: Option<string>, accountKey: Option<string>)

  /** An account that the search passes over: it has an `AccountId`, and it
      is not the default one. */
  predicate PassedOver(a: Account, id: string)
  {
    a.accountId.Some? && a.accountId.value != id
  }

  /** How the account search ends: at the account with the default id, at an
      account that lacks a key it reads, or at the end of the list. */
  datatype Scan = Found(index: nat, key: string) | Missing(index: nat, field: string) | NotFound

  /** The account search from position `start` on: the first account whose
      `AccountId` is `id`, later ones ignored. */
  function ScanFrom(accounts: seq<Account>, id: string, start: nat): (r: Scan)
    requires start <= |accounts|
    ensures r.Found? ==> start <= r.index < |accounts|
                         && accounts[r.index].accountId == Some(id)
                         && accounts[r.index].accountKey == Some(r.key)
    ensures r.Missing? ==> start <= r.index < |accounts|
                           && ((accounts[r.index].accountId.None? && r.field == "AccountId")
                               || (accounts[r.index].accountId == Some(id)
                                   && accounts[r.index].accountKey.None? && r.field == "AccountKey"))
    ensures r.NotFound? ==> forall j :: start <= j < |accounts| ==> PassedOver(accounts[j], id)
    ensures !r.NotFound? ==> forall j :: start <= j < r.index ==> PassedOver(accounts[j], id)
    decreases |accounts| - start
  {
    if start == |accounts| then NotFound
    else match accounts[start].accountId
      case None => Missing(start, "AccountId")
      case Some(aid) =>
        if aid == id then
          match accounts[start].accountKey
          case None => Missing(start, "AccountKey")
          case Some(k) => Found(start, k)
        else ScanFrom(accounts, id, start + 1)
  }

  /** What `setup` does to the session, given the responses. The client key is
      assigned before the default account id is read, so a `KeyError` after
      that point leaves it assigned; an account key is assigned only when a
      matching account is found. */
  function Resolve(client: ClientInfo, accounts: AccountList, before: Session): (r: (SetupOutcome, Session))
    ensures client.clientKey.None? ==> r == (KeyError("ClientKey"), before)
    ensures client.clientKey.Some? ==> r.1.clientKey == client.clientKey
    ensures r.0.KeyError? ==> r.1.accountKey == before.accountKey
    ensures r.0.KeyError? ==> r.0.key in {"ClientKey", "DefaultAccountId", "Data", "AccountId", "AccountKey"}
    ensures r.1.accountKey != before.accountKey ==>
      && accounts.data.Some? && client.defaultAccountId.Some?
      && exists i :: 0 <= i < |accounts.data.value|
                     && accounts.data.value[i].accountId == client.defaultAccountId
                     && accounts.data.value[i].accountKey == r.1.accountKey
  {
    match client.clientKey
    case None => (KeyError("ClientKey"), before)
    case Some(ck) =>
      var s := before.(clientKey := Some(ck));
      match client.defaultAccountId
      case None => (KeyError("DefaultAccountId"), s)
      case Some(id) =>
        match accounts.data
        case None => (KeyError("Data"), s)
        case Some(list) =>
          match ScanFrom(list, id, 0)
          case Found(_, k) => (Completed, s.(accountKey := Some(k)))
          case Missing(_, field) => (KeyError(field), s)
          case NotFound => (Completed, s)
  }

  /** After `setup`, the client key is the client record's `ClientKey`. */
  lemma ResolveSetsClientKey(client: ClientInfo, accounts: AccountList, before: Session)
    requires client.clientKey.Some?
    ensures Resolve(client, accounts, before).1.clientKey == client.clientKey
  {
  }

  /** Accounts the search passes over do not affect where it ends. */
  lemma {:induction false} ScanSkipsPassedOver(accounts: seq<Account>, id: string, start: nat, i: nat)
    requires start <= i <= |accounts|
    requires forall j :: start <= j < i ==> PassedOver(accounts[j], id)
    ensures ScanFrom(accounts, id, start) == ScanFrom(accounts, id, i)
    decreases i - start
  {
    if start < i {
      ScanSkipsPassedOver(accounts, id, start + 1, i);
    }
  }

  /** The account key becomes that of the first account, in list order, whose
      `AccountId` is the default one; what follows it is never looked at. */
  lemma ResolvePicksFirstDefault(client: ClientInfo, accounts: AccountList, before: Session, i: nat)
    requires client.clientKey.Some? && client.defaultAccountId.Some? && accounts.data.Some?
    requires i < |accounts.data.value|
    requires accounts.data.value[i].accountId == client.defaultAccountId
    requires accounts.data.value[i].accountKey.Some?
    requires forall j :: 0 <= j < i ==> PassedOver(accounts.data.value[j], client.defaultAccountId.value)
    ensures Resolve(client, accounts, before)
         == (Completed, Session(client.clientKey, accounts.data.value[i].accountKey))
  {
    ScanSkipsPassedOver(accounts.data.value, client.defaultAccountId.value, 0, i);
  }

  /** The search stops at the first match: appending accounts after it
      changes nothing. */
  lemma {:induction false} ScanIgnoresLaterAccounts(accounts: seq<Account>, later: seq<Account>, id: string, start: nat)
    requires start <= |accounts|
    requires !ScanFrom(accounts, id, start).NotFound?
    ensures ScanFrom(accounts + later, id, start) == ScanFrom(accounts, id, start)
    decreases |accounts| - start
  {
    assert (accounts + later)[start] == accounts[start];
    if accounts[start].accountId.Some? && accounts[start].accountId.value != id {
      ScanIgnoresLaterAccounts(accounts, later, id, start + 1);
    }
  }

  /** With no account matching, `setup` raises nothing and leaves the account
      key as it was. */
  lemma ResolveWithoutMatchKeepsAccountKey(client: ClientInfo, accounts: AccountList, before: Session)
    requires client.clientKey.Some? && client.defaultAccountId.Some? && accounts.data.Some?
    requires forall j :: 0 <= j < |accounts.data.value| ==> PassedOver(accounts.data.value[j], client.defaultAccountId.value)
    ensures Resolve(client, accounts, before) == (Completed, Session(client.clientKey, before.accountKey))
  {
    ScanSkipsPassedOver(accounts.data.value, client.defaultAccountId.value, 0, |accounts.data.value|);
  }

  // ---------------------------------------------------------------------------
  // Position lookup and the sell decision

  /** `positions.get("Data", [])`. */
  function Entries(positions: PositionList): (r: seq<Position>)
    ensures positions.data.None? ==> r == []
    ensures positions.data.Some? ==> r == positions.data.value
  {
    positions.data.GetOr([])
  }

  /** `pos.get("PositionBase", {})`: an absent base reads as one without keys. */
  function BaseOf(p: Position): (r: PositionBase)
    ensures p.base.None? ==> r.uic.Absent? && r.amount.None? && r.openPrice.None?
    ensures p.base.Some? ==> r == p.base.value
  {
    p.base.GetOr(PositionBase(Absent, None, None))
  }

  /** `str(base.get("Uic"))`. */
  function UicText(u: UicValue): (r: string)
    ensures u.IntUic? ==> ParseInt(r) == Some(u.n)
    ensures u.Absent? ==> r == "None" && ParseInt(r) == None
    ensures u.TextUic? ==> r == u.s
  {
    match u
    case Absent => "None"
    case IntUic(n) => ParseIntToString(n); IntToString(n)
    case TextUic(s) => s
  }

  /** The comparison of the position search: the two uics as strings. */
  predicate SameUic(p: Position, uic: int)
  {
    UicText(BaseOf(p).uic) == IntToString(uic)
  }

  /** The string comparison matches a numeric `Uic` exactly when it is the
      requested one, a text `Uic` exactly when it is its decimal rendering, and
      never an absent one. */
  lemma SameUicMeaning(p: Position, uic: int)
    ensures BaseOf(p).uic.IntUic? ==> (SameUic(p, uic) <==> BaseOf(p).uic.n == uic)
    ensures BaseOf(p).uic.TextUic? ==> (SameUic(p, uic) <==> BaseOf(p).uic.s == IntToString(uic))
                                       && (SameUic(p, uic) ==> ParseInt(BaseOf(p).uic.s) == Some(uic))
    ensures BaseOf(p).uic.Absent? ==> !SameUic(p, uic)
  {
    if BaseOf(p).uic.IntUic? {
      IntToStringInjective(BaseOf(p).uic.n, uic);
    }
    ParseIntToString(uic);
    if BaseOf(p).uic.Absent? {
      assert "None"[0] == 'N';
      assert IntToString(uic)[0] == '-' || IsDigit(IntToString(uic)[0]);
    }
  }

  /** The position search from `start` on: the index of the first entry with
      the requested uic, or `None` if there is none. */
  function FindFrom(entries: seq<Position>, uic: int, start: nat): (r: Option<nat>)
    requires start <= |entries|
    ensures r.Some? ==> start <= r.value < |entries| && SameUic(entries[r.value], uic)
                        && forall j :: start <= j < r.value ==> !SameUic(entries[j], uic)
    ensures r.None? ==> forall j :: start <= j < |entries| ==> !SameUic(entries[j], uic)
    decreases |entries| - start
  {
    if start == |entries| then None
    else if SameUic(entries[start], uic) then Some(start)
    else FindFrom(entries, uic, start + 1)
  }

  /** What the bot reads from the matched position before asking the user. */
  datatype Holding = Holding(profitLoss: real, amount: int, symbol: string, openPrice: real)

  /** Python's `int()` of a float: truncation toward zero. */
  function TruncateToInt(x: real): (r: int)
    ensures 0.0 <= x ==> r as real <= x < r as real + 1.0
    ensures x < 0.0 ==> r as real - 1.0 < x <= r as real
  {
    if x >= 0.0 then x.Floor else -((-x).Floor)
  }

  /** The keys the four reads after the match look up, in source order. */
  const HoldingKeys: seq<string> := ["PositionView", "ProfitLossOnTradeInBaseCurrency", "PositionBase",
                                     "Amount", "DisplayAndFormat", "Symbol", "OpenPrice"]

  /** Whether the `k`-th lookup of `HoldingKeys` finds its key in the position. */
  predicate Readable(p: Position, k: nat)
  {
    match k
    case 0 => p.view.Some?
    case 1 => p.view.Some? && p.view.value.profitLoss.Some?
    case 2 => p.base.Some?
    case 3 => p.base.Some? && p.base.value.amount.Some?
    case 4 => p.display.Some?
    case 5 => p.display.Some? && p.display.value.symbol.Some?
    case 6 => p.base.Some? && p.base.value.openPrice.Some?
    case _ => true
  }

  /** The four reads after the match, in source order; the first absent key
      raises a `KeyError` naming it. */
  function ReadHolding(p: Position): (r: Result<Holding, string>)
    ensures r.Ok? <==> forall k :: 0 <= k < |HoldingKeys| ==> Readable(p, k)
    ensures r.Ok? ==> Readable(p, 1) && Readable(p, 3) && Readable(p, 5) && Readable(p, 6)
    ensures r.Ok? ==> r.value.amount == TruncateToInt(p.base.value.amount.value)
                      && r.value.profitLoss == p.view.value.profitLoss.value
                      && r.value.symbol == p.display.value.symbol.value
                      && r.value.openPrice == p.base.value.openPrice.value
  {
    if p.view.None? then assert !Readable(p, 0); Err("PositionView")
    else if p.view.value.profitLoss.None? then assert !Readable(p, 1); Err("ProfitLossOnTradeInBaseCurrency")
    else if p.base.None? then assert !Readable(p, 2); Err("PositionBase")
    else if p.base.value.amount.None? then assert !Readable(p, 3); Err("Amount")
    else if p.display.None? then assert !Readable(p, 4); Err("DisplayAndFormat")
    else if p.display.value.symbol.None? then assert !Readable(p, 5); Err("Symbol")
    else if p.base.value.openPrice.None? then assert !Readable(p, 6); Err("OpenPrice")
    else Ok(Holding(p.view.value.profitLoss.value, TruncateToInt(p.base.value.amount.value),
                    p.display.value.symbol.value, p.base.value.openPrice.value))
  }

  /** The `KeyError` that surfaces names the first lookup, in source order,
      whose key is absent. */
  lemma ReadHoldingOrder(p: Position)
    requires ReadHolding(p).Err?
    ensures exists k :: 0 <= k < |HoldingKeys| && ReadHolding(p).error == HoldingKeys[k]
                        && !Readable(p, k) && forall j :: 0 <= j < k ==> Readable(p, j)
  {
    var k := if !Readable(p, 0) then 0 else if !Readable(p, 1) then 1
             else if !Readable(p, 2) then 2 else if !Readable(p, 3) then 3
             else if !Readable(p, 4) then 4 else if !Readable(p, 5) then 5 else 6;
    assert ReadHolding(p).error == HoldingKeys[k];
  }

  /** The user's answer after `.strip().lower()` is exactly "y". */
  predicate IsYes(answer: string)
    ensures IsYes(answer) <==> Strip(answer) == "y" || Strip(answer) == "Y"
  {
    LowerIsY(Strip(answer));
    Lower(Strip(answer)) == "y"
  }

  /** A yes is one `y` or `Y` with only whitespace around it. */
  lemma YesIsOneLetter(answer: string)
    requires IsYes(answer)
    ensures exists i :: 0 <= i < |answer| && (answer[i] == 'y' || answer[i] == 'Y')
                        && AllSpace(answer[..i]) && AllSpace(answer[i + 1..])
  {
    var l := StripLeft(answer);
    var t := StripRight(l);
    var k := |answer| - |l|;
    assert |Lower(t)| == |t| == 1;
    assert Lower(t)[0] == LowerChar(t[0]) == 'y';
    assert answer[k] == l[0] == t[0];
    assert answer[k + 1..] == l[1..];
    assert (answer[k] == 'y' || answer[k] == 'Y') && AllSpace(answer[..k]) && AllSpace(answer[k + 1..]);
  }

  /** One `y` or `Y` with only whitespace around it is a yes. */
  lemma OneLetterIsYes(answer: string, i: nat)
    requires i < |answer| && (answer[i] == 'y' || answer[i] == 'Y')
    requires AllSpace(answer[..i]) && AllSpace(answer[i + 1..])
    ensures IsYes(answer)
  {
    assert Strip(answer) == [answer[i]] by {
      StripLeftAt(answer, i);
      var l := answer[i..];
      assert l[1..] == answer[i + 1..];
      StripRightOne(l);
      assert Strip(answer) == StripFrom(answer, i) == StripRight(l);
      assert l[..1] == [answer[i]];
    }
  }

  /** An answer is a yes exactly when it is one `y` or `Y` with only
      whitespace around it. */
  lemma IsYesMeaning(answer: string)
    ensures IsYes(answer) <==>
      exists i :: 0 <= i < |answer| && (answer[i] == 'y' || answer[i] == 'Y')
                  && AllSpace(answer[..i]) && AllSpace(answer[i + 1..])
  {
    if IsYes(answer) {
      YesIsOneLetter(answer);
    } else if exists i :: 0 <= i < |answer| && (answer[i] == 'y' || answer[i] == 'Y')
                          && AllSpace(answer[..i]) && AllSpace(answer[i + 1..]) {
      var i :| 0 <= i < |answer| && (answer[i] == 'y' || answer[i] == 'Y')
               && AllSpace(answer[..i]) && AllSpace(answer[i + 1..]);
      OneLetterIsYes(answer, i);
    }
  }

  /** How `manage_position` ends. */
  datatype Decision =
    | NoPosition              // no entry has the uic: it prints and returns
    | Raised(key: string)     // a key read after the match is absent
    | Hold                    // any answer but "y"
    | Sold(amount: int)       // "y": one market sell for `amount`

  /** The trading bot: its request headers and the two keys `setup` resolves. */
  class TradingBot {
    const headers: map<string, string>
    var clientKey: Option<string>
    var accountKey: Option<string>

    /** A fresh bot carries the bearer token and has resolved nothing yet. */
    constructor (accessToken: string)
      ensures headers == map["Authorization" := "Bearer " + accessToken, "Content-Type" := "application/json"]
      ensures clientKey == None && accountKey == None
    {
      headers := map["Authorization" := "Bearer " + accessToken, "Content-Type" := "application/json"];
      clientKey := None;
      accountKey := None;
    }

    /** `setup`, given the client profile and the account list the broker
        returned (the user profile it also fetches is not used). */
    method Setup(client: ClientInfo, accounts: AccountList) returns (outcome: SetupOutcome)
      modifies this
      ensures (outcome, Session(clientKey, accountKey))
           == Resolve(client, accounts, Session(old(clientKey), old(accountKey)))
    {
      if client.clientKey.None? {
        return KeyError("ClientKey");
      }
      clientKey := client.clientKey;
      if client.defaultAccountId.None? {
        return KeyError("DefaultAccountId");
      }
      var defaultId := client.defaultAccountId.value;
      if accounts.data.None? {
        return KeyError("Data");
      }
      var list := accounts.data.value;
      outcome := Completed;
      var i := 0;
      while i < |list|
        invariant 0 <= i <= |list|
        invariant clientKey == client.clientKey && accountKey == old(accountKey)
        invariant ScanFrom(list, defaultId, i) == ScanFrom(list, defaultId, 0)
      {
        var account := list[i];
        if account.accountId.None? {
          return KeyError("AccountId");
        }
        if account.accountId.value == defaultId {
          if account.accountKey.None? {
            return KeyError("AccountKey");
          }
          accountKey := account.accountKey;
          break;
        }
        i := i + 1;
      }
    }

    /** `manage_position(uic)`, given the positions response and the user's
        answer. It changes no field of the bot; it returns the orders it
        places, at most the one market sell. */
    method ManagePosition(uic: int, positions: PositionList, answer: string)
      returns (decision: Decision, orders: seq<Execution.Request>)
      ensures var entries := Entries(positions);
        match FindFrom(entries, uic, 0)
        case None => decision == NoPosition
        case Some(i) =>
          match ReadHolding(entries[i])
          case Err(key) => decision == Raised(key)
          case Ok(h) => decision == (if IsYes(answer) then Sold(h.amount) else Hold)
      ensures decision.Sold? ==> orders == [Execution.PlaceMarketOrder(accountKey, uic, decision.amount, "Sell")]
      ensures !decision.Sold? ==> orders == []
    {
      var entries := Entries(positions);
      var found: Option<Position> := None;
      var i := 0;
      while i < |entries|
        invariant 0 <= i <= |entries|
        invariant FindFrom(entries, uic, i) == FindFrom(entries, uic, 0)
        invariant found.None?
      {
        if SameUic(entries[i], uic) {
          found := Some(entries[i]);
          break;
        }
        i := i + 1;
      }
      if found.None? {
        return NoPosition, [];
      }
      var held := ReadHolding(found.value);
      if held.Err? {
        return Raised(held.error), [];
      }
      var amount := held.value.amount;
      if Lower(Strip(answer)) == "y" {
        decision := Sold(amount);
        orders := [Execution.PlaceMarketOrder(accountKey, uic, amount, "Sell")];
      } else {
        decision := Hold;
        orders := [];
      }
    }
  }

  /** What the sell order asks for: a market day order selling, for the
      matched uic and the stored account, the truncated `Amount` of the
      position found first. */
  lemma SellOrderTerms(entries: seq<Position>, uic: int, accountKey: Option<string>, i: nat)
    requires FindFrom(entries, uic, 0) == Some(i)
    requires ReadHolding(entries[i]).Ok?
    ensures var order := Execution.PlaceMarketOrder(accountKey, uic, ReadHolding(entries[i]).value.amount, "Sell");
      Execution.ReadOrder(order.body)
        == Some(Execution.Ticket(uic, "Sell", TruncateToInt(entries[i].base.value.amount.value),
                                 Execution.Market, "DayOrder", accountKey))
  {
  }
}
