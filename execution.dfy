/** The request bodies and query built by bot/execution.py. Each function
    returns the request record that the source hands to `requests`; the HTTP
    call itself, the URL and the headers are outside the model.

    The inverse readers of the builders are `ReadOrder` and `ReadAmendment`, which read
    a body back as the broker-independent order ticket it describes, and
    `Lookup`, which reads one parameter of a query. */
module Execution {
  import opened Wrappers
  import opened PyStr

  /** A JSON value as `requests` serialises it from a Python dict. */
  datatype Json =
    | Null
    | Bool(b: bool)
    | Int(i: int)
    | Num(x: real)
    | Str(s: string)
    | Obj(fields: map<string, Json>)

  type Body = map<string, Json>

  /** A request as it leaves the model: a GET with its query parameters in
      order, or a POST/PATCH with its JSON body. */
  datatype Request =
    | Get(query: seq<(string, string)>)
    | Post(body: Body)
    | Patch(body: Body)

  /** An account key as the source passes it: a key string, or `None` before
      one is resolved (serialised as JSON `null`). */
  function KeyJson(accountKey: Option<string>): Json
  {
    match accountKey
    case Some(k) => Str(k)
    case None => Null
  }

  /** An account key interpolated into an f-string: `None` renders as "None". */
  function KeyText(accountKey: Option<string>): string
  {
    match accountKey
    case Some(k) => k
    case None => "None"
  }

  // ---------------------------------------------------------------------------
  // Reading a body back

  datatype OrderKind = Market | Limit(price: real)

  /** What an order body asks the broker for. */
  datatype Ticket = Ticket(
    uic: int,
    side: string,
    amount: int,
    kind: OrderKind,
    duration: string,
    accountKey: Option<string>)

  /** What a limit-to-market conversion body asks the broker for. */
  datatype Amendment = Amendment(
    orderId: string,
    orderType: string,
    duration: string,
    accountKey: Option<string>)

  function IntField(b: Body, k: string): Option<int>
  {
    if k in b && b[k].Int? then Some(b[k].i) else None
  }

  function TextField(b: Body, k: string): Option<string>
  {
    if k in b && b[k].Str? then Some(b[k].s) else None
  }

  /** An `AccountKey` field: a string or `null`. */
  function AccountField(b: Body): Option<Option<string>>
  {
    if "AccountKey" !in b then None
    else match b["AccountKey"]
      case Str(k) => Some(Some(k))
      case Null => Some(None)
      case _ => None
  }

  /** `OrderDuration.DurationType`. */
  function DurationField(b: Body): Option<string>
  {
    if "OrderDuration" in b && b["OrderDuration"].Obj? then
      TextField(b["OrderDuration"].fields, "DurationType")
    else None
  }

  /** `OrderType`, with `OrderPrice` when it is a limit order. */
  function KindField(b: Body): Option<OrderKind>
  {
    match TextField(b, "OrderType")
    case Some(t) =>
      if t == "Market" then Some(Market)
      else if t == "Limit" && "OrderPrice" in b && b["OrderPrice"].Num? then Some(Limit(b["OrderPrice"].x))
      else None
    case None => None
  }

  /** Every body the source sends is an FX spot request for the given account. */
  predicate ForAccount(b: Body, accountKey: Option<string>)
  {
    TextField(b, "AssetType") == Some("FxSpot") && AccountField(b) == Some(accountKey)
  }

  /** Reads a stand-alone manual FX spot order; `None` if the body is not one. */
  function ReadOrder(b: Body): Option<Ticket>
  {
    if TextField(b, "AssetType") == Some("FxSpot")
      && TextField(b, "OrderRelation") == Some("StandAlone")
      && "ManualOrder" in b && b["ManualOrder"] == Bool(true)
      && IntField(b, "Uic").Some? && TextField(b, "BuySell").Some?
      && IntField(b, "Amount").Some? && KindField(b).Some?
      && DurationField(b).Some? && AccountField(b).Some?
    then Some(Ticket(IntField(b, "Uic").value, TextField(b, "BuySell").value,
                     IntField(b, "Amount").value, KindField(b).value,
                     DurationField(b).value, AccountField(b).value))
    else None
  }

  /** Reads an order amendment; `None` if the body is not one. */
  function ReadAmendment(b: Body): Option<Amendment>
  {
    if TextField(b, "AssetType") == Some("FxSpot")
      && TextField(b, "OrderId").Some? && TextField(b, "OrderType").Some?
      && DurationField(b).Some? && AccountField(b).Some?
    then Some(Amendment(TextField(b, "OrderId").value, TextField(b, "OrderType").value,
                        DurationField(b).value, AccountField(b).value))
    else None
  }

  /** The value of the first query parameter with the given name. */
  function Lookup(query: seq<(string, string)>, name: string): Option<string>
  {
    if |query| == 0 then None
    else if query[0].0 == name then Some(query[0].1)
    else Lookup(query[1..], name)
  }

  // ---------------------------------------------------------------------------
  // The builders

  /** Each uic rendered with `str()`. */
  function Render(uics: seq<int>): (r: seq<string>)
    ensures |r| == |uics|
    ensures forall i :: 0 <= i < |r| ==> ',' !in r[i] && ParseInt(r[i]) == Some(uics[i])
  {
    forall i | 0 <= i < |uics| ensures ParseInt(IntToString(uics[i])) == Some(uics[i]) {
      ParseIntToString(uics[i]);
    }
    seq(|uics|, i requires 0 <= i < |uics| => IntToString(uics[i]))
  }

  /** `",".join(str(uic) for uic in uics)`. */
  function JoinUics(uics: seq<int>): (r: string)
    ensures |uics| == 0 ==> r == ""
    ensures |uics| > 0 ==> Split(r, ',') == Render(uics)
  {
    if |uics| > 0 then SplitJoin(Render(uics), ','); Join(Render(uics), ',')
    else Join(Render(uics), ',')
  }

  /** The `Uics` value splits back into the rendered uics, in input order, and
      each field reads back as its uic. */
  lemma UicsRoundTrip(uics: seq<int>)
    requires |uics| > 0
    ensures Split(JoinUics(uics), ',') == Render(uics)
    ensures forall i :: 0 <= i < |uics| ==> ParseInt(Split(JoinUics(uics), ',')[i]) == Some(uics[i])
  {
  }

  /** The quote query of `get_fx_prices`. */
  function GetFxPrices(accountKey: Option<string>, uics: seq<int>): (r: Request)
    ensures r.Get? && |r.query| == 5
    ensures Lookup(r.query, "AccountKey") == Some(KeyText(accountKey))
    ensures Lookup(r.query, "Uics") == Some(JoinUics(uics))
    ensures Lookup(r.query, "AssetType") == Some("FxSpot")
    ensures Lookup(r.query, "Amount") == Some("100000")
    ensures Lookup(r.query, "FieldGroups") == Some("DisplayAndFormat,Quote")
  {
    var q := [("AccountKey", KeyText(accountKey)), ("Uics", JoinUics(uics)), ("AssetType", "FxSpot"),
              ("Amount", "100000"), ("FieldGroups", "DisplayAndFormat,Quote")];
    assert Lookup(q[4..], "FieldGroups") == Some("DisplayAndFormat,Quote");
    assert Lookup(q[3..], "FieldGroups") == Lookup(q[4..], "FieldGroups");
    assert Lookup(q[2..], "FieldGroups") == Lookup(q[3..], "FieldGroups");
    assert Lookup(q[3..], "Amount") == Some("100000");
    assert Lookup(q[2..], "Amount") == Lookup(q[3..], "Amount");
    assert Lookup(q[1..], "Amount") == Lookup(q[2..], "Amount");
    assert Lookup(q[2..], "AssetType") == Some("FxSpot");
    assert Lookup(q[1..], "AssetType") == Lookup(q[2..], "AssetType");
    Get(q)
  }

  /** The fixed query fields do not depend on the inputs. */
  lemma FxPricesFixedFields(k1: Option<string>, u1: seq<int>, k2: Option<string>, u2: seq<int>)
    ensures var q1, q2 := GetFxPrices(k1, u1).query, GetFxPrices(k2, u2).query;
      && Lookup(q1, "AssetType") == Lookup(q2, "AssetType")
      && Lookup(q1, "Amount") == Lookup(q2, "Amount")
      && Lookup(q1, "FieldGroups") == Lookup(q2, "FieldGroups")
  {
  }

  /** The POST of `place_limit_order`: always a buy, good till cancelled. */
  function PlaceLimitOrder(accountKey: Option<string>, uic: int, price: real, amount: int := 100000): (r: Request)
    ensures r.Post? && ForAccount(r.body, accountKey)
    ensures ReadOrder(r.body) == Some(Ticket(uic, "Buy", amount, Limit(price), "GoodTillCancel", accountKey))
    ensures r.body.Keys == {"Uic", "BuySell", "AssetType", "Amount", "OrderPrice", "OrderType",
                            "OrderRelation", "ManualOrder", "OrderDuration", "AccountKey"}
    ensures r.body["OrderDuration"] == Obj(map["DurationType" := Str("GoodTillCancel")])
  {
    Post(map[
      "Uic" := Int(uic),
      "BuySell" := Str("Buy"),
      "AssetType" := Str("FxSpot"),
      "Amount" := Int(amount),
      "OrderPrice" := Num(price),
      "OrderType" := Str("Limit"),
      "OrderRelation" := Str("StandAlone"),
      "ManualOrder" := Bool(true),
      "OrderDuration" := Obj(map["DurationType" := Str("GoodTillCancel")]),
      "AccountKey" := KeyJson(accountKey)])
  }

  /** Without an amount, a limit order is for 100000 units. */
  lemma LimitOrderDefaultAmount(accountKey: Option<string>, uic: int, price: real)
    ensures ReadOrder(PlaceLimitOrder(accountKey, uic, price).body).value.amount == 100000
  {
  }

  /** The POST of `place_market_order`: a day order at market, on the given side. */
  function PlaceMarketOrder(accountKey: Option<string>, uic: int, amount: int, buySell: string := "Sell"): (r: Request)
    ensures r.Post? && ForAccount(r.body, accountKey)
    ensures ReadOrder(r.body) == Some(Ticket(uic, buySell, amount, Market, "DayOrder", accountKey))
    ensures r.body.Keys == {"Uic", "BuySell", "AssetType", "Amount", "OrderType",
                            "OrderRelation", "ManualOrder", "OrderDuration", "AccountKey"}
    ensures r.body["OrderDuration"] == Obj(map["DurationType" := Str("DayOrder")])
  {
    Post(map[
      "Uic" := Int(uic),
      "BuySell" := Str(buySell),
      "AssetType" := Str("FxSpot"),
      "Amount" := Int(amount),
      "OrderType" := Str("Market"),
      "OrderRelation" := Str("StandAlone"),
      "ManualOrder" := Bool(true),
      "OrderDuration" := Obj(map["DurationType" := Str("DayOrder")]),
      "AccountKey" := KeyJson(accountKey)])
  }

  /** Without a side, a market order sells. */
  lemma MarketOrderDefaultSide(accountKey: Option<string>, uic: int, amount: int)
    ensures ReadOrder(PlaceMarketOrder(accountKey, uic, amount).body).value.side == "Sell"
  {
  }

  /** The PATCH of `convert_to_market_order`: it names the order and the
      account but carries neither the uic (although it is a parameter) nor an
      amount, so it is not itself an order. */
  function ConvertToMarketOrder(accountKey: Option<string>, orderId: string, uic: int): (r: Request)
    ensures r.Patch? && ForAccount(r.body, accountKey)
    ensures ReadAmendment(r.body) == Some(Amendment(orderId, "Market", "DayOrder", accountKey))
    ensures "Uic" !in r.body && "Amount" !in r.body && "BuySell" !in r.body
    ensures r.body.Keys == {"OrderType", "OrderDuration", "AccountKey", "OrderId", "AssetType"}
    ensures r.body["OrderDuration"] == Obj(map["DurationType" := Str("DayOrder")])
    ensures ReadOrder(r.body) == None
  {
    Patch(map[
      "OrderType" := Str("Market"),
      "OrderDuration" := Obj(map["DurationType" := Str("DayOrder")]),
      "AccountKey" := KeyJson(accountKey),
      "OrderId" := Str(orderId),
      "AssetType" := Str("FxSpot")])
  }

  /** A conversion re-targets an order to exactly the terms a fresh market
      order gets: every field it sends, apart from `OrderId`, has the value a
      market order for the same account would have. */
  lemma ConversionAgreesWithMarketOrder(accountKey: Option<string>, orderId: string, uic: int, amount: int, side: string)
    ensures var conv, market := ConvertToMarketOrder(accountKey, orderId, uic).body, PlaceMarketOrder(accountKey, uic, amount, side).body;
      forall k :: k in conv && k != "OrderId" ==> k in market && conv[k] == market[k]
  {
  }

  /** A limit order and a market buy for the same account, uic and amount
      differ only in the order type, the duration and the limit price. */
  lemma LimitDiffersFromMarketBuyOnlyInTerms(accountKey: Option<string>, uic: int, price: real, amount: int)
    ensures var limit, market := PlaceLimitOrder(accountKey, uic, price, amount).body, PlaceMarketOrder(accountKey, uic, amount, "Buy").body;
      && market.Keys == limit.Keys - {"OrderPrice"}
      && forall k :: k in market && k !in {"OrderType", "OrderDuration"} ==> limit[k] == market[k]
  {
  }
}
