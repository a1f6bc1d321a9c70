/**
 * The ledger's behaviour as functions of the store's contents: where balances
 * and the free-transfer counter live, what each read returns and leaves behind,
 * the pre-flight guard, the two-balance settlement, and one whole conversion.
 * The methods of `Manager.CurrencyManager` are proved equal to these.
 */
module Ledger {

  import opened Wrappers
  import opened Currencies
  import opened Defaults

  type Entries = map<string, Stored>

  /** The signed-in user; also the key of the free-transfer counter. */
  const UserId: string := "firstUserID"

  /** The number of free transfers a new user starts with. */
  const DefaultFreeInstance: int := 5

  /** `retrieveCurrentKey`: display name followed by the user id. */
  function CurrentKey(c: Currency): (key: string)
    ensures |key| == |CurrencyText(c)| + |UserId| && key[..|CurrencyText(c)|] == CurrencyText(c)
    ensures |key| > |UserId| && key[|key| - |UserId|..] == UserId
  {
    CurrencyText(c) + UserId
  }

  /** Balance keys never coincide with each other or with the counter's key. */
  lemma CurrentKeyDistinct(c: Currency, d: Currency)
    ensures CurrentKey(c) != UserId
    ensures CurrentKey(c) == CurrentKey(d) ==> c == d
  {
    if CurrentKey(c) == CurrentKey(d) {
      var n := |CurrencyText(c)|;
      assert |CurrencyText(d)| == n;
      assert CurrencyText(c) == CurrentKey(c)[..n] == CurrentKey(d)[..n] == CurrencyText(d);
      CurrencyTextInjective(c, d);
    }
  }

  /** The decimal persisted under the balance key of `c`, if any. */
  function StoredBalance(m: Entries, c: Currency): Option<real> {
    var key := CurrentKey(c);
    if key in m && m[key].DoubleValue? then Some(m[key].d) else None
  }

  /**
   * `retrieveCurrentBalance`: the persisted balance, else 1000 for EUR and 0
   * for USD and JPY. A function of the store, so it changes nothing.
   */
  function Balance(m: Entries, c: Currency): (b: real)
    ensures StoredBalance(m, c).Some? ==> b == StoredBalance(m, c).value
    ensures StoredBalance(m, c).None? ==> b == if c == EUR then 1000.0 else 0.0
  {
    match StoredBalance(m, c)
    case Some(balance) => balance
    case None =>
      match c
      case EUR => 1000.0
      case JPY | USD => 0.0
  }

  /** Every currency's balance, as `retrieveCurrentBalance` reports it, is non-negative. */
  ghost predicate AllNonNegative(m: Entries) {
    forall c :: Balance(m, c) >= 0.0
  }

  /** The integer persisted under the counter's key, if any. */
  function StoredQuota(m: Entries): Option<int> {
    if UserId in m && m[UserId].IntValue? then Some(m[UserId].i) else None
  }

  /** The value `retrieveFreeTransferInstance` returns: the stored count, else the default 5. */
  function FreeRead(m: Entries): (n: int)
    ensures StoredQuota(m).Some? ==> n == StoredQuota(m).value
    ensures StoredQuota(m).None? ==> n == DefaultFreeInstance
  {
    StoredQuota(m).GetOr(DefaultFreeInstance)
  }

  /**
   * The store `retrieveFreeTransferInstance` leaves behind: a stored count N
   * becomes N - 1 (with no lower bound), a missing one becomes 5, and no other
   * key changes.
   */
  function AfterFreeRead(m: Entries): (m': Entries)
    ensures StoredQuota(m).Some? ==> StoredQuota(m') == Some(StoredQuota(m).value - 1)
    ensures StoredQuota(m).None? ==> StoredQuota(m') == Some(DefaultFreeInstance)
    ensures m'.Keys == m.Keys + {UserId}
    ensures forall k :: k in m && k != UserId ==> m'[k] == m[k]
    ensures forall c :: Balance(m', c) == Balance(m, c)
  {
    forall c ensures CurrentKey(c) != UserId {
      CurrentKeyDistinct(c, c);
    }
    match StoredQuota(m)
    case Some(n) => m[UserId := IntValue(n - 1)]
    case None => m[UserId := IntValue(DefaultFreeInstance)]
  }

  /**
   * The amount the guard requires to remain: nothing while free transfers
   * remain, else the amount plus its 7% commission.
   */
  function TransactionCost(freeInstance: int, amount: real): (cost: real)
    ensures freeInstance > 0 ==> cost == 0.0
    ensures freeInstance <= 0 ==> cost == amount + Conversion(amount) && cost * 100.0 == 107.0 * amount
  {
    if freeInstance > 0 then 0.0 else amount + Conversion(amount)
  }

  /** The messages the completion receives; their wording and rounding are not modelled. */
  datatype Message =
    | MustNotReachNegative(currencyText: string)
    | ErrorTransferring
    | Converted(amount: real, from: Currency, convertedAmount: real, to: Currency)
    | ConvertedWithCommission(amount: real, from: Currency, convertedAmount: real, to: Currency, commission: real)

  /** Whether and how the completion is called: once with a flag and a message, or never. */
  datatype Outcome = NoReport | Reported(success: bool, message: Message)

  /** The exchange-rate request that would be sent: amount, source code, target code. */
  datatype Request = Request(amount: real, from: Currency, to: Currency)

  /**
   * What the exchange-rate service answered: no usable JSON object, or the
   * `currency` and `amount` strings, the amount already parsed as a number
   * (none when it does not parse).
   */
  datatype Response = RequestFailed | Responded(currency: string, amount: Option<real>)

  /** One conversion's report, the request it sent (if any) and the store it leaves. */
  datatype Effect = Effect(outcome: Outcome, request: Option<Request>, after: Entries)

  /**
   * `checkIfBalanceIsPositive` on the store before its quota read: a rejection
   * naming the currency exactly when the balance minus the transaction cost is
   * negative.
   */
  function Guard(m: Entries, c: Currency, amount: real): (r: Option<Message>)
    ensures r.Some? <==> Balance(m, c) - TransactionCost(FreeRead(m), amount) < 0.0
    ensures r.Some? ==> r.value == MustNotReachNegative(CurrencyText(c))
  {
    var freeInstance := FreeRead(m);
    var checked := AfterFreeRead(m);
    if Balance(checked, c) - TransactionCost(freeInstance, amount) < 0.0 then
      Some(MustNotReachNegative(CurrencyText(c)))
    else
      None
  }

  /**
   * `saveUpdatedAccount`: refuses a same-currency update or a negative new
   * source balance; otherwise the two balances read back as the given values
   * and every other key is untouched.
   */
  function Settle(m: Entries, from: Currency, fromValue: real, to: Currency, toValue: real): (r: Option<Entries>)
    ensures r.None? <==> from == to || fromValue < 0.0
    ensures r.Some? ==> r.value.Keys == m.Keys + {CurrentKey(from), CurrentKey(to)}
    ensures r.Some? ==> r.value[CurrentKey(from)] == DoubleValue(fromValue) && r.value[CurrentKey(to)] == DoubleValue(toValue)
    ensures r.Some? ==> Balance(r.value, from) == fromValue && Balance(r.value, to) == toValue
    ensures r.Some? ==> forall c :: c != from && c != to ==> Balance(r.value, c) == Balance(m, c)
    ensures r.Some? ==> forall k :: k in m && k != CurrentKey(from) && k != CurrentKey(to) ==> r.value[k] == m[k]
    ensures r.Some? ==> StoredQuota(r.value) == StoredQuota(m)
  {
    if from == to || fromValue < 0.0 then
      None
    else
      CurrentKeyDistinct(from, to);
      CurrentKeyDistinct(from, from);
      CurrentKeyDistinct(to, to);
      forall c ensures c != from ==> CurrentKey(c) != CurrentKey(from) {
        CurrentKeyDistinct(c, from);
      }
      forall c ensures c != to ==> CurrentKey(c) != CurrentKey(to) {
        CurrentKeyDistinct(c, to);
      }
      Some(m[CurrentKey(from) := DoubleValue(fromValue)][CurrentKey(to) := DoubleValue(toValue)])
  }

  /**
   * The response handler of `convertCurrency`: a failed request reports an
   * error; a recognised currency and a parsed amount go to settlement, whose
   * completion reads the free-transfer counter again to choose the message;
   * anything else, or a refused settlement, reports nothing.
   */
  function HandleResponse(m: Entries, amount: real, from: Currency, response: Response): (r: (Outcome, Entries))
    ensures response.RequestFailed? ==> r == (Reported(false, ErrorTransferring), m)
    ensures !(r.0.Reported? && r.0.success) ==> r.1 == m
    ensures r.0.Reported? && r.0.success ==> Balance(r.1, from) == Balance(m, from) - amount
  {
    match response
    case RequestFailed => (Reported(false, ErrorTransferring), m)
    case Responded(code, parsed) =>
      var to := FromRawValue(code);
      if to.None? || parsed.None? then
        (NoReport, m)
      else
        var converted := parsed.value;
        match Settle(m, from, Balance(m, from) - amount, to.value, converted + Balance(m, to.value))
        case None => (NoReport, m)
        case Some(settled) =>
          var message :=
            if FreeRead(settled) > 0 then Converted(amount, from, converted, to.value)
            else ConvertedWithCommission(amount, from, converted, to.value, Conversion(amount));
          (Reported(true, message), AfterFreeRead(settled))
  }

  /**
   * `convertCurrency`: the guard first; on rejection report it and send no
   * request, otherwise send the request and handle `response`.
   */
  function Convert(m: Entries, amount: real, from: Currency, to: Currency, response: Response): (e: Effect)
    ensures e.request.None? <==> Guard(m, from, amount).Some?
    ensures e.request.Some? ==> e.request.value == Request(amount, from, to)
    ensures e.request.None? ==> e.outcome == Reported(false, Guard(m, from, amount).value) && e.after == AfterFreeRead(m)
  {
    var checked := AfterFreeRead(m);
    match Guard(m, from, amount)
    case Some(rejection) => Effect(Reported(false, rejection), None, checked)
    case None =>
      var (outcome, after) := HandleResponse(checked, amount, from, response);
      Effect(outcome, Some(Request(amount, from, to)), after)
  }
}
