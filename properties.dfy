/**
 * What the ledger guarantees, and the quirks it has, stated over the
 * functions of `Ledger`. Most lemmas hold for every store and every
 * response; the rest are worked examples on fixed stores.
 */
module LedgerProperties {

  import opened Wrappers
  import opened Currencies
  import opened Defaults
  import opened Ledger

  /** The values returned by `k` successive calls of `retrieveFreeTransferInstance` on `m`. */
  function FreeReads(m: Entries, k: nat): (values: seq<int>)
    ensures |values| == k
    decreases k
  {
    if k == 0 then [] else [FreeRead(m)] + FreeReads(AfterFreeRead(m), k - 1)
  }

  /** The store after `k` successive calls of `retrieveFreeTransferInstance` on `m`. */
  function AfterFreeReads(m: Entries, k: nat): Entries
    decreases k
  {
    if k == 0 then m else AfterFreeReads(AfterFreeRead(m), k - 1)
  }

  /** From a stored count N, the i-th read returns N - i and k reads leave N - k, however negative. */
  lemma {:induction false} StoredCounterReads(m: Entries, k: nat)
    requires StoredQuota(m).Some?
    ensures forall i :: 0 <= i < k ==> FreeReads(m, k)[i] == StoredQuota(m).value - i
    ensures StoredQuota(AfterFreeReads(m, k)) == Some(StoredQuota(m).value - k)
  {
    if k > 0 {
      StoredCounterReads(AfterFreeRead(m), k - 1);
    }
  }

  /**
   * From no counter, the reads return 5, 5, 4, 3, ...: the initialising read
   * stores 5 without using one up, and nothing stops the count below 0.
   */
  lemma {:induction false} FreshCounterReads(m: Entries, k: nat)
    requires StoredQuota(m).None? && k > 0
    ensures FreeReads(m, k)[0] == DefaultFreeInstance
    ensures forall i :: 1 <= i < k ==> FreeReads(m, k)[i] == DefaultFreeInstance + 1 - i
    ensures StoredQuota(AfterFreeReads(m, k)) == Some(DefaultFreeInstance + 1 - k)
  {
    StoredCounterReads(AfterFreeRead(m), k - 1);
  }

  /** Eight reads on a new user's store. */
  lemma FreshCounterEightReads(m: Entries)
    requires StoredQuota(m).None?
    ensures FreeReads(m, 8) == [5, 5, 4, 3, 2, 1, 0, -1]
  {
    FreshCounterReads(m, 8);
  }

  /**
   * The request is sent exactly when the guard passes; a rejection is
   * reported once, and the store differs only by the guard's counter read.
   */
  lemma GuardDecidesRequest(m: Entries, amount: real, from: Currency, to: Currency, response: Response)
    ensures var e := Convert(m, amount, from, to, response);
      e.request.None? <==> Balance(m, from) - TransactionCost(FreeRead(m), amount) < 0.0
    ensures var e := Convert(m, amount, from, to, response);
      e.request.Some? ==> e.request.value == Request(amount, from, to)
    ensures var e := Convert(m, amount, from, to, response);
      e.request.None? ==>
        && e.outcome == Reported(false, MustNotReachNegative(CurrencyText(from)))
        && e.after == AfterFreeRead(m)
        && (forall c :: Balance(e.after, c) == Balance(m, c))
  {
  }

  /** A failed request is reported as a transfer error; the guard's counter read is not undone. */
  lemma FailedRequest(m: Entries, amount: real, from: Currency, to: Currency)
    requires Guard(m, from, amount).None?
    ensures Convert(m, amount, from, to, RequestFailed)
         == Effect(Reported(false, ErrorTransferring), Some(Request(amount, from, to)), AfterFreeRead(m))
  {
  }

  /**
   * The completion is never called exactly when the guard passes and the
   * response is unrecognised, unparsed, in the source currency, or would
   * leave the source balance negative; then no balance changes.
   */
  lemma NoReportCases(m: Entries, amount: real, from: Currency, to: Currency, response: Response)
    ensures var e := Convert(m, amount, from, to, response);
      e.outcome == NoReport <==>
        && Guard(m, from, amount).None?
        && response.Responded?
        && (|| FromRawValue(response.currency).None?
            || response.amount.None?
            || FromRawValue(response.currency).value == from
            || Balance(m, from) - amount < 0.0)
    ensures var e := Convert(m, amount, from, to, response);
      e.outcome == NoReport ==> e.after == AfterFreeRead(m)
  {
  }

  /**
   * A settled conversion debits exactly `amount` from the source (the
   * commission named in the message is never debited) and credits the
   * converted amount to the resolved currency; the third balance is untouched.
   */
  lemma Settlement(m: Entries, amount: real, from: Currency, to: Currency, code: string, converted: real, resolved: Currency)
    requires Guard(m, from, amount).None?
    requires FromRawValue(code) == Some(resolved) && resolved != from
    requires Balance(m, from) - amount >= 0.0
    ensures var e := Convert(m, amount, from, to, Responded(code, Some(converted)));
      && e.outcome.Reported? && e.outcome.success
      && Balance(e.after, from) == Balance(m, from) - amount
      && Balance(e.after, resolved) == Balance(m, resolved) + converted
      && (forall c :: c != from && c != resolved ==> Balance(e.after, c) == Balance(m, c))
    ensures var e := Convert(m, amount, from, to, Responded(code, Some(converted)));
      e.outcome.message.ConvertedWithCommission? && amount != 0.0 ==>
        Balance(e.after, from) != Balance(m, from) - (amount + e.outcome.message.commission)
  {
  }

  /** Non-negative balances stay non-negative when the service never converts to a negative amount. */
  lemma ConversionKeepsBalancesNonNegative(m: Entries, amount: real, from: Currency, to: Currency, response: Response)
    requires AllNonNegative(m)
    requires response.Responded? && response.amount.Some? ==> response.amount.value >= 0.0
    ensures AllNonNegative(Convert(m, amount, from, to, response).after)
  {
  }

  /** A saved settlement's completion reads the counter as it stood before the settlement. */
  lemma SettledCompletion(m: Entries, amount: real, from: Currency, code: string, converted: real, to: Currency)
    requires FromRawValue(code) == Some(to)
    requires Settle(m, from, Balance(m, from) - amount, to, converted + Balance(m, to)).Some?
    ensures var settled := Settle(m, from, Balance(m, from) - amount, to, converted + Balance(m, to)).value;
      HandleResponse(m, amount, from, Responded(code, Some(converted)))
        == (Reported(true, if FreeRead(m) > 0 then Converted(amount, from, converted, to)
                           else ConvertedWithCommission(amount, from, converted, to, Conversion(amount))),
            AfterFreeRead(settled))
    ensures var settled := Settle(m, from, Balance(m, from) - amount, to, converted + Balance(m, to)).value;
      StoredQuota(AfterFreeRead(settled)) == StoredQuota(AfterFreeRead(m))
  {
    var settled := Settle(m, from, Balance(m, from) - amount, to, converted + Balance(m, to)).value;
    assert StoredQuota(settled) == StoredQuota(m);
  }

  /**
   * The response handler reads the counter only in the completion of a saved
   * settlement; that read alone decides whether the message names a commission.
   */
  lemma ResponseQuotaRead(m: Entries, amount: real, from: Currency, response: Response)
    ensures var (outcome, after) := HandleResponse(m, amount, from, response);
      outcome.Reported? && outcome.success ==>
        && StoredQuota(after) == StoredQuota(AfterFreeRead(m))
        && (outcome.message.ConvertedWithCommission? <==> FreeRead(m) <= 0)
        && (outcome.message.ConvertedWithCommission? ==> outcome.message.commission == Conversion(amount))
    ensures var (outcome, after) := HandleResponse(m, amount, from, response);
      !(outcome.Reported? && outcome.success) ==> after == m
  {
    if response.Responded? {
      var to := FromRawValue(response.currency);
      if to.Some? && response.amount.Some? {
        var converted := response.amount.value;
        if Settle(m, from, Balance(m, from) - amount, to.value, converted + Balance(m, to.value)).Some? {
          SettledCompletion(m, amount, from, response.currency, converted, to.value);
        }
      }
    }
  }

  /**
   * A reported success reads the counter twice, every other end reads it
   * once; the message carries the commission exactly when the second read
   * returns 0 or less, and the commission is 7% of the amount.
   */
  lemma QuotaConsumption(m: Entries, amount: real, from: Currency, to: Currency, response: Response)
    ensures var e := Convert(m, amount, from, to, response);
      e.outcome.Reported? && e.outcome.success ==>
        && StoredQuota(e.after) == StoredQuota(AfterFreeReads(m, 2))
        && (e.outcome.message.ConvertedWithCommission? <==> FreeReads(m, 2)[1] <= 0)
        && (e.outcome.message.ConvertedWithCommission? ==> e.outcome.message.commission == Conversion(amount))
    ensures var e := Convert(m, amount, from, to, response);
      !(e.outcome.Reported? && e.outcome.success) ==> StoredQuota(e.after) == StoredQuota(AfterFreeReads(m, 1))
  {
    var checked := AfterFreeRead(m);
    assert AfterFreeReads(m, 1) == checked by {
      assert AfterFreeReads(m, 1) == AfterFreeReads(checked, 0);
    }
    assert AfterFreeReads(m, 2) == AfterFreeRead(checked) by {
      assert AfterFreeReads(m, 2) == AfterFreeReads(checked, 1) == AfterFreeReads(AfterFreeRead(checked), 0);
    }
    assert FreeReads(m, 2)[1] == FreeRead(checked) by {
      assert FreeReads(m, 2) == [FreeRead(m)] + FreeReads(checked, 1);
      assert FreeReads(checked, 1) == [FreeRead(checked)] + FreeReads(AfterFreeRead(checked), 0);
    }
    if Guard(m, from, amount).None? {
      ResponseQuotaRead(checked, amount, from, response);
    }
  }

  /**
   * With one free transfer left the guard charges nothing, yet the message of
   * the same successful conversion reports a commission.
   */
  lemma LastFreeTransferReportsCommission(m: Entries, amount: real, from: Currency, to: Currency, response: Response)
    requires StoredQuota(m) == Some(1)
    requires Convert(m, amount, from, to, response).outcome.Reported?
    requires Convert(m, amount, from, to, response).outcome.success
    ensures TransactionCost(FreeRead(m), amount) == 0.0
    ensures Convert(m, amount, from, to, response).outcome.message.ConvertedWithCommission?
  {
  }

  /** A new user converts 100 EUR to USD, the service answering 110 USD. */
  lemma NewUserConversion()
    ensures var e := Convert(map[], 100.0, EUR, USD, Responded("USD", Some(110.0)));
      && e.outcome == Reported(true, Converted(100.0, EUR, 110.0, USD))
      && Balance(e.after, EUR) == 900.0
      && Balance(e.after, USD) == 110.0
  {
  }

  /** With free transfers used up, the guard holds back 107 but only 100 is debited. */
  lemma ExhaustedQuotaConversion()
    ensures TransactionCost(0, 100.0) == 107.0
    ensures var e := Convert(map[UserId := IntValue(0)], 100.0, EUR, USD, Responded("USD", Some(110.0)));
      && e.outcome == Reported(true, ConvertedWithCommission(100.0, EUR, 110.0, USD, 7.0))
      && Balance(e.after, EUR) == 900.0
  {
  }

  /** 50 EUR with free transfers used up cannot cover 100 EUR plus commission. */
  lemma InsufficientFunds()
    ensures var m := map[UserId := IntValue(0), CurrentKey(EUR) := DoubleValue(50.0)];
      var e := Convert(m, 100.0, EUR, USD, Responded("USD", Some(110.0)));
      && e.outcome == Reported(false, MustNotReachNegative("Euro"))
      && e.request.None?
      && (forall c :: Balance(e.after, c) == Balance(m, c))
  {
  }
}
