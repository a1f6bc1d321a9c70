/**
 * `CurrencyManager`: the object that reads and writes the store step by step.
 * Each method is proved to return, and to leave the store in, exactly what
 * the matching function of `Ledger` says.
 */
module Manager {

  import opened Wrappers
  import opened Currencies
  import opened Defaults
  import opened Ledger

  class CurrencyManager {
    /** The shared store (`UserDefaults.standard`). */
    const defaults: UserDefaults

    constructor (defaults: UserDefaults)
      ensures this.defaults == defaults
    {
      this.defaults := defaults;
    }

    /** Returns the free-transfer count and stores it minus one (or stores and returns 5). */
    method RetrieveFreeTransferInstance() returns (freeInstance: int)
      modifies defaults
      ensures freeInstance == FreeRead(old(defaults.entries))
      ensures defaults.entries == AfterFreeRead(old(defaults.entries))
    {
      var stored := defaults.Value(UserId);
      if stored.Some? && stored.value.IntValue? {
        freeInstance := stored.value.i;
        defaults.Set(UserId, IntValue(freeInstance - 1));
        return;
      }
      defaults.Set(UserId, IntValue(DefaultFreeInstance));
      freeInstance := DefaultFreeInstance;
    }

    /**
     * Reads the counter once, then rejects when the balance minus the
     * transaction cost is negative; writes no balance.
     */
    method CheckIfBalanceIsPositive(currency: Currency, amount: real) returns (rejection: Option<Message>)
      modifies defaults
      ensures rejection == Guard(old(defaults.entries), currency, amount)
      ensures defaults.entries == AfterFreeRead(old(defaults.entries))
    {
      var freeInstance := RetrieveFreeTransferInstance();
      var transactionAmount := TransactionCost(freeInstance, amount);
      var currentCurrencyAmount := Balance(defaults.entries, currency);
      if currentCurrencyAmount - transactionAmount < 0.0 {
        return Some(MustNotReachNegative(CurrencyText(currency)));
      }
      return None;
    }

    /**
     * Overwrites the two balances unless the currencies coincide or the new
     * source balance is negative; `saved` is whether the balance observer is
     * notified and the completion runs.
     */
    method SaveUpdatedAccount(from: Currency, fromValue: real, to: Currency, toValue: real) returns (saved: bool)
      modifies defaults
      ensures saved <==> Settle(old(defaults.entries), from, fromValue, to, toValue).Some?
      ensures defaults.entries == Settle(old(defaults.entries), from, fromValue, to, toValue).GetOr(old(defaults.entries))
    {
      if from == to || fromValue < 0.0 {
        return false;
      }
      defaults.Set(CurrentKey(from), DoubleValue(fromValue));
      defaults.Set(CurrentKey(to), DoubleValue(toValue));
      saved := true;
    }

    /** The handler of the exchange-rate response, with the completion of a saved settlement. */
    method ReceiveResponse(amount: real, from: Currency, response: Response) returns (outcome: Outcome)
      modifies defaults
      ensures (outcome, defaults.entries) == HandleResponse(old(defaults.entries), amount, from, response)
    {
      if response.RequestFailed? {
        return Reported(false, ErrorTransferring);
      }
      var currentBalanceFromCurrency := Balance(defaults.entries, from);
      var currency := FromRawValue(response.currency);
      if currency.None? || response.amount.None? {
        return NoReport;
      }
      var convertedAmount := response.amount.value;
      var subtractedAmount := amount;
      var saved := SaveUpdatedAccount(from, currentBalanceFromCurrency - subtractedAmount,
                                      currency.value, convertedAmount + Balance(defaults.entries, currency.value));
      if !saved {
        return NoReport;
      }
      var freeInstance := RetrieveFreeTransferInstance();
      if freeInstance > 0 {
        outcome := Reported(true, Converted(amount, from, convertedAmount, currency.value));
      } else {
        subtractedAmount := subtractedAmount + Conversion(amount);
        outcome := Reported(true, ConvertedWithCommission(amount, from, convertedAmount, currency.value, Conversion(amount)));
      }
    }

    /**
     * `convertCurrency`: the guard, then (when it passes) the request and the
     * handling of `response`, the answer the service gives to that request.
     */
    method ConvertCurrency(amount: real, from: Currency, to: Currency, response: Response)
      returns (outcome: Outcome, request: Option<Request>)
      modifies defaults
      ensures Effect(outcome, request, defaults.entries) == Convert(old(defaults.entries), amount, from, to, response)
    {
      var currentBalanceState := CheckIfBalanceIsPositive(from, amount);
      if currentBalanceState.Some? {
        return Reported(false, currentBalanceState.value), None;
      }
      request := Some(Request(amount, from, to));
      outcome := ReceiveResponse(amount, from, response);
    }
  }
}
