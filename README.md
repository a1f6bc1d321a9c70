# CurrencyManager ledger, modelled in Dafny

This project models the ledger at the heart of the CurrencyConvert app
(`CurrencyManager`). It keeps balances in EUR, USD and JPY and a counter of
free transfers. Both live in a process-wide key-value store
(`UserDefaults.standard`). A conversion runs a pre-flight balance guard, asks
an exchange-rate service, settles two balances, and reports through a
completion.

Layout:

- `wrappers.dfy` (module `Wrappers`): `Option`, standing in for Swift's `T?`.
- `currencies.dfy` (module `Currencies`): the `Currency` enum, its raw values and
  `Currency(rawValue:)`, the display names, the list of available currencies,
  and the 7% commission `Double.conversion`.
- `defaults.dfy` (module `Defaults`): the key-value store as a class that holds
  a `map<string, Stored>`. `Stored` is an integer or a decimal value.
- `ledger.dfy` (module `Ledger`): the behaviour as functions of the store's
  contents.
  - Where keys live: `CurrentKey`, and the counter under the user id.
  - What a balance read returns: `Balance`.
  - What a counter read returns and leaves behind: `FreeRead`, `AfterFreeRead`.
  - The guard: `TransactionCost`, `Guard`.
  - The two-balance update: `Settle`.
  - The response handler: `HandleResponse`.
  - A whole conversion: `Convert`. Its result is an `Effect`, which holds the
    completion `Outcome`, the `Request` sent (if any) and the resulting store.
- `manager.dfy` (module `Manager`): class `CurrencyManager`. Each state-changing
  Swift method is a Dafny method that reads and writes the store step by
  step. The read-only lookups (`retrieveCurrentBalance`,
  `retrieveAvailableCurrencies`, `retrieveCurrentKey`, `retrievCurrencyText`)
  are the functions `Ledger.Balance`, `Currencies.AvailableCurrencies`,
  `Ledger.CurrentKey` and `Currencies.CurrencyText`. Each method is proved
  to return, and to leave the store in, exactly what the matching `Ledger`
  function says.
- `properties.dfy` (module `LedgerProperties`): lemmas about the ledger. Most
  hold for every store and every response; four (`FreshCounterEightReads`,
  `NewUserConversion`, `ExhaustedQuotaConversion`, `InsufficientFunds`) are
  worked examples. One group states what it guarantees. The other pins its
  quirks:
  - the guard reads the counter even when it rejects, and once a count is
    stored that read lowers it by one;
  - a successful conversion reads the counter a second time when its
    message is built;
  - the commission is reported but never debited.

Amounts are exact `real`s. What the exchange-rate service answered is an
input of type `Response`:

- `RequestFailed`: the request failed, the status was rejected by `validate()`,
  or the body was not a JSON object (lines 40-43).
- `Responded(currency, amount)`: the `currency` string and the `amount`,
  already parsed as a number. The amount is `None` when it does not parse.

The completion becomes the returned `Outcome`:

- `Reported(success, message)`: the completion was called once.
- `NoReport`: the completion was never called.

`Message` is a datatype. It has one constructor per message the source
builds, and it carries the values that message mentions.

Two consequences of the code that the lemmas pin down:

- The initialising read stores 5 without using one up (line 91), while
  every later read returns the stored N and stores N - 1 (line 88). So a
  new user's reads return 5, 5, 4, 3, 2, 1, 0, -1, …
  (`FreshCounterReads`, `FreshCounterEightReads`).
- The completion of a saved settlement reads the counter again (line 49)
  instead of reusing the guard's value (line 74). So a reported success
  performs two counter reads (for a new user both return 5, so the stored
  count ends at 4), and the commission text follows the second read
  (`QuotaConsumption`). With exactly one free transfer left, the guard
  charges no commission, yet the message reports one
  (`LastFreeTransferReportsCommission`).

## Model

| member | source | states |
|---|---|---|
| `Currencies.RawValue` | CurrencyConvert/CurrencyManager.swift:12-16 | each currency's raw value is a three-letter code (its round trip with `Currency(rawValue:)` is stated by `FromRawValue`) |
| `Currencies.FromRawValue` | CurrencyConvert/CurrencyManager.swift:12-16 | `Currency(rawValue:)` yields currency c exactly when the string is c's code, in both directions; every other string fails |
| `Currencies.AvailableCurrencies` | CurrencyConvert/CurrencyManager.swift:109-111 | the list holds each of EUR, USD and JPY exactly once, with EUR first |
| `Currencies.CurrencyText` | CurrencyConvert/CurrencyManager.swift:117-126 | every display name is non-empty |
| `Currencies.CurrencyTextInjective` | CurrencyConvert/CurrencyManager.swift:117-126 | no two currencies share a display name |
| `Currencies.Conversion` | CurrencyConvert/CurrencyManager.swift:132-134 | the commission is 7% of the amount; for a non-negative amount it lies between 0 and the amount |
| `Ledger.CurrentKey` | CurrencyConvert/CurrencyManager.swift:113-115 | a balance key is the display name followed by the user id: it starts with the display name, is longer than the counter's key and ends with it |
| `Ledger.CurrentKeyDistinct` | CurrencyConvert/CurrencyManager.swift:26 | no balance key equals the counter's key (the user id), and different currencies have different keys |
| `Ledger.Balance` | CurrencyConvert/CurrencyManager.swift:96-107 | the stored decimal when one is present; otherwise 1000 for EUR and 0 for USD and JPY (a function of the store, so nothing is written) |
| `Ledger.FreeRead` | CurrencyConvert/CurrencyManager.swift:86-93 | a counter read returns the stored count, or 5 when none is stored |
| `Ledger.AfterFreeRead` | CurrencyConvert/CurrencyManager.swift:86-93 | after a read, a stored N becomes N - 1 with no lower bound, and a missing counter becomes 5; no other key and no balance changes |
| `Ledger.TransactionCost` | CurrencyConvert/CurrencyManager.swift:75 | the guard requires 0 to remain while the read count is positive; otherwise the amount plus its commission, i.e. 107% of the amount |
| `Ledger.Guard` | CurrencyConvert/CurrencyManager.swift:72-83 | the guard rejects, naming the currency's display name, exactly when the balance before the call minus the transaction cost is negative |
| `Ledger.Settle` | CurrencyConvert/CurrencyManager.swift:61-69 | refuses exactly when the currencies are equal or the new source value is negative; otherwise the two balance keys hold the given values as decimals, both balances read back as the given values, the third balance, the counter and every other key are unchanged, and the only new keys are the two balance keys |
| `Ledger.HandleResponse` | CurrencyConvert/CurrencyManager.swift:40-57 | a failed request reports the transfer error and changes nothing; every end other than a reported success leaves the store unchanged; a reported success debits exactly the amount from the source. The further properties are the lemmas `LedgerProperties.FailedRequest`, `LedgerProperties.NoReportCases`, `LedgerProperties.Settlement` and `LedgerProperties.ResponseQuotaRead` |
| `Ledger.Convert` | CurrencyConvert/CurrencyManager.swift:31-58 | the request is sent, with the requested amount and currencies, exactly when the guard passes; otherwise the guard's rejection is reported and the store differs only by the guard's counter read. The further properties are the lemmas `LedgerProperties.GuardDecidesRequest`, `LedgerProperties.NoReportCases`, `LedgerProperties.Settlement`, `LedgerProperties.ConversionKeepsBalancesNonNegative` and `LedgerProperties.QuotaConsumption` |
| `Manager.CurrencyManager.RetrieveFreeTransferInstance` | CurrencyConvert/CurrencyManager.swift:86-93 | returns `FreeRead` of the old store and leaves `AfterFreeRead` of it |
| `Manager.CurrencyManager.CheckIfBalanceIsPositive` | CurrencyConvert/CurrencyManager.swift:72-83 | returns the `Guard` decision on the old store; the store afterwards differs only by one counter read |
| `Manager.CurrencyManager.SaveUpdatedAccount` | CurrencyConvert/CurrencyManager.swift:61-69 | saves (and so runs the completion) exactly when `Settle` accepts, and the new store is `Settle`'s; otherwise the store is unchanged |
| `Manager.CurrencyManager.ReceiveResponse` | CurrencyConvert/CurrencyManager.swift:40-57 | outcome and new store are those of `HandleResponse` on the old store |
| `Manager.CurrencyManager.ConvertCurrency` | CurrencyConvert/CurrencyManager.swift:31-58 | outcome, request sent and new store are those of `Convert` on the old store |
| `LedgerProperties.StoredCounterReads` | CurrencyConvert/CurrencyManager.swift:86-93 | from a stored count N, the i-th of k successive reads returns N - i, and the counter ends at N - k, however negative |
| `LedgerProperties.FreshCounterReads` | CurrencyConvert/CurrencyManager.swift:86-93 | with no counter stored, successive reads return 5, then 6 - i at read i ≥ 1, and k reads leave 6 - k |
| `LedgerProperties.FreshCounterEightReads` | CurrencyConvert/CurrencyManager.swift:86-93 | eight reads on a new user's store return 5, 5, 4, 3, 2, 1, 0, -1 |
| `LedgerProperties.GuardDecidesRequest` | CurrencyConvert/CurrencyManager.swift:31-35 | the lookup is requested exactly when the balance minus the transaction cost is not negative; on rejection the failure is reported once, the store differs only by the guard's counter read, and no balance changes |
| `LedgerProperties.FailedRequest` | CurrencyConvert/CurrencyManager.swift:40-44 | once the guard passes, a failed request is reported as a transfer error, and the guard's counter read is not undone |
| `LedgerProperties.NoReportCases` | CurrencyConvert/CurrencyManager.swift:46-48 | the completion is never called exactly when the guard passes and the response has an unknown currency, an unparsed amount, the source currency, or would leave the source negative; then the store differs only by the guard's counter read |
| `LedgerProperties.Settlement` | CurrencyConvert/CurrencyManager.swift:45-53 | a settled conversion reports success, debits exactly the amount from the source, and credits the converted amount to the resolved currency; the third balance is unchanged; when a commission is reported on a non-zero amount, it was not debited |
| `LedgerProperties.ConversionKeepsBalancesNonNegative` | CurrencyConvert/CurrencyManager.swift:62 | when every balance is non-negative and the service never answers a negative amount, every balance is still non-negative after a conversion |
| `LedgerProperties.SettledCompletion` | CurrencyConvert/CurrencyManager.swift:48-54 | after a saved settlement the completion reports success, with the commission message exactly when the counter, which settlement leaves untouched, reads 0 or less; the counter then ends as one read from the pre-settlement store would leave it |
| `LedgerProperties.ResponseQuotaRead` | CurrencyConvert/CurrencyManager.swift:48-55 | the response handler reads the counter only after a saved settlement; that read alone decides whether the message names a commission, and any other end leaves the store unchanged |
| `LedgerProperties.QuotaConsumption` | CurrencyConvert/CurrencyManager.swift:49-54 | a reported success leaves the counter as two reads would, and every other end as one read would; the commission text appears exactly when the second read returns 0 or less, and names 7% of the amount |
| `LedgerProperties.LastFreeTransferReportsCommission` | CurrencyConvert/CurrencyManager.swift:74-75 | with a stored count of 1, the guard charges no commission, yet a successful conversion's message reports one |
| `LedgerProperties.NewUserConversion` | CurrencyConvert/CurrencyManager.swift:45-50 | a new user converting 100 EUR, answered with 110 USD, ends with 900 EUR and 110 USD, and the message names no commission |
| `LedgerProperties.ExhaustedQuotaConversion` | CurrencyConvert/CurrencyManager.swift:52-53 | with the counter at 0, the guard holds back 107 for 100 EUR; the message names a 7 EUR commission, but only 100 is debited (900 EUR left) |
| `LedgerProperties.InsufficientFunds` | CurrencyConvert/CurrencyManager.swift:79-80 | 50 EUR with the counter at 0 is rejected for 100 EUR with the Euro message; no request is sent and no balance changes |

## Left out

- The HTTP request and its URL (`CurrencyManager.swift:36-44`) are not modelled. The service's answer is the `Response` input, and `Request` records that a request would be sent.
- A URL that fails to build (lines 36-38) and a failed request, a status rejected by `validate()` or a body that is not a JSON object (lines 40-43) get the same report. All are modelled as `RequestFailed`, so the model also records a request for the first case.
- The force-casts `as! String` at line 46 crash when a field is missing or is not a string. The crash is not modelled: `Response` already carries the two strings.
- `Double(String)` parsing of the amount is not modelled. The amount arrives already parsed, as an `Option<real>`.
- The asynchronous completion is not modelled as a callback. It is the returned `Outcome`.
- The delegate's `updateUserBalance` notification (line 67) is not modelled as an event. It happens exactly when `SaveUpdatedAccount` returns true.
- Message wording, `String` interpolation and `Double.rounded()` are presentation and are left out. `Message` keeps which message is sent and the values it names, unrounded.
- IEEE double arithmetic is left out: all amounts are exact reals. Rounding in `amount * 0.07` and at the guard's boundary comparison is not captured.
- NaN and ±∞ amounts are not modelled, although `Double(String)` in the view controller accepts "nan" and "inf". With a NaN amount the guard's comparison (line 79) is false, so the guard passes; the new source balance is NaN, `NaN < 0.0` (line 62) is false, and line 65 stores NaN.
- ConversionKeepsBalancesNonNegative: holds only for finite amounts, because a NaN amount makes the source store a NaN balance (lines 62-65), which is not non-negative.
- The free-transfer counter is an unbounded `int`. Swift's `Int` traps on overflow, so `freeInstance - 1` (line 88) crashes at `Int.min`; "no lower bound" in the lemmas means no bound short of that trap.
- Foundation's NSNumber bridging is not modelled. In the model, a value of the other numeric kind under a key reads as absent. The ledger itself only writes integers under the counter key and decimals under balance keys (`CurrentKeyDistinct` shows these keys never overlap).
- The user id (`"firstUserID"`) and the default allotment (5) are constants, as nothing in the code changes them.
- The local `subtractedAmount` is kept in `ReceiveResponse` as in the source: it is increased by the commission and then discarded.
- Overlapping conversions are not modelled. A second tap while a response is pending starts a second guard (lines 74-80) before the first response handler (lines 45-55) runs, and nothing in `ConverterViewController.swift:52-61` prevents it. `Convert` models one conversion whose response arrives before the next one starts, so interleaved counter and balance reads of two conversions are not captured.
- `ConverterViewController.swift` (UIKit screens, pickers, alerts, text-field parsing) and `BorderedButton.swift` (button styling) are not part of this model.
