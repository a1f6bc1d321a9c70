/**
 * The process-wide key-value store (`UserDefaults.standard`) as far as the
 * ledger uses it: string keys mapped to integer or decimal values.
 */
module Defaults {

  import opened Wrappers

  /** A persisted value; `as? Int` and `as? Double` succeed only on the matching variant. */
  datatype Stored = IntValue(i: int) | DoubleValue(d: real)

  class UserDefaults {
    var entries: map<string, Stored>

    constructor (initial: map<string, Stored>)
      ensures entries == initial
    {
      entries := initial;
    }

    /** `value(forKey:)`: the stored value, or none. */
    function Value(key: string): Option<Stored>
      reads this
    {
      if key in entries then Some(entries[key]) else None
    }

    /** `set(_:forKey:)`: overwrites one key and leaves every other key as it was. */
    method Set(key: string, value: Stored)
      modifies this
      ensures entries == old(entries)[key := value]
    {
      entries := entries[key := value];
    }
  }
}
