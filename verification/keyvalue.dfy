/**
 * The key-value store (Redis) in which the bot keeps per-user prefixes and
 * languages and per-instance statistics, as a map from key to decoded value.
 */
module KeyValue {
  import opened Wrappers

  /** `get(key)`: the stored value, None when the key is missing */
  function Lookup(data: map<string, string>, key: string): Option<string> {
    if key in data then Some(data[key]) else None
  }

  /**
   * A stored value as Python's truth test sees it (`if not value:`): a missing
   * key and an empty value both count as nothing stored.
   */
  function Stored(data: map<string, string>, key: string): Option<string> {
    if key in data && data[key] != "" then Some(data[key]) else None
  }

  class Store {
    var data: map<string, string>

    constructor (initial: map<string, string>)
      ensures data == initial
    {
      data := initial;
    }

    /** `set(key, value)`: every other key keeps its value */
    method Set(key: string, value: string)
      modifies this
      ensures data == old(data)[key := value]
    {
      data := data[key := value];
    }
  }
}
