/** Property-list values, as returned by a lockdown `get_value` query. */
module PropertyList {
  import opened Wrappers

  datatype Value =
    | String(text: string)
    | Integer(number: int)
    | Boolean(flag: bool)
    | Data(bytes: seq<bv8>)
    | Array(items: seq<Value>)
    | Dictionary(entries: map<string, Value>)

  /** The string stored under `key` when `v` is a dictionary and that entry is a
      string: `v.as_dictionary().and_then(|x| x.get(key))` matched against `String`. */
  function StringAt(v: Value, key: string): Option<string>
  {
    if v.Dictionary? && key in v.entries && v.entries[key].String? then
      Some(v.entries[key].text)
    else
      None
  }
}
