/**
 * The PHP values that flow through an audited mutation: the scalars an
 * Eloquent attribute array holds and nested arrays of them.  A PHP array is
 * modelled as a map from its keys (strings or integers) to values; the order
 * of its entries is not modelled.
 */
module Values {

  datatype Option<+T> = None | Some(value: T)

  /** A PHP array key: a string or an integer. */
  datatype Key = SKey(name: string) | IKey(index: int)

  /** A JSON-compatible PHP value. */
  datatype Value =
    | Null
    | Str(s: string)
    | Int(i: int)
    | Bool(b: bool)
    | Arr(entries: map<Key, Value>)

  /**
   * A top-level attribute array (`getOriginal()`, `getAttributes()`, the
   * stored `before` / `after`): column name to value.
   */
  type Row = map<string, Value>

  /**
   * `Arr::get($row, $key)` and `getOriginal($key)`: the value under `key`,
   * or null when the key is absent.
   */
  function Lookup(row: Row, key: string): Value
  {
    if key in row then row[key] else Null
  }

  /** The value reached from `v` by following the keys of `path`, if any. */
  function Get(v: Value, path: seq<Key>): Option<Value>
    decreases |path|
  {
    if path == [] then Some(v)
    else if v.Arr? && path[0] in v.entries then Get(v.entries[path[0]], path[1..])
    else None
  }

  /**
   * The value reached in a top-level row by following `path`, whose first
   * key names a column.
   */
  function GetRow(row: Row, path: seq<Key>): Option<Value>
  {
    if |path| > 0 && path[0].SKey? && path[0].name in row then Get(row[path[0].name], path[1..])
    else None
  }
}
