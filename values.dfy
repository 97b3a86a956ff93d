/**
 * Helm configuration values: the `map[string]interface{}` trees that charts
 * declare as defaults, that callers pass to Install and that releases store.
 * Values are a structural datatype, so Go's `reflect.DeepEqual` on two such
 * trees is Dafny's `==`.
 */
module Values {

  /** One node of a values tree, as decoded from YAML or JSON. */
  datatype Value =
    | Null
    | Bool(b: bool)
    | Int(i: int)
    | Str(s: string)
    | List(items: seq<Value>)
    | Object(fields: map<string, Value>)

  /** A top-level values mapping. */
  type Config = map<string, Value>

  /**
   * A Go map is a reference: the driver writes into the caller's `values`
   * map and the caller sees the writes. This object plays that map.
   */
  class ValueMap {
    var entries: Config

    constructor (initial: Config)
      ensures entries == initial
    {
      entries := initial;
    }

    /** `m[key] = v`. */
    method Set(key: string, v: Value)
      modifies this
      ensures entries == old(entries)[key := v]
    {
      entries := entries[key := v];
    }
  }
}
