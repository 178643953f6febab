/** The parsed example document as the schema builder sees it: the node type
    of every value, the keys of every table in document order, and the
    elements of every array. Scalar values themselves are never looked at,
    so they are not represented. */
module Toml {

  datatype Value =
    | Integer
    | Float
    | Boolean
    | String
    | Array(items: seq<Value>)
    | Table(entries: seq<Entry>)
    /** Any other node type (dates, times, date-times). */
    | Other

  /** One key/value pair of a table, in the order the parser exposes it. */
  datatype Entry = Entry(key: string, value: Value)

  /** The node type tag, as `node.type()` reports it. */
  datatype Tag = TInteger | TFloat | TBoolean | TString | TArray | TTable | TOther

  function TagOf(v: Value): Tag
  {
    match v
    case Integer => TInteger
    case Float => TFloat
    case Boolean => TBoolean
    case String => TString
    case Array(_) => TArray
    case Table(_) => TTable
    case Other => TOther
  }
}
