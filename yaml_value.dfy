/** The document tree (`serde_yaml::Value`). A mapping is an insertion-ordered
    list of entries; the parser never produces two entries with the same key,
    which `UniqueKeys` states. A tag is kept as the text `Tag::to_string`
    renders (with its leading `!`). */
module YamlValue {

  datatype Value =
    | Null
    | Bool(b: bool)
    | Number(n: int)
    | String(s: string)
    | Sequence(items: seq<Value>)
    | Mapping(entries: seq<Entry>)
    | Tagged(tag: string, inner: Value)

  datatype Entry = Entry(key: Value, value: Value)

  /** No key occurs twice in a mapping. */
  predicate UniqueKeys(es: seq<Entry>) {
    forall i, j :: 0 <= i < j < |es| ==> es[i].key != es[j].key
  }

  /** Every mapping in the tree has unique keys. */
  predicate WellFormed(v: Value) {
    match v
    case Sequence(items) => forall i :: 0 <= i < |items| ==> WellFormed(items[i])
    case Mapping(es) =>
      UniqueKeys(es) && forall i :: 0 <= i < |es| ==> WellFormed(es[i].value)
    case Tagged(_, inner) => WellFormed(inner)
    case _ => true
  }
}
