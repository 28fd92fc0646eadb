/** JSON documents, with an object's fields held in ascending key order. */
module Json {
  import opened Sorting

  datatype Json = Null | Truth(truth: bool) | Num(number: int) | Str(text: string) | List(items: Items)
                | Obj(fields: Fields)

  datatype Items = NoItems | Item(head: Json, tail: Items)

  datatype Fields = NoFields | Field(key: string, value: Json, rest: Fields)

  predicate Before(a: string, b: string) {
    a != b && StringLe(a, b)
  }

  lemma BeforeTransitive(a: string, b: string, c: string)
    requires Before(a, b) && Before(b, c)
    ensures Before(a, c)
  {
    StringLeTransitive(a, b, c);
    StringLeTotal(a, b);
    StringLeTotal(b, c);
  }

  /** A dictionary: keys are distinct and ascend, at every depth. */
  predicate Ordered(v: Json) {
    match v
    case List(items) => OrderedItems(items)
    case Obj(fields) => OrderedFields(fields)
    case _ => true
  }

  predicate OrderedItems(items: Items) {
    match items
    case NoItems => true
    case Item(head, tail) => Ordered(head) && OrderedItems(tail)
  }

  predicate OrderedFields(fields: Fields) {
    match fields
    case NoFields => true
    case Field(key, value, rest) => Ordered(value) && OrderedFields(rest) && (rest.Field? ==> Before(key, rest.key))
  }

  /** The value under a key, or null when the key is missing. */
  function Get(fields: Fields, key: string): Json {
    match fields
    case NoFields => Null
    case Field(k, value, rest) => if k == key then value else Get(rest, key)
  }

  function Keys(fields: Fields): set<string> {
    match fields
    case NoFields => {}
    case Field(key, _, rest) => {key} + Keys(rest)
  }

  function Length(items: Items): nat {
    match items
    case NoItems => 0
    case Item(_, tail) => 1 + Length(tail)
  }

  function At(items: Items, i: nat): Json
    requires i < Length(items)
  {
    if i == 0 then items.head else At(items.tail, i - 1)
  }
}
