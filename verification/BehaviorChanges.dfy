/** Walking two semantic documents side by side and listing where they differ. */
module BehaviorChanges {
  import opened Prelude
  import opened Sorting
  import opened Json

  /** One step down: under a key of an object, or at a position of a list. */
  datatype Step = Key(key: string) | Index(index: nat)

  datatype Change = Change(path: seq<Step>, baseline: Json, candidate: Json)

  function Number(v: Json): Option<int> {
    match v
    case Truth(b) => Some(if b then 1 else 0)
    case Num(n) => Some(n)
    case _ => None
  }

  /** Equality of documents: truth values equal the numbers one and zero. */
  predicate Same(a: Json, b: Json) {
    match a
    case Null => b.Null?
    case Str(s) => b == a
    case List(items) => b.List? && SameItems(items, b.items)
    case Obj(fields) => b.Obj? && SameFields(fields, b.fields)
    case _ => Number(a) == Number(b)
  }

  predicate SameItems(a: Items, b: Items) {
    match a
    case NoItems => b.NoItems?
    case Item(head, tail) => b.Item? && Same(head, b.head) && SameItems(tail, b.tail)
  }

  predicate SameFields(a: Fields, b: Fields) {
    match a
    case NoFields => b.NoFields?
    case Field(key, value, rest) => b.Field? && key == b.key && Same(value, b.value) && SameFields(rest, b.rest)
  }

  /** The number of nodes, against which the walk terminates; null weighs nothing. */
  function Size(v: Json): nat {
    match v
    case Null => 0
    case List(items) => 1 + ItemsSize(items)
    case Obj(fields) => 1 + FieldsSize(fields)
    case _ => 1
  }

  function ItemsSize(items: Items): nat {
    match items
    case NoItems => 0
    case Item(head, tail) => 1 + Size(head) + ItemsSize(tail)
  }

  function FieldsSize(fields: Fields): nat {
    match fields
    case NoFields => 0
    case Field(_, value, rest) => 1 + Size(value) + FieldsSize(rest)
  }

  function Walk(path: seq<Step>, left: Json, right: Json): seq<Change>
    decreases Size(left) + Size(right)
  {
    if Same(left, right) then []
    else if left.Obj? && right.Obj? then WalkFields(path, left.fields, right.fields)
    else if left.List? && right.List? && Length(left.items) == Length(right.items) then
      WalkItems(path, 0, left.items, right.items)
    else [Change(path, left, right)]
  }

  function WalkItems(path: seq<Step>, i: nat, left: Items, right: Items): seq<Change>
    requires Length(left) == Length(right)
    decreases ItemsSize(left) + ItemsSize(right)
  {
    if left.NoItems? then []
    else Walk(path + [Index(i)], left.head, right.head) + WalkItems(path, i + 1, left.tail, right.tail)
  }

  /** Keys of both sides in ascending order; a key missing on one side reads as null there. */
  function WalkFields(path: seq<Step>, left: Fields, right: Fields): seq<Change>
    decreases FieldsSize(left) + FieldsSize(right)
  {
    if left.NoFields? && right.NoFields? then []
    else if right.NoFields? || (left.Field? && Before(left.key, right.key)) then
      Walk(path + [Key(left.key)], left.value, Null) + WalkFields(path, left.rest, right)
    else if left.NoFields? || Before(right.key, left.key) then
      Walk(path + [Key(right.key)], Null, right.value) + WalkFields(path, left, right.rest)
    else Walk(path + [Key(left.key)], left.value, right.value) + WalkFields(path, left.rest, right.rest)
  }

  // ----- where a path leads

  function Follow(v: Json, path: seq<Step>): Json
    decreases |path|
  {
    if path == [] then v
    else
      match path[0]
      case Key(key) => if v.Obj? then Follow(Get(v.fields, key), path[1..]) else Null
      case Index(i) => if v.List? && i < Length(v.items) then Follow(At(v.items, i), path[1..]) else Null
  }

  /** A change of a sub-document: it extends the path walked so far and shows two values that differ. */
  ghost predicate Real(change: Change, prefix: seq<Step>, left: Json, right: Json) {
    && prefix <= change.path
    && change.baseline == Follow(left, change.path[|prefix|..])
    && change.candidate == Follow(right, change.path[|prefix|..])
    && !Same(change.baseline, change.candidate)
  }

  lemma FollowStep(v: Json, path: seq<Step>)
    requires path != []
    ensures Follow(v, path) == Follow(Follow(v, [path[0]]), path[1..])
  {
  }

  lemma Deeper(change: Change, prefix: seq<Step>, step: Step, left: Json, right: Json)
    requires Real(change, prefix + [step], Follow(left, [step]), Follow(right, [step]))
    ensures Real(change, prefix, left, right)
  {
    var rest := change.path[|prefix|..];
    assert rest[0] == change.path[|prefix|] == (prefix + [step])[|prefix|] == step;
    assert rest[1..] == change.path[|prefix + [step]|..];
    assert prefix <= prefix + [step];
    FollowStep(left, rest);
    FollowStep(right, rest);
  }

  /** Every change listed is real: its path leads to the two values it shows, and they differ. */
  lemma {:induction false} ChangesAreReal(path: seq<Step>, left: Json, right: Json, change: Change)
    requires Ordered(left) && Ordered(right) && change in Walk(path, left, right)
    ensures Real(change, path, left, right)
    decreases Size(left) + Size(right), 0
  {
    if left.Obj? && right.Obj? {
      FieldChangesAreReal(path, left.fields, right.fields, left.fields, right.fields, change);
    } else if left.List? && right.List? && Length(left.items) == Length(right.items) {
      ItemChangesAreReal(path, 0, left.items, right.items, left.items, right.items, change);
    } else {
      assert change.path[|path|..] == [];
    }
  }

  ghost predicate Tail(all: Items, i: nat, items: Items) {
    Length(all) == i + Length(items) && forall k: nat :: k < Length(items) ==> At(all, i + k) == At(items, k)
  }

  lemma {:induction false} ItemChangesAreReal(path: seq<Step>, i: nat, left: Items, right: Items, allLeft: Items,
                                              allRight: Items,
                                                change: Change)
    requires Length(left) == Length(right) && OrderedItems(left) && OrderedItems(right)
    requires Tail(allLeft, i, left) && Tail(allRight, i, right) && change in WalkItems(path, i, left, right)
    ensures Real(change, path, List(allLeft), List(allRight))
    decreases ItemsSize(left) + ItemsSize(right)
  {
    assert At(left, 0) == At(allLeft, i + 0) && At(right, 0) == At(allRight, i + 0);
    if change in Walk(path + [Index(i)], left.head, right.head) {
      ChangesAreReal(path + [Index(i)], left.head, right.head, change);
      assert [Index(i)][1..] == [];
      Deeper(change, path, Index(i), List(allLeft), List(allRight));
    } else {
      assert Tail(allLeft, i + 1, left.tail) by { TailStep(allLeft, i, left); }
      assert Tail(allRight, i + 1, right.tail) by { TailStep(allRight, i, right); }
      ItemChangesAreReal(path, i + 1, left.tail, right.tail, allLeft, allRight, change);
    }
  }

  lemma TailStep(all: Items, i: nat, items: Items)
    requires Tail(all, i, items) && items.Item?
    ensures Tail(all, i + 1, items.tail)
  {
    forall k: nat | k < Length(items.tail) ensures At(all, i + 1 + k) == At(items.tail, k) {
      assert At(all, i + (k + 1)) == At(items, k + 1);
    }
  }

  lemma {:induction false} MissingIsNull(fields: Fields, key: string)
    requires key !in Keys(fields)
    ensures Get(fields, key) == Null
  {
    if fields.Field? {
      MissingIsNull(fields.rest, key);
    }
  }

  lemma {:induction false} LaterKeys(fields: Fields, key: string)
    requires OrderedFields(fields) && fields.Field? && key in Keys(fields.rest)
    ensures Before(fields.key, key)
  {
    if key != fields.rest.key {
      LaterKeys(fields.rest, key);
      BeforeTransitive(fields.key, fields.rest.key, key);
    }
  }

  /** The smallest key of two objects is missing from what follows it on both sides. */
  lemma SmallestKey(left: Fields, right: Fields)
    requires OrderedFields(left) && OrderedFields(right) && left.Field?
    requires right.Field? ==> Before(left.key, right.key)
    ensures left.key !in Keys(left.rest) && left.key !in Keys(right)
  {
    if left.key in Keys(left.rest) {
      LaterKeys(left, left.key);
    }
    if left.key in Keys(right) && right.Field? && left.key != right.key {
      LaterKeys(right, left.key);
      BeforeTransitive(left.key, right.key, left.key);
    }
  }

  lemma FirstKey(fields: Fields)
    requires OrderedFields(fields) && fields.Field?
    ensures fields.key !in Keys(fields.rest)
  {
    if fields.key in Keys(fields.rest) {
      LaterKeys(fields, fields.key);
    }
  }

  lemma SameKey(a: string, b: string)
    requires !Before(a, b) && !Before(b, a)
    ensures a == b
  {
    StringLeTotal(a, b);
  }

  /** What is left to visit still shows every value of the whole. */
  ghost predicate Shows(all: Fields, rest: Fields, keys: set<string>) {
    forall key :: key in keys ==> Get(all, key) == Get(rest, key)
  }

  lemma {:induction false} FieldChangesAreReal(path: seq<Step>, left: Fields, right: Fields, allLeft: Fields,
                                               allRight: Fields,
                                                 change: Change)
    requires OrderedFields(left) && OrderedFields(right) && change in WalkFields(path, left, right)
    requires Shows(allLeft, left, Keys(left) + Keys(right)) && Shows(allRight, right, Keys(left) + Keys(right))
    ensures Real(change, path, Obj(allLeft), Obj(allRight))
    decreases FieldsSize(left) + FieldsSize(right)
  {
    hide Real;
    if right.NoFields? || (left.Field? && Before(left.key, right.key)) {
      SmallestKey(left, right);
      MissingIsNull(right, left.key);
      if change in Walk(path + [Key(left.key)], left.value, Null) {
        UnderKey(path, left.key, left.value, Null, allLeft, allRight, change);
      } else {
        FieldChangesAreReal(path, left.rest, right, allLeft, allRight, change);
      }
    } else if left.NoFields? || Before(right.key, left.key) {
      SmallestKey(right, left);
      MissingIsNull(left, right.key);
      if change in Walk(path + [Key(right.key)], Null, right.value) {
        UnderKey(path, right.key, Null, right.value, allLeft, allRight, change);
      } else {
        FieldChangesAreReal(path, left, right.rest, allLeft, allRight, change);
      }
    } else {
      SameKey(left.key, right.key);
      FirstKey(left);
      FirstKey(right);
      if change in Walk(path + [Key(left.key)], left.value, right.value) {
        UnderKey(path, left.key, left.value, right.value, allLeft, allRight, change);
      } else {
        FieldChangesAreReal(path, left.rest, right.rest, allLeft, allRight, change);
      }
    }
  }

  lemma UnderKey(path: seq<Step>, key: string, left: Json, right: Json, allLeft: Fields, allRight: Fields,
                 change: Change)
    requires Ordered(left) && Ordered(right) && change in Walk(path + [Key(key)], left, right)
    requires Get(allLeft, key) == left && Get(allRight, key) == right
    ensures Real(change, path, Obj(allLeft), Obj(allRight))
    decreases Size(left) + Size(right), 1
  {
    ChangesAreReal(path + [Key(key)], left, right, change);
    assert [Key(key)][1..] == [];
    Deeper(change, path, Key(key), Obj(allLeft), Obj(allRight));
  }

  // ----- when nothing is listed

  /** A document without the members that are null, which a reader cannot tell from missing ones. */
  function Strip(v: Json): Json {
    match v
    case List(items) => List(StripItems(items))
    case Obj(fields) => Obj(StripFields(fields))
    case _ => v
  }

  function StripItems(items: Items): (r: Items)
    ensures Length(r) == Length(items)
  {
    match items
    case NoItems => NoItems
    case Item(head, tail) => Item(Strip(head), StripItems(tail))
  }

  function StripFields(fields: Fields): Fields {
    match fields
    case NoFields => NoFields
    case Field(key, value, rest) =>
      if value.Null? then StripFields(rest) else Field(key, Strip(value), StripFields(rest))
  }

  lemma {:induction false} SameStrips(a: Json, b: Json)
    requires Same(a, b)
    ensures Same(Strip(a), Strip(b))
  {
    match a
    case List(items) => SameItemsStrip(items, b.items);
    case Obj(fields) => SameFieldsStrip(fields, b.fields);
    case _ =>
  }

  lemma {:induction false} SameItemsStrip(a: Items, b: Items)
    requires SameItems(a, b)
    ensures SameItems(StripItems(a), StripItems(b))
  {
    if a.Item? {
      SameStrips(a.head, b.head);
      SameItemsStrip(a.tail, b.tail);
    }
  }

  lemma {:induction false} SameFieldsStrip(a: Fields, b: Fields)
    requires SameFields(a, b)
    ensures SameFields(StripFields(a), StripFields(b))
  {
    if a.Field? {
      SameStrips(a.value, b.value);
      SameFieldsStrip(a.rest, b.rest);
    }
  }

  lemma {:induction false} SameLength(a: Items, b: Items)
    requires SameItems(a, b)
    ensures Length(a) == Length(b)
  {
    if a.Item? {
      SameLength(a.tail, b.tail);
    }
  }

  lemma {:induction false} StrippedKeys(fields: Fields)
    ensures Keys(StripFields(fields)) <= Keys(fields)
  {
    if fields.Field? {
      StrippedKeys(fields.rest);
    }
  }

  /** Nothing is listed exactly when the documents agree once null members are dropped. */
  lemma {:induction false} SilentMeansSame(path: seq<Step>, left: Json, right: Json)
    requires Ordered(left) && Ordered(right)
    ensures Walk(path, left, right) == [] <==> Same(Strip(left), Strip(right))
    decreases Size(left) + Size(right)
  {
    if Same(left, right) {
      SameStrips(left, right);
    } else if left.Obj? && right.Obj? {
      SilentFields(path, left.fields, right.fields);
    } else if left.List? && right.List? {
      if Length(left.items) == Length(right.items) {
        SilentItems(path, 0, left.items, right.items);
      } else if SameItems(StripItems(left.items), StripItems(right.items)) {
        SameLength(StripItems(left.items), StripItems(right.items));
      }
    }
  }

  lemma {:induction false} SilentItems(path: seq<Step>, i: nat, left: Items, right: Items)
    requires OrderedItems(left) && OrderedItems(right) && Length(left) == Length(right)
    ensures WalkItems(path, i, left, right) == [] <==> SameItems(StripItems(left), StripItems(right))
    decreases ItemsSize(left) + ItemsSize(right)
  {
    if left.Item? {
      SilentMeansSame(path + [Index(i)], left.head, right.head);
      SilentItems(path, i + 1, left.tail, right.tail);
    }
  }

  lemma {:induction false} SilentFields(path: seq<Step>, left: Fields, right: Fields)
    requires OrderedFields(left) && OrderedFields(right)
    ensures WalkFields(path, left, right) == [] <==> SameFields(StripFields(left), StripFields(right))
    decreases FieldsSize(left) + FieldsSize(right)
  {
    if left.NoFields? && right.NoFields? {
    } else if right.NoFields? || (left.Field? && Before(left.key, right.key)) {
      SmallestKey(left, right);
      StrippedKeys(right);
      SilentFields(path, left.rest, right);
      SilentMeansSame(path + [Key(left.key)], left.value, Null);
    } else if left.NoFields? || Before(right.key, left.key) {
      SmallestKey(right, left);
      StrippedKeys(left);
      SilentFields(path, left, right.rest);
      SilentMeansSame(path + [Key(right.key)], Null, right.value);
    } else {
      SameKey(left.key, right.key);
      FirstKey(left);
      FirstKey(right);
      StrippedKeys(left.rest);
      StrippedKeys(right.rest);
      SilentFields(path, left.rest, right.rest);
      SilentMeansSame(path + [Key(left.key)], left.value, right.value);
    }
  }

  /** Members that are null on one side and missing on the other differ without being listed. */
  lemma NullLooksMissing(path: seq<Step>, key: string)
    ensures var left, right := Obj(Field(key, Null, NoFields)), Obj(NoFields);
            Ordered(left) && Ordered(right) && !Same(left, right) && Walk(path, left, right) == []
  {
    assert Walk(path + [Key(key)], Null, Null) == [];
    assert WalkFields(path, Field(key, Null, NoFields), NoFields) == [];
  }

  predicate NoNullMembers(v: Json) {
    match v
    case List(items) => NoNullMembersInItems(items)
    case Obj(fields) => NoNullMembersInFields(fields)
    case _ => true
  }

  predicate NoNullMembersInItems(items: Items) {
    match items
    case NoItems => true
    case Item(head, tail) => NoNullMembers(head) && NoNullMembersInItems(tail)
  }

  predicate NoNullMembersInFields(fields: Fields) {
    match fields
    case NoFields => true
    case Field(_, value, rest) => !value.Null? && NoNullMembers(value) && NoNullMembersInFields(rest)
  }

  lemma NothingStripped(v: Json)
    requires NoNullMembers(v)
    ensures Strip(v) == v
  {
    match v
    case List(items) => NothingStrippedFromItems(items);
    case Obj(fields) => NothingStrippedFromFields(fields);
    case _ =>
  }

  lemma NothingStrippedFromItems(items: Items)
    requires NoNullMembersInItems(items)
    ensures StripItems(items) == items
  {
    if items.Item? {
      NothingStripped(items.head);
      NothingStrippedFromItems(items.tail);
    }
  }

  lemma NothingStrippedFromFields(fields: Fields)
    requires NoNullMembersInFields(fields)
    ensures StripFields(fields) == fields
  {
    if fields.Field? {
      NothingStripped(fields.value);
      NothingStrippedFromFields(fields.rest);
    }
  }

  /** Without null members every difference is listed. */
  lemma SilentMeansEqual(path: seq<Step>, left: Json, right: Json)
    requires Ordered(left) && Ordered(right) && NoNullMembers(left) && NoNullMembers(right)
    ensures Walk(path, left, right) == [] <==> Same(left, right)
  {
    SilentMeansSame(path, left, right);
    NothingStripped(left);
    NothingStripped(right);
  }

  // ----- direction does not matter

  function Swap(c: Change): Change {
    Change(c.path, c.candidate, c.baseline)
  }

  lemma {:induction false} SameSymmetric(a: Json, b: Json)
    ensures Same(a, b) <==> Same(b, a)
  {
    match a
    case List(items) => if b.List? { SameItemsSymmetric(items, b.items); }
    case Obj(fields) => if b.Obj? { SameFieldsSymmetric(fields, b.fields); }
    case _ =>
  }

  lemma {:induction false} SameItemsSymmetric(a: Items, b: Items)
    ensures SameItems(a, b) <==> SameItems(b, a)
  {
    if a.Item? && b.Item? {
      SameSymmetric(a.head, b.head);
      SameItemsSymmetric(a.tail, b.tail);
    }
  }

  lemma {:induction false} SameFieldsSymmetric(a: Fields, b: Fields)
    ensures SameFields(a, b) <==> SameFields(b, a)
  {
    if a.Field? && b.Field? {
      SameSymmetric(a.value, b.value);
      SameFieldsSymmetric(a.rest, b.rest);
    }
  }

  /** Exchanging baseline and candidate exchanges the two values of every change and nothing else. */
  lemma {:induction false} WalkSwaps(path: seq<Step>, left: Json, right: Json)
    ensures Walk(path, right, left) == Map(Swap, Walk(path, left, right))
    decreases Size(left) + Size(right)
  {
    SameSymmetric(left, right);
    hide Same;
    if !Same(left, right) {
      if left.Obj? && right.Obj? {
        WalkFieldsSwap(path, left.fields, right.fields);
      } else if left.List? && right.List? && Length(left.items) == Length(right.items) {
        WalkItemsSwap(path, 0, left.items, right.items);
      }
    }
  }

  lemma {:induction false} WalkItemsSwap(path: seq<Step>, i: nat, left: Items, right: Items)
    requires Length(left) == Length(right)
    ensures WalkItems(path, i, right, left) == Map(Swap, WalkItems(path, i, left, right))
    decreases ItemsSize(left) + ItemsSize(right)
  {
    if left.Item? {
      WalkSwaps(path + [Index(i)], left.head, right.head);
      WalkItemsSwap(path, i + 1, left.tail, right.tail);
      MapAppends(Swap, Walk(path + [Index(i)], left.head, right.head), WalkItems(path, i + 1, left.tail, right.tail));
    }
  }

  lemma {:induction false} WalkFieldsSwap(path: seq<Step>, left: Fields, right: Fields)
    ensures WalkFields(path, right, left) == Map(Swap, WalkFields(path, left, right))
    decreases FieldsSize(left) + FieldsSize(right)
  {
    if left.NoFields? && right.NoFields? {
    } else if right.NoFields? || (left.Field? && Before(left.key, right.key)) {
      if right.Field? {
        StringLeTotal(left.key, right.key);
      }
      WalkSwaps(path + [Key(left.key)], left.value, Null);
      WalkFieldsSwap(path, left.rest, right);
      MapAppends(Swap, Walk(path + [Key(left.key)], left.value, Null), WalkFields(path, left.rest, right));
    } else if left.NoFields? || Before(right.key, left.key) {
      WalkSwaps(path + [Key(right.key)], Null, right.value);
      WalkFieldsSwap(path, left, right.rest);
      MapAppends(Swap, Walk(path + [Key(right.key)], Null, right.value), WalkFields(path, left, right.rest));
    } else {
      SameKey(left.key, right.key);
      WalkSwaps(path + [Key(left.key)], left.value, right.value);
      WalkFieldsSwap(path, left.rest, right.rest);
      MapAppends(Swap, Walk(path + [Key(left.key)], left.value, right.value), WalkFields(path, left.rest, right.rest));
    }
  }
}
