/** Exactly which places of two documents are listed as changed. */
module ChangesMeaning {
  import opened Prelude
  import opened Sorting
  import opened Json
  import opened BehaviorChanges

  predicate BothObjects(a: Json, b: Json) {
    a.Obj? && b.Obj?
  }

  predicate BothLists(a: Json, b: Json) {
    a.List? && b.List? && Length(a.items) == Length(b.items)
  }

  /** Both documents have the place: every step goes through two objects, or through two lists of one length. */
  predicate Shared(left: Json, right: Json, place: seq<Step>)
    decreases |place|
  {
    place == []
    || match place[0]
       case Key(key) =>
         BothObjects(left, right) && Shared(Get(left.fields, key), Get(right.fields, key), place[1..])
       case Index(i) =>
         BothLists(left, right) && i < Length(left.items)
         && Shared(At(left.items, i), At(right.items, i), place[1..])
  }

  /** The documents part there: different values, and no way further down on both sides. */
  predicate Parts(left: Json, right: Json, place: seq<Step>) {
    && Shared(left, right, place)
    && var a, b := Follow(left, place), Follow(right, place);
       !Same(a, b) && !BothObjects(a, b) && !BothLists(a, b)
  }

  function ChangeAt(path: seq<Step>, left: Json, right: Json, place: seq<Step>): Change {
    Change(path + place, Follow(left, place), Follow(right, place))
  }

  // ----- one level down

  lemma {:induction false} GetSmaller(fields: Fields, key: string)
    ensures Size(Get(fields, key)) <= FieldsSize(fields)
    ensures OrderedFields(fields) ==> Ordered(Get(fields, key))
  {
    if fields.Field? {
      GetSmaller(fields.rest, key);
    }
  }

  lemma {:induction false} AtSmaller(items: Items, i: nat)
    requires i < Length(items)
    ensures Size(At(items, i)) < ItemsSize(items)
    ensures OrderedItems(items) ==> Ordered(At(items, i))
  {
    if i > 0 {
      AtSmaller(items.tail, i - 1);
    }
  }

  ghost predicate WalkedUnder(path: seq<Step>, left: Fields, right: Fields, key: string, change: Change) {
    key in Keys(left) + Keys(right) && change in Walk(path + [Key(key)], Get(left, key), Get(right, key))
  }

  lemma {:induction false} FieldsWalked(path: seq<Step>, left: Fields, right: Fields, change: Change)
    requires OrderedFields(left) && OrderedFields(right)
    ensures change in WalkFields(path, left, right) <==> exists key :: WalkedUnder(path, left, right, key, change)
    decreases FieldsSize(left) + FieldsSize(right)
  {
    hide Walk;
    if left.NoFields? && right.NoFields? {
    } else if right.NoFields? || (left.Field? && Before(left.key, right.key)) {
      SmallestKey(left, right);
      MissingIsNull(right, left.key);
      FieldsWalked(path, left.rest, right, change);
      assert WalkedUnder(path, left, right, left.key, change) <==>
             change in Walk(path + [Key(left.key)], left.value, Null);
      LessWalked(path, left, right, left.rest, right, left.key, change);
    } else if left.NoFields? || Before(right.key, left.key) {
      SmallestKey(right, left);
      MissingIsNull(left, right.key);
      FieldsWalked(path, left, right.rest, change);
      assert WalkedUnder(path, left, right, right.key, change) <==>
             change in Walk(path + [Key(right.key)], Null, right.value);
      LessWalked(path, left, right, left, right.rest, right.key, change);
    } else {
      SameKey(left.key, right.key);
      FirstKey(left);
      FirstKey(right);
      FieldsWalked(path, left.rest, right.rest, change);
      assert WalkedUnder(path, left, right, left.key, change) <==>
             change in Walk(path + [Key(left.key)], left.value, right.value);
      LessWalked(path, left, right, left.rest, right.rest, left.key, change);
    }
  }

  /** Under any other key, both sides are what they were. */
  lemma LessWalked(path: seq<Step>, left: Fields, right: Fields, left': Fields, right': Fields, first: string,
                   change: Change)
    requires left' == left || (left.Field? && left' == left.rest && left.key == first)
    requires right' == right || (right.Field? && right' == right.rest && right.key == first)
    requires first in Keys(left) + Keys(right) && first !in Keys(left') + Keys(right')
    ensures forall key :: key != first ==>
                            (WalkedUnder(path, left, right, key, change) <==>
                             WalkedUnder(path, left', right', key, change))
    ensures !WalkedUnder(path, left', right', first, change)
  {
    hide Walk;
  }

  ghost predicate WalkedAt(path: seq<Step>, first: nat, left: Items, right: Items, i: nat, change: Change) {
    && i < Length(left) && i < Length(right)
    && change in Walk(path + [Index(first + i)], At(left, i), At(right, i))
  }

  lemma {:induction false} ItemsWalked(path: seq<Step>, first: nat, left: Items, right: Items, change: Change)
    requires Length(left) == Length(right)
    ensures change in WalkItems(path, first, left, right) <==>
            exists i: nat :: WalkedAt(path, first, left, right, i, change)
    decreases Length(left)
  {
    hide Walk;
    if left.Item? {
      ItemsWalked(path, first + 1, left.tail, right.tail, change);
      assert WalkedAt(path, first, left, right, 0, change) <==>
             change in Walk(path + [Index(first)], left.head, right.head);
      forall i: nat | i > 0
        ensures WalkedAt(path, first, left, right, i, change) <==>
                WalkedAt(path, first + 1, left.tail, right.tail, i - 1, change)
      {
        assert first + i == first + 1 + (i - 1);
      }
      var second := first + 1;
      if i: nat :| WalkedAt(path, second, left.tail, right.tail, i, change) {
        assert WalkedAt(path, first, left, right, i + 1, change);
      }
    }
  }

  // ----- listed exactly

  lemma PartsUnder(path: seq<Step>, left: Json, right: Json, key: string, rest: seq<Step>)
    requires BothObjects(left, right)
    ensures var a, b, place := Get(left.fields, key), Get(right.fields, key), [Key(key)] + rest;
            && (Parts(left, right, place) <==> Parts(a, b, rest))
            && ChangeAt(path, left, right, place) == ChangeAt(path + [Key(key)], a, b, rest)
  {
    var place := [Key(key)] + rest;
    assert place[1..] == rest;
    assert path + [Key(key)] + rest == path + place;
    hide Same;
  }

  lemma PartsAtIndex(path: seq<Step>, left: Json, right: Json, i: nat, rest: seq<Step>)
    requires BothLists(left, right) && i < Length(left.items)
    ensures var a, b, place := At(left.items, i), At(right.items, i), [Index(i)] + rest;
            && (Parts(left, right, place) <==> Parts(a, b, rest))
            && ChangeAt(path, left, right, place) == ChangeAt(path + [Index(i)], a, b, rest)
  {
    var place := [Index(i)] + rest;
    assert place[1..] == rest;
    assert path + [Index(i)] + rest == path + place;
    hide Same;
  }

  lemma {:induction false} ListedParts(path: seq<Step>, left: Json, right: Json, change: Change)
    returns (place: seq<Step>)
    requires Ordered(left) && Ordered(right) && change in Walk(path, left, right)
    ensures Parts(left, right, place) && change == ChangeAt(path, left, right, place)
    decreases Size(left) + Size(right)
  {
    hide Parts, Same;
    if BothObjects(left, right) {
      FieldsWalked(path, left.fields, right.fields, change);
      var key :| WalkedUnder(path, left.fields, right.fields, key, change);
      GetSmaller(left.fields, key);
      GetSmaller(right.fields, key);
      var rest := ListedParts(path + [Key(key)], Get(left.fields, key), Get(right.fields, key), change);
      place := [Key(key)] + rest;
      PartsUnder(path, left, right, key, rest);
    } else if BothLists(left, right) {
      ItemsWalked(path, 0, left.items, right.items, change);
      var i: nat :| WalkedAt(path, 0, left.items, right.items, i, change);
      AtSmaller(left.items, i);
      AtSmaller(right.items, i);
      var rest := ListedParts(path + [Index(i)], At(left.items, i), At(right.items, i), change);
      place := [Index(i)] + rest;
      PartsAtIndex(path, left, right, i, rest);
    } else {
      place := [];
      PartsHere(path, left, right);
    }
  }

  lemma PartsHere(path: seq<Step>, left: Json, right: Json)
    ensures Parts(left, right, []) <==> !Same(left, right) && !BothObjects(left, right) && !BothLists(left, right)
    ensures ChangeAt(path, left, right, []) == Change(path, left, right)
  {
    assert path + [] == path;
    hide Same;
  }

  lemma {:induction false} SameGet(a: Fields, b: Fields, key: string)
    requires SameFields(a, b)
    ensures Same(Get(a, key), Get(b, key))
  {
    if a.Field? {
      SameGet(a.rest, b.rest, key);
    }
  }

  lemma {:induction false} SameAt(a: Items, b: Items, i: nat)
    requires SameItems(a, b) && i < Length(a) && i < Length(b)
    ensures Same(At(a, i), At(b, i))
  {
    if i > 0 {
      SameAt(a.tail, b.tail, i - 1);
    }
  }

  /** Equal documents are equal everywhere. */
  lemma {:induction false} SameBelow(left: Json, right: Json, place: seq<Step>)
    requires Same(left, right) && Shared(left, right, place)
    ensures Same(Follow(left, place), Follow(right, place))
    decreases |place|
  {
    if place != [] {
      match place[0]
      case Key(key) =>
        SameGet(left.fields, right.fields, key);
        SameBelow(Get(left.fields, key), Get(right.fields, key), place[1..]);
      case Index(i) =>
        SameAt(left.items, right.items, i);
        SameBelow(At(left.items, i), At(right.items, i), place[1..]);
    }
  }

  lemma {:induction false} PartsListed(path: seq<Step>, left: Json, right: Json, place: seq<Step>)
    requires Ordered(left) && Ordered(right) && Parts(left, right, place)
    ensures ChangeAt(path, left, right, place) in Walk(path, left, right)
    decreases |place|
  {
    var change := ChangeAt(path, left, right, place);
    if Same(left, right) {
      SameBelow(left, right, place);
      assert false;
    }
    if place == [] {
      PartsHere(path, left, right);
    } else {
      var rest := place[1..];
      assert place == [place[0]] + rest;
      match place[0]
      case Key(key) =>
        GetSmaller(left.fields, key);
        GetSmaller(right.fields, key);
        PartsUnder(path, left, right, key, rest);
        PartsListed(path + [Key(key)], Get(left.fields, key), Get(right.fields, key), rest);
        NamedKey(left.fields, right.fields, key, place[1..]);
        assert WalkedUnder(path, left.fields, right.fields, key, change);
        FieldsWalked(path, left.fields, right.fields, change);
      case Index(i) =>
        AtSmaller(left.items, i);
        AtSmaller(right.items, i);
        PartsAtIndex(path, left, right, i, rest);
        PartsListed(path + [Index(i)], At(left.items, i), At(right.items, i), rest);
        assert WalkedAt(path, 0, left.items, right.items, i, change);
        ItemsWalked(path, 0, left.items, right.items, change);
    }
  }

  lemma NamedKey(left: Fields, right: Fields, key: string, place: seq<Step>)
    requires Parts(Get(left, key), Get(right, key), place)
    ensures key in Keys(left) + Keys(right)
  {
    if key !in Keys(left) + Keys(right) {
      MissingIsNull(left, key);
      MissingIsNull(right, key);
    }
  }

  /** A change is listed exactly when it shows the values at a place where the documents part. */
  lemma ListedExactly(path: seq<Step>, left: Json, right: Json, change: Change)
    requires Ordered(left) && Ordered(right)
    ensures change in Walk(path, left, right) <==>
            exists place :: Parts(left, right, place) && change == ChangeAt(path, left, right, place)
  {
    if change in Walk(path, left, right) {
      var place := ListedParts(path, left, right, change);
    }
    if place :| Parts(left, right, place) && change == ChangeAt(path, left, right, place) {
      PartsListed(path, left, right, place);
    }
  }
}
