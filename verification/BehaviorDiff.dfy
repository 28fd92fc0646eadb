/**
 The normal form under which two learned behaviours are compared: placeholders renamed by first occurrence, clocks
 rebased.
 */
module BehaviorDiff {
  import opened Prelude
  import opened Sorting
  import opened Json

  const KINDS: set<string> := {
    "address", "branch", "call-id", "contact", "cseq", "length", "media-address", "media-port", "port",
    "rtp-sequence", "rtp-timestamp", "ssrc", "tag"
  }

  /** A placeholder name that is not text, or a placeholder type that cannot be looked up at all. */
  datatype SchemaError = NameNotString | TypeNotHashable

  /** New names, kind by kind. */
  type Naming = map<string, map<string, string>>

  datatype Label = Label(kind: string, name: string)

  // ----- ports

  function LowerChar(c: char): char {
    if 'A' <= c <= 'Z' then (c as int - 'A' as int + 'a' as int) as char else c
  }

  predicate PortField(field: string) {
    |field| >= 4 && Map(LowerChar, field[|field| - 4..]) == "port"
  }

  const EPHEMERAL: Json := Str("<ephemeral-port>")

  function MaskNumber(n: int, field: string): Json {
    if PortField(field) && n > 1023 then EPHEMERAL else Num(n)
  }

  predicate LetterOf(c: char, lower: char, upper: char) {
    c == lower || c == upper
  }

  /** The last four letters spell port, in either case. */
  predicate EndsInPort(field: string) {
    && |field| >= 4
    && LetterOf(field[|field| - 4], 'p', 'P') && LetterOf(field[|field| - 3], 'o', 'O')
    && LetterOf(field[|field| - 2], 'r', 'R') && LetterOf(field[|field| - 1], 't', 'T')
  }

  /** Exactly which numbers are masked: those above 1023 under a field named for a port. */
  lemma MaskedExactly(n: int, field: string)
    ensures MaskNumber(n, field) == Str("<ephemeral-port>") <==> n >= 1024 && EndsInPort(field)
    ensures MaskNumber(n, field) == Num(n) <==> n < 1024 || !EndsInPort(field)
  {
    if |field| >= 4 {
      var last := Map(LowerChar, field[|field| - 4..]);
      assert last == [last[0], last[1], last[2], last[3]];
      forall c: char, i | 0 <= i < 4 && c == field[|field| - 4 + i] ensures last[i] == LowerChar(c) {
      }
    }
  }

  // ----- placeholders

  /** An object with exactly the keys name and type. */
  predicate NameAndType(fields: Fields) {
    fields.Field? && fields.key == "name" && fields.rest.Field? && fields.rest.key == "type"
      && fields.rest.rest.NoFields?
  }

  function LabelOf(fields: Fields): Option<Label> {
    if NameAndType(fields) && fields.value.Str? && fields.rest.value.Str? && fields.rest.value.text in KINDS then
      Some(Label(fields.rest.value.text, fields.value.text))
    else None
  }

  function ErrorOf(fields: Fields): Option<SchemaError> {
    if !NameAndType(fields) then None
    else if fields.rest.value.List? || fields.rest.value.Obj? then Some(TypeNotHashable)
    else if fields.rest.value.Str? && fields.rest.value.text in KINDS && !fields.value.Str? then Some(NameNotString)
    else None
  }

  function Placeholder(l: Label): Json {
    Obj(Field("name", Str(l.name), Field("type", Str(l.kind), NoFields)))
  }

  /** Exactly which objects are placeholders, and which are malformed ones. */
  lemma LabelExactly(fields: Fields, l: Label)
    ensures LabelOf(fields) == Some(l) <==>
            l.kind in KINDS && fields == Field("name", Str(l.name), Field("type", Str(l.kind), NoFields))
    ensures ErrorOf(fields).Some? <==>
            exists name, kind ::
              && fields == Field("name", name, Field("type", kind, NoFields))
              && (kind.List? || kind.Obj? || (kind.Str? && kind.text in KINDS && !name.Str?))
  {
    if ErrorOf(fields).Some? {
      assert fields == Field("name", fields.value, Field("type", fields.rest.value, NoFields));
    }
  }

  predicate WellFormed(v: Json) {
    match v
    case List(items) => WellFormedItems(items)
    case Obj(fields) => ErrorOf(fields).None? && WellFormedFields(fields)
    case _ => true
  }

  predicate WellFormedItems(items: Items) {
    match items
    case NoItems => true
    case Item(head, tail) => WellFormed(head) && WellFormedItems(tail)
  }

  predicate WellFormedFields(fields: Fields) {
    match fields
    case NoFields => true
    case Field(_, value, rest) => WellFormed(value) && WellFormedFields(rest)
  }

  // ----- naming by first occurrence

  function Decimal(n: nat): (r: string)
    ensures |r| == 1 <==> n < 10
    ensures r != []
  {
    if n < 10 then [('0' as int + n) as char] else Decimal(n / 10) + [('0' as int + n % 10) as char]
  }

  function Canonical(kind: string, n: nat): string {
    kind + "-" + Decimal(n)
  }

  function Of(naming: Naming, kind: string): map<string, string> {
    if kind in naming then naming[kind] else map[]
  }

  /** The naming after a label was seen: a new name takes the next number of its kind. */
  function See(naming: Naming, l: Label): Naming {
    var names := Of(naming, l.kind);
    naming[l.kind := if l.name in names then names else names[l.name := Canonical(l.kind, |names| + 1)]]
  }

  datatype Outcome<+T> = Outcome(result: Result<T, SchemaError>, naming: Naming)

  function Norm(v: Json, field: string, naming: Naming): Outcome<Json> {
    match v
    case Num(n) => Outcome(Ok(MaskNumber(n, field)), naming)
    case List(items) =>
      var o := NormItems(items, field, naming);
      (match o.result case Ok(r) => Outcome(Ok(List(r)), o.naming) case Err(e) => Outcome(Err(e), o.naming))
    case Obj(fields) =>
      if ErrorOf(fields).Some? then Outcome(Err(ErrorOf(fields).value), naming)
      else (
        match LabelOf(fields)
        case Some(l) =>
          var seen := See(naming, l);
          Outcome(Ok(Placeholder(Label(l.kind, seen[l.kind][l.name]))), seen)
        case None =>
          var o := NormFields(fields, naming);
          match o.result
          case Ok(r) => Outcome(Ok(Obj(r)), o.naming)
          case Err(e) => Outcome(Err(e), o.naming))
    case _ => Outcome(Ok(v), naming)
  }

  function NormItems(items: Items, field: string, naming: Naming): Outcome<Items> {
    match items
    case NoItems => Outcome(Ok(NoItems), naming)
    case Item(head, tail) =>
      var first := Norm(head, field, naming);
      match first.result
      case Err(e) => Outcome(Err(e), first.naming)
      case Ok(h) =>
        var others := NormItems(tail, field, first.naming);
        match others.result
        case Err(e) => Outcome(Err(e), others.naming)
        case Ok(t) => Outcome(Ok(Item(h, t)), others.naming)
  }

  function NormFields(fields: Fields, naming: Naming): Outcome<Fields> {
    match fields
    case NoFields => Outcome(Ok(NoFields), naming)
    case Field(key, value, rest) =>
      var first := Norm(value, key, naming);
      match first.result
      case Err(e) => Outcome(Err(e), first.naming)
      case Ok(v) =>
        var others := NormFields(rest, first.naming);
        match others.result
        case Err(e) => Outcome(Err(e), others.naming)
        case Ok(r) => Outcome(Ok(Field(key, v, r)), others.naming)
  }

  // ----- what the normal form is: masking, then a renaming

  function Mask(v: Json, field: string): Json {
    match v
    case Num(n) => MaskNumber(n, field)
    case List(items) => List(MaskItems(items, field))
    case Obj(fields) => if LabelOf(fields).Some? then v else Obj(MaskFields(fields))
    case _ => v
  }

  function MaskItems(items: Items, field: string): Items {
    match items
    case NoItems => NoItems
    case Item(head, tail) => Item(Mask(head, field), MaskItems(tail, field))
  }

  function MaskFields(fields: Fields): Fields {
    match fields
    case NoFields => NoFields
    case Field(key, value, rest) => Field(key, Mask(value, key), MaskFields(rest))
  }

  function NewName(naming: Naming, l: Label): string {
    if l.name in Of(naming, l.kind) then Of(naming, l.kind)[l.name] else l.name
  }

  /** Replace every placeholder name by its new name. */
  function Rename(v: Json, naming: Naming): Json {
    match v
    case List(items) => List(RenameItems(items, naming))
    case Obj(fields) =>
      (match LabelOf(fields)
       case Some(l) => Placeholder(Label(l.kind, NewName(naming, l)))
       case None => Obj(RenameFields(fields, naming)))
    case _ => v
  }

  function RenameItems(items: Items, naming: Naming): Items {
    match items
    case NoItems => NoItems
    case Item(head, tail) => Item(Rename(head, naming), RenameItems(tail, naming))
  }

  function RenameFields(fields: Fields, naming: Naming): Fields {
    match fields
    case NoFields => NoFields
    case Field(key, value, rest) => Field(key, Rename(value, naming), RenameFields(rest, naming))
  }

  function Labels(v: Json): set<Label> {
    match v
    case List(items) => ItemLabels(items)
    case Obj(fields) => if LabelOf(fields).Some? then {LabelOf(fields).value} else FieldLabels(fields)
    case _ => {}
  }

  function ItemLabels(items: Items): set<Label> {
    match items
    case NoItems => {}
    case Item(head, tail) => Labels(head) + ItemLabels(tail)
  }

  function FieldLabels(fields: Fields): set<Label> {
    match fields
    case NoFields => {}
    case Field(_, value, rest) => Labels(value) + FieldLabels(rest)
  }

  ghost predicate Covers(naming: Naming, labels: set<Label>) {
    forall l :: l in labels ==> l.name in Of(naming, l.kind)
  }

  ghost predicate InjectiveNames(names: map<string, string>) {
    forall a, b :: a in names && b in names && names[a] == names[b] ==> a == b
  }

  /** Within a kind, different names stay different. */
  ghost predicate Injective(naming: Naming) {
    forall kind :: InjectiveNames(Of(naming, kind))
  }

  /** Equal up to a bijection, kind by kind, between the placeholder names used. */
  ghost predicate AlphaEquivalent(a: Json, b: Json) {
    exists renaming :: Injective(renaming) && Covers(renaming, Labels(a)) && Rename(a, renaming) == b
  }

  // ----- numbering

  lemma {:induction false} DecimalDiffers(a: nat, b: nat)
    requires Decimal(a) == Decimal(b)
    ensures a == b
    decreases a + b
  {
    if a >= 10 && b >= 10 {
      assert Decimal(a)[..|Decimal(a)| - 1] == Decimal(a / 10);
      assert Decimal(b)[..|Decimal(b)| - 1] == Decimal(b / 10);
      assert Decimal(a)[|Decimal(a)| - 1] == Decimal(b)[|Decimal(b)| - 1];
      DecimalDiffers(a / 10, b / 10);
    }
  }

  ghost predicate Digits(s: string) {
    forall i :: 0 <= i < |s| ==> '0' <= s[i] <= '9'
  }

  function NumberRead(s: string): int {
    if s == [] then 0 else 10 * NumberRead(s[..|s| - 1]) + s[|s| - 1] as int - '0' as int
  }

  lemma {:induction false} DecimalReads(n: nat)
    ensures var s := Decimal(n);
            Digits(s) && NumberRead(s) == n && (s[0] == '0' ==> n == 0)
  {
    if n >= 10 {
      DecimalReads(n / 10);
      assert Decimal(n)[..|Decimal(n)| - 1] == Decimal(n / 10);
    } else {
      assert Decimal(n)[..0] == [];
    }
  }

  /** A canonical name is the kind, a hyphen, and the number in decimal, without leading zeros. */
  lemma CanonicalReads(kind: string, n: nat)
    requires n > 0
    ensures var name := Canonical(kind, n);
            && |name| > |kind| + 1 && name[..|kind|] == kind && name[|kind|] == '-'
            && Digits(name[|kind| + 1..]) && NumberRead(name[|kind| + 1..]) == n && name[|kind| + 1] != '0'
  {
    DecimalReads(n);
    assert Canonical(kind, n)[|kind| + 1..] == Decimal(n);
  }

  lemma CanonicalDiffers(kind: string, a: nat, b: nat)
    requires Canonical(kind, a) == Canonical(kind, b)
    ensures a == b
  {
    assert Canonical(kind, a)[|kind| + 1..] == Decimal(a);
    assert Canonical(kind, b)[|kind| + 1..] == Decimal(b);
    DecimalDiffers(a, b);
  }

  /** Names already given are the first numbers of their kind, each used once. */
  ghost predicate NumberedNames(kind: string, names: map<string, string>) {
    && InjectiveNames(names)
    && forall name :: name in names ==> exists i :: 1 <= i <= |names| && names[name] == Canonical(kind, i)
  }

  ghost predicate Numbered(naming: Naming) {
    forall kind :: NumberedNames(kind, Of(naming, kind))
  }

  ghost predicate Grows(before: Naming, after: Naming) {
    forall kind, name :: name in Of(before, kind) ==>
      name in Of(after, kind) && Of(after, kind)[name] == Of(before, kind)[name]
  }

  lemma NextNumber(kind: string, names: map<string, string>, name: string)
    requires NumberedNames(kind, names) && name !in names
    ensures NumberedNames(kind, names[name := Canonical(kind, |names| + 1)])
  {
    hide Canonical;
    var next := Canonical(kind, |names| + 1);
    var more := names[name := next];
    forall old' | old' in names ensures names[old'] != next {
      var i :| 1 <= i <= |names| && names[old'] == Canonical(kind, i);
      if names[old'] == next {
        CanonicalDiffers(kind, i, |names| + 1);
      }
    }
    forall n | n in more ensures exists i :: 1 <= i <= |more| && more[n] == Canonical(kind, i) {
      if n == name {
        assert more[n] == Canonical(kind, |names| + 1);
      } else {
        var i :| 1 <= i <= |names| && names[n] == Canonical(kind, i);
        assert more[n] == Canonical(kind, i);
      }
    }
  }

  lemma SeeNumbers(naming: Naming, l: Label)
    requires Numbered(naming)
    ensures Numbered(See(naming, l)) && Grows(naming, See(naming, l)) && Covers(See(naming, l), {l})
  {
    hide NumberedNames, Canonical;
    var names := Of(naming, l.kind);
    assert NumberedNames(l.kind, names);
    if l.name !in names {
      NextNumber(l.kind, names, l.name);
    }
    forall kind ensures NumberedNames(kind, Of(See(naming, l), kind)) {
      assert NumberedNames(kind, Of(naming, kind));
    }
  }

  // ----- normalizing is masking, then renaming by the final numbering

  /** A document is refused exactly when it holds a malformed placeholder. */
  lemma {:induction false} NormSucceeds(v: Json, field: string, naming: Naming)
    ensures Norm(v, field, naming).result.Ok? <==> WellFormed(v)
  {
    match v
    case List(items) => NormItemsSucceeds(items, field, naming);
    case Obj(fields) =>
      if LabelOf(fields).None? {
        NormFieldsSucceeds(fields, naming);
      } else {
        assert WellFormedFields(fields.rest.rest) && WellFormed(fields.rest.value) && WellFormed(fields.value);
        assert WellFormedFields(fields.rest);
      }
    case _ =>
  }

  lemma {:induction false} NormItemsSucceeds(items: Items, field: string, naming: Naming)
    ensures NormItems(items, field, naming).result.Ok? <==> WellFormedItems(items)
  {
    match items
    case NoItems =>
    case Item(head, tail) =>
      NormSucceeds(head, field, naming);
      NormItemsSucceeds(tail, field, Norm(head, field, naming).naming);
  }

  lemma {:induction false} NormFieldsSucceeds(fields: Fields, naming: Naming)
    ensures NormFields(fields, naming).result.Ok? <==> WellFormedFields(fields)
  {
    match fields
    case NoFields =>
    case Field(key, value, rest) =>
      NormSucceeds(value, key, naming);
      NormFieldsSucceeds(rest, Norm(value, key, naming).naming);
  }

  lemma {:induction false} RenameStable(v: Json, p: Naming, q: Naming)
    requires Covers(p, Labels(v)) && Grows(p, q)
    ensures Rename(v, p) == Rename(v, q)
  {
    match v
    case List(items) => RenameItemsStable(items, p, q);
    case Obj(fields) => if LabelOf(fields).None? { RenameFieldsStable(fields, p, q); }
    case _ =>
  }

  lemma {:induction false} RenameItemsStable(items: Items, p: Naming, q: Naming)
    requires Covers(p, ItemLabels(items)) && Grows(p, q)
    ensures RenameItems(items, p) == RenameItems(items, q)
  {
    match items
    case NoItems =>
    case Item(head, tail) =>
      RenameStable(head, p, q);
      RenameItemsStable(tail, p, q);
  }

  lemma {:induction false} RenameFieldsStable(fields: Fields, p: Naming, q: Naming)
    requires Covers(p, FieldLabels(fields)) && Grows(p, q)
    ensures RenameFields(fields, p) == RenameFields(fields, q)
  {
    match fields
    case NoFields =>
    case Field(_, value, rest) =>
      RenameStable(value, p, q);
      RenameFieldsStable(rest, p, q);
  }

  /** Masking touches neither placeholders nor the shape that identifies them. */
  lemma {:induction false} MaskKeeps(v: Json, field: string)
    ensures Labels(Mask(v, field)) == Labels(v)
  {
    match v
    case List(items) => MaskItemsKeep(items, field);
    case Obj(fields) =>
      if LabelOf(fields).None? {
        MaskFieldsKeep(fields);
        MaskKeepsShape(fields);
      }
    case _ =>
  }

  lemma {:induction false} MaskItemsKeep(items: Items, field: string)
    ensures ItemLabels(MaskItems(items, field)) == ItemLabels(items)
  {
    match items
    case NoItems =>
    case Item(head, tail) =>
      MaskKeeps(head, field);
      MaskItemsKeep(tail, field);
  }

  lemma {:induction false} MaskFieldsKeep(fields: Fields)
    ensures FieldLabels(MaskFields(fields)) == FieldLabels(fields)
  {
    match fields
    case NoFields =>
    case Field(key, value, rest) =>
      MaskKeeps(value, key);
      MaskFieldsKeep(rest);
  }

  lemma MaskKeepsShape(fields: Fields)
    ensures LabelOf(fields).None? ==> LabelOf(MaskFields(fields)).None?
  {
    var masked := MaskFields(fields);
    if NameAndType(masked) {
      NotPorts();
      hide PortField;
      assert masked == Field(fields.key, Mask(fields.value, fields.key), MaskFields(fields.rest));
      assert masked.rest
             == Field(fields.rest.key, Mask(fields.rest.value, fields.rest.key), MaskFields(fields.rest.rest));
      MaskKeepsText(fields.value, "name");
      MaskKeepsText(fields.rest.value, "type");
    }
  }

  lemma NotPorts()
    ensures !PortField("name") && !PortField("type")
  {
    assert Map(LowerChar, "name"[0..])[0] == 'n' && Map(LowerChar, "type"[0..])[0] == 't';
  }

  lemma MaskKeepsText(v: Json, field: string)
    requires !PortField(field)
    ensures Mask(v, field).Str? <==> v.Str?
    ensures v.Str? ==> Mask(v, field) == v
  {
  }

  /** What normalizing leaves behind: a numbering that grew to cover the document. */
  ghost predicate Numbers(before: Naming, after: Naming, labels: set<Label>) {
    Numbered(after) && Grows(before, after) && Covers(after, labels)
  }

  lemma {:induction false} NormRenames(v: Json, field: string, naming: Naming)
    requires Numbered(naming) && WellFormed(v)
    ensures var o := Norm(v, field, naming);
            && Numbers(naming, o.naming, Labels(v))
            && o.result == Ok(Rename(Mask(v, field), o.naming))
  {
    hide Numbered;
    match v
    case List(items) => NormItemsRename(items, field, naming);
    case Obj(fields) =>
      match LabelOf(fields) {
        case Some(l) => SeeNumbers(naming, l);
        case None =>
          NormFieldsRename(fields, naming);
          MaskKeepsShape(fields);
      }
    case _ =>
  }

  lemma {:induction false} NormItemsRename(items: Items, field: string, naming: Naming)
    requires Numbered(naming) && WellFormedItems(items)
    ensures var o := NormItems(items, field, naming);
            && Numbers(naming, o.naming, ItemLabels(items))
            && o.result == Ok(RenameItems(MaskItems(items, field), o.naming))
  {
    hide Numbered;
    match items
    case NoItems =>
    case Item(head, tail) =>
      var first := Norm(head, field, naming).naming;
      NormRenames(head, field, naming);
      NormItemsRename(tail, field, first);
      MaskKeeps(head, field);
      RenameStable(Mask(head, field), first, NormItems(tail, field, first).naming);
  }

  lemma {:induction false} NormFieldsRename(fields: Fields, naming: Naming)
    requires Numbered(naming) && WellFormedFields(fields)
    ensures var o := NormFields(fields, naming);
            && Numbers(naming, o.naming, FieldLabels(fields))
            && o.result == Ok(RenameFields(MaskFields(fields), o.naming))
  {
    hide Numbered;
    match fields
    case NoFields =>
    case Field(key, value, rest) =>
      var first := Norm(value, key, naming).naming;
      NormRenames(value, key, naming);
      NormFieldsRename(rest, first);
      MaskKeeps(value, key);
      RenameStable(Mask(value, key), first, NormFields(rest, first).naming);
  }

  // ----- the normal form cannot see a consistent renaming

  /** Renaming keeps what kind of value each one is. */
  lemma RenameKeepsKind(v: Json, renaming: Naming)
    ensures v.Str? || Rename(v, renaming).Str? ==> Rename(v, renaming) == v
    ensures v.List? <==> Rename(v, renaming).List?
    ensures v.Obj? <==> Rename(v, renaming).Obj?
  {
  }

  lemma RenameKeepsShape(fields: Fields, renaming: Naming)
    ensures NameAndType(RenameFields(fields, renaming)) <==> NameAndType(fields)
    ensures LabelOf(RenameFields(fields, renaming)) == LabelOf(fields)
    ensures ErrorOf(RenameFields(fields, renaming)) == ErrorOf(fields)
  {
    var renamed := RenameFields(fields, renaming);
    hide Rename;
    if NameAndType(fields) || NameAndType(renamed) {
      assert renamed == Field(fields.key, Rename(fields.value, renaming), RenameFields(fields.rest, renaming));
      assert renamed.rest
             == Field(fields.rest.key, Rename(fields.rest.value, renaming), RenameFields(fields.rest.rest, renaming));
      RenameKeepsKind(fields.value, renaming);
      RenameKeepsKind(fields.rest.value, renaming);
    }
  }

  lemma PlaceholderLabel(l: Label)
    requires l.kind in KINDS
    ensures LabelOf(Placeholder(l).fields) == Some(l) && ErrorOf(Placeholder(l).fields) == None
  {
  }

  lemma LabelledIsPlaceholder(fields: Fields)
    requires LabelOf(fields).Some?
    ensures Obj(fields) == Placeholder(LabelOf(fields).value) && LabelOf(fields).value.kind in KINDS
    ensures ErrorOf(fields) == None
  {
  }

  /** `other` has named the images of exactly the names `names` has named, and named them alike. */
  ghost predicate TracksNames(names: map<string, string>, other: map<string, string>, renaming: map<string, string>) {
    && |names| == |other|
    && (forall n :: n in names ==> n in renaming && renaming[n] in other && other[renaming[n]] == names[n])
    && (forall n :: n in renaming && renaming[n] in other ==> n in names)
  }

  ghost predicate Tracks(naming: Naming, other: Naming, renaming: Naming) {
    forall kind :: TracksNames(Of(naming, kind), Of(other, kind), Of(renaming, kind))
  }

  lemma SeeTracks(naming: Naming, other: Naming, renaming: Naming, l: Label)
    requires Injective(renaming) && Covers(renaming, {l}) && Tracks(naming, other, renaming)
    ensures var image := Label(l.kind, NewName(renaming, l));
            && Tracks(See(naming, l), See(other, image), renaming)
            && See(naming, l)[l.kind][l.name] == See(other, image)[l.kind][image.name]
  {
    hide Canonical, TracksNames, InjectiveNames;
    var image := Label(l.kind, NewName(renaming, l));
    assert l in {l};
    assert TracksNames(Of(naming, l.kind), Of(other, l.kind), Of(renaming, l.kind))
           && InjectiveNames(Of(renaming, l.kind));
    SeeNamesTracks(l.kind, Of(naming, l.kind), Of(other, l.kind), Of(renaming, l.kind), l.name);
    forall kind ensures TracksNames(Of(See(naming, l), kind), Of(See(other, image), kind), Of(renaming, kind)) {
      assert TracksNames(Of(naming, kind), Of(other, kind), Of(renaming, kind));
    }
  }

  lemma NewNameTracks(names: map<string, string>, other: map<string, string>, renaming: map<string, string>, n: string,
                      number: string)
    requires InjectiveNames(renaming) && n in renaming && TracksNames(names, other, renaming) && n !in names
    ensures TracksNames(names[n := number], other[renaming[n] := number], renaming)
  {
  }

  lemma SeeNamesTracks(kind: string, names: map<string, string>, other: map<string, string>,
                       renaming: map<string, string>, n: string)
    requires InjectiveNames(renaming) && n in renaming && TracksNames(names, other, renaming)
    ensures |names| == |other| && (n in names <==> renaming[n] in other)
    ensures n in names ==> names[n] == other[renaming[n]]
    ensures n in names
         || TracksNames(names[n := Canonical(kind, |names| + 1)], other[renaming[n] := Canonical(kind, |other| + 1)],
                        renaming)
  {
    hide Canonical;
    if n !in names {
      NewNameTracks(names, other, renaming, n, Canonical(kind, |names| + 1));
    }
  }

  lemma {:induction false} NormBlind(v: Json, field: string, naming: Naming, other: Naming, renaming: Naming)
    requires WellFormed(v) && Injective(renaming) && Covers(renaming, Labels(v)) && Tracks(naming, other, renaming)
    ensures var a, b := Norm(v, field, naming), Norm(Rename(v, renaming), field, other);
            a.result == b.result && Tracks(a.naming, b.naming, renaming)
  {
    hide Injective, Tracks;
    match v
    case List(items) => NormItemsBlind(items, field, naming, other, renaming);
    case Obj(fields) =>
      match LabelOf(fields) {
        case Some(l) =>
          LabelledIsPlaceholder(fields);
          PlaceholderLabel(Label(l.kind, NewName(renaming, l)));
          SeeTracks(naming, other, renaming, l);
        case None =>
          RenameKeepsShape(fields, renaming);
          NormFieldsBlind(fields, naming, other, renaming);
      }
    case _ =>
  }

  lemma {:induction false} NormItemsBlind(items: Items, field: string, naming: Naming, other: Naming, renaming: Naming)
    requires WellFormedItems(items) && Injective(renaming) && Covers(renaming, ItemLabels(items))
             && Tracks(naming, other, renaming)
    ensures var a, b := NormItems(items, field, naming), NormItems(RenameItems(items, renaming), field, other);
            a.result == b.result && Tracks(a.naming, b.naming, renaming)
  {
    hide Injective, Tracks;
    match items
    case NoItems =>
    case Item(head, tail) =>
      NormBlind(head, field, naming, other, renaming);
      NormSucceeds(head, field, naming);
      NormItemsBlind(tail, field, Norm(head, field, naming).naming, Norm(Rename(head, renaming), field, other).naming,
                     renaming);
  }

  lemma {:induction false} NormFieldsBlind(fields: Fields, naming: Naming, other: Naming, renaming: Naming)
    requires WellFormedFields(fields) && Injective(renaming) && Covers(renaming, FieldLabels(fields))
             && Tracks(naming, other, renaming)
    ensures var a, b := NormFields(fields, naming), NormFields(RenameFields(fields, renaming), other);
            a.result == b.result && Tracks(a.naming, b.naming, renaming)
  {
    hide Injective, Tracks;
    match fields
    case NoFields =>
    case Field(key, value, rest) =>
      NormBlind(value, key, naming, other, renaming);
      NormSucceeds(value, key, naming);
      NormFieldsBlind(rest, Norm(value, key, naming).naming, Norm(Rename(value, renaming), key, other).naming,
                      renaming);
  }

  // ----- nor a masked port

  lemma {:induction false} NormMasked(v: Json, field: string, naming: Naming)
    requires WellFormed(v)
    ensures Norm(Mask(v, field), field, naming) == Norm(v, field, naming) && WellFormed(Mask(v, field))
  {
    match v
    case List(items) => NormItemsMasked(items, field, naming);
    case Obj(fields) =>
      if LabelOf(fields).None? {
        NormFieldsMasked(fields, naming);
        MaskKeepsShape(fields);
        MaskKeepsError(fields);
      }
    case _ =>
  }

  lemma {:induction false} NormItemsMasked(items: Items, field: string, naming: Naming)
    requires WellFormedItems(items)
    ensures NormItems(MaskItems(items, field), field, naming) == NormItems(items, field, naming)
    ensures WellFormedItems(MaskItems(items, field))
  {
    match items
    case NoItems =>
    case Item(head, tail) =>
      NormMasked(head, field, naming);
      NormItemsMasked(tail, field, Norm(head, field, naming).naming);
  }

  lemma {:induction false} NormFieldsMasked(fields: Fields, naming: Naming)
    requires WellFormedFields(fields)
    ensures NormFields(MaskFields(fields), naming) == NormFields(fields, naming)
    ensures WellFormedFields(MaskFields(fields))
  {
    match fields
    case NoFields =>
    case Field(key, value, rest) =>
      NormMasked(value, key, naming);
      NormFieldsMasked(rest, Norm(value, key, naming).naming);
  }

  lemma MaskKeepsError(fields: Fields)
    requires ErrorOf(fields).None? && LabelOf(fields).None?
    ensures ErrorOf(MaskFields(fields)).None?
  {
    var masked := MaskFields(fields);
    if NameAndType(masked) {
      NotPorts();
      hide PortField;
      assert masked == Field(fields.key, Mask(fields.value, fields.key), MaskFields(fields.rest));
      assert masked.rest
             == Field(fields.rest.key, Mask(fields.rest.value, fields.rest.key), MaskFields(fields.rest.rest));
      MaskKeepsText(fields.value, "name");
      MaskKeepsText(fields.rest.value, "type");
    }
  }

  // ----- equal normal forms are explained by a bijection

  ghost function Preimage(names: map<string, string>, image: string): string
    requires image in names.Values
  {
    var n :| n in names && names[n] == image;
    n
  }

  /** Send each name to the name that `q` numbers as `p` numbers it. */
  ghost function BridgeNames(p: map<string, string>, q: map<string, string>): map<string, string> {
    map n | n in p && p[n] in q.Values :: Preimage(q, p[n])
  }

  ghost function Bridge(p: Naming, q: Naming): Naming {
    map kind | kind in p :: BridgeNames(p[kind], Of(q, kind))
  }

  lemma BridgeInjective(p: Naming, q: Naming)
    requires Injective(p)
    ensures Injective(Bridge(p, q))
  {
    forall kind ensures InjectiveNames(Of(Bridge(p, q), kind)) {
      assert InjectiveNames(Of(p, kind));
    }
  }

  lemma BridgeLabel(p: Naming, q: Naming, kind: string, a: string, b: string)
    requires Injective(q) && a in Of(p, kind) && b in Of(q, kind) && Of(p, kind)[a] == Of(q, kind)[b]
    ensures a in Of(Bridge(p, q), kind) && Of(Bridge(p, q), kind)[a] == b
  {
    assert InjectiveNames(Of(q, kind));
    assert Of(q, kind)[b] in Of(q, kind).Values;
  }

  lemma {:induction false} Factor(x: Json, y: Json, p: Naming, q: Naming)
    requires Injective(q) && Covers(p, Labels(x)) && Covers(q, Labels(y)) && Rename(x, p) == Rename(y, q)
    ensures Covers(Bridge(p, q), Labels(x)) && Rename(x, Bridge(p, q)) == y
  {
    hide Bridge, Injective;
    match x
    case List(items) => FactorItems(items, y.items, p, q);
    case Obj(fields) =>
      RenameKeepsKind(y, q);
      FactorObject(fields, y.fields, p, q);
      if LabelOf(fields).None? {
        FactorFields(fields, y.fields, p, q);
      }
    case _ =>
  }

  /** Objects that rename alike are both placeholders or both not. */
  lemma FactorObject(x: Fields, y: Fields, p: Naming, q: Naming)
    requires Injective(q) && Covers(p, Labels(Obj(x))) && Covers(q, Labels(Obj(y)))
             && Rename(Obj(x), p) == Rename(Obj(y), q)
    ensures LabelOf(x).Some? <==> LabelOf(y).Some?
    ensures LabelOf(x).Some? ==> Covers(Bridge(p, q), Labels(Obj(x))) && Rename(Obj(x), Bridge(p, q)) == Obj(y)
  {
    hide Bridge, Injective;
    RenameKeepsShape(x, p);
    RenameKeepsShape(y, q);
    if LabelOf(x).Some? {
      LabelledIsPlaceholder(x);
      var l := LabelOf(x).value;
      PlaceholderLabel(Label(l.kind, NewName(p, l)));
      assert LabelOf(y).Some?;
      LabelledIsPlaceholder(y);
      var m := LabelOf(y).value;
      PlaceholderLabel(Label(m.kind, NewName(q, m)));
      BridgeLabel(p, q, l.kind, l.name, m.name);
    } else if LabelOf(y).Some? {
      LabelledIsPlaceholder(y);
      var m := LabelOf(y).value;
      PlaceholderLabel(Label(m.kind, NewName(q, m)));
    }
  }

  lemma {:induction false} FactorItems(x: Items, y: Items, p: Naming, q: Naming)
    requires Injective(q) && Covers(p, ItemLabels(x)) && Covers(q, ItemLabels(y))
             && RenameItems(x, p) == RenameItems(y, q)
    ensures Covers(Bridge(p, q), ItemLabels(x)) && RenameItems(x, Bridge(p, q)) == y
  {
    hide Bridge, Injective;
    match x
    case NoItems =>
    case Item(head, tail) =>
      Factor(head, y.head, p, q);
      FactorItems(tail, y.tail, p, q);
  }

  lemma {:induction false} FactorFields(x: Fields, y: Fields, p: Naming, q: Naming)
    requires Injective(q) && Covers(p, FieldLabels(x)) && Covers(q, FieldLabels(y))
             && RenameFields(x, p) == RenameFields(y, q)
    ensures Covers(Bridge(p, q), FieldLabels(x)) && RenameFields(x, Bridge(p, q)) == y
  {
    hide Bridge, Injective;
    match x
    case NoFields =>
    case Field(_, value, rest) =>
      Factor(value, y.value, p, q);
      FactorFields(rest, y.rest, p, q);
  }

  // ----- the main results

  /** What a fresh normalizer makes of a document. */
  function Normal(v: Json): Json
    requires WellFormed(v)
  {
    NormSucceeds(v, "", map[]);
    Norm(v, "", map[]).result.value
  }

  lemma NothingNamed()
    ensures Numbered(map[]) && forall renaming :: Tracks(map[], map[], renaming)
  {
  }

  lemma NumberedInjective(naming: Naming)
    requires Numbered(naming)
    ensures Injective(naming)
  {
    forall kind ensures InjectiveNames(Of(naming, kind)) {
      assert NumberedNames(kind, Of(naming, kind));
    }
  }

  /** Consistent renaming of placeholders never shows. */
  lemma RenamingIsInvisible(v: Json, renaming: Naming)
    requires WellFormed(v) && Injective(renaming) && Covers(renaming, Labels(v))
    ensures WellFormed(Rename(v, renaming)) && Normal(Rename(v, renaming)) == Normal(v)
  {
    hide Injective, Covers, Tracks;
    NothingNamed();
    NormBlind(v, "", map[], map[], renaming);
    NormSucceeds(v, "", map[]);
    NormSucceeds(Rename(v, renaming), "", map[]);
  }

  /**
   Two documents have the same normal form exactly when, ephemeral ports masked, a bijection of
   placeholder names within each kind turns one into the other.
   */
  lemma NormalFormsAgree(a: Json, b: Json)
    requires WellFormed(a) && WellFormed(b)
    ensures Normal(a) == Normal(b) <==> AlphaEquivalent(Mask(a, ""), Mask(b, ""))
  {
    hide Injective, Covers, Numbered, Norm, Mask, Rename, Labels, Bridge;
    NothingNamed();
    NormMasked(a, "", map[]);
    NormMasked(b, "", map[]);
    if Normal(a) == Normal(b) {
      var p, q := Norm(a, "", map[]).naming, Norm(b, "", map[]).naming;
      NormRenames(a, "", map[]);
      NormRenames(b, "", map[]);
      MaskKeeps(a, "");
      MaskKeeps(b, "");
      NumberedInjective(p);
      NumberedInjective(q);
      Factor(Mask(a, ""), Mask(b, ""), p, q);
      BridgeInjective(p, q);
    }
    if AlphaEquivalent(Mask(a, ""), Mask(b, "")) {
      var renaming :| Injective(renaming) && Covers(renaming, Labels(Mask(a, "")))
        && Rename(Mask(a, ""), renaming) == Mask(b, "");
      RenamingIsInvisible(Mask(a, ""), renaming);
    }
  }

  /** Normalizing a normal form changes nothing. */
  lemma NormalIsIdempotent(v: Json)
    requires WellFormed(v)
    ensures WellFormed(Normal(v)) && Normal(Normal(v)) == Normal(v)
  {
    hide Injective, Covers, Numbered, Norm, Mask, Rename, Labels;
    NothingNamed();
    NormMasked(v, "", map[]);
    NormRenames(v, "", map[]);
    MaskKeeps(v, "");
    NumberedInjective(Norm(v, "", map[]).naming);
    RenamingIsInvisible(Mask(v, ""), Norm(v, "", map[]).naming);
  }

  // ----- the normalizer

  /** One normalizer serves a whole model, so names are shared between all of its parts. */
  class PlaceholderNormalizer {
    var values: Naming

    constructor ()
      ensures values == map[]
    {
      values := map[];
    }

    method Normalize(value: Json, field: string) returns (r: Result<Json, SchemaError>)
      modifies this
      ensures Outcome(r, values) == Norm(value, field, old(values))
      decreases value
    {
      match value
      case Num(n) =>
        r := Ok(MaskNumber(n, field));
      case List(items) =>
        var o := NormalizeItems(items, field);
        r := match o case Ok(i) => Ok(List(i)) case Err(e) => Err(e);
      case Obj(fields) =>
        if ErrorOf(fields).Some? {
          r := Err(ErrorOf(fields).value);
        } else if LabelOf(fields).Some? {
          var kind, raw := LabelOf(fields).value.kind, LabelOf(fields).value.name;
          if kind !in values {
            values := values[kind := map[]];
          }
          var mapping := values[kind];
          if raw !in mapping {
            mapping := mapping[raw := Canonical(kind, |mapping| + 1)];
            values := values[kind := mapping];
          }
          r := Ok(Placeholder(Label(kind, mapping[raw])));
        } else {
          var o := NormalizeFields(fields);
          r := match o case Ok(f) => Ok(Obj(f)) case Err(e) => Err(e);
        }
      case _ =>
        r := Ok(value);
    }

    method NormalizeItems(items: Items, field: string) returns (r: Result<Items, SchemaError>)
      modifies this
      ensures Outcome(r, values) == NormItems(items, field, old(values))
      decreases items
    {
      match items
      case NoItems =>
        r := Ok(NoItems);
      case Item(head, tail) =>
        var h := Normalize(head, field);
        if h.Err? {
          return Err(h.error);
        }
        var t := NormalizeItems(tail, field);
        r := match t case Ok(rest) => Ok(Item(h.value, rest)) case Err(e) => Err(e);
    }

    method NormalizeFields(fields: Fields) returns (r: Result<Fields, SchemaError>)
      modifies this
      ensures Outcome(r, values) == NormFields(fields, old(values))
      decreases fields
    {
      match fields
      case NoFields =>
        r := Ok(NoFields);
      case Field(key, value, rest) =>
        var v := Normalize(value, key);
        if v.Err? {
          return Err(v.error);
        }
        var others := NormalizeFields(rest);
        r := match others case Ok(o) => Ok(Field(key, v.value, o)) case Err(e) => Err(e);
    }
  }
}
