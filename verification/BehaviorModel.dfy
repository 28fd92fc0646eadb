/** The semantic identity of a learned model: rebased clocks, selected members, one shared normalizer. */
module BehaviorModel {
  import opened Prelude
  import opened Sorting
  import opened Json
  import opened BehaviorDiff

  // ----- timing windows

  datatype Window = Window(earliest: Option<int>, latest: Option<int>)

  function ShiftTime(t: Option<int>, d: int): Option<int> {
    match t
    case Some(v) => Some(v + d)
    case None => None
  }

  function Shift(w: Window, d: int): Window {
    Window(ShiftTime(w.earliest, d), ShiftTime(w.latest, d))
  }

  function ShiftAll(ws: seq<Window>, d: int): (r: seq<Window>)
    ensures |r| == |ws| && forall i :: 0 <= i < |r| ==> r[i] == Shift(ws[i], d)
  {
    Map((w: Window) => Shift(w, d), ws)
  }

  function Earlier(a: Option<int>, b: Option<int>): Option<int> {
    if a.None? then b else if b.None? then a else Some(Min(a.value, b.value))
  }

  function Least(ws: seq<Window>): Option<int> {
    if ws == [] then None
    else Earlier(Least(ws[..|ws| - 1]), Earlier(ws[|ws| - 1].earliest, ws[|ws| - 1].latest))
  }

  function Origin(ws: seq<Window>): int {
    match Least(ws)
    case Some(v) => v
    case None => 0
  }

  function Rebase(ws: seq<Window>): (r: seq<Window>) {
    ShiftAll(ws, -Origin(ws))
  }

  ghost predicate Mentions(w: Window, t: int) {
    w.earliest == Some(t) || w.latest == Some(t)
  }

  lemma {:induction false} LeastFacts(ws: seq<Window>)
    ensures Least(ws).None? <==> forall i :: 0 <= i < |ws| ==> ws[i] == Window(None, None)
    ensures Least(ws).Some? ==> exists i :: 0 <= i < |ws| && Mentions(ws[i], Least(ws).value)
    ensures Least(ws).Some? ==> forall i, t :: 0 <= i < |ws| && Mentions(ws[i], t) ==> Least(ws).value <= t
  {
    if ws != [] {
      var n := |ws| - 1;
      var front := ws[..n];
      LeastFacts(front);
      assert forall i :: 0 <= i < n ==> front[i] == ws[i];
      if Least(front).Some? {
        var i :| 0 <= i < n && Mentions(front[i], Least(front).value);
        assert Mentions(ws[i], Least(front).value);
      }
      if Least(ws).Some? && Least(ws) != Least(front) {
        assert Mentions(ws[n], Least(ws).value);
      }
    }
  }

  lemma {:induction false} LeastShifts(ws: seq<Window>, d: int)
    ensures Least(ShiftAll(ws, d)) == ShiftTime(Least(ws), d)
  {
    if ws != [] {
      LeastShifts(ws[..|ws| - 1], d);
      assert ShiftAll(ws, d)[..|ws| - 1] == ShiftAll(ws[..|ws| - 1], d);
    }
  }

  /** Once rebased, the first time mentioned anywhere is zero. */
  lemma RebasedStartsAtZero(ws: seq<Window>)
    ensures forall i, t :: 0 <= i < |ws| && Mentions(Rebase(ws)[i], t) ==> t >= 0
    ensures Least(ws).Some? ==> exists i :: 0 <= i < |ws| && Mentions(Rebase(ws)[i], 0)
  {
    LeastShifts(ws, -Origin(ws));
    assert Least(Rebase(ws)) == ShiftTime(Least(ws), -Origin(ws));
    LeastFacts(Rebase(ws));
    hide Least, Rebase;
    if Least(ws).Some? {
      assert Least(Rebase(ws)) == Some(0);
    } else {
      assert Least(Rebase(ws)) == None;
    }
  }

  /** Windows rebase alike exactly when one common shift turns one list into the other. */
  lemma RebasedAgree(a: seq<Window>, b: seq<Window>)
    ensures Rebase(a) == Rebase(b) <==> exists d :: b == ShiftAll(a, d)
  {
    if Rebase(a) == Rebase(b) {
      EqualRebase(a, b, Origin(a), Origin(b));
    }
    if d :| b == ShiftAll(a, d) {
      RebaseShifted(a, d);
    }
  }

  lemma EqualRebase(a: seq<Window>, b: seq<Window>, x: int, y: int)
    requires ShiftAll(a, -x) == ShiftAll(b, -y)
    ensures b == ShiftAll(a, y - x)
  {
  }

  lemma RebaseShifted(a: seq<Window>, d: int)
    ensures Rebase(ShiftAll(a, d)) == Rebase(a)
  {
    LeastShifts(a, d);
    LeastFacts(a);
    hide Least;
  }

  /** A window object, rewritten in place. */
  class TimingWindow {
    var earliest: Option<int>
    var latest: Option<int>

    constructor (earliest: Option<int>, latest: Option<int>)
      ensures Snapshot() == Window(earliest, latest)
    {
      this.earliest, this.latest := earliest, latest;
    }

    ghost function Snapshot(): Window
      reads this
    {
      Window(earliest, latest)
    }

    method Subtract(origin: int)
      modifies this
      ensures Snapshot() == Shift(old(Snapshot()), -origin)
    {
      if earliest.Some? {
        earliest := Some(earliest.value - origin);
      }
      if latest.Some? {
        latest := Some(latest.value - origin);
      }
    }
  }

  ghost function Snapshots(windows: seq<TimingWindow>): (r: seq<Window>)
    reads windows
    ensures |r| == |windows| && forall i :: 0 <= i < |r| ==> r[i] == windows[i].Snapshot()
  {
    if windows == [] then [] else Snapshots(windows[..|windows| - 1]) + [windows[|windows| - 1].Snapshot()]
  }

  method NormalizeTiming(windows: seq<TimingWindow>)
    requires forall i, j :: 0 <= i < j < |windows| ==> windows[i] != windows[j]
    modifies windows
    ensures Snapshots(windows) == Rebase(old(Snapshots(windows)))
  {
    hide Least, Snapshots;
    var least := LeastStart(windows);
    var origin := match least case Some(v) => v case None => 0;
    SubtractAll(windows, origin);
  }

  method LeastStart(windows: seq<TimingWindow>) returns (least: Option<int>)
    ensures least == Least(Snapshots(windows))
  {
    hide Snapshots;
    ghost var ws := Snapshots(windows);
    least := None;
    for i := 0 to |windows|
      invariant least == Least(ws[..i])
    {
      assert ws[..i + 1][..i] == ws[..i] && ws[i] == windows[i].Snapshot();
      least := Earlier(least, Earlier(windows[i].earliest, windows[i].latest));
    }
    assert ws[..|windows|] == ws;
  }

  method SubtractAll(windows: seq<TimingWindow>, origin: int)
    requires forall i, j :: 0 <= i < j < |windows| ==> windows[i] != windows[j]
    modifies windows
    ensures Snapshots(windows) == ShiftAll(old(Snapshots(windows)), -origin)
  {
    hide Snapshots;
    ghost var before := Snapshots(windows);
    for i := 0 to |windows|
      invariant forall k :: 0 <= k < |windows| ==>
        windows[k].Snapshot() == if k < i then Shift(before[k], -origin) else before[k]
    {
      windows[i].Subtract(origin);
    }
  }

  // ----- the semantic model

  datatype Response = Response(status: Json, optional: Json)

  datatype Transaction = Transaction(
    requestMethod: Json, direction: Json, flow: Json, requestHasSdp: Json, responses: seq<Response>, window: Window)

  datatype Revision = Revision(role: Json, requestMethod: Json, status: Json, media: Json)

  datatype MediaPacket = MediaPacket(ssrc: Json, sequence: Json, timestamp: Json, payloadType: Json,
                                     offset: Option<int>)

  datatype Model = Model(
    state: Json, teardownInitiator: Json, transactions: seq<Transaction>, revisions: seq<Revision>,
      media: seq<MediaPacket>)

  datatype Semantics = Semantics(state: Json, teardownInitiator: Json, transactions: Items, revisions: Items,
                                 media: Items)

  function Time(t: Option<int>): Json {
    match t
    case Some(v) => Num(v)
    case None => Null
  }

  function Join(front: seq<Json>, rest: Items): Items {
    if front == [] then rest else Join(front[..|front| - 1], Item(front[|front| - 1], rest))
  }

  function ItemsOf(docs: seq<Json>): Items {
    Join(docs, NoItems)
  }

  function ResponseDocument(r: Response): Json {
    Obj(Field("optional", r.optional, Field("status", r.status, NoFields)))
  }

  function TransactionDocument(t: Transaction, w: Window): Json {
    Obj(Field("direction", t.direction, Field("flow", t.flow, Field("method", t.requestMethod,
      Field("requestHasSdp", t.requestHasSdp, Field("responses", List(ItemsOf(Map(ResponseDocument, t.responses))),
        Field("timingWindowMs", Obj(Field("earliest", Time(w.earliest), Field("latest", Time(w.latest), NoFields))),
              NoFields)))))))
  }

  function RevisionDocument(r: Revision): Json {
    Obj(Field("media", r.media,
              Field("method", r.requestMethod, Field("role", r.role, Field("status", r.status, NoFields)))))
  }

  function PacketDocument(p: MediaPacket, offset: Option<int>): Json {
    Obj(Field("offsetMs", Time(offset), Field("payloadType", p.payloadType, Field("sequence", p.sequence,
      Field("ssrc", p.ssrc, Field("timestamp", p.timestamp, NoFields))))))
  }

  // ----- what is selected

  /** An object with exactly these members. */
  ghost predicate Has(v: Json, keys: set<string>) {
    v.Obj? && Keys(v.fields) == keys
  }

  function Member(v: Json, key: string): Json {
    if v.Obj? then Get(v.fields, key) else Null
  }

  lemma {:induction false} JoinedAt(front: seq<Json>, rest: Items, i: nat)
    requires i < |front|
    ensures Length(Join(front, rest)) == |front| + Length(rest) && At(Join(front, rest), i) == front[i]
    ensures forall k: nat :: k < Length(rest) ==> At(Join(front, rest), |front| + k) == At(rest, k)
  {
    var n := |front| - 1;
    var more := Item(front[n], rest);
    if n == 0 {
      assert front[..0] == [];
    } else {
      JoinedAt(front[..n], more, Min(i, n - 1));
      assert At(Join(front[..n], more), n + 0) == At(more, 0);
      forall k: nat | k < Length(rest) ensures At(Join(front, rest), |front| + k) == At(rest, k) {
        assert At(Join(front[..n], more), n + (k + 1)) == At(more, k + 1);
      }
    }
  }

  lemma ListedAll(docs: seq<Json>)
    ensures Length(ItemsOf(docs)) == |docs| && forall i :: 0 <= i < |docs| ==> At(ItemsOf(docs), i) == docs[i]
  {
    if docs != [] {
      JoinedAt(docs, NoItems, 0);
    }
    forall i | 0 <= i < |docs| ensures At(ItemsOf(docs), i) == docs[i] {
      JoinedAt(docs, NoItems, i);
    }
  }

  lemma ResponseDocumentIs(r: Response)
    ensures var d := ResponseDocument(r);
            Has(d, {"status", "optional"}) && Member(d, "status") == r.status && Member(d, "optional") == r.optional
  {
    var f0 := ResponseDocument(r).fields;
    var f1 := f0.rest;
    assert Get(f0, "status") == Get(f1, "status") == f1.value;
    assert Keys(f1) == {"status"};
  }

  /** A transaction is compared by its method, direction, flow, description flag, responses and rebased window. */
  lemma TransactionDocumentIs(t: Transaction, w: Window)
    ensures var d := TransactionDocument(t, w);
            && Has(d, {"method", "direction", "flow", "timingWindowMs", "requestHasSdp", "responses"})
            && Member(d, "method") == t.requestMethod && Member(d, "direction") == t.direction
            && Member(d, "flow") == t.flow && Member(d, "requestHasSdp") == t.requestHasSdp
            && var window, responses := Member(d, "timingWindowMs"), Member(d, "responses");
               && Has(window, {"earliest", "latest"})
               && Member(window, "earliest") == Time(w.earliest) && Member(window, "latest") == Time(w.latest)
               && responses.List? && Length(responses.items) == |t.responses|
               && forall i :: 0 <= i < |t.responses| ==>
                    var response := At(responses.items, i);
                    && Has(response, {"status", "optional"})
                    && Member(response, "status") == t.responses[i].status
                    && Member(response, "optional") == t.responses[i].optional
  {
    TransactionMembers(t, w);
    TransactionParts(t, w);
    hide TransactionDocument, Time;
  }

  lemma TransactionMembers(t: Transaction, w: Window)
    ensures var d := TransactionDocument(t, w);
            && Has(d, {"method", "direction", "flow", "timingWindowMs", "requestHasSdp", "responses"})
            && Member(d, "method") == t.requestMethod && Member(d, "direction") == t.direction
            && Member(d, "flow") == t.flow && Member(d, "requestHasSdp") == t.requestHasSdp
            && Member(d, "responses") == List(ItemsOf(Map(ResponseDocument, t.responses)))
            && Member(d, "timingWindowMs")
               == Obj(Field("earliest", Time(w.earliest), Field("latest", Time(w.latest), NoFields)))
  {
    hide ItemsOf, Time;
    var f0 := TransactionDocument(t, w).fields;
    var f1 := f0.rest;
    var f2 := f1.rest;
    var f3 := f2.rest;
    var f4 := f3.rest;
    var f5 := f4.rest;
    assert Get(f0, "flow") == Get(f1, "flow") == f1.value;
    assert Get(f0, "method") == Get(f1, "method") == Get(f2, "method");
    assert Get(f0, "requestHasSdp") == Get(f1, "requestHasSdp") == Get(f2, "requestHasSdp") == Get(f3, "requestHasSdp");
    assert Get(f0, "responses") == Get(f1, "responses") == Get(f2, "responses") == Get(f3, "responses")
           == Get(f4, "responses");
    assert Get(f0, "timingWindowMs") == Get(f1, "timingWindowMs") == Get(f2, "timingWindowMs")
           == Get(f3, "timingWindowMs") == Get(f4, "timingWindowMs") == Get(f5, "timingWindowMs");
    assert Keys(f5) == {"timingWindowMs"};
    assert Keys(f3) == {"requestHasSdp", "responses", "timingWindowMs"};
    assert Keys(f1) == {"flow", "method", "requestHasSdp", "responses", "timingWindowMs"};
  }

  lemma TransactionParts(t: Transaction, w: Window)
    ensures var window := Obj(Field("earliest", Time(w.earliest), Field("latest", Time(w.latest), NoFields)));
            && Has(window, {"earliest", "latest"})
            && Member(window, "earliest") == Time(w.earliest) && Member(window, "latest") == Time(w.latest)
    ensures var items := ItemsOf(Map(ResponseDocument, t.responses));
            && Length(items) == |t.responses|
            && forall i :: 0 <= i < |t.responses| ==>
                 var response := At(items, i);
                 && Has(response, {"status", "optional"})
                 && Member(response, "status") == t.responses[i].status
                 && Member(response, "optional") == t.responses[i].optional
  {
    var rest := Field("latest", Time(w.latest), NoFields);
    assert Keys(rest) == {"latest"};
    assert Get(rest, "latest") == rest.value;
    ListedAll(Map(ResponseDocument, t.responses));
    hide ItemsOf, Time, ResponseDocument;
    forall i | 0 <= i < |t.responses|
      ensures var response := At(ItemsOf(Map(ResponseDocument, t.responses)), i);
              && Has(response, {"status", "optional"})
              && Member(response, "status") == t.responses[i].status
              && Member(response, "optional") == t.responses[i].optional
    {
      ResponseDocumentIs(t.responses[i]);
    }
  }

  /** A revision is compared by its role, method, status and media. */
  lemma RevisionDocumentIs(r: Revision)
    ensures var d := RevisionDocument(r);
            && Has(d, {"role", "method", "status", "media"})
            && Member(d, "role") == r.role && Member(d, "method") == r.requestMethod
            && Member(d, "status") == r.status && Member(d, "media") == r.media
  {
    var f0 := RevisionDocument(r).fields;
    var f1 := f0.rest;
    var f2 := f1.rest;
    var f3 := f2.rest;
    assert Get(f0, "method") == Get(f1, "method") == f1.value;
    assert Get(f0, "role") == Get(f1, "role") == Get(f2, "role");
    assert Get(f0, "status") == Get(f1, "status") == Get(f2, "status") == Get(f3, "status");
    assert Keys(f3) == {"status"};
    assert Keys(f1) == {"method", "role", "status"};
  }

  /** A media packet is compared by its source, sequence, timestamp, payload type and rebased offset. */
  lemma PacketDocumentIs(p: MediaPacket, offset: Option<int>)
    ensures var d := PacketDocument(p, offset);
            && Has(d, {"ssrc", "sequence", "timestamp", "payloadType", "offsetMs"})
            && Member(d, "ssrc") == p.ssrc && Member(d, "sequence") == p.sequence
            && Member(d, "timestamp") == p.timestamp && Member(d, "payloadType") == p.payloadType
            && Member(d, "offsetMs") == match offset case Some(v) => Num(v) case None => Null
  {
    var f0 := PacketDocument(p, offset).fields;
    var f1 := f0.rest;
    var f2 := f1.rest;
    var f3 := f2.rest;
    var f4 := f3.rest;
    assert Get(f0, "payloadType") == Get(f1, "payloadType") == f1.value;
    assert Get(f0, "sequence") == Get(f1, "sequence") == Get(f2, "sequence");
    assert Get(f0, "ssrc") == Get(f1, "ssrc") == Get(f2, "ssrc") == Get(f3, "ssrc");
    assert Get(f0, "timestamp") == Get(f1, "timestamp") == Get(f2, "timestamp") == Get(f3, "timestamp")
           == Get(f4, "timestamp");
    assert Keys(f4) == {"timestamp"};
    assert Keys(f2) == {"sequence", "ssrc", "timestamp"};
    assert Keys(f0) == {"offsetMs", "payloadType", "sequence", "ssrc", "timestamp"};
  }

  function Windows(m: Model): seq<Window> {
    Map((t: Transaction) => t.window, m.transactions)
  }

  /** Media offsets are rebased the way windows are, with one time each. */
  function Offsets(m: Model): seq<Window> {
    Map((p: MediaPacket) => Window(p.offset, None), m.media)
  }

  function TransactionDocuments(m: Model): seq<Json> {
    var ws := Rebase(Windows(m));
    seq(|m.transactions|, i requires 0 <= i < |m.transactions| => TransactionDocument(m.transactions[i], ws[i]))
  }

  function RevisionDocuments(m: Model): seq<Json> {
    Map(RevisionDocument, m.revisions)
  }

  function PacketDocuments(m: Model): seq<Json> {
    var ws := Rebase(Offsets(m));
    seq(|m.media|, i requires 0 <= i < |m.media| => PacketDocument(m.media[i], ws[i].earliest))
  }

  /** The whole model as one document, in the order its parts are normalized. */
  function Document(m: Model): Json {
    List(Item(List(ItemsOf(TransactionDocuments(m))), Item(List(ItemsOf(RevisionDocuments(m))),
      Item(List(ItemsOf(PacketDocuments(m))), NoItems))))
  }

  /** One normalizer runs over the transactions, then the revisions, then the media. */
  function SemanticsOf(m: Model): Result<Semantics, SchemaError> {
    var t := NormItems(ItemsOf(TransactionDocuments(m)), "", map[]);
    if t.result.Err? then Err(t.result.error)
    else
      var r := NormItems(ItemsOf(RevisionDocuments(m)), "", t.naming);
      if r.result.Err? then Err(r.result.error)
      else
        var p := NormItems(ItemsOf(PacketDocuments(m)), "", r.naming);
        if p.result.Err? then Err(p.result.error)
        else Ok(Semantics(m.state, m.teardownInitiator, t.result.value, r.result.value, p.result.value))
  }

  lemma HeadThenTail(head: Json, tail: Items, naming: Naming)
    requires Norm(head, "", naming).result.Ok?
    ensures var t := NormItems(tail, "", Norm(head, "", naming).naming);
            && NormItems(Item(head, tail), "", naming).naming == t.naming
            && NormItems(Item(head, tail), "", naming).result
               == match t.result case Ok(r) => Ok(Item(Norm(head, "", naming).result.value, r)) case Err(e) => Err(e)
  {
    hide Norm;
  }

  lemma ListStep(head: Items, tail: Items, naming: Naming)
    requires NormItems(head, "", naming).result.Ok?
    ensures var h := NormItems(head, "", naming);
            var t := NormItems(tail, "", h.naming);
            && NormItems(Item(List(head), tail), "", naming).naming == t.naming
            && NormItems(Item(List(head), tail), "", naming).result
               == match t.result case Ok(r) => Ok(Item(List(h.result.value), r)) case Err(e) => Err(e)
  {
    var h := NormItems(head, "", naming);
    assert Norm(List(head), "", naming) == Outcome(Ok(List(h.result.value)), h.naming);
    HeadThenTail(List(head), tail, naming);
    hide Norm, NormItems;
  }

  lemma OneMoreList(head: Items, tail: Items)
    ensures WellFormedItems(Item(List(head), tail)) <==> WellFormedItems(head) && WellFormedItems(tail)
  {
  }

  /** A model is refused exactly when some part holds a malformed placeholder. */
  lemma SemanticsSucceed(m: Model)
    ensures SemanticsOf(m).Ok? <==> WellFormed(Document(m))
  {
    var t, r, p := ItemsOf(TransactionDocuments(m)), ItemsOf(RevisionDocuments(m)), ItemsOf(PacketDocuments(m));
    assert WellFormed(Document(m)) <==> WellFormedItems(Item(List(t), Item(List(r), Item(List(p), NoItems))));
    OneMoreList(t, Item(List(r), Item(List(p), NoItems)));
    OneMoreList(r, Item(List(p), NoItems));
    OneMoreList(p, NoItems);
    hide NormItems, WellFormedItems, ItemsOf, TransactionDocuments, RevisionDocuments, PacketDocuments;
    var tn := NormItems(t, "", map[]).naming;
    NormItemsSucceeds(t, "", map[]);
    NormItemsSucceeds(r, "", tn);
    NormItemsSucceeds(p, "", NormItems(r, "", tn).naming);
  }

  /** The semantics is the normal form of the model seen as one document. */
  lemma SemanticsAreNormal(m: Model)
    requires WellFormed(Document(m))
    ensures SemanticsOf(m).Ok?
    ensures var s := SemanticsOf(m).value;
            && s.state == m.state && s.teardownInitiator == m.teardownInitiator
            && Normal(Document(m))
               == List(Item(List(s.transactions), Item(List(s.revisions), Item(List(s.media), NoItems))))
  {
    SemanticsSucceed(m);
    var t, r, p := ItemsOf(TransactionDocuments(m)), ItemsOf(RevisionDocuments(m)), ItemsOf(PacketDocuments(m));
    hide ItemsOf, TransactionDocuments, RevisionDocuments, PacketDocuments;
    var tn := NormItems(t, "", map[]).naming;
    var rn := NormItems(r, "", tn).naming;
    assert NormItems(NoItems, "", NormItems(p, "", rn).naming).result == Ok(NoItems);
    assert Norm(Document(m), "", map[]).result
        == match NormItems(Item(List(t), Item(List(r), Item(List(p), NoItems))), "", map[]).result
           case Ok(i) => Ok(List(i)) case Err(e) => Err(e);
    hide NormItems, Norm;
    ListStep(p, NoItems, rn);
    ListStep(r, Item(List(p), NoItems), tn);
    ListStep(t, Item(List(r), Item(List(p), NoItems)), map[]);
  }

  /**
   Two models have the same semantics exactly when their outcomes agree and, clocks rebased and
   ephemeral ports masked, one bijection of placeholder names a kind, shared by transactions,
   revisions and media, turns one into the other.
   */
  lemma SemanticsAgree(a: Model, b: Model)
    requires WellFormed(Document(a)) && WellFormed(Document(b))
    ensures SemanticsOf(a) == SemanticsOf(b) <==>
              && a.state == b.state && a.teardownInitiator == b.teardownInitiator
              && AlphaEquivalent(Mask(Document(a), ""), Mask(Document(b), ""))
  {
    hide SemanticsOf, Document, Normal, AlphaEquivalent, Mask;
    SemanticsAreNormal(a);
    SemanticsAreNormal(b);
    NormalFormsAgree(Document(a), Document(b));
  }

  function Later(m: Model, window: int, media: int): Model {
    m.(transactions := Map((t: Transaction) => t.(window := Shift(t.window, window)), m.transactions),
       media := Map((p: MediaPacket) => p.(offset := ShiftTime(p.offset, media)), m.media))
  }

  /** Starting either clock elsewhere never shows. */
  lemma ClocksAreInvisible(m: Model, window: int, media: int)
    ensures SemanticsOf(Later(m, window, media)) == SemanticsOf(m)
  {
    var l := Later(m, window, media);
    assert Windows(l) == ShiftAll(Windows(m), window);
    assert Offsets(l) == ShiftAll(Offsets(m), media);
    RebasedAgree(Windows(m), Windows(l));
    RebasedAgree(Offsets(m), Offsets(l));
    hide SemanticsOf, Rebase;
    assert TransactionDocuments(l) == TransactionDocuments(m);
    assert PacketDocuments(l) == PacketDocuments(m);
    assert RevisionDocuments(l) == RevisionDocuments(m);
    SemanticsDependOnDocuments(l, m);
  }

  lemma SemanticsDependOnDocuments(a: Model, b: Model)
    requires TransactionDocuments(a) == TransactionDocuments(b) && RevisionDocuments(a) == RevisionDocuments(b)
    requires PacketDocuments(a) == PacketDocuments(b) && a.state == b.state
             && a.teardownInitiator == b.teardownInitiator
    ensures SemanticsOf(a) == SemanticsOf(b)
  {
  }

  // ----- the loops that build it

  lemma {:induction false} JoinHead(front: seq<Json>, rest: Items)
    requires front != []
    ensures Join(front, rest) == Item(front[0], Join(front[1..], rest))
    decreases |front|
  {
    var n := |front| - 1;
    if n > 0 {
      JoinHead(front[..n], Item(front[n], rest));
      assert front[..n][1..] == front[1..][..n - 1];
    }
  }

  /** Prepend what is already normalized to the outcome of the rest. */
  function Prepend(done: seq<Json>, o: Outcome<Items>): Outcome<Items> {
    match o.result
    case Ok(r) => Outcome(Ok(Join(done, r)), o.naming)
    case Err(e) => o
  }

  lemma NextDocument(docs: seq<Json>, i: nat, done: seq<Json>, naming: Naming)
    requires i < |docs|
    ensures var o := Norm(docs[i], "", naming);
            var all := Prepend(done, NormItems(ItemsOf(docs[i..]), "", naming));
            match o.result
            case Ok(h) => all == Prepend(done + [h], NormItems(ItemsOf(docs[i + 1..]), "", o.naming))
            case Err(e) => all == Outcome(Err(e), o.naming)
  {
    JoinHead(docs[i..], NoItems);
    assert docs[i..][1..] == docs[i + 1..];
    hide Norm;
  }

  method NormalizeEach(normalizer: PlaceholderNormalizer, docs: seq<Json>) returns (r: Result<Items, SchemaError>)
    modifies normalizer
    ensures Outcome(r, normalizer.values) == NormItems(ItemsOf(docs), "", old(normalizer.values))
  {
    hide Norm, NormItems;
    var done: seq<Json> := [];
    ghost var whole := NormItems(ItemsOf(docs), "", normalizer.values);
    assert docs[0..] == docs;
    for i := 0 to |docs|
      invariant whole == Prepend(done, NormItems(ItemsOf(docs[i..]), "", normalizer.values))
    {
      NextDocument(docs, i, done, normalizer.values);
      var v := normalizer.Normalize(docs[i], "");
      if v.Err? {
        return Err(v.error);
      }
      done := done + [v.value];
    }
    assert docs[|docs|..] == [];
    NothingLeft(normalizer.values);
    r := Ok(Join(done, NoItems));
  }

  lemma NothingLeft(naming: Naming)
    ensures NormItems(ItemsOf([]), "", naming) == Outcome(Ok(NoItems), naming)
  {
  }

  method SemanticModel(m: Model) returns (r: Result<Semantics, SchemaError>)
    ensures r == SemanticsOf(m)
  {
    hide NormItems;
    var normalizer := new PlaceholderNormalizer();
    var transactions := NormalizeEach(normalizer, TransactionDocuments(m));
    if transactions.Err? {
      return Err(transactions.error);
    }
    var revisions := NormalizeEach(normalizer, RevisionDocuments(m));
    if revisions.Err? {
      return Err(revisions.error);
    }
    var media := NormalizeEach(normalizer, PacketDocuments(m));
    if media.Err? {
      return Err(media.error);
    }
    r := Ok(Semantics(m.state, m.teardownInitiator, transactions.value, revisions.value, media.value));
  }
}
