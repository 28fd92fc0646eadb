/** Reconstructing SIP transactions from captured frames, one builder object a transaction. */
module Transactions {
  import opened Prelude
  import opened Sorting

  datatype Evidence = Evidence(frameNumber: Option<nat>, timestamp: int)

  datatype Endpoint = Endpoint(address: Option<string>, port: Option<nat>, transport: Option<string>)

  /** Decoded SIP fields; a field that could not be decoded is absent. */
  datatype Sip = Sip(
    requestMethod: Option<string>,
    statusCode: Option<int>,
    callId: Option<string>,
    cseqNumber: Option<int>,
    cseqMethod: Option<string>,
    viaBranch: Option<string>,
    fromTag: Option<string>,
    toTag: Option<string>,
    rseq: Option<int>)

  /** `sdp` is the session description text carried, if any, as a number; `intact` frames were decoded completely. */
  datatype Frame = Frame(
    evidence: Evidence, source: Endpoint, destination: Endpoint, sip: Option<Sip>, sdp: Option<int>, intact: bool)

  datatype Flow = Flow(initiatorAddress: string, initiatorPort: nat, responderAddress: string, responderPort: nat,
                       transport: string)

  datatype Base = Base(callId: string, cseqNumber: int, cseqMethod: string, viaBranch: string)

  datatype Key = Key(base: Base, flow: Flow)

  // ----- keys

  function UpperChar(c: char): char {
    if 'a' <= c <= 'z' then (c as int - 'a' as int + 'A' as int) as char else c
  }

  function Upper(s: string): string {
    Map(UpperChar, s)
  }

  const LAST_FRAME: nat := 0x7FFF_FFFF_FFFF_FFFF

  function FrameNumber(f: Frame): nat {
    if f.evidence.frameNumber.Some? then f.evidence.frameNumber.value else LAST_FRAME
  }

  predicate FrameLe(a: Frame, b: Frame) {
    FrameNumber(a) <= FrameNumber(b)
  }

  predicate Located(e: Endpoint) {
    e.address.Some? && e.port.Some? && e.transport.Some?
  }

  function FlowOf(f: Frame): Option<Flow> {
    if Located(f.source) && Located(f.destination) && f.source.transport == f.destination.transport then
      Some(Flow(f.source.address.value, f.source.port.value, f.destination.address.value, f.destination.port.value,
                f.source.transport.value))
    else None
  }

  function Reverse(f: Flow): Flow {
    Flow(f.responderAddress, f.responderPort, f.initiatorAddress, f.initiatorPort, f.transport)
  }

  function BaseOf(f: Frame): Option<Base> {
    match f.sip
    case None => None
    case Some(sip) =>
      if sip.callId.Some? && sip.cseqNumber.Some? && sip.cseqMethod.Some? && sip.viaBranch.Some? then
        Some(Base(sip.callId.value, sip.cseqNumber.value, Upper(sip.cseqMethod.value), sip.viaBranch.value))
      else None
  }

  predicate IsRequest(f: Frame) {
    f.sip.Some? && f.sip.value.requestMethod.Some?
  }

  predicate Keyed(f: Frame) {
    f.sip.Some? && BaseOf(f).Some? && FlowOf(f).Some?
  }

  /** The key a frame has as a request, and the key of the request it would answer. */
  function OwnKey(f: Frame): Key
    requires Keyed(f)
  {
    Key(BaseOf(f).value, FlowOf(f).value)
  }

  function AnsweredKey(f: Frame): Key
    requires Keyed(f)
  {
    Key(BaseOf(f).value, Reverse(FlowOf(f).value))
  }

  /** The record kept of a description names the frame it came in, besides the text. */
  datatype Description = Description(evidence: Evidence, body: int)

  function DescriptionOf(f: Frame): Option<Description> {
    match f.sdp
    case None => None
    case Some(body) => Some(Description(f.evidence, body))
  }

  predicate SameHeaders(a: Frame, b: Frame)
    requires a.sip.Some? && b.sip.Some?
  {
    && a.sip.value.statusCode == b.sip.value.statusCode
    && a.sip.value.fromTag == b.sip.value.fromTag && a.sip.value.toTag == b.sip.value.toTag
    && a.sip.value.rseq == b.sip.value.rseq
  }

  /** Two responses are one message when status, tags, reliable sequence and the records of their descriptions agree. */
  predicate SameResponse(a: Frame, b: Frame)
    requires a.sip.Some? && b.sip.Some?
  {
    SameHeaders(a, b) && DescriptionOf(a) == DescriptionOf(b)
  }

  // ----- reconstruction on values

  datatype Transaction = Transaction(
    key: Key, request: Option<Frame>, responses: seq<Frame>, retransmissions: seq<Evidence>, ambiguous: bool)

  datatype State = State(transactions: seq<Transaction>, orphans: seq<Evidence>)

  predicate Candidate(t: Transaction, key: Key, needRequest: bool) {
    t.key == key && (needRequest ==> t.request.Some?)
  }

  function Matches(ts: seq<Transaction>, key: Key, needRequest: bool): seq<nat> {
    if ts == [] then []
    else
      Matches(ts[..|ts| - 1], key, needRequest)
      + if Candidate(ts[|ts| - 1], key, needRequest) then [|ts| - 1] else []
  }

  function Repeated(t: Transaction, f: Frame): bool {
    f.sip.Some? && exists i :: 0 <= i < |t.responses| && t.responses[i].sip.Some? && SameResponse(t.responses[i], f)
  }

  function MarkAmbiguous(ts: seq<Transaction>, key: Key): (r: seq<Transaction>)
    ensures |r| == |ts|
    ensures forall i :: 0 <= i < |r| ==> r[i] == if ts[i].key == key then ts[i].(ambiguous := true) else ts[i]
  {
    seq(|ts|, i requires 0 <= i < |ts| => if ts[i].key == key then ts[i].(ambiguous := true) else ts[i])
  }

  lemma {:induction false} MatchesFacts(ts: seq<Transaction>, key: Key, needRequest: bool)
    ensures forall i: nat :: i in Matches(ts, key, needRequest) <==> i < |ts| && Candidate(ts[i], key, needRequest)
    ensures forall a, b :: 0 <= a < b < |Matches(ts, key, needRequest)| ==>
              Matches(ts, key, needRequest)[a] < Matches(ts, key, needRequest)[b]
  {
    if ts != [] {
      var n := |ts| - 1;
      var front := Matches(ts[..n], key, needRequest);
      MatchesFacts(ts[..n], key, needRequest);
      forall a | 0 <= a < |front| ensures front[a] < n {
        assert front[a] in front;
      }
      forall i: nat ensures i in Matches(ts, key, needRequest) <==> i < |ts| && Candidate(ts[i], key, needRequest) {
        if i < n {
          assert ts[..n][i] == ts[i];
        }
      }
    }
  }

  function AddRequest(s: State, f: Frame): State
    requires Keyed(f)
  {
    var matching := Matches(s.transactions, OwnKey(f), true);
    if matching != [] then
      MatchesFacts(s.transactions, OwnKey(f), true);
      assert matching[0] in matching;
      var i := matching[0];
      var t := s.transactions[i];
      s.(transactions := s.transactions[i := t.(retransmissions := t.retransmissions + [f.evidence])])
    else s.(transactions := s.transactions + [Transaction(OwnKey(f), Some(f), [], [], false)])
  }

  function AddResponse(s: State, f: Frame): State
    requires Keyed(f)
  {
    var matching := Matches(s.transactions, AnsweredKey(f), false);
    if matching == [] then
      State(s.transactions + [Transaction(OwnKey(f), None, [f], [], false)], s.orphans + [f.evidence])
    else if |matching| == 1 then
      MatchesFacts(s.transactions, AnsweredKey(f), false);
      assert matching[0] in matching;
      var i := matching[0];
      var t := s.transactions[i];
      if Repeated(t, f) then
        s.(transactions := s.transactions[i := t.(retransmissions := t.retransmissions + [f.evidence])])
      else s.(transactions := s.transactions[i := t.(responses := t.responses + [f])])
    else State(MarkAmbiguous(s.transactions, AnsweredKey(f)), s.orphans + [f.evidence])
  }

  function Step(s: State, f: Frame): State {
    if f.sip.None? then s
    else if !Keyed(f) then s.(orphans := s.orphans + [f.evidence])
    else if IsRequest(f) then AddRequest(s, f)
    else AddResponse(s, f)
  }

  function Fold(frames: seq<Frame>): State {
    if frames == [] then State([], []) else Step(Fold(frames[..|frames| - 1]), frames[|frames| - 1])
  }

  /** The outcome for a capture, whatever order its frames arrive in. */
  function Reconstruction(frames: seq<Frame>): State {
    Fold(Sort(FrameLe, frames))
  }

  // ----- every frame is accounted for

  ghost function Sighted(frames: seq<Frame>): multiset<Evidence> {
    if frames == [] then multiset{}
    else Sighted(frames[..|frames| - 1]) + Sighting(frames[|frames| - 1])
  }

  const EvidenceOf: Frame -> Evidence := (f: Frame) => f.evidence

  ghost function Holdings(t: Transaction): multiset<Evidence> {
    (if t.request.Some? then multiset{t.request.value.evidence} else multiset{})
    + multiset(Map(EvidenceOf, t.responses)) + multiset(t.retransmissions)
  }

  ghost function AllHoldings(ts: seq<Transaction>): multiset<Evidence> {
    if ts == [] then multiset{} else AllHoldings(ts[..|ts| - 1]) + Holdings(ts[|ts| - 1])
  }

  /** The response that opened a transaction without a request is also listed as an orphan. */
  ghost function OpenedBy(ts: seq<Transaction>): multiset<Evidence> {
    if ts == [] then multiset{}
    else OpenedBy(ts[..|ts| - 1]) + Opener(ts[|ts| - 1])
  }

  ghost predicate WellOpened(ts: seq<Transaction>) {
    forall i :: 0 <= i < |ts| ==> ts[i].request.None? ==> ts[i].responses != []
  }

  lemma {:induction false} HoldingsUpdate(ts: seq<Transaction>, i: nat, t: Transaction, extra: multiset<Evidence>)
    requires i < |ts| && Holdings(t) == Holdings(ts[i]) + extra
    requires t.request == ts[i].request && ts[i].responses <= t.responses
             && (ts[i].request.None? ==> ts[i].responses != [])
    ensures AllHoldings(ts[i := t]) == AllHoldings(ts) + extra
    ensures OpenedBy(ts[i := t]) == OpenedBy(ts)
  {
    hide Holdings, AllHoldings, OpenedBy;
    var n := |ts| - 1;
    var updated := ts[i := t];
    LastCounted(ts);
    LastCounted(updated);
    if i == n {
      assert updated[..n] == ts[..n];
    } else {
      assert updated[..n] == ts[..n][i := t];
      HoldingsUpdate(ts[..n], i, t, extra);
    }
  }

  ghost function Opener(t: Transaction): multiset<Evidence> {
    if t.request.None? && t.responses != [] then multiset{t.responses[0].evidence} else multiset{}
  }

  lemma LastCounted(ts: seq<Transaction>)
    requires ts != []
    ensures AllHoldings(ts) == AllHoldings(ts[..|ts| - 1]) + Holdings(ts[|ts| - 1])
    ensures OpenedBy(ts) == OpenedBy(ts[..|ts| - 1]) + Opener(ts[|ts| - 1])
  {
  }

  lemma MarkingKeepsHoldings(t: Transaction)
    ensures Holdings(t.(ambiguous := true)) == Holdings(t) && Opener(t.(ambiguous := true)) == Opener(t)
  {
  }

  lemma {:induction false} HoldingsMarked(ts: seq<Transaction>, key: Key)
    ensures AllHoldings(MarkAmbiguous(ts, key)) == AllHoldings(ts)
    ensures OpenedBy(MarkAmbiguous(ts, key)) == OpenedBy(ts)
  {
    if ts != [] {
      var n := |ts| - 1;
      MarkedLast(ts, key);
      hide Holdings, AllHoldings, OpenedBy, Opener, MarkAmbiguous;
      HoldingsMarked(ts[..n], key);
      MarkingKeepsHoldings(ts[n]);
      LastCounted(ts);
      LastCounted(MarkAmbiguous(ts, key));
    } else {
      assert MarkAmbiguous(ts, key) == [];
    }
  }

  lemma MarkedLast(ts: seq<Transaction>, key: Key)
    requires ts != []
    ensures var n := |ts| - 1;
            && MarkAmbiguous(ts, key)[..n] == MarkAmbiguous(ts[..n], key)
            && MarkAmbiguous(ts, key)[n] == if ts[n].key == key then ts[n].(ambiguous := true) else ts[n]
  {
  }

  ghost predicate Balanced(frames: seq<Frame>, s: State) {
    && WellOpened(s.transactions)
    && AllHoldings(s.transactions) + multiset(s.orphans) == Sighted(frames) + OpenedBy(s.transactions)
  }

  lemma HoldingsAppend(ts: seq<Transaction>, t: Transaction)
    ensures AllHoldings(ts + [t]) == AllHoldings(ts) + Holdings(t)
    ensures OpenedBy(ts + [t]) == OpenedBy(ts) + Opener(t)
  {
  }

  lemma HoldingsOfNew(f: Frame, key: Key)
    ensures Holdings(Transaction(key, Some(f), [], [], false)) == multiset{f.evidence}
    ensures Holdings(Transaction(key, None, [f], [], false)) == multiset{f.evidence}
  {
  }

  lemma HoldingsOfGrown(t: Transaction, f: Frame)
    ensures Holdings(t.(retransmissions := t.retransmissions + [f.evidence])) == Holdings(t) + multiset{f.evidence}
    ensures Holdings(t.(responses := t.responses + [f])) == Holdings(t) + multiset{f.evidence}
    ensures Holdings(t.(ambiguous := true)) == Holdings(t)
  {
    MapAppends(EvidenceOf, t.responses, [f]);
    assert Map(EvidenceOf, [f]) == [f.evidence];
  }

  /** What one keyed frame adds to the books. */
  ghost predicate AddsOne(before: State, after: State, f: Frame) {
    && WellOpened(after.transactions)
    && AllHoldings(after.transactions) + multiset(after.orphans) + OpenedBy(before.transactions)
       == AllHoldings(before.transactions) + multiset(before.orphans) + OpenedBy(after.transactions)
         + multiset{f.evidence}
  }

  lemma RequestAddsOne(s: State, f: Frame)
    requires Keyed(f) && WellOpened(s.transactions)
    ensures AddsOne(s, AddRequest(s, f), f)
  {
    hide Holdings, AllHoldings, OpenedBy;
    var ts := s.transactions;
    var matching := Matches(ts, OwnKey(f), true);
    MatchesFacts(ts, OwnKey(f), true);
    hide Matches;
    if matching != [] {
      assert matching[0] in matching;
      var t := ts[matching[0]];
      HoldingsOfGrown(t, f);
      HoldingsUpdate(ts, matching[0], t.(retransmissions := t.retransmissions + [f.evidence]), multiset{f.evidence});
    } else {
      HoldingsOfNew(f, OwnKey(f));
      HoldingsAppend(ts, Transaction(OwnKey(f), Some(f), [], [], false));
    }
  }

  lemma ResponseAddsOne(s: State, f: Frame)
    requires Keyed(f) && WellOpened(s.transactions)
    ensures AddsOne(s, AddResponse(s, f), f)
  {
    hide Holdings, AllHoldings, OpenedBy, Repeated;
    var ts := s.transactions;
    var matching := Matches(ts, AnsweredKey(f), false);
    MatchesFacts(ts, AnsweredKey(f), false);
    hide Matches;
    if matching == [] {
      HoldingsOfNew(f, OwnKey(f));
      HoldingsAppend(ts, Transaction(OwnKey(f), None, [f], [], false));
    } else if |matching| == 1 {
      assert matching[0] in matching;
      var t := ts[matching[0]];
      HoldingsOfGrown(t, f);
      if Repeated(t, f) {
        HoldingsUpdate(ts, matching[0], t.(retransmissions := t.retransmissions + [f.evidence]), multiset{f.evidence});
      } else {
        HoldingsUpdate(ts, matching[0], t.(responses := t.responses + [f]), multiset{f.evidence});
      }
    } else {
      HoldingsMarked(ts, AnsweredKey(f));
    }
  }

  lemma BooksBalance(held: multiset<Evidence>, held': multiset<Evidence>, entered: multiset<Evidence>,
                     entered': multiset<Evidence>,
                     sighted: multiset<Evidence>, more: multiset<Evidence>)
    requires held == sighted + entered && held' + entered == held + entered' + more
    ensures held' == sighted + more + entered'
  {
    forall e ensures held'[e] == (sighted + more + entered')[e] {
      assert (held' + entered)[e] == (held + entered' + more)[e];
    }
  }

  lemma StepBalanced(frames: seq<Frame>, s: State, f: Frame)
    requires Balanced(frames, s)
    ensures Balanced(frames + [f], Step(s, f))
  {
    hide AllHoldings, OpenedBy, AddRequest, AddResponse;
    assert (frames + [f])[..|frames|] == frames;
    assert Sighted(frames + [f]) == Sighted(frames) + Sighting(f);
    hide Sighted;
    if Keyed(f) && IsRequest(f) {
      RequestAddsOne(s, f);
      AddedBalances(frames, s, AddRequest(s, f), f);
    } else if Keyed(f) {
      ResponseAddsOne(s, f);
      AddedBalances(frames, s, AddResponse(s, f), f);
    } else if f.sip.Some? {
      AddedBalances(frames, s, s.(orphans := s.orphans + [f.evidence]), f);
    } else {
      assert Sighted(frames + [f]) == Sighted(frames);
    }
  }

  lemma AddedBalances(frames: seq<Frame>, s: State, after: State, f: Frame)
    requires Balanced(frames, s) && AddsOne(s, after, f)
    requires Sighted(frames + [f]) == Sighted(frames) + multiset{f.evidence}
    ensures Balanced(frames + [f], after)
  {
    hide AllHoldings, OpenedBy, Sighted, WellOpened;
    BooksBalance(AllHoldings(s.transactions) + multiset(s.orphans),
                 AllHoldings(after.transactions) + multiset(after.orphans),
                 OpenedBy(s.transactions), OpenedBy(after.transactions), Sighted(frames), multiset{f.evidence});
  }

  lemma NothingFiled()
    ensures Balanced([], State([], []))
  {
  }

  lemma {:induction false} FoldBalanced(frames: seq<Frame>)
    ensures Balanced(frames, Fold(frames))
  {
    hide Step, Balanced;
    if frames == [] {
      NothingFiled();
    } else {
      var n := |frames| - 1;
      FoldBalanced(frames[..n]);
      StepBalanced(frames[..n], Fold(frames[..n]), frames[n]);
      assert frames[..n] + [frames[n]] == frames;
    }
  }

  // ----- keys and matching

  ghost predicate UniqueRequests(ts: seq<Transaction>) {
    forall i, j :: 0 <= i < j < |ts| && ts[i].request.Some? && ts[j].request.Some? ==> ts[i].key != ts[j].key
  }

  /** A transaction's frames belong to it: its request has its key and its responses answer that key. */
  ghost predicate Coherent(t: Transaction) {
    && (t.request.Some? ==> Keyed(t.request.value) && IsRequest(t.request.value) && OwnKey(t.request.value) == t.key)
    && (t.request.None? ==> t.responses != [] && Keyed(t.responses[0]) && OwnKey(t.responses[0]) == t.key)
    && (forall i :: 0 <= i < |t.responses| && (t.request.Some? || i > 0) ==>
          Keyed(t.responses[i]) && !IsRequest(t.responses[i]) && AnsweredKey(t.responses[i]) == t.key)
    && (forall i, j :: 0 <= i < j < |t.responses| && t.responses[i].sip.Some? && t.responses[j].sip.Some? ==>
          !SameResponse(t.responses[i], t.responses[j]))
  }

  /** Ambiguity needs a second transaction under the same key. */
  ghost predicate AmbiguityExplained(ts: seq<Transaction>) {
    forall i :: 0 <= i < |ts| && ts[i].ambiguous ==> exists j :: 0 <= j < |ts| && j != i && ts[j].key == ts[i].key
  }

  ghost predicate Sound(s: State) {
    && UniqueRequests(s.transactions)
    && (forall i :: 0 <= i < |s.transactions| ==> Coherent(s.transactions[i]))
    && AmbiguityExplained(s.transactions)
  }

  lemma ReplaceSound(s: State, i: nat, t: Transaction)
    requires Sound(s) && i < |s.transactions| && Coherent(t)
    requires t.key == s.transactions[i].key && t.request == s.transactions[i].request
             && t.ambiguous == s.transactions[i].ambiguous
    ensures Sound(s.(transactions := s.transactions[i := t]))
  {
    hide Coherent;
    var ts, updated := s.transactions, s.transactions[i := t];
    forall k | 0 <= k < |updated| && updated[k].ambiguous
      ensures exists j :: 0 <= j < |updated| && j != k && updated[j].key == updated[k].key
    {
      var j :| 0 <= j < |ts| && j != k && ts[j].key == ts[k].key;
      assert updated[j].key == updated[k].key;
    }
  }

  lemma AppendSound(s: State, t: Transaction, orphans: seq<Evidence>)
    requires Sound(s) && Coherent(t) && !t.ambiguous
    requires t.request.Some? ==>
               forall i :: 0 <= i < |s.transactions| && s.transactions[i].request.Some? ==>
                 s.transactions[i].key != t.key
    ensures Sound(State(s.transactions + [t], orphans))
  {
    hide Coherent;
    var ts, grown := s.transactions, s.transactions + [t];
    forall k | 0 <= k < |grown| && grown[k].ambiguous
      ensures exists j :: 0 <= j < |grown| && j != k && grown[j].key == grown[k].key
    {
      var j :| 0 <= j < |ts| && j != k && ts[j].key == ts[k].key;
      assert grown[j].key == grown[k].key;
    }
  }

  lemma MarkedCoherent(t: Transaction)
    requires Coherent(t)
    ensures Coherent(t.(ambiguous := true))
  {
  }

  lemma MarkSound(s: State, key: Key, orphans: seq<Evidence>)
    requires Sound(s) && |Matches(s.transactions, key, false)| >= 2
    ensures Sound(State(MarkAmbiguous(s.transactions, key), orphans))
  {
    var ts, marked := s.transactions, MarkAmbiguous(s.transactions, key);
    hide Coherent, AmbiguityExplained, Matches;
    forall k | 0 <= k < |marked| ensures Coherent(marked[k]) {
      MarkedCoherent(ts[k]);
    }
    MarkExplained(ts, key);
  }

  lemma MarkExplained(ts: seq<Transaction>, key: Key)
    requires AmbiguityExplained(ts) && |Matches(ts, key, false)| >= 2
    ensures AmbiguityExplained(MarkAmbiguous(ts, key))
  {
    var marked, matching := MarkAmbiguous(ts, key), Matches(ts, key, false);
    MatchesFacts(ts, key, false);
    assert matching[0] in matching && matching[1] in matching && matching[0] < matching[1];
    var a, b := matching[0], matching[1];
    assert ts[a].key == key && ts[b].key == key;
    hide Matches;
    forall k | 0 <= k < |marked| && marked[k].ambiguous
      ensures exists j :: 0 <= j < |marked| && j != k && marked[j].key == marked[k].key
    {
      if ts[k].key == key {
        var j := if a == k then b else a;
        assert marked[j].key == marked[k].key;
      } else {
        var j :| 0 <= j < |ts| && j != k && ts[j].key == ts[k].key;
        assert marked[j].key == marked[k].key;
      }
    }
  }

  lemma GrownCoherent(t: Transaction, f: Frame)
    requires Coherent(t)
    ensures Coherent(t.(retransmissions := t.retransmissions + [f.evidence]))
    ensures Keyed(f) && !IsRequest(f) && AnsweredKey(f) == t.key && !Repeated(t, f) ==>
                Coherent(t.(responses := t.responses + [f]))
  {
    hide AnsweredKey, OwnKey;
  }

  lemma RequestSound(s: State, f: Frame)
    requires Sound(s) && Keyed(f) && IsRequest(f)
    ensures Sound(AddRequest(s, f))
  {
    var ts := s.transactions;
    var matching := Matches(ts, OwnKey(f), true);
    MatchesFacts(ts, OwnKey(f), true);
    if matching != [] {
      assert matching[0] in matching;
      var t := ts[matching[0]];
      hide Coherent, OwnKey;
      GrownCoherent(t, f);
      ReplaceSound(s, matching[0], t.(retransmissions := t.retransmissions + [f.evidence]));
    } else {
      hide UniqueRequests, AmbiguityExplained;
      forall i: nat | i < |ts| && ts[i].request.Some? ensures ts[i].key != OwnKey(f) {
        assert i !in matching;
      }
      AppendSound(s, Transaction(OwnKey(f), Some(f), [], [], false), s.orphans);
    }
  }

  lemma ResponseSound(s: State, f: Frame)
    requires Sound(s) && Keyed(f) && !IsRequest(f)
    ensures Sound(AddResponse(s, f))
  {
    var ts := s.transactions;
    var matching := Matches(ts, AnsweredKey(f), false);
    MatchesFacts(ts, AnsweredKey(f), false);
    hide Matches, UniqueRequests, AmbiguityExplained, Repeated;
    hide Coherent, OwnKey, AnsweredKey, MarkAmbiguous, Sound;
    if matching == [] {
      OpenedCoherent(f);
      OpenedSound(s, f);
    } else if |matching| == 1 {
      assert matching[0] in matching;
      GrownSound(s, matching[0], f);
    } else {
      MarkSound(s, AnsweredKey(f), s.orphans + [f.evidence]);
    }
  }

  lemma OpenedCoherent(f: Frame)
    requires Keyed(f)
    ensures Coherent(Transaction(OwnKey(f), None, [f], [], false))
  {
  }

  lemma OpenedSound(s: State, f: Frame)
    requires Sound(s) && Keyed(f) && Coherent(Transaction(OwnKey(f), None, [f], [], false))
    ensures Sound(State(s.transactions + [Transaction(OwnKey(f), None, [f], [], false)], s.orphans + [f.evidence]))
  {
    hide Coherent, OwnKey, Sound;
    AppendSound(s, Transaction(OwnKey(f), None, [f], [], false), s.orphans + [f.evidence]);
  }

  lemma GrownSound(s: State, i: nat, f: Frame)
    requires Sound(s) && i < |s.transactions| && Keyed(f) && !IsRequest(f) && AnsweredKey(f) == s.transactions[i].key
    ensures var t := s.transactions[i];
            && (Repeated(t, f) ==>
                Sound(s.(transactions := s.transactions[i := t.(retransmissions := t.retransmissions + [f.evidence])])))
            && (!Repeated(t, f) ==> Sound(s.(transactions := s.transactions[i := t.(responses := t.responses + [f])])))
  {
    var t := s.transactions[i];
    assert Coherent(t);
    hide Coherent, OwnKey, AnsweredKey, Repeated, Sound;
    GrownCoherent(t, f);
    if Repeated(t, f) {
      ReplaceSound(s, i, t.(retransmissions := t.retransmissions + [f.evidence]));
    } else {
      ReplaceSound(s, i, t.(responses := t.responses + [f]));
    }
  }

  lemma StepSound(s: State, f: Frame)
    requires Sound(s)
    ensures Sound(Step(s, f))
  {
    hide Coherent, UniqueRequests, AmbiguityExplained, AddRequest, AddResponse;
    if Keyed(f) && IsRequest(f) {
      RequestSound(s, f);
    } else if Keyed(f) {
      ResponseSound(s, f);
    }
  }

  lemma {:induction false} FoldSound(frames: seq<Frame>)
    ensures Sound(Fold(frames))
  {
    if frames != [] {
      FoldSound(frames[..|frames| - 1]);
      StepSound(Fold(frames[..|frames| - 1]), frames[|frames| - 1]);
    }
  }

  // ----- whole captures

  lemma {:induction false} SightedPermutes(a: seq<Frame>, b: seq<Frame>)
    requires multiset(a) == multiset(b)
    ensures Sighted(a) == Sighted(b)
    decreases |a|
  {
    SameMembers(a, b);
    if a != [] {
      var n := |a| - 1;
      assert a[n] in b;
      var k :| 0 <= k < |b| && b[k] == a[n];
      RemoveAt(a, n);
      RemoveAt(b, k);
      assert a[..n] + a[n + 1..] == a[..n];
      SightedPermutes(a[..n], b[..k] + b[k + 1..]);
      SightedRemove(b, k);
    }
  }

  lemma {:induction false} SightedRemove(b: seq<Frame>, k: nat)
    requires k < |b|
    ensures Sighted(b) == Sighted(b[..k] + b[k + 1..]) + Sighting(b[k])
  {
    hide Sighted;
    var n := |b| - 1;
    var rest := b[..k] + b[k + 1..];
    LastSighted(b);
    if k == n {
      assert rest == b[..n];
    } else {
      SightedRemove(b[..n], k);
      LastSighted(rest);
      assert rest[..|rest| - 1] == b[..n][..k] + b[..n][k + 1..];
      assert rest[|rest| - 1] == b[n];
    }
  }

  ghost function Sighting(f: Frame): multiset<Evidence> {
    if f.sip.Some? then multiset{f.evidence} else multiset{}
  }

  lemma LastSighted(frames: seq<Frame>)
    requires frames != []
    ensures Sighted(frames) == Sighted(frames[..|frames| - 1]) + Sighting(frames[|frames| - 1])
  {
  }

  /**
   Every SIP frame is filed: as a request, a response, a retransmission or an orphan, exactly once,
   except that the response opening a transaction without a request is both that and an orphan.
   */
  lemma EveryFrameIsFiled(frames: seq<Frame>)
    ensures var s := Reconstruction(frames);
            && AllHoldings(s.transactions) + multiset(s.orphans) == Sighted(frames) + OpenedBy(s.transactions)
            && |AllHoldings(s.transactions)| + |s.orphans| == |Sighted(frames)| + |OpenedBy(s.transactions)|
    ensures Sound(Reconstruction(frames))
  {
    var sorted := Sort(FrameLe, frames);
    var s := Fold(sorted);
    FoldBalanced(sorted);
    FoldSound(sorted);
    SortPermutes(FrameLe, frames);
    SightedPermutes(frames, sorted);
    assert |AllHoldings(s.transactions) + multiset(s.orphans)| == |Sighted(frames) + OpenedBy(s.transactions)|;
  }

  ghost predicate Numbered(frames: seq<Frame>) {
    && (forall f :: f in frames ==> f.evidence.frameNumber.Some?)
    && forall f, g :: f in frames && g in frames && f.evidence.frameNumber == g.evidence.frameNumber ==> f == g
  }

  /** With distinct known frame numbers the outcome does not depend on the order frames were read in. */
  lemma OrderIndependent(frames: seq<Frame>, shuffled: seq<Frame>)
    requires Numbered(frames) && multiset(frames) == multiset(shuffled)
    ensures Reconstruction(shuffled) == Reconstruction(frames)
  {
    SortInsensitive(FrameLe, frames, shuffled);
  }

  // ----- when a response counts as a retransmission

  ghost predicate DistinctNumbers(frames: seq<Frame>) {
    && (forall i :: 0 <= i < |frames| ==> frames[i].evidence.frameNumber.Some?)
    && forall i, j :: 0 <= i < j < |frames| ==> frames[i].evidence.frameNumber != frames[j].evidence.frameNumber
  }

  /** A held response with the same status, tags and reliable sequence, neither of the two carrying a description. */
  ghost predicate PlainRepeat(t: Transaction, f: Frame)
    requires f.sip.Some?
  {
    f.sdp.None? && exists k :: 0 <= k < |t.responses| && PlainTwin(t.responses[k], f)
  }

  ghost predicate PlainTwin(held: Frame, f: Frame)
    requires f.sip.Some?
  {
    held.sip.Some? && SameHeaders(held, f) && held.sdp.None?
  }

  ghost predicate HeldFrom(frames: seq<Frame>, t: Transaction) {
    forall k :: 0 <= k < |t.responses| ==> t.responses[k] in frames
  }

  ghost predicate AllHeldFrom(frames: seq<Frame>, s: State) {
    forall i :: 0 <= i < |s.transactions| ==> HeldFrom(frames, s.transactions[i])
  }

  lemma HeldGrows(frames: seq<Frame>, t: Transaction, f: Frame)
    requires HeldFrom(frames, t)
    ensures HeldFrom(frames + [f], t) && HeldFrom(frames + [f], t.(responses := t.responses + [f]))
    ensures HeldFrom(frames + [f], t.(ambiguous := true))
    ensures HeldFrom(frames + [f], t.(retransmissions := t.retransmissions + [f.evidence]))
  {
  }

  lemma NewlyHeld(frames: seq<Frame>, f: Frame, key: Key)
    ensures HeldFrom(frames + [f], Transaction(key, Some(f), [], [], false))
    ensures HeldFrom(frames + [f], Transaction(key, None, [f], [], false))
  {
  }

  lemma RequestHolds(frames: seq<Frame>, s: State, f: Frame)
    requires Keyed(f) && AllHeldFrom(frames, s)
    ensures AllHeldFrom(frames + [f], AddRequest(s, f))
  {
    hide HeldFrom, Matches, OwnKey;
    MatchesFacts(s.transactions, OwnKey(f), true);
    FirstIsMember(Matches(s.transactions, OwnKey(f), true));
    forall i | 0 <= i < |s.transactions| ensures HeldFrom(frames + [f], s.transactions[i]) {
      HeldGrows(frames, s.transactions[i], f);
    }
    forall i | 0 <= i < |AddRequest(s, f).transactions|
      ensures HeldFrom(frames + [f], AddRequest(s, f).transactions[i])
    {
      if i < |s.transactions| {
        HeldGrows(frames, s.transactions[i], f);
      } else {
        NewlyHeld(frames, f, OwnKey(f));
      }
    }
  }

  lemma ResponseHolds(frames: seq<Frame>, s: State, f: Frame)
    requires Keyed(f) && AllHeldFrom(frames, s)
    ensures AllHeldFrom(frames + [f], AddResponse(s, f))
  {
    hide HeldFrom, Matches, AnsweredKey, OwnKey, Repeated;
    MatchesFacts(s.transactions, AnsweredKey(f), false);
    FirstIsMember(Matches(s.transactions, AnsweredKey(f), false));
    forall i | 0 <= i < |AddResponse(s, f).transactions|
      ensures HeldFrom(frames + [f], AddResponse(s, f).transactions[i])
    {
      if i < |s.transactions| {
        HeldGrows(frames, s.transactions[i], f);
      } else {
        NewlyHeld(frames, f, OwnKey(f));
      }
    }
  }

  lemma StepHolds(frames: seq<Frame>, s: State, f: Frame)
    requires AllHeldFrom(frames, s)
    ensures AllHeldFrom(frames + [f], Step(s, f))
  {
    hide HeldFrom, AddRequest, AddResponse, Keyed, IsRequest;
    forall i | 0 <= i < |s.transactions| ensures HeldFrom(frames + [f], s.transactions[i]) {
      HeldGrows(frames, s.transactions[i], f);
    }
    if Keyed(f) && IsRequest(f) {
      RequestHolds(frames, s, f);
    } else if Keyed(f) {
      ResponseHolds(frames, s, f);
    }
  }

  /** The responses held are frames gone through. */
  lemma {:induction false} FoldHolds(frames: seq<Frame>)
    ensures AllHeldFrom(frames, Fold(frames))
  {
    hide Step;
    if frames != [] {
      var n := |frames| - 1;
      FoldHolds(frames[..n]);
      StepHolds(frames[..n], Fold(frames[..n]), frames[n]);
      assert frames[..n] + [frames[n]] == frames;
    }
  }

  lemma NewNumber(frames: seq<Frame>, n: nat)
    requires n < |frames| && DistinctNumbers(frames)
    ensures forall g :: g in frames[..n] ==> g.evidence != frames[n].evidence
  {
  }

  lemma NumbersPermute(a: seq<Frame>, b: seq<Frame>)
    requires multiset(a) == multiset(b) && DistinctNumbers(a)
    ensures DistinctNumbers(b)
  {
    SameMembers(a, b);
    forall i | 0 <= i < |b| ensures b[i].evidence.frameNumber.Some? {
      assert b[i] in a;
    }
    forall i, j | 0 <= i < j < |b| ensures b[i].evidence.frameNumber != b[j].evidence.frameNumber {
      assert b[i] in a && b[j] in a;
      if b[i] == b[j] {
        TwiceCounts(b, i, j);
        OnlyOnce(a, b[i]);
      }
    }
  }

  lemma {:induction false} OnlyOnce(frames: seq<Frame>, f: Frame)
    requires DistinctNumbers(frames)
    ensures multiset(frames)[f] <= 1
  {
    if frames != [] {
      var n := |frames| - 1;
      OnlyOnce(frames[..n], f);
      assert frames == frames[..n] + [frames[n]];
      NewNumber(frames, n);
      assert frames[n] !in frames[..n];
    }
  }

  lemma RepeatedPlainly(frames: seq<Frame>, t: Transaction, f: Frame)
    requires f.sip.Some? && HeldFrom(frames, t) && forall g :: g in frames ==> g.evidence != f.evidence
    ensures Repeated(t, f) <==> PlainRepeat(t, f)
  {
    hide SameHeaders;
    if PlainRepeat(t, f) {
      var k :| 0 <= k < |t.responses| && PlainTwin(t.responses[k], f);
      assert SameResponse(t.responses[k], f);
    }
    if Repeated(t, f) {
      var k :| 0 <= k < |t.responses| && t.responses[k].sip.Some? && SameResponse(t.responses[k], f);
      assert PlainTwin(t.responses[k], f);
    }
  }

  /**
   In a capture with distinct frame numbers, whatever was read before: a response that answers one transaction is
   filed as a retransmission exactly when an earlier one agrees in status, tags and reliable sequence and neither
   of the two carries a description; otherwise it is filed as a response of its own.
   */
  lemma RetransmissionExactly(frames: seq<Frame>, n: nat, i: nat)
    requires DistinctNumbers(frames) && n < |Sort(FrameLe, frames)|
    requires var f := Sort(FrameLe, frames)[n]; Keyed(f) && !IsRequest(f)
    requires Matches(Fold(Sort(FrameLe, frames)[..n]).transactions, AnsweredKey(Sort(FrameLe, frames)[n]), false) == [i]
    ensures var sorted := Sort(FrameLe, frames);
            var f, s := sorted[n], Fold(sorted[..n]);
            && i < |s.transactions| && Fold(sorted[..n + 1]) == Step(s, f)
            && var t := s.transactions[i];
               Step(s, f) == s.(transactions := s.transactions[i :=
                 if PlainRepeat(t, f) then t.(retransmissions := t.retransmissions + [f.evidence])
                 else t.(responses := t.responses + [f])])
  {
    var sorted := Sort(FrameLe, frames);
    SortPermutes(FrameLe, frames);
    SortMembers(FrameLe, frames);
    NumbersPermute(frames, sorted);
    NewNumber(sorted, n);
    FoldHolds(sorted[..n]);
    var s := Fold(sorted[..n]);
    assert sorted[..n + 1][..n] == sorted[..n];
    MatchesFacts(s.transactions, AnsweredKey(sorted[n]), false);
    assert i in [i];
    hide Matches, Repeated, PlainRepeat, HeldFrom;
    RepeatedPlainly(sorted[..n], s.transactions[i], sorted[n]);
  }

  // ----- the record of one transaction

  datatype Phase = New | RequestSeen | Proceeding | Completed | Incomplete | OrphanResponse

  /** A step of a transaction: entered by its request when no status is given, by a response otherwise. */
  datatype Transition = Transition(previous: Phase, current: Phase, status: Option<int>, evidence: Evidence)

  datatype Record = Record(transaction: Transaction, state: Phase, transitions: seq<Transition>)

  function StatusOf(f: Frame): Option<int> {
    if f.sip.Some? then f.sip.value.statusCode else None
  }

  function PhaseOf(status: int): Phase {
    if status < 200 then Proceeding else Completed
  }

  function Opening(request: Frame): seq<Transition> {
    [Transition(New, RequestSeen, None, request.evidence)]
  }

  function Advance(transitions: seq<Transition>, response: Frame): seq<Transition>
    requires transitions != []
  {
    match StatusOf(response)
    case None => transitions
    case Some(status) =>
      transitions
        + [Transition(transitions[|transitions| - 1].current, PhaseOf(status), Some(status), response.evidence)]
  }

  function History(request: Frame, responses: seq<Frame>): (r: seq<Transition>)
    ensures r != []
  {
    if responses == [] then Opening(request)
    else Advance(History(request, responses[..|responses| - 1]), responses[|responses| - 1])
  }

  predicate Final(f: Frame) {
    StatusOf(f).Some? && StatusOf(f).value >= 200
  }

  ghost predicate Answered(responses: seq<Frame>) {
    exists i :: 0 <= i < |responses| && Final(responses[i])
  }

  ghost function RecordOf(t: Transaction): Record {
    match t.request
    case None => Record(t, OrphanResponse, [])
    case Some(request) =>
      var transitions := History(request, t.responses);
      Record(t,
        if t.key.base.cseqMethod == "ACK" then Completed
        else if Answered(t.responses) then transitions[|transitions| - 1].current
        else Incomplete,
        transitions)
  }

  /** The last status any response reported. */
  function LastStatus(responses: seq<Frame>): Option<int> {
    if responses == [] then None
    else if StatusOf(responses[|responses| - 1]).Some? then StatusOf(responses[|responses| - 1])
    else LastStatus(responses[..|responses| - 1])
  }

  ghost predicate Chained(transitions: seq<Transition>) {
    forall i, j :: 0 <= i && j == i + 1 && j < |transitions| ==> transitions[j].previous == transitions[i].current
  }

  /**
   A history starts with the request, every step starts where the one before ended, and it ends at the last
   status.
   */
  lemma {:induction false} HistoryFacts(request: Frame, responses: seq<Frame>)
    ensures var h := History(request, responses);
            && Chained(h) && h[0] == Transition(New, RequestSeen, None, request.evidence)
            && h[|h| - 1].current
               == match LastStatus(responses) case None => RequestSeen case Some(status) => PhaseOf(status)
  {
    if responses != [] {
      HistoryFacts(request, responses[..|responses| - 1]);
    }
  }

  lemma {:induction false} AnsweredHasStatus(responses: seq<Frame>)
    ensures Answered(responses) ==> LastStatus(responses).Some?
    ensures LastStatus(responses).Some? && LastStatus(responses).value >= 200 ==> Answered(responses)
  {
    if responses != [] {
      var front := responses[..|responses| - 1];
      AnsweredHasStatus(front);
      if Answered(front) {
        var i :| 0 <= i < |front| && Final(front[i]);
        assert Final(responses[i]);
      }
      if Answered(responses) && StatusOf(responses[|responses| - 1]).None? {
        var i :| 0 <= i < |responses| && Final(responses[i]);
        assert Final(front[i]);
      }
    }
  }

  /**
   What a final state says. Completion of anything but an acknowledgement needs a final response
   and needs it to be the last status seen: a provisional one arriving later leaves the
   transaction proceeding although it was answered.
   */
  lemma StateMeaning(t: Transaction)
    ensures var r := RecordOf(t);
            && (r.state == OrphanResponse <==> t.request.None?)
            && (r.state == Incomplete <==> t.request.Some? && t.key.base.cseqMethod != "ACK" && !Answered(t.responses))
            && (r.state == Completed <==>
                  && t.request.Some?
                  && (t.key.base.cseqMethod == "ACK"
                      || (LastStatus(t.responses).Some? && LastStatus(t.responses).value >= 200)))
            && (r.state == Proceeding <==>
                  && t.request.Some? && t.key.base.cseqMethod != "ACK" && Answered(t.responses)
                  && LastStatus(t.responses).Some? && LastStatus(t.responses).value < 200)
            && r.state != New && r.state != RequestSeen
  {
    if t.request.Some? {
      HistoryFacts(t.request.value, t.responses);
      AnsweredHasStatus(t.responses);
    }
  }

  /** A success followed by a ringing response: answered, yet reported as proceeding. */
  lemma LateProvisionalReopens(t: Transaction, ok: Frame, ringing: Frame)
    requires t.request.Some? && t.key.base.cseqMethod == "INVITE" && t.responses == [ok, ringing]
    requires StatusOf(ok) == Some(200) && StatusOf(ringing) == Some(180)
    ensures Answered(t.responses) && RecordOf(t).state == Proceeding
  {
    assert Final(t.responses[0]);
    StateMeaning(t);
    assert LastStatus([ok, ringing]) == Some(180);
  }

  // ----- small captures

  const CALLER: Endpoint := Endpoint(Some("192.0.2.1"), Some(5060), Some("UDP"))

  const CALLEE: Endpoint := Endpoint(Some("192.0.2.2"), Some(5060), Some("UDP"))

  const CALL_FLOW: Flow := Flow("192.0.2.1", 5060, "192.0.2.2", 5060, "UDP")

  /** A request of the caller, outside any dialog. */
  function CallerSends(number: nat, token: string, cseq: int, branch: string): Frame {
    Frame(Evidence(Some(number), number), CALLER, CALLEE,
          Some(Sip(Some(token), None, Some("call"), Some(cseq), Some(token), Some(branch), Some("caller"), None, None)),
            None, true)
  }

  /** A response of the callee's side to an INVITE. */
  function CalleeAnswers(number: nat, status: int, cseq: int, branch: string, toTag: Option<string>): Frame {
    Frame(Evidence(Some(number), number), CALLEE, CALLER,
          Some(Sip(None, Some(status), Some("call"), Some(cseq), Some("INVITE"), Some(branch), Some("caller"), toTag,
                   None)), None, true)
  }

  function CallKey(token: string, cseq: int, branch: string): Key {
    Key(Base("call", cseq, token, branch), CALL_FLOW)
  }

  lemma CapsStay()
    ensures Upper("INVITE") == "INVITE" && Upper("ACK") == "ACK"
  {
  }

  lemma FrameKeys(number: nat, token: string, cseq: int, branch: string, status: int, toTag: Option<string>)
    requires token == "INVITE" || token == "ACK"
    ensures var f := CallerSends(number, token, cseq, branch);
            Keyed(f) && IsRequest(f) && OwnKey(f) == CallKey(token, cseq, branch)
    ensures var f := CalleeAnswers(number, status, cseq, branch, toTag);
            Keyed(f) && !IsRequest(f) && AnsweredKey(f) == CallKey("INVITE", cseq, branch)
  {
    CapsStay();
    hide Upper;
  }

  lemma OpensNew(s: State, f: Frame)
    requires Keyed(f) && IsRequest(f) && forall i :: 0 <= i < |s.transactions| ==> s.transactions[i].key != OwnKey(f)
    ensures Step(s, f) == s.(transactions := s.transactions + [Transaction(OwnKey(f), Some(f), [], [], false)])
  {
    var matching := Matches(s.transactions, OwnKey(f), true);
    MatchesFacts(s.transactions, OwnKey(f), true);
    hide Matches;
    FirstIsMember(matching);
  }

  lemma FirstIsMember<T>(s: seq<T>)
    ensures s == [] || s[0] in s
  {
  }

  lemma AnswersFresh(s: State, f: Frame, i: nat)
    requires Keyed(f) && !IsRequest(f) && i < |s.transactions| && s.transactions[i].key == AnsweredKey(f)
    requires forall j :: 0 <= j < |s.transactions| && j != i ==> s.transactions[j].key != AnsweredKey(f)
    requires !Repeated(s.transactions[i], f)
    ensures var t := s.transactions[i];
            Step(s, f) == s.(transactions := s.transactions[i := t.(responses := t.responses + [f])])
  {
    var matching := Matches(s.transactions, AnsweredKey(f), false);
    MatchesFacts(s.transactions, AnsweredKey(f), false);
    hide Matches, Repeated;
    assert i in matching;
    assert matching[0] in matching && matching[|matching| - 1] in matching;
  }

  lemma AnswersOne(s: State, f: Frame, i: nat)
    requires Keyed(f) && !IsRequest(f) && i < |s.transactions| && s.transactions[i].key == AnsweredKey(f)
    requires forall j :: 0 <= j < |s.transactions| && j != i ==> s.transactions[j].key != AnsweredKey(f)
    requires forall k :: 0 <= k < |s.transactions[i].responses| ==>
                 StatusOf(s.transactions[i].responses[k]) != StatusOf(f)
    ensures var t := s.transactions[i];
            Step(s, f) == s.(transactions := s.transactions[i := t.(responses := t.responses + [f])])
  {
    hide Step, AnsweredKey, DescriptionOf;
    AnswersFresh(s, f, i);
  }

  lemma FoldsTo(frames: seq<Frame>, n: nat)
    requires n < |frames|
    ensures Fold(frames[..n + 1]) == Step(Fold(frames[..n]), frames[n])
  {
    assert frames[..n + 1][..n] == frames[..n];
    hide Step;
  }

  lemma InOrder(frames: seq<Frame>)
    requires Sorted(FrameLe, frames)
    ensures Reconstruction(frames) == Fold(frames[..|frames|]) && Fold(frames[..0]) == State([], [])
  {
    SortFixed(FrameLe, frames);
    assert frames[..|frames|] == frames;
  }

  const RINGS_LATE: seq<Frame> :=
    [CallerSends(1, "INVITE", 1, "a"), CalleeAnswers(2, 200, 1, "a", Some("callee")),
     CalleeAnswers(3, 180, 1, "a", Some("callee"))]

  /** An INVITE, its answer, and a late ringing: the one transaction of this capture is answered and proceeding. */
  lemma RingsLate()
    ensures var s := Reconstruction(RINGS_LATE);
            && |s.transactions| == 1 && s.transactions[0].responses == RINGS_LATE[1..] && s.orphans == []
            && Answered(s.transactions[0].responses) && RecordOf(s.transactions[0]).state == Proceeding
  {
    hide Fold, Step, Reconstruction, RecordOf, Answered;
    var invite, ok, ringing := RINGS_LATE[0], RINGS_LATE[1], RINGS_LATE[2];
    ThreeFrames(invite, ok, ringing);
    RingsLateStates(invite, ok, ringing);
    LateProvisionalReopens(Transaction(CallKey("INVITE", 1, "a"), Some(invite), [ok, ringing], [], false), ok, ringing);
    assert RINGS_LATE[1..] == [ok, ringing];
  }

  lemma ThreeFrames(a: Frame, b: Frame, c: Frame)
    requires FrameNumber(a) <= FrameNumber(b) <= FrameNumber(c)
    ensures Reconstruction([a, b, c]) == Step(Step(Step(State([], []), a), b), c)
  {
    hide Step;
    var frames := [a, b, c];
    FoldsTo(frames, 0);
    FoldsTo(frames, 1);
    FoldsTo(frames, 2);
    InOrder(frames);
  }

  lemma Replaces(t: Transaction, after: Transaction, more: seq<Frame>)
    requires after == t.(responses := t.responses + more)
    ensures [t][0 := t.(responses := t.responses + more)] == [after]
  {
  }

  lemma RingsLateStates(invite: Frame, ok: Frame, ringing: Frame)
    requires invite == CallerSends(1, "INVITE", 1, "a") && ok == CalleeAnswers(2, 200, 1, "a", Some("callee"))
    requires ringing == CalleeAnswers(3, 180, 1, "a", Some("callee"))
    ensures Step(Step(Step(State([], []), invite), ok), ringing)
         == State([Transaction(CallKey("INVITE", 1, "a"), Some(invite), [ok, ringing], [], false)], [])
  {
    FrameKeys(1, "INVITE", 1, "a", 200, None);
    FrameKeys(2, "INVITE", 1, "a", 200, Some("callee"));
    FrameKeys(3, "INVITE", 1, "a", 180, Some("callee"));
    assert StatusOf(ok) == Some(200) && StatusOf(ringing) == Some(180);
    hide Step, Keyed, OwnKey, AnsweredKey, IsRequest, StatusOf, CallerSends, CalleeAnswers, CallKey;
    var key := CallKey("INVITE", 1, "a");
    var invited := Transaction(key, Some(invite), [], [], false);
    var answered := Transaction(key, Some(invite), [ok], [], false);
    var rung := Transaction(key, Some(invite), [ok, ringing], [], false);
    OpensNew(State([], []), invite);
    Replaces(invited, answered, [ok]);
    AnswersOne(State([invited], []), ok, 0);
    Replaces(answered, rung, [ringing]);
    AnswersOne(State([answered], []), ringing, 0);
  }

  const ANSWERED_TWICE: seq<Frame> :=
    [CallerSends(1, "INVITE", 1, "a"), CalleeAnswers(2, 200, 1, "a", Some("callee")).(sdp := Some(7)),
     CalleeAnswers(3, 200, 1, "a", Some("callee")).(sdp := Some(7))]

  /** An INVITE and the same answer twice, with the same description: two responses and no retransmission. */
  lemma AnsweredTwice()
    ensures var s := Reconstruction(ANSWERED_TWICE);
            && |s.transactions| == 1 && s.orphans == []
            && s.transactions[0].responses == ANSWERED_TWICE[1..] && s.transactions[0].retransmissions == []
  {
    hide Fold, Step, Reconstruction;
    var invite, ok, again := ANSWERED_TWICE[0], ANSWERED_TWICE[1], ANSWERED_TWICE[2];
    ThreeFrames(invite, ok, again);
    AnsweredTwiceStates(invite, ok, again);
    assert ANSWERED_TWICE[1..] == [ok, again];
  }

  lemma AnsweredTwiceStates(invite: Frame, ok: Frame, again: Frame)
    requires invite == CallerSends(1, "INVITE", 1, "a")
    requires ok == CalleeAnswers(2, 200, 1, "a", Some("callee")).(sdp := Some(7))
    requires again == CalleeAnswers(3, 200, 1, "a", Some("callee")).(sdp := Some(7))
    ensures Step(Step(Step(State([], []), invite), ok), again)
         == State([Transaction(CallKey("INVITE", 1, "a"), Some(invite), [ok, again], [], false)], [])
  {
    FrameKeys(1, "INVITE", 1, "a", 200, None);
    FrameKeys(2, "INVITE", 1, "a", 200, Some("callee"));
    FrameKeys(3, "INVITE", 1, "a", 200, Some("callee"));
    assert Keyed(ok) && !IsRequest(ok) && AnsweredKey(ok) == CallKey("INVITE", 1, "a");
    assert Keyed(again) && !IsRequest(again) && AnsweredKey(again) == CallKey("INVITE", 1, "a");
    assert DescriptionOf(ok) != DescriptionOf(again);
    hide Step, Keyed, OwnKey, AnsweredKey, IsRequest, DescriptionOf, CallerSends, CalleeAnswers, CallKey, SameHeaders;
    var key := CallKey("INVITE", 1, "a");
    var invited := Transaction(key, Some(invite), [], [], false);
    var answered := Transaction(key, Some(invite), [ok], [], false);
    var twice := Transaction(key, Some(invite), [ok, again], [], false);
    OpensNew(State([], []), invite);
    Replaces(invited, answered, [ok]);
    AnswersFresh(State([invited], []), ok, 0);
    Replaces(answered, twice, [again]);
    AnswersFresh(State([answered], []), again, 0);
  }

  // ----- reconstruction with builder objects

  /** A transaction under construction. */
  class TransactionBuilder {
    const key: Key
    const request: Option<Frame>
    var responses: seq<Frame>
    var retransmissions: seq<Evidence>
    var ambiguous: bool

    constructor (key: Key, request: Option<Frame>, responses: seq<Frame>)
      ensures Snapshot() == Transaction(key, request, responses, [], false)
    {
      this.key, this.request, this.responses := key, request, responses;
      retransmissions, ambiguous := [], false;
    }

    ghost function Snapshot(): Transaction
      reads this
    {
      Transaction(key, request, responses, retransmissions, ambiguous)
    }

    method Retransmit(evidence: Evidence)
      modifies this
      ensures Snapshot() == old(Snapshot()).(retransmissions := old(Snapshot()).retransmissions + [evidence])
    {
      retransmissions := retransmissions + [evidence];
    }

    method Respond(f: Frame)
      modifies this
      ensures Snapshot() == old(Snapshot()).(responses := old(Snapshot()).responses + [f])
    {
      responses := responses + [f];
    }

    method Blur()
      modifies this
      ensures Snapshot() == old(Snapshot()).(ambiguous := true)
    {
      ambiguous := true;
    }

    method AlreadyHolds(f: Frame) returns (found: bool)
      requires f.sip.Some?
      ensures found == Repeated(Snapshot(), f)
    {
      found := false;
      for i := 0 to |responses|
        invariant !found
        invariant forall k :: 0 <= k < i ==> !(responses[k].sip.Some? && SameResponse(responses[k], f))
      {
        if responses[i].sip.Some? && SameResponse(responses[i], f) {
          found := true;
          return;
        }
      }
    }

    /** Close the transaction: derive its state and its transitions from the responses it holds. */
    method Close() returns (r: Record)
      ensures r == RecordOf(Snapshot())
    {
      var t := Transaction(key, request, responses, retransmissions, ambiguous);
      if request.None? {
        return Record(t, OrphanResponse, []);
      }
      var state, transitions, final := RequestSeen, Opening(request.value), false;
      for i := 0 to |responses|
        invariant transitions == History(request.value, responses[..i])
        invariant state == transitions[|transitions| - 1].current
        invariant final <==> Answered(responses[..i])
      {
        assert responses[..i + 1][..i] == responses[..i];
        var status := StatusOf(responses[i]);
        if status.Some? {
          var next := PhaseOf(status.value);
          transitions := transitions + [Transition(state, next, status, responses[i].evidence)];
          state := next;
        }
        MoreAnswered(responses, i);
        final := final || Final(responses[i]);
      }
      assert responses[..|responses|] == responses;
      if key.base.cseqMethod == "ACK" {
        state := Completed;
      } else if !final {
        state := Incomplete;
      }
      r := Record(t, state, transitions);
    }
  }

  lemma MoreAnswered(responses: seq<Frame>, i: nat)
    requires i < |responses|
    ensures Answered(responses[..i + 1]) <==> Answered(responses[..i]) || Final(responses[i])
  {
  }

  ghost predicate Separate(builders: seq<TransactionBuilder>) {
    forall i, j :: 0 <= i < j < |builders| ==> builders[i] != builders[j]
  }

  ghost function Snapshots(builders: seq<TransactionBuilder>): (r: seq<Transaction>)
    reads builders
    ensures |r| == |builders|
    ensures forall i :: 0 <= i < |r| ==> r[i] == builders[i].Snapshot()
  {
    if builders == [] then [] else Snapshots(builders[..|builders| - 1]) + [builders[|builders| - 1].Snapshot()]
  }

  /** Positions of the builders a frame could belong to, in order of creation. */
  method FindMatching(builders: seq<TransactionBuilder>, key: Key, needRequest: bool) returns (matching: seq<nat>)
    ensures matching == Matches(Snapshots(builders), key, needRequest)
  {
    matching := [];
    ghost var ts := Snapshots(builders);
    for i := 0 to |builders|
      invariant matching == Matches(ts[..i], key, needRequest)
    {
      assert ts[..i + 1][..i] == ts[..i];
      if builders[i].key == key && (!needRequest || builders[i].request.Some?) {
        matching := matching + [i];
      }
    }
    assert ts[..|ts|] == ts;
  }

  lemma RequestOutcome(s: State, f: Frame)
    requires Keyed(f)
    ensures AddRequest(s, f).orphans == s.orphans
    ensures var ts, matching := s.transactions, Matches(s.transactions, OwnKey(f), true);
            if matching == [] then
              AddRequest(s, f).transactions == ts + [Transaction(OwnKey(f), Some(f), [], [], false)]
            else
              && matching[0] < |ts|
              && AddRequest(s, f).transactions
                 == ts[matching[0] :=
                       ts[matching[0]].(retransmissions := ts[matching[0]].retransmissions + [f.evidence])]
  {
    var matching := Matches(s.transactions, OwnKey(f), true);
    MatchesFacts(s.transactions, OwnKey(f), true);
    hide Matches, OwnKey, Keyed;
    if matching != [] {
      assert matching[0] in matching;
    }
  }

  method Open(builders: seq<TransactionBuilder>, key: Key, request: Option<Frame>, responses: seq<Frame>)
    returns (r: seq<TransactionBuilder>)
    requires Separate(builders)
    ensures builders <= r && |r| == |builders| + 1 && fresh(r[|builders|]) && Separate(r)
    ensures Snapshots(r) == Snapshots(builders) + [Transaction(key, request, responses, [], false)]
  {
    var b := new TransactionBuilder(key, request, responses);
    r := builders + [b];
  }

  method RetransmitAt(builders: seq<TransactionBuilder>, i: nat, evidence: Evidence)
    requires Separate(builders) && i < |builders|
    modifies builders
    ensures var ts := old(Snapshots(builders));
            Snapshots(builders) == ts[i := ts[i].(retransmissions := ts[i].retransmissions + [evidence])]
  {
    builders[i].Retransmit(evidence);
  }

  method FileRequest(builders: seq<TransactionBuilder>, ghost s: State, f: Frame) returns (r: seq<TransactionBuilder>)
    requires Separate(builders) && Snapshots(builders) == s.transactions && Keyed(f)
    modifies builders
    ensures Separate(r) && State(Snapshots(r), s.orphans) == AddRequest(s, f)
    ensures builders <= r && forall i :: |builders| <= i < |r| ==> fresh(r[i])
  {
    hide *;
    var matching := FindMatching(builders, OwnKey(f), true);
    RequestOutcome(s, f);
    if matching != [] {
      RetransmitAt(builders, matching[0], f.evidence);
      r := builders;
    } else {
      r := Open(builders, OwnKey(f), Some(f), []);
    }
  }

  method RespondAt(builders: seq<TransactionBuilder>, i: nat, f: Frame)
    requires Separate(builders) && i < |builders|
    modifies builders
    ensures var ts := old(Snapshots(builders));
            Snapshots(builders) == ts[i := ts[i].(responses := ts[i].responses + [f])]
  {
    builders[i].Respond(f);
  }

  lemma KeyedSip(f: Frame)
    requires Keyed(f)
    ensures f.sip.Some?
  {
  }

  lemma ResponseOutcome(s: State, f: Frame)
    requires Keyed(f)
    ensures var ts, matching := s.transactions, Matches(s.transactions, AnsweredKey(f), false);
            if matching == [] then
              AddResponse(s, f) == State(ts + [Transaction(OwnKey(f), None, [f], [], false)], s.orphans + [f.evidence])
            else if |matching| == 1 then
              && matching[0] < |ts|
              && var t := ts[matching[0]];
                 AddResponse(s, f) == s.(transactions := ts[matching[0] := if Repeated(t, f) then
                   t.(retransmissions := t.retransmissions + [f.evidence]) else t.(responses := t.responses + [f])])
            else AddResponse(s, f) == State(MarkAmbiguous(ts, AnsweredKey(f)), s.orphans + [f.evidence])
  {
    var matching := Matches(s.transactions, AnsweredKey(f), false);
    MatchesFacts(s.transactions, AnsweredKey(f), false);
    hide Matches, OwnKey, AnsweredKey, Keyed, Repeated, MarkAmbiguous;
    if matching != [] {
      assert matching[0] in matching;
    }
  }

  method FileResponse(builders: seq<TransactionBuilder>, orphans: seq<Evidence>, ghost s: State, f: Frame)
    returns (r: seq<TransactionBuilder>, o: seq<Evidence>)
    requires Separate(builders) && Snapshots(builders) == s.transactions && orphans == s.orphans && Keyed(f)
    modifies builders
    ensures Separate(r) && State(Snapshots(r), o) == AddResponse(s, f)
    ensures builders <= r && forall i :: |builders| <= i < |r| ==> fresh(r[i])
  {
    hide *;
    var matching := FindMatching(builders, AnsweredKey(f), false);
    ResponseOutcome(s, f);
    r, o := builders, orphans;
    if matching == [] {
      r := Open(builders, OwnKey(f), None, [f]);
      o := orphans + [f.evidence];
    } else if |matching| == 1 {
      KeyedSip(f);
      var held := builders[matching[0]].AlreadyHolds(f);
      if held {
        RetransmitAt(builders, matching[0], f.evidence);
      } else {
        RespondAt(builders, matching[0], f);
      }
    } else {
      BlurAll(builders, matching, AnsweredKey(f));
      o := orphans + [f.evidence];
    }
  }

  method BlurAll(builders: seq<TransactionBuilder>, matching: seq<nat>, ghost key: Key)
    requires Separate(builders) && matching == Matches(Snapshots(builders), key, false)
    modifies builders
    ensures Snapshots(builders) == MarkAmbiguous(old(Snapshots(builders)), key)
  {
    hide Snapshots;
    ghost var ts := Snapshots(builders);
    MatchesFacts(ts, key, false);
    hide Matches;
    for k := 0 to |matching|
      invariant forall i: nat :: i < |builders| ==>
        builders[i].Snapshot() == if i in matching[..k] then ts[i].(ambiguous := true) else ts[i]
    {
      assert matching[k] in matching;
      builders[matching[k]].Blur();
    }
  }

  /** Reconstruct in frame order with mutable builders, then close each into a record. */
  method ReconstructTransactions(frames: seq<Frame>) returns (records: seq<Record>, orphans: seq<Evidence>)
    ensures |records| == |Reconstruction(frames).transactions| && orphans == Reconstruction(frames).orphans
    ensures forall i :: 0 <= i < |records| ==> records[i] == RecordOf(Reconstruction(frames).transactions[i])
  {
    hide Snapshots, Sort, Keyed, IsRequest, AddRequest, AddResponse;
    var sorted := Sort(FrameLe, frames);
    var builders: seq<TransactionBuilder> := [];
    orphans := [];
    for i := 0 to |sorted|
      invariant Separate(builders) && forall k :: 0 <= k < |builders| ==> fresh(builders[k])
      invariant State(Snapshots(builders), orphans) == Fold(sorted[..i])
    {
      var f := sorted[i];
      ghost var s := Fold(sorted[..i]);
      assert sorted[..i + 1][..i] == sorted[..i];
      if f.sip.Some? {
        if !Keyed(f) {
          orphans := orphans + [f.evidence];
        } else if IsRequest(f) {
          builders := FileRequest(builders, s, f);
        } else {
          builders, orphans := FileResponse(builders, orphans, s, f);
        }
      }
    }
    assert sorted[..|sorted|] == sorted;
    records := CloseAll(builders);
  }

  method CloseAll(builders: seq<TransactionBuilder>) returns (records: seq<Record>)
    ensures |records| == |builders|
    ensures forall k :: 0 <= k < |records| ==> records[k] == RecordOf(Snapshots(builders)[k])
  {
    records := [];
    for i := 0 to |builders|
      invariant |records| == i && forall k :: 0 <= k < i ==> records[k] == RecordOf(Snapshots(builders)[k])
    {
      var record := builders[i].Close();
      records := records + [record];
    }
  }
}
