/** Where each frame of a capture goes, told by its place among the others. */
module FilingMeaning {
  import opened Prelude
  import opened Sorting
  import opened Transactions

  // ----- frames side by side

  /** Call, sequence and branch can be read, and both ends are known and use one transport. */
  predicate Legible(f: Frame) {
    && f.sip.Some?
    && f.sip.value.callId.Some? && f.sip.value.cseqNumber.Some? && f.sip.value.cseqMethod.Some?
    && f.sip.value.viaBranch.Some?
    && f.source.address.Some? && f.source.port.Some? && f.source.transport.Some?
    && f.destination.address.Some? && f.destination.port.Some? && f.destination.transport == f.source.transport
  }

  predicate Asking(f: Frame) {
    f.sip.Some? && f.sip.value.requestMethod.Some?
  }

  /** Methods are compared whatever their case. */
  predicate SameBase(a: Frame, b: Frame)
    requires Legible(a) && Legible(b)
  {
    && a.sip.value.callId == b.sip.value.callId && a.sip.value.cseqNumber == b.sip.value.cseqNumber
    && a.sip.value.viaBranch == b.sip.value.viaBranch
    && Upper(a.sip.value.cseqMethod.value) == Upper(b.sip.value.cseqMethod.value)
  }

  predicate Alike(a: Frame, b: Frame) {
    Legible(a) && Legible(b) && SameBase(a, b) && a.source == b.source && a.destination == b.destination
  }

  /** The other way round between the same two ends. */
  predicate Facing(a: Frame, b: Frame) {
    Legible(a) && Legible(b) && SameBase(a, b) && a.source == b.destination && a.destination == b.source
  }

  /** Equal in all that is compared; a description counts together with the frame it came in. */
  predicate SaysSame(a: Frame, b: Frame) {
    && a.sip.Some? && b.sip.Some?
    && a.sip.value.statusCode == b.sip.value.statusCode && a.sip.value.rseq == b.sip.value.rseq
    && a.sip.value.fromTag == b.sip.value.fromTag && a.sip.value.toTag == b.sip.value.toTag
    && a.sdp == b.sdp && (a.sdp.Some? ==> a.evidence == b.evidence)
  }

  // ----- where a frame goes

  /**
   Frame k opens a transaction: a request unless a request alike opened one before, a response unless something it
   faces opened one before.
   */
  ghost predicate Opens(frames: seq<Frame>, k: nat) {
    && k < |frames| && Legible(frames[k])
    && forall j: nat :: j < k && Opens(frames, j) ==>
         if Asking(frames[k]) then !(Asking(frames[j]) && Alike(frames[k], frames[j]))
         else !Facing(frames[k], frames[j])
  }

  /** Response k faces the frame that opened transaction j. */
  ghost predicate Faces(frames: seq<Frame>, k: nat, j: nat) {
    j < k < |frames| && Opens(frames, j) && !Asking(frames[k]) && Facing(frames[k], frames[j])
  }

  /** Frame k is filed under the transaction that frame j opened, and that is no other. */
  ghost predicate GoesTo(frames: seq<Frame>, k: nat, j: nat) {
    && j < k < |frames|
    && if Asking(frames[k]) then Opens(frames, j) && Asking(frames[j]) && Alike(frames[k], frames[j])
       else Faces(frames, k, j) && forall i: nat :: Faces(frames, k, i) ==> i == j
  }

  /** Response k is kept by transaction j: it opened it, or goes there and says what no response kept before says. */
  ghost predicate Kept(frames: seq<Frame>, k: nat, j: nat)
    decreases k
  {
    && k < |frames| && !Asking(frames[k])
    && if k == j then Opens(frames, k)
       else GoesTo(frames, k, j) && forall i: nat :: i < k && Kept(frames, i, j) ==> !SaysSame(frames[i], frames[k])
  }

  ghost predicate Again(frames: seq<Frame>, k: nat, j: nat) {
    GoesTo(frames, k, j) && !Kept(frames, k, j)
  }

  /** Response k could go to two transactions, so it goes to none. */
  ghost predicate Torn(frames: seq<Frame>, k: nat) {
    exists i: nat, j: nat :: Faces(frames, k, i) && Faces(frames, k, j) && i != j
  }

  ghost predicate Stray(frames: seq<Frame>, k: nat) {
    && k < |frames| && frames[k].sip.Some?
    && (!Legible(frames[k]) || (!Asking(frames[k]) && (Opens(frames, k) || Torn(frames, k))))
  }

  // ----- lists of places

  /** The numbers below n with a property, in order. */
  ghost predicate Lists(at: seq<nat>, n: nat, p: nat -> bool) {
    && (forall x :: 0 <= x < |at| ==> at[x] < n && p(at[x]))
    && (forall x, y :: 0 <= x < y < |at| ==> at[x] < at[y])
    && forall k: nat :: k < n && p(k) ==> k in at
  }

  lemma ListsMore(at: seq<nat>, n: nat, p: nat -> bool)
    requires Lists(at, n, p)
    ensures Lists(at + if p(n) then [n] else [], n + 1, p)
  {
    var more := at + if p(n) then [n] else [];
    forall k: nat | k < n + 1 && p(k) ensures k in more {
      if k == n {
        assert more[|at|] == n;
      }
    }
  }

  ghost predicate FramesAt(frames: seq<Frame>, at: seq<nat>, shown: seq<Frame>) {
    |shown| == |at| && forall x :: 0 <= x < |at| ==> at[x] < |frames| && shown[x] == frames[at[x]]
  }

  ghost predicate EvidenceAt(frames: seq<Frame>, at: seq<nat>, shown: seq<Evidence>) {
    |shown| == |at| && forall x :: 0 <= x < |at| ==> at[x] < |frames| && shown[x] == frames[at[x]].evidence
  }

  // ----- the whole filing

  ghost predicate KeptBy(frames: seq<Frame>, n: nat, j: nat, responses: seq<Frame>) {
    exists at :: Lists(at, n, (k: nat) => Kept(frames, k, j)) && FramesAt(frames, at, responses)
  }

  ghost predicate RepeatedTo(frames: seq<Frame>, n: nat, j: nat, again: seq<Evidence>) {
    exists at :: Lists(at, n, (k: nat) => Again(frames, k, j)) && EvidenceAt(frames, at, again)
  }

  ghost predicate StraysAre(frames: seq<Frame>, n: nat, orphans: seq<Evidence>) {
    exists at :: Lists(at, n, (k: nat) => Stray(frames, k)) && EvidenceAt(frames, at, orphans)
  }

  /** Something among the first n frames is torn between transaction j and another. */
  ghost predicate TornFrom(frames: seq<Frame>, n: nat, j: nat) {
    exists k: nat :: k < n && Torn(frames, k) && Faces(frames, k, j)
  }

  /** The transaction that frame j opened, as far as the first n frames go. */
  ghost predicate FiledUnder(frames: seq<Frame>, n: nat, j: nat, t: Transaction) {
    && j < n <= |frames| && Legible(frames[j])
    && t.key.base
       == Base(frames[j].sip.value.callId.value, frames[j].sip.value.cseqNumber.value,
               Upper(frames[j].sip.value.cseqMethod.value), frames[j].sip.value.viaBranch.value)
    && t.key.flow
       == Flow(frames[j].source.address.value, frames[j].source.port.value, frames[j].destination.address.value,
               frames[j].destination.port.value, frames[j].source.transport.value)
    && t.request == (if Asking(frames[j]) then Some(frames[j]) else None)
    && KeptBy(frames, n, j, t.responses) && RepeatedTo(frames, n, j, t.retransmissions)
    && (t.ambiguous <==> TornFrom(frames, n, j))
  }

  /** One transaction for every opening frame, in order, and every stray frame an orphan. */
  ghost predicate Filed(frames: seq<Frame>, n: nat, s: State, openers: seq<nat>) {
    && n <= |frames| && Lists(openers, n, (k: nat) => Opens(frames, k)) && |s.transactions| == |openers|
    && (forall i :: 0 <= i < |openers| ==> FiledUnder(frames, n, openers[i], s.transactions[i]))
    && StraysAre(frames, n, s.orphans)
  }

  // ----- keys

  lemma LegibleIs(f: Frame)
    ensures Legible(f) <==> Keyed(f)
  {
  }

  lemma KeysMatch(f: Frame, frames: seq<Frame>, n: nat, j: nat, t: Transaction)
    requires Legible(f) && FiledUnder(frames, n, j, t)
    ensures Keyed(f) && (t.key == OwnKey(f) <==> Alike(f, frames[j]))
    ensures t.key == AnsweredKey(f) <==> Facing(f, frames[j])
  {
    hide KeptBy, RepeatedTo, TornFrom, Upper;
  }

  lemma SaysSameIs(a: Frame, b: Frame)
    ensures a.sip.Some? && b.sip.Some? ==> (SameResponse(a, b) <==> SaysSame(a, b))
  {
  }

  // ----- one more frame

  lemma KeptMore(frames: seq<Frame>, n: nat, j: nat, responses: seq<Frame>)
    requires KeptBy(frames, n, j, responses) && n < |frames|
    ensures KeptBy(frames, n + 1, j, if Kept(frames, n, j) then responses + [frames[n]] else responses)
  {
    hide Lists, Kept;
    var at :| Lists(at, n, (k: nat) => Kept(frames, k, j)) && FramesAt(frames, at, responses);
    ListsMore(at, n, (k: nat) => Kept(frames, k, j));
    if Kept(frames, n, j) {
      assert FramesAt(frames, at + [n], responses + [frames[n]]);
    } else {
      assert at + [] == at;
    }
  }

  lemma RepeatedMore(frames: seq<Frame>, n: nat, j: nat, again: seq<Evidence>)
    requires RepeatedTo(frames, n, j, again) && n < |frames|
    ensures RepeatedTo(frames, n + 1, j, if Again(frames, n, j) then again + [frames[n].evidence] else again)
  {
    hide Lists, Again;
    var at :| Lists(at, n, (k: nat) => Again(frames, k, j)) && EvidenceAt(frames, at, again);
    ListsMore(at, n, (k: nat) => Again(frames, k, j));
    if Again(frames, n, j) {
      assert EvidenceAt(frames, at + [n], again + [frames[n].evidence]);
    } else {
      assert at + [] == at;
    }
  }

  lemma TornMore(frames: seq<Frame>, n: nat, j: nat)
    ensures TornFrom(frames, n + 1, j) <==> TornFrom(frames, n, j) || (Torn(frames, n) && Faces(frames, n, j))
  {
    hide Torn, Faces;
  }

  /** What one more frame makes of a transaction. */
  function After(t: Transaction, f: Frame, kept: bool, again: bool, torn: bool): Transaction {
    t.(responses := if kept then t.responses + [f] else t.responses,
       retransmissions := if again then t.retransmissions + [f.evidence] else t.retransmissions,
       ambiguous := t.ambiguous || torn)
  }

  lemma FiledNext(frames: seq<Frame>, n: nat, j: nat, t: Transaction)
    requires FiledUnder(frames, n, j, t) && n < |frames|
    ensures FiledUnder(frames, n + 1, j,
                       After(t, frames[n], Kept(frames, n, j), Again(frames, n, j),
                             Torn(frames, n) && Faces(frames, n, j)))
  {
    KeptMore(frames, n, j, t.responses);
    RepeatedMore(frames, n, j, t.retransmissions);
    TornMore(frames, n, j);
    hide KeptBy, RepeatedTo, TornFrom, Kept, Again, Torn, Faces, Legible;
  }

  function Opened(f: Frame): Transaction
    requires Keyed(f)
  {
    if IsRequest(f) then Transaction(OwnKey(f), Some(f), [], [], false)
    else Transaction(OwnKey(f), None, [f], [], false)
  }

  lemma JustOpened(frames: seq<Frame>, n: nat)
    requires Opens(frames, n)
    ensures Keyed(frames[n]) && FiledUnder(frames, n + 1, n, Opened(frames[n]))
  {
    var t, at := Opened(frames[n]), if Asking(frames[n]) then [] else [n];
    assert Lists(at, n + 1, (k: nat) => Kept(frames, k, n)) && FramesAt(frames, at, t.responses);
    assert Lists([], n + 1, (k: nat) => Again(frames, k, n)) && EvidenceAt(frames, [], t.retransmissions);
  }

  lemma StraysSame(frames: seq<Frame>, n: nat, orphans: seq<Evidence>)
    requires StraysAre(frames, n, orphans) && n < |frames|
    ensures StraysAre(frames, n + 1, if Stray(frames, n) then orphans + [frames[n].evidence] else orphans)
  {
    var at :| Lists(at, n, (k: nat) => Stray(frames, k)) && EvidenceAt(frames, at, orphans);
    ListsMore(at, n, (k: nat) => Stray(frames, k));
    if Stray(frames, n) {
      assert EvidenceAt(frames, at + [n], orphans + [frames[n].evidence]);
    } else {
      assert at + [] == at;
    }
    hide Lists, Stray;
  }

  lemma RepeatsKept(frames: seq<Frame>, n: nat, j: nat, t: Transaction)
    requires FiledUnder(frames, n, j, t) && n < |frames| && frames[n].sip.Some?
    ensures Repeated(t, frames[n]) <==> exists i: nat :: i < n && Kept(frames, i, j) && SaysSame(frames[i], frames[n])
  {
    hide Lists;
    var kept :| Lists(kept, n, (k: nat) => Kept(frames, k, j)) && FramesAt(frames, kept, t.responses);
    KeptListed(frames, n, j, kept);
    var f := frames[n];
    forall a: Frame ensures a.sip.Some? && SameResponse(a, f) <==> SaysSame(a, f) {
      SaysSameIs(a, f);
    }
    hide SameResponse, SaysSame, Kept;
    if Repeated(t, f) {
      var x :| 0 <= x < |t.responses| && t.responses[x].sip.Some? && SameResponse(t.responses[x], f);
      assert Kept(frames, kept[x], j) && SaysSame(frames[kept[x]], f);
    }
    if i: nat :| i < n && Kept(frames, i, j) && SaysSame(frames[i], f) {
      var x :| 0 <= x < |kept| && kept[x] == i;
      assert t.responses[x] == frames[i];
    }
  }

  lemma KeptListed(frames: seq<Frame>, n: nat, j: nat, at: seq<nat>)
    requires Lists(at, n, (k: nat) => Kept(frames, k, j))
    ensures forall x :: 0 <= x < |at| ==> at[x] < n && Kept(frames, at[x], j)
    ensures forall k: nat :: k < n && Kept(frames, k, j) ==> k in at
  {
    hide Kept;
  }

  // ----- the step, case by case

  ghost function Next(frames: seq<Frame>, n: nat, j: nat, t: Transaction): Transaction
    requires n < |frames|
  {
    After(t, frames[n], Kept(frames, n, j), Again(frames, n, j), Torn(frames, n) && Faces(frames, n, j))
  }

  /** What the next frame makes of all transactions, and of the orphans. */
  ghost predicate NextState(frames: seq<Frame>, n: nat, openers: seq<nat>, s: State, after: State)
    requires n < |frames| && |openers| == |s.transactions|
  {
    && |after.transactions| == |s.transactions| + (if Opens(frames, n) then 1 else 0)
    && (forall i :: 0 <= i < |openers| ==> after.transactions[i] == Next(frames, n, openers[i], s.transactions[i]))
    && (Opens(frames, n) ==> Keyed(frames[n]) && after.transactions[|openers|] == Opened(frames[n]))
    && after.orphans == if Stray(frames, n) then s.orphans + [frames[n].evidence] else s.orphans
  }

  lemma NextFiled(frames: seq<Frame>, n: nat, openers: seq<nat>, s: State, after: State)
    requires Filed(frames, n, s, openers) && n < |frames| && NextState(frames, n, openers, s, after)
    ensures Filed(frames, n + 1, after, openers + if Opens(frames, n) then [n] else [])
  {
    hide FiledUnder, Opens, Stray, StraysAre, Kept, Again, Torn, Faces, After, Lists, Opened;
    ListsMore(openers, n, (k: nat) => Opens(frames, k));
    StraysSame(frames, n, s.orphans);
    var more := openers + if Opens(frames, n) then [n] else [];
    forall i | 0 <= i < |more| ensures FiledUnder(frames, n + 1, more[i], after.transactions[i]) {
      if i < |openers| {
        FiledNext(frames, n, openers[i], s.transactions[i]);
      } else {
        JustOpened(frames, n);
      }
    }
  }

  lemma OpenersListed(frames: seq<Frame>, n: nat, s: State, openers: seq<nat>)
    requires Filed(frames, n, s, openers)
    ensures forall i :: 0 <= i < |openers| ==> openers[i] < n && Opens(frames, openers[i])
    ensures forall i, k :: 0 <= i < k < |openers| ==> openers[i] < openers[k]
    ensures forall j: nat :: j < n && Opens(frames, j) ==> j in openers
  {
    hide Opens;
  }

  lemma Unreadable(frames: seq<Frame>, n: nat, openers: seq<nat>, s: State)
    requires Filed(frames, n, s, openers) && n < |frames| && !Legible(frames[n])
    ensures NextState(frames, n, openers, s, Step(s, frames[n]))
  {
    OpenersListed(frames, n, s, openers);
    LegibleIs(frames[n]);
    hide Filed, Legible, Keyed;
  }

  /** Two requests that opened transactions are never alike. */
  lemma OneAlike(frames: seq<Frame>, f: Frame, a: nat, b: nat)
    requires Opens(frames, a) && Opens(frames, b) && Asking(frames[a]) && Asking(frames[b])
    requires Alike(f, frames[a]) && Alike(f, frames[b])
    ensures a == b
  {
    AlikeJoins(f, frames[a], frames[b]);
    hide Alike;
  }

  lemma AlikeJoins(f: Frame, a: Frame, b: Frame)
    requires Alike(f, a) && Alike(f, b)
    ensures Alike(a, b) && Alike(b, a)
  {
    hide Upper;
  }

  lemma RequestMatches(frames: seq<Frame>, n: nat, openers: seq<nat>, s: State, i: nat)
    requires Filed(frames, n, s, openers) && n < |frames| && Legible(frames[n]) && Asking(frames[n]) && i < |openers|
    ensures Keyed(frames[n])
    ensures i in Matches(s.transactions, OwnKey(frames[n]), true) <==> GoesTo(frames, n, openers[i])
  {
    OpenersListed(frames, n, s, openers);
    assert FiledUnder(frames, n, openers[i], s.transactions[i]);
    KeysMatch(frames[n], frames, n, openers[i], s.transactions[i]);
    MatchesFacts(s.transactions, OwnKey(frames[n]), true);
    hide Filed, Legible, Matches, Alike, Opens, KeptBy, RepeatedTo, TornFrom;
  }

  lemma RequestOpens(frames: seq<Frame>, n: nat, openers: seq<nat>, s: State)
    requires Filed(frames, n, s, openers) && n < |frames| && Legible(frames[n]) && Asking(frames[n])
    ensures Opens(frames, n) <==> forall i :: 0 <= i < |openers| ==> !GoesTo(frames, n, openers[i])
  {
    OpenersListed(frames, n, s, openers);
    hide Filed, Legible, Alike;
  }

  /** After a frame that is neither kept, nor repeated, nor torn, a transaction is what it was. */
  lemma NothingNew(frames: seq<Frame>, n: nat, j: nat, t: Transaction)
    requires n < |frames|
    requires !Kept(frames, n, j) && !Again(frames, n, j) && !(Torn(frames, n) && Faces(frames, n, j))
    ensures Next(frames, n, j, t) == t
  {
  }

  lemma RequestJoins(frames: seq<Frame>, n: nat, openers: seq<nat>, s: State, i: nat)
    requires Filed(frames, n, s, openers) && n < |frames| && Legible(frames[n]) && Asking(frames[n])
    requires i < |openers| && GoesTo(frames, n, openers[i])
    ensures NextState(frames, n, openers, s,
                      s.(transactions := s.transactions[i := After(s.transactions[i], frames[n], false, true, false)]))
  {
    OpenersListed(frames, n, s, openers);
    RequestOpens(frames, n, openers, s);
    AskingGoes(frames, n);
    assert |openers| == |s.transactions|;
    hide Filed, Legible, Opens, Torn, Faces, Stray, GoesTo, Kept, Again, Opened, After;
    forall k | 0 <= k < |openers| && k != i
      ensures Next(frames, n, openers[k], s.transactions[k]) == s.transactions[k]
    {
      if GoesTo(frames, n, openers[k]) {
        OneGoal(frames, n, openers[k], openers[i]);
      }
      NothingNew(frames, n, openers[k], s.transactions[k]);
    }
  }

  lemma RequestFounds(frames: seq<Frame>, n: nat, openers: seq<nat>, s: State)
    requires Filed(frames, n, s, openers) && n < |frames| && Legible(frames[n]) && Asking(frames[n])
    requires forall i :: 0 <= i < |openers| ==> !GoesTo(frames, n, openers[i])
    ensures Keyed(frames[n])
    ensures NextState(frames, n, openers, s, s.(transactions := s.transactions + [Opened(frames[n])]))
  {
    LegibleIs(frames[n]);
    OpenersListed(frames, n, s, openers);
    RequestOpens(frames, n, openers, s);
    AskingGoes(frames, n);
    assert |openers| == |s.transactions|;
    hide Filed, Legible, Keyed, Opens, Torn, Faces, Stray, GoesTo, Kept, Again, Opened, After;
    forall k | 0 <= k < |openers| ensures Next(frames, n, openers[k], s.transactions[k]) == s.transactions[k] {
      NothingNew(frames, n, openers[k], s.transactions[k]);
    }
  }

  lemma RequestStep(frames: seq<Frame>, n: nat, openers: seq<nat>, s: State)
    requires Filed(frames, n, s, openers) && n < |frames| && Legible(frames[n]) && Asking(frames[n])
    ensures NextState(frames, n, openers, s, Step(s, frames[n]))
  {
    var f := frames[n];
    LegibleIs(f);
    RequestAdds(s, f);
    assert |openers| == |s.transactions|;
    var matching := Matches(s.transactions, OwnKey(f), true);
    forall i: nat | i < |openers| ensures i in matching <==> GoesTo(frames, n, openers[i]) {
      RequestMatches(frames, n, openers, s, i);
    }
    hide Filed, Legible, Matches, OwnKey, Keyed, Step, Opened, GoesTo, NextState, After;
    if matching != [] {
      assert matching[0] in matching;
      RequestJoins(frames, n, openers, s, matching[0]);
    } else {
      RequestFounds(frames, n, openers, s);
    }
  }

  lemma OneGoal(frames: seq<Frame>, n: nat, a: nat, b: nat)
    requires n < |frames| && Asking(frames[n]) && GoesTo(frames, n, a) && GoesTo(frames, n, b)
    ensures a == b
  {
    OneAlike(frames, frames[n], a, b);
  }

  lemma RequestAdds(s: State, f: Frame)
    requires Keyed(f) && Asking(f)
    ensures var matching := Matches(s.transactions, OwnKey(f), true);
            if matching == [] then Step(s, f) == s.(transactions := s.transactions + [Opened(f)])
            else
              var i := matching[0];
              && i < |s.transactions|
              && Step(s, f) == s.(transactions := s.transactions[i := After(s.transactions[i], f, false, true, false)])
  {
    MatchesFacts(s.transactions, OwnKey(f), true);
    var matching := Matches(s.transactions, OwnKey(f), true);
    hide Matches, OwnKey, Keyed;
    if matching != [] {
      assert matching[0] in matching;
    }
  }

  lemma AskingGoes(frames: seq<Frame>, n: nat)
    requires n < |frames| && Asking(frames[n]) && Legible(frames[n])
    ensures forall j: nat :: j < n ==> !Kept(frames, n, j) && (Again(frames, n, j) <==> GoesTo(frames, n, j))
    ensures forall j: nat :: !Faces(frames, n, j)
    ensures !Torn(frames, n) && !Stray(frames, n)
  {
    hide Legible;
  }

  lemma ReplyMatches(frames: seq<Frame>, n: nat, openers: seq<nat>, s: State, i: nat)
    requires Filed(frames, n, s, openers) && n < |frames| && Legible(frames[n]) && !Asking(frames[n]) && i < |openers|
    ensures Keyed(frames[n])
    ensures i in Matches(s.transactions, AnsweredKey(frames[n]), false) <==> Faces(frames, n, openers[i])
    ensures s.transactions[i].key == AnsweredKey(frames[n]) <==> Faces(frames, n, openers[i])
  {
    OpenersListed(frames, n, s, openers);
    assert FiledUnder(frames, n, openers[i], s.transactions[i]);
    KeysMatch(frames[n], frames, n, openers[i], s.transactions[i]);
    MatchesFacts(s.transactions, AnsweredKey(frames[n]), false);
    hide Filed, Legible, Matches, Facing, Opens, KeptBy, RepeatedTo, TornFrom;
  }

  lemma FacesListed(frames: seq<Frame>, n: nat, openers: seq<nat>, s: State)
    requires Filed(frames, n, s, openers)
    ensures forall j: nat :: Faces(frames, n, j) ==> j in openers
  {
    OpenersListed(frames, n, s, openers);
    hide Filed, Facing, Opens;
  }

  /** A response that faces nothing opens a transaction of its own and is an orphan all the same. */
  lemma ReplyFounds(frames: seq<Frame>, n: nat, openers: seq<nat>, s: State)
    requires Filed(frames, n, s, openers) && n < |frames| && Legible(frames[n]) && !Asking(frames[n])
    requires forall i :: 0 <= i < |openers| ==> !Faces(frames, n, openers[i])
    ensures Keyed(frames[n])
    ensures NextState(frames, n, openers, s,
                      State(s.transactions + [Opened(frames[n])], s.orphans + [frames[n].evidence]))
  {
    LegibleIs(frames[n]);
    OpenersListed(frames, n, s, openers);
    FacesListed(frames, n, openers, s);
    FacesNone(frames, n);
    assert |openers| == |s.transactions|;
    hide Filed, Legible, Keyed, Opens, Torn, Faces, Stray, GoesTo, Kept, Again, Opened, After;
    forall j: nat ensures !Faces(frames, n, j) {
      if j in openers {
        var i :| 0 <= i < |openers| && openers[i] == j;
      }
    }
    forall k | 0 <= k < |openers| ensures Next(frames, n, openers[k], s.transactions[k]) == s.transactions[k] {
      NothingNew(frames, n, openers[k], s.transactions[k]);
    }
  }

  lemma FacesNone(frames: seq<Frame>, n: nat)
    requires n < |frames| && Legible(frames[n]) && !Asking(frames[n])
    ensures (forall j: nat :: !Faces(frames, n, j)) ==>
              && Opens(frames, n) && Stray(frames, n)
              && forall j: nat :: j < n ==> !Kept(frames, n, j) && !Again(frames, n, j)
  {
    hide Legible, Facing;
    if forall j: nat :: !Faces(frames, n, j) {
      forall j: nat | j < n && Opens(frames, j) ensures !Facing(frames[n], frames[j]) {
        assert !Faces(frames, n, j);
      }
      LegibleSip(frames[n]);
      assert Opens(frames, n);
    }
  }

  lemma FacesSome(frames: seq<Frame>, n: nat, j: nat)
    requires n < |frames| && Faces(frames, n, j)
    ensures !Opens(frames, n) && Legible(frames[n]) && (Stray(frames, n) <==> Torn(frames, n))
    ensures !Torn(frames, n) ==> forall i: nat :: GoesTo(frames, n, i) <==> i == j
    ensures Torn(frames, n) ==> forall i: nat :: !GoesTo(frames, n, i)
    ensures Torn(frames, n) ==> forall i: nat :: i < n ==> !Kept(frames, n, i) && !Again(frames, n, i)
    ensures forall i: nat :: i < n && !GoesTo(frames, n, i) ==> !Kept(frames, n, i) && !Again(frames, n, i)
    ensures GoesTo(frames, n, j) ==>
              && (Kept(frames, n, j) <==> !Again(frames, n, j))
              && (Again(frames, n, j) <==>
                  exists i: nat :: i < n && Kept(frames, i, j) && SaysSame(frames[i], frames[n]))
  {
    hide SaysSame, SameBase;
  }

  /** A response that faces one transaction is kept by it or repeats what it keeps. */
  lemma ReplyJoins(frames: seq<Frame>, n: nat, openers: seq<nat>, s: State, i: nat)
    requires Filed(frames, n, s, openers) && n < |frames| && Legible(frames[n]) && !Asking(frames[n])
    requires i < |openers| && Faces(frames, n, openers[i])
    requires forall k :: 0 <= k < |openers| && k != i ==> !Faces(frames, n, openers[k])
    ensures var t := s.transactions[i];
            var again := Repeated(t, frames[n]);
            NextState(frames, n, openers, s,
                      s.(transactions := s.transactions[i := After(t, frames[n], !again, again, false)]))
  {
    var j, t := openers[i], s.transactions[i];
    OpenersListed(frames, n, s, openers);
    OneFaced(frames, n, openers, s, i);
    FacesSome(frames, n, j);
    LegibleSip(frames[n]);
    assert |openers| == |s.transactions| && FiledUnder(frames, n, j, t);
    hide Filed, FiledUnder, Legible, Opens, Faces, Stray, GoesTo, Kept, Again, Torn, Opened, After, Repeated;
    RepeatsKept(frames, n, j, t);
    assert Next(frames, n, j, t) == After(t, frames[n], !Repeated(t, frames[n]), Repeated(t, frames[n]), false);
    hide Next;
    forall k | 0 <= k < |openers| && k != i
      ensures Next(frames, n, openers[k], s.transactions[k]) == s.transactions[k]
    {
      NothingNew(frames, n, openers[k], s.transactions[k]);
    }
  }

  lemma OneFaced(frames: seq<Frame>, n: nat, openers: seq<nat>, s: State, i: nat)
    requires Filed(frames, n, s, openers) && i < |openers| && Faces(frames, n, openers[i])
    requires forall k :: 0 <= k < |openers| && k != i ==> !Faces(frames, n, openers[k])
    ensures !Torn(frames, n)
  {
    FacesListed(frames, n, openers, s);
    hide Filed, Faces;
    forall other: nat | Faces(frames, n, other) ensures other == openers[i] {
      var k :| 0 <= k < |openers| && openers[k] == other;
    }
  }

  lemma LegibleSip(f: Frame)
    requires Legible(f)
    ensures f.sip.Some?
  {
  }

  lemma MarkedNext(frames: seq<Frame>, n: nat, openers: seq<nat>, ts: seq<Transaction>, key: Key)
    requires n < |frames| && |openers| == |ts| && Torn(frames, n)
    requires forall i :: 0 <= i < |openers| ==> (ts[i].key == key <==> Faces(frames, n, openers[i]))
    requires forall i :: 0 <= i < |openers| ==> !Kept(frames, n, openers[i]) && !Again(frames, n, openers[i])
    ensures forall k :: 0 <= k < |openers| ==> Next(frames, n, openers[k], ts[k]) == MarkAmbiguous(ts, key)[k]
  {
    hide Kept, Again, Torn, Faces, Next, MarkAmbiguous;
    forall k | 0 <= k < |openers| ensures Next(frames, n, openers[k], ts[k]) == MarkAmbiguous(ts, key)[k] {
      NextTorn(frames, n, openers[k], ts[k]);
    }
  }

  lemma TornFacts(frames: seq<Frame>, n: nat, openers: seq<nat>, s: State, a: nat, b: nat)
    requires Filed(frames, n, s, openers) && n < |frames| && Legible(frames[n])
    requires a < b < |openers| && Faces(frames, n, openers[a]) && Faces(frames, n, openers[b])
    ensures Torn(frames, n) && !Opens(frames, n) && Stray(frames, n)
    ensures forall i :: 0 <= i < |openers| ==> !Kept(frames, n, openers[i]) && !Again(frames, n, openers[i])
  {
    OpenersListed(frames, n, s, openers);
    FacesSome(frames, n, openers[a]);
    hide Filed, Legible, Opens, Faces, Stray, GoesTo, Kept, Again;
    assert Torn(frames, n);
  }

  /** A response torn between transactions makes them all ambiguous and is an orphan. */
  lemma ReplyTears(frames: seq<Frame>, n: nat, openers: seq<nat>, s: State, a: nat, b: nat)
    requires Filed(frames, n, s, openers) && n < |frames| && Legible(frames[n]) && !Asking(frames[n])
    requires a < b < |openers| && Faces(frames, n, openers[a]) && Faces(frames, n, openers[b])
    ensures Keyed(frames[n])
    ensures NextState(frames, n, openers, s,
                      State(MarkAmbiguous(s.transactions, AnsweredKey(frames[n])), s.orphans + [frames[n].evidence]))
  {
    LegibleIs(frames[n]);
    TornFacts(frames, n, openers, s, a, b);
    assert |openers| == |s.transactions|;
    hide Filed, Legible, Keyed, AnsweredKey, Opens, Faces, Stray, Kept, Again, Torn, Opened, Next, MarkAmbiguous;
    forall i: nat | i < |openers|
      ensures s.transactions[i].key == AnsweredKey(frames[n]) <==> Faces(frames, n, openers[i])
    {
      ReplyMatches(frames, n, openers, s, i);
    }
    MarkedNext(frames, n, openers, s.transactions, AnsweredKey(frames[n]));
  }

  lemma NextTorn(frames: seq<Frame>, n: nat, j: nat, t: Transaction)
    requires n < |frames| && Torn(frames, n) && !Kept(frames, n, j) && !Again(frames, n, j)
    ensures Next(frames, n, j, t) == if Faces(frames, n, j) then t.(ambiguous := true) else t
  {
    hide Kept, Again, Torn, Faces;
  }

  lemma ReplyAdds(s: State, f: Frame)
    requires Keyed(f) && !Asking(f)
    ensures var matching, after := Matches(s.transactions, AnsweredKey(f), false), Step(s, f);
            if matching == [] then after == State(s.transactions + [Opened(f)], s.orphans + [f.evidence])
            else if |matching| == 1 then
              var i := matching[0];
              && i < |s.transactions|
              && var t := s.transactions[i];
                 var again := Repeated(t, f);
                 after == s.(transactions := s.transactions[i := After(t, f, !again, again, false)])
            else after == State(MarkAmbiguous(s.transactions, AnsweredKey(f)), s.orphans + [f.evidence])
  {
    MatchesFacts(s.transactions, AnsweredKey(f), false);
    var matching := Matches(s.transactions, AnsweredKey(f), false);
    assert f.sip.Some?;
    hide Matches, AnsweredKey, OwnKey, Keyed, Repeated;
    if matching != [] {
      assert matching[0] in matching;
    }
  }

  lemma ReplyStep(frames: seq<Frame>, n: nat, openers: seq<nat>, s: State)
    requires Filed(frames, n, s, openers) && n < |frames| && Legible(frames[n]) && !Asking(frames[n])
    ensures NextState(frames, n, openers, s, Step(s, frames[n]))
  {
    var f := frames[n];
    LegibleIs(f);
    ReplyAdds(s, f);
    ReplyPicks(frames, n, openers, s);
    assert |openers| == |s.transactions|;
    hide Filed, Legible, Matches, AnsweredKey, Keyed, Step, Opened, Faces, NextState, After, Repeated, MarkAmbiguous;
    var matching := Matches(s.transactions, AnsweredKey(f), false);
    if matching == [] {
      ReplyFounds(frames, n, openers, s);
    } else if |matching| == 1 {
      ReplyJoins(frames, n, openers, s, matching[0]);
    } else {
      ReplyTears(frames, n, openers, s, matching[0], matching[1]);
    }
  }

  lemma ReplyPicks(frames: seq<Frame>, n: nat, openers: seq<nat>, s: State)
    requires Filed(frames, n, s, openers) && n < |frames| && Legible(frames[n]) && !Asking(frames[n])
    ensures Keyed(frames[n])
    ensures var matching := Matches(s.transactions, AnsweredKey(frames[n]), false);
            && (matching == [] ==> forall i :: 0 <= i < |openers| ==> !Faces(frames, n, openers[i]))
            && (|matching| == 1 ==>
                  && matching[0] < |openers| && Faces(frames, n, openers[matching[0]])
                  && forall k :: 0 <= k < |openers| && k != matching[0] ==> !Faces(frames, n, openers[k]))
            && (|matching| > 1 ==>
                  && matching[0] < matching[1] < |openers|
                  && Faces(frames, n, openers[matching[0]]) && Faces(frames, n, openers[matching[1]]))
  {
    LegibleIs(frames[n]);
    var matching := Matches(s.transactions, AnsweredKey(frames[n]), false);
    MatchesFacts(s.transactions, AnsweredKey(frames[n]), false);
    assert |openers| == |s.transactions|;
    forall i: nat | i < |openers| ensures i in matching <==> Faces(frames, n, openers[i]) {
      ReplyMatches(frames, n, openers, s, i);
    }
    hide Filed, Legible, Matches, AnsweredKey, Keyed, Faces;
    assert matching != [] ==> matching[0] in matching;
    assert |matching| > 1 ==> matching[1] in matching;
  }

  lemma {:induction false} FoldFiled(frames: seq<Frame>, n: nat) returns (openers: seq<nat>)
    requires n <= |frames|
    ensures Filed(frames, n, Fold(frames[..n]), openers)
  {
    hide Step, Opens, Stray, FiledUnder;
    if n == 0 {
      openers := [];
      assert Lists([], 0, (k: nat) => Stray(frames, k)) && EvidenceAt(frames, [], []);
    } else {
      var before := FoldFiled(frames, n - 1);
      var s := Fold(frames[..n - 1]);
      assert frames[..n][..n - 1] == frames[..n - 1];
      assert Fold(frames[..n]) == Step(s, frames[n - 1]);
      hide Filed, NextState, Fold, Legible, Asking;
      if !Legible(frames[n - 1]) {
        Unreadable(frames, n - 1, before, s);
      } else if Asking(frames[n - 1]) {
        RequestStep(frames, n - 1, before, s);
      } else {
        ReplyStep(frames, n - 1, before, s);
      }
      NextFiled(frames, n - 1, before, s, Step(s, frames[n - 1]));
      openers := before + if Opens(frames, n - 1) then [n - 1] else [];
    }
  }

  /**
   Read in the order of their numbers, the frames of a capture are filed so: every frame that opens a transaction has
   one, which lists its request, the responses it keeps and the repetitions, and says whether a response was torn; every
   stray frame is an orphan.
   */
  lemma FiledExactly(frames: seq<Frame>) returns (sorted: seq<Frame>, openers: seq<nat>)
    ensures multiset(sorted) == multiset(frames) && Sorted(FrameLe, sorted)
    ensures Filed(sorted, |sorted|, Reconstruction(frames), openers)
  {
    sorted := Sort(FrameLe, frames);
    SortPermutes(FrameLe, frames);
    SortSorted(FrameLe, frames);
    openers := FoldFiled(sorted, |sorted|);
    assert sorted[..|sorted|] == sorted;
    hide Filed;
  }
}
