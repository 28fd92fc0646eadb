/** What a compiled scenario is and what running it shows, told without the compiler and the interpreter. */
module ScenarioMeaning {
  import opened Prelude
  import opened Scenario

  // ----- what a run shows

  /** A request takes one turn of 20 ms, and so does every response. */
  function Turns(o: Observed): nat {
    20 + 20 * |o.responses|
  }

  /** When everything before the i-th request is over. */
  function FreeAt(observed: seq<Observed>, i: nat): nat
    requires i <= |observed|
  {
    if i == 0 then 0 else observed[i - 1].offset + Turns(observed[i - 1])
  }

  ghost predicate StatusesShown(responses: seq<Response>, statuses: seq<Status>) {
    exists at ::
      && KnownAt(responses, at) && |at| == |statuses|
      && forall k :: 0 <= k < |at| ==> responses[at[k]].status.value == statuses[k]
  }

  /** The local side describes its request with the first section of the first offer that has one. */
  ghost predicate Describes(revisions: seq<Revision>, t: Transaction, media: Media) {
    exists j: nat :: FirstDescribed(revisions, t, j) && revisions[j].media[0] == media
  }

  predicate CodecsOf(media: Media, codecs: seq<string>) {
    |codecs| == |media.codecs| && forall k :: 0 <= k < |codecs| ==> codecs[k] == media.codecs[k].encoding
  }

  ghost predicate MediaShown(revisions: seq<Revision>, t: Transaction, o: Observed) {
    if t.direction == LocalToRemote && t.requestHasSdp
    then o.hasSdp && exists media :: Describes(revisions, t, media) && CodecsOf(media, o.codecs)
    else !o.hasSdp && o.codecs == []
  }

  ghost predicate ShownAt(m: Model, observed: seq<Observed>, i: nat)
    requires i < |m.transactions| && i < |observed|
  {
    var t, o, free := m.transactions[i], observed[i], FreeAt(observed, i);
    && o.name == t.name && o.direction == t.direction
    && MediaShown(m.revisions, t, o) && StatusesShown(t.responses, o.responses)
    && o.offset == if t.earliest.Some? && t.earliest.value > free then t.earliest.value else free
  }

  /** One request a transaction, in order, each as soon as it may and everything before it is over. */
  ghost predicate Shown(m: Model, observed: seq<Observed>) {
    |observed| == |m.transactions| && forall i :: 0 <= i < |observed| ==> ShownAt(m, observed, i)
  }

  lemma FreeIsClock(m: Model, observed: seq<Observed>, i: nat)
    requires Compilable(m) && observed == Meanings(m, |m.transactions|) && i <= |m.transactions|
    ensures FreeAt(observed, i) == ClockAfter(m.transactions[..i])
  {
    if i > 0 {
      ClockStep(m.transactions, i - 1);
      MeaningAt(m, |m.transactions|, i - 1);
    }
  }

  lemma MediaIsShown(revisions: seq<Revision>, clock: nat, t: Transaction)
    requires t.direction == LocalToRemote ==> RequestMedia(revisions, t).Ok?
    ensures MediaShown(revisions, t, MeaningOf(revisions, clock, t))
  {
    if t.direction == LocalToRemote && t.requestHasSdp {
      var i, j := OffersRead(revisions, t);
      var media := revisions[j].media[0];
      assert Describes(revisions, t, media);
      EncodingAt(media.codecs);
      hide Encodings;
      assert CodecsOf(media, MeaningOf(revisions, clock, t).codecs);
    }
  }

  lemma StatusesAreShown(responses: seq<Response>)
    ensures StatusesShown(responses, KnownStatuses(responses))
  {
    var at := KnownFound(responses);
    hide KnownAt;
  }

  lemma MeaningsShown(m: Model, observed: seq<Observed>)
    requires Compilable(m) && observed == Meanings(m, |m.transactions|)
    ensures Shown(m, observed)
  {
    forall i | 0 <= i < |observed| ensures ShownAt(m, observed, i) {
      var t := m.transactions[i];
      FreeIsClock(m, observed, i);
      MeaningAt(m, |m.transactions|, i);
      MediaIsShown(m.revisions, ClockAfter(m.transactions[..i]), t);
      StatusesAreShown(t.responses);
      hide Meanings, MediaShown, StatusesShown, FreeAt, KnownStatuses, RequestMedia;
    }
  }

  /** Running a compiled scenario succeeds, shows exactly the model, and takes exactly the time that shows. */
  lemma RunShows(m: Model, auth: bool)
    requires Compilable(m)
    ensures var run := InterpretAll(Run(0, []), ModelNodes(m, auth, |m.transactions|) + [Inert]);
            && run.Ok? && Shown(m, run.value.observed)
            && run.value.clock == FreeAt(run.value.observed, |m.transactions|)
  {
    var n := |m.transactions|;
    CompiledScenarioMeans(m, auth);
    FreeIsClock(m, Meanings(m, n), n);
    assert m.transactions[..n] == m.transactions;
    MeaningsShown(m, Meanings(m, n));
    hide Shown, FreeAt, Meanings, ModelNodes, InterpretAll, ClockAfter;
  }

  /** A scenario is refused exactly when a local request carries a description that no offer of its frame has. */
  lemma CompilableExactly(m: Model)
    ensures Compilable(m) <==>
            forall t :: t in m.transactions && t.direction == LocalToRemote && t.requestHasSdp ==>
                        exists media :: Describes(m.revisions, t, media)
  {
    forall t | t in m.transactions
      ensures RequestMedia(m.revisions, t).Ok? <==>
              t.requestHasSdp ==> exists media :: Describes(m.revisions, t, media)
    {
      if t.requestHasSdp {
        if RequestMedia(m.revisions, t).Ok? {
          var i, j := OffersRead(m.revisions, t);
          assert Describes(m.revisions, t, m.revisions[j].media[0]);
        } else {
          NoneDescribed(m.revisions, t);
        }
      } else {
        WithoutSdp(m, t);
      }
    }
    hide RequestMedia, Describes;
    if Compilable(m) {
      forall t | t in m.transactions && t.direction == LocalToRemote ensures RequestMedia(m.revisions, t).Ok? {
        var i :| 0 <= i < |m.transactions| && m.transactions[i] == t;
      }
    }
  }

  lemma {:induction false} NoneDescribed(revisions: seq<Revision>, t: Transaction)
    requires t.requestHasSdp && RequestMedia(revisions, t).Err?
    ensures forall j :: 0 <= j < |revisions| && IsOffer(revisions[j], t) ==> revisions[j].media == []
  {
    if revisions != [] {
      NoneDescribed(revisions[1..], t);
      assert forall j :: 1 <= j < |revisions| ==> revisions[j] == revisions[1..][j - 1];
    }
  }

  // ----- what a scenario is

  /** The nodes of one transaction: perhaps a pause, a remark, the request, and a node a known response. */
  ghost predicate BlockOf(revisions: seq<Revision>, t: Transaction, nodes: seq<Node>) {
    exists r: nat, at :: BlockAt(revisions, t, nodes, r, at)
  }

  ghost predicate BlockAt(revisions: seq<Revision>, t: Transaction, nodes: seq<Node>, r: nat, at: seq<nat>) {
    && KnownAt(t.responses, at) && |nodes| == r + 1 + |at|
    && (r == 1 || (r == 2 && nodes[0].Pause? && nodes[0].ms > 0)) && nodes[r - 1] == Inert
    && RequestIn(revisions, t, nodes[r])
    && forall k :: 0 <= k < |at| ==> ResponseIn(t.direction, t.responses[at[k]], nodes[r + 1 + k])
  }

  ghost predicate RequestIn(revisions: seq<Revision>, t: Transaction, node: Node) {
    if t.direction == RemoteToLocal then node == RecvRequest(t.name)
    else
      && node.SendRequest? && node.name == t.name
      && (node.media.Some? <==> t.requestHasSdp)
      && (node.media.Some? ==> Describes(revisions, t, node.media.value))
  }

  predicate ResponseIn(direction: Direction, response: Response, node: Node) {
    response.status.Some?
    && if direction == RemoteToLocal then node == SendResponse(response.status.value)
       else node.RecvResponse? && node.status == response.status.value && node.optional == response.optional
  }

  /** The blocks of the first n transactions, each from one cut to the next. */
  ghost predicate BlocksAt(m: Model, nodes: seq<Node>, n: nat, cuts: seq<nat>)
    requires n <= |m.transactions|
  {
    && |cuts| == n + 1 && cuts[0] == 0 && cuts[n] == |nodes|
    && forall i :: 0 <= i < n ==> BlockBetween(m.revisions, m.transactions[i], nodes, cuts, i)
  }

  ghost predicate BlockBetween(revisions: seq<Revision>, t: Transaction, nodes: seq<Node>, cuts: seq<nat>, i: nat)
    requires i + 1 < |cuts|
  {
    cuts[i] <= cuts[i + 1] <= |nodes| && BlockOf(revisions, t, nodes[cuts[i]..cuts[i + 1]])
  }

  predicate Challenging(node: Node) {
    node.RecvResponse? && (node.status == 401 || node.status == 407)
  }

  ghost predicate ChallengedBefore(nodes: seq<Node>, k: nat) {
    exists j :: 0 <= j < k && j < |nodes| && Challenging(nodes[j])
  }

  /**
   Credentials are offered with an INVITE or a REGISTER, once a response that asks for them was awaited, and only that
   response may be answered so.
   */
  ghost predicate Flagged(auth: bool, nodes: seq<Node>, k: nat)
    requires k < |nodes|
  {
    match nodes[k]
    case SendRequest(name, flag, _) =>
      flag <==> auth && (name == "INVITE" || name == "REGISTER") && ChallengedBefore(nodes, k)
    case RecvResponse(_, _, flag) => flag <==> Challenging(nodes[k])
    case _ => true
  }

  ghost predicate AllFlagged(auth: bool, nodes: seq<Node>) {
    forall k :: 0 <= k < |nodes| ==> Flagged(auth, nodes, k)
  }

  lemma {:induction false} ResponsesIn(direction: Direction, responses: seq<Response>) returns (at: seq<nat>)
    ensures KnownAt(responses, at) && |at| == |ResponseNodes(direction, responses)|
    ensures forall k :: 0 <= k < |at| ==>
                          ResponseIn(direction, responses[at[k]], ResponseNodes(direction, responses)[k])
  {
    if responses == [] {
      at := [];
    } else {
      var n := |responses| - 1;
      var front := ResponsesIn(direction, responses[..n]);
      at := front + if responses[n].status.Some? then [n] else [];
      KnownAfter(responses, front);
      hide KnownAt;
    }
  }

  lemma RequestIsIn(m: Model, auth: bool, challenged: bool, t: Transaction)
    requires t.direction == LocalToRemote ==> RequestMedia(m.revisions, t).Ok?
    ensures RequestIn(m.revisions, t, RequestNode(m, auth, challenged, t))
  {
    if t.direction == LocalToRemote && t.requestHasSdp {
      var i, j := OffersRead(m.revisions, t);
    }
  }

  lemma LeadIs(clock: nat, t: Transaction)
    ensures var lead := PauseNodes(clock, t) + [Inert];
            && (|lead| == 1 || (|lead| == 2 && lead[0].Pause? && lead[0].ms > 0)) && lead[|lead| - 1] == Inert
  {
    hide StartTime;
  }

  lemma TransactionBlock(m: Model, auth: bool, challenged: bool, clock: nat, t: Transaction)
    requires t.direction == LocalToRemote ==> RequestMedia(m.revisions, t).Ok?
    ensures BlockOf(m.revisions, t, TransactionNodes(m, auth, challenged, clock, t))
  {
    var at := ResponsesIn(t.direction, t.responses);
    RequestIsIn(m, auth, challenged, t);
    LeadIs(clock, t);
    var lead, replies := PauseNodes(clock, t) + [Inert], ResponseNodes(t.direction, t.responses);
    JoinedBlock(m.revisions, t, lead, RequestNode(m, auth, challenged, t), replies, at);
    hide BlockAt, PauseNodes, RequestNode, ResponseNodes;
  }

  lemma JoinedBlock(revisions: seq<Revision>, t: Transaction, lead: seq<Node>, request: Node, replies: seq<Node>,
                    at: seq<nat>)
    requires |lead| == 1 || (|lead| == 2 && lead[0].Pause? && lead[0].ms > 0)
    requires lead[|lead| - 1] == Inert && RequestIn(revisions, t, request)
    requires KnownAt(t.responses, at) && |at| == |replies|
    requires forall k :: 0 <= k < |at| ==> ResponseIn(t.direction, t.responses[at[k]], replies[k])
    ensures BlockAt(revisions, t, lead + [request] + replies, |lead|, at)
  {
    hide RequestIn, ResponseIn;
    var nodes := lead + [request] + replies;
    forall k | 0 <= k < |at| ensures ResponseIn(t.direction, t.responses[at[k]], nodes[|lead| + 1 + k]) {
      assert nodes[|lead| + 1 + k] == replies[k];
    }
    hide KnownAt;
  }

  lemma {:induction false} ModelBlocks(m: Model, auth: bool, n: nat) returns (cuts: seq<nat>)
    requires Compilable(m) && n <= |m.transactions|
    ensures BlocksAt(m, ModelNodes(m, auth, n), n, cuts)
  {
    hide BlockOf, BlockBetween, TransactionNodes, RequestMedia, ClockAfter, ChallengedBy;
    if n == 0 {
      cuts := [0];
    } else {
      var ts, before := m.transactions, ModelNodes(m, auth, n - 1);
      var clock, challenged := ClockAfter(ts[..n - 1]), ChallengedBy(ts[..n - 1]);
      var last := TransactionNodes(m, auth, challenged, clock, ts[n - 1]);
      var front := ModelBlocks(m, auth, n - 1);
      TransactionBlock(m, auth, challenged, clock, ts[n - 1]);
      cuts := front + [|before + last|];
      OneMoreBlock(m, before, last, n - 1, front);
    }
  }

  lemma OneMoreBlock(m: Model, before: seq<Node>, last: seq<Node>, n: nat, front: seq<nat>)
    requires n < |m.transactions|
    requires BlocksAt(m, before, n, front) && BlockOf(m.revisions, m.transactions[n], last)
    ensures BlocksAt(m, before + last, n + 1, front + [|before + last|])
  {
    hide BlockOf;
    var nodes, cuts := before + last, front + [|before + last|];
    forall i | 0 <= i < n + 1 ensures BlockBetween(m.revisions, m.transactions[i], nodes, cuts, i) {
      if i < n {
        assert BlockBetween(m.revisions, m.transactions[i], before, front, i);
        assert nodes[cuts[i]..cuts[i + 1]] == before[front[i]..front[i + 1]];
      } else {
        assert nodes[cuts[i]..cuts[i + 1]] == last;
      }
    }
  }

  // ----- credentials

  ghost predicate AnyChallenging(nodes: seq<Node>) {
    exists j :: 0 <= j < |nodes| && Challenging(nodes[j])
  }

  lemma AnyJoin(a: seq<Node>, b: seq<Node>)
    ensures AnyChallenging(a + b) <==> AnyChallenging(a) || AnyChallenging(b)
  {
    hide Challenging;
    var c := a + b;
    if AnyChallenging(a) {
      var j :| 0 <= j < |a| && Challenging(a[j]);
      assert Challenging(c[j]);
    }
    if AnyChallenging(b) {
      var j :| 0 <= j < |b| && Challenging(b[j]);
      assert Challenging(c[|a| + j]);
    }
  }

  lemma AnyBefore(nodes: seq<Node>, k: nat)
    requires k <= |nodes|
    ensures ChallengedBefore(nodes, k) <==> AnyChallenging(nodes[..k])
  {
    hide Challenging;
    if ChallengedBefore(nodes, k) {
      var j :| 0 <= j < k && Challenging(nodes[j]);
      assert Challenging(nodes[..k][j]);
    }
  }

  lemma {:induction false} ResponsesChallenge(direction: Direction, responses: seq<Response>)
    ensures AnyChallenging(ResponseNodes(direction, responses)) <==> Challenges(direction, responses)
    ensures forall k :: 0 <= k < |ResponseNodes(direction, responses)| ==>
                          var node := ResponseNodes(direction, responses)[k];
                          !node.SendRequest? && (node.RecvResponse? ==> (node.auth <==> Challenging(node)))
  {
    if responses != [] {
      var n := |responses| - 1;
      ResponsesChallenge(direction, responses[..n]);
      AnyJoin(ResponseNodes(direction, responses[..n]), ResponseNode(direction, responses[n]));
      ResponsesStep(direction, responses, n);
      assert responses[..n + 1] == responses;
      OneChallenge(direction, responses[n]);
      hide AnyChallenging, Challenges, Challenging;
    }
  }

  lemma OneChallenge(direction: Direction, response: Response)
    ensures var nodes := ResponseNode(direction, response);
            && (AnyChallenging(nodes) <==>
                direction == LocalToRemote && response.status.Some? && response.status.value in {401, 407})
            && forall k :: 0 <= k < |nodes| ==>
                 !nodes[k].SendRequest? && (nodes[k].RecvResponse? ==> (nodes[k].auth <==> Challenging(nodes[k])))
  {
    if response.status.Some? && direction == LocalToRemote {
      assert Challenging(ResponseNode(direction, response)[0]) <==> response.status.value in {401, 407};
    }
  }

  lemma QuietLead(m: Model, auth: bool, challenged: bool, clock: nat, t: Transaction)
    requires t.direction == LocalToRemote ==> RequestMedia(m.revisions, t).Ok?
    ensures !AnyChallenging(RequestNodes(m, auth, challenged, clock, t))
    ensures var nodes := RequestNodes(m, auth, challenged, clock, t);
            forall k :: 0 <= k < |nodes| ==>
              match nodes[k]
              case SendRequest(name, flag, _) => flag <==>
                auth && challenged && (name == "INVITE" || name == "REGISTER")
              case RecvResponse(_, _, _) => false
              case _ => true
  {
    hide RequestMedia, StartTime;
  }

  lemma MoreFlags(m: Model, auth: bool, before: seq<Node>, challenged: bool, clock: nat, t: Transaction)
    requires t.direction == LocalToRemote ==> RequestMedia(m.revisions, t).Ok?
    requires AllFlagged(auth, before) && (AnyChallenging(before) <==> challenged)
    ensures var nodes := before + TransactionNodes(m, auth, challenged, clock, t);
            AllFlagged(auth, nodes) && (AnyChallenging(nodes) <==> challenged || Challenges(t.direction, t.responses))
  {
    var lead, replies := RequestNodes(m, auth, challenged, clock, t), ResponseNodes(t.direction, t.responses);
    QuietLead(m, auth, challenged, clock, t);
    ResponsesChallenge(t.direction, t.responses);
    hide RequestNode, PauseNodes, RequestMedia, ResponseNodes, Challenges, Challenging, AllFlagged, AnyChallenging;
    assert before + TransactionNodes(m, auth, challenged, clock, t) == before + lead + replies;
    hide TransactionNodes, RequestNodes;
    AnyJoin(before, lead);
    AnyJoin(before + lead, replies);
    FlagsJoin(auth, before, lead, replies, challenged);
  }

  lemma NothingFlagged(auth: bool)
    ensures AllFlagged(auth, []) && !AnyChallenging([]) && !ChallengedBy([])
  {
  }

  lemma {:induction false} ModelFlags(m: Model, auth: bool, n: nat)
    requires Compilable(m) && n <= |m.transactions|
    ensures AllFlagged(auth, ModelNodes(m, auth, n))
    ensures AnyChallenging(ModelNodes(m, auth, n)) <==> ChallengedBy(m.transactions[..n])
  {
    hide AllFlagged, AnyChallenging, TransactionNodes, ChallengedBy, ClockAfter, Challenges, RequestMedia;
    var ts := m.transactions;
    if n == 0 {
      assert ts[..0] == [];
      NothingFlagged(auth);
    } else {
      ModelFlags(m, auth, n - 1);
      ClockStep(ts, n - 1);
      MoreFlags(m, auth, ModelNodes(m, auth, n - 1), ChallengedBy(ts[..n - 1]), ClockAfter(ts[..n - 1]), ts[n - 1]);
    }
  }

  lemma FlagsJoin(auth: bool, before: seq<Node>, lead: seq<Node>, replies: seq<Node>, challenged: bool)
    requires AllFlagged(auth, before) && (AnyChallenging(before) <==> challenged) && !AnyChallenging(lead)
    requires forall k :: 0 <= k < |lead| ==>
               match lead[k]
               case SendRequest(name, flag, _) => flag <==>
                 auth && challenged && (name == "INVITE" || name == "REGISTER")
               case RecvResponse(_, _, _) => false
               case _ => true
    requires forall k :: 0 <= k < |replies| ==>
                           !replies[k].SendRequest?
                           && (replies[k].RecvResponse? ==> (replies[k].auth <==> Challenging(replies[k])))
    ensures AllFlagged(auth, before + lead + replies)
  {
    var nodes := before + lead + replies;
    forall k | 0 <= k < |nodes| ensures Flagged(auth, nodes, k) {
      AnyBefore(nodes, k);
      if k < |before| {
        AnyBefore(before, k);
        assert nodes[..k] == before[..k];
        assert Flagged(auth, before, k);
      } else if k < |before| + |lead| {
        assert nodes[..k] == before + lead[..k - |before|];
        AnyJoin(before, lead[..k - |before|]);
        AnyJoin(lead[..k - |before|], lead[k - |before|..]);
        assert lead[..k - |before|] + lead[k - |before|..] == lead;
        assert nodes[k] == lead[k - |before|];
      } else {
        assert nodes[k] == replies[k - |before| - |lead|];
      }
      hide AnyChallenging, ChallengedBefore;
    }
  }

  /** A compiled scenario, node by node: a block a transaction and a closing remark, credentials where they belong. */
  lemma ScenarioIs(m: Model, auth: bool) returns (cuts: seq<nat>)
    requires Compilable(m)
    ensures BlocksAt(m, ModelNodes(m, auth, |m.transactions|), |m.transactions|, cuts)
    ensures AllFlagged(auth, ModelNodes(m, auth, |m.transactions|) + [Inert])
  {
    var n := |m.transactions|;
    cuts := ModelBlocks(m, auth, n);
    ModelFlags(m, auth, n);
    var nodes := ModelNodes(m, auth, n);
    hide BlocksAt, ModelNodes;
    FlagsJoin(auth, nodes, [Inert], [], AnyChallenging(nodes));
    assert nodes + [Inert] + [] == nodes + [Inert];
  }
}
