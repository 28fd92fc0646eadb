/** Compiling a learned dialog into a scenario, interpreting the scenario, and comparing the two. */
module Scenario {
  import opened Prelude

  const TURN_MS: nat := 20

  datatype Direction = LocalToRemote | RemoteToLocal

  type Status = s: int | 100 <= s <= 999 witness 200

  /** One method token, as it appears before the first space of a request line. */
  type Method = m: string | m != [] && ' ' !in m witness "BYE"

  datatype Response = Response(status: Option<Status>, optional: bool)

  datatype Codec = Codec(payloadType: nat, encoding: string, clockRate: nat)

  datatype Media = Media(codecs: seq<Codec>)

  datatype Role = Offer | Answer | UnknownRole

  datatype Revision = Revision(frame: Option<int>, role: Role, media: seq<Media>)

  datatype Transaction = Transaction(
    name: Method,
    direction: Direction,
    earliest: Option<int>,
    latest: Option<int>,
    requestFrame: Option<int>,
    requestHasSdp: bool,
    responses: seq<Response>)

  datatype Teardown = NoTeardown | Local | Remote

  datatype Model = Model(transactions: seq<Transaction>, revisions: seq<Revision>, teardown: Teardown)

  /** A scenario element; comments and report settings carry no behaviour. */
  datatype Node =
    | Pause(ms: nat)
    | SendRequest(name: Method, auth: bool, media: Option<Media>)
    | SendResponse(status: Status)
    | RecvRequest(name: Method)
    | RecvResponse(status: Status, optional: bool, auth: bool)
    | Inert

  datatype Observed = Observed(name: Method, direction: Direction, hasSdp: bool, codecs: seq<string>,
                               offset: nat, responses: seq<Status>)

  datatype ScenarioError = SdpWithoutOffer | OrphanResponse

  // ----- media lookups, one for each side

  /** The generator skips offers without media and takes the first section. */
  function RequestMedia(revisions: seq<Revision>, t: Transaction): (r: Result<Option<Media>, ScenarioError>)
    ensures r.Err? ==> r.error == SdpWithoutOffer
    ensures r.Ok? ==> (r.value.Some? <==> t.requestHasSdp)
  {
    if !t.requestHasSdp then Ok(None)
    else if revisions == [] then Err(SdpWithoutOffer)
    else
      var r := revisions[0];
      if r.frame == t.requestFrame && r.role == Offer && r.media != [] then Ok(Some(r.media[0]))
      else RequestMedia(revisions[1..], t)
  }

  function Encodings(codecs: seq<Codec>): seq<string> {
    if codecs == [] then [] else [codecs[0].encoding] + Encodings(codecs[1..])
  }

  function AllEncodings(media: seq<Media>): seq<string> {
    if media == [] then [] else Encodings(media[0].codecs) + AllEncodings(media[1..])
  }

  /** The comparison takes the first offer of the frame, and all of its sections. */
  function SourceRequestCodecs(revisions: seq<Revision>, t: Transaction): seq<string> {
    if !t.requestHasSdp || revisions == [] then []
    else
      var r := revisions[0];
      if r.frame == t.requestFrame && r.role == Offer then AllEncodings(r.media)
      else SourceRequestCodecs(revisions[1..], t)
  }

  // ----- what a model means

  function KnownStatus(response: Response): seq<Status> {
    match response.status
    case None => []
    case Some(s) => [s]
  }

  function KnownStatuses(responses: seq<Response>): seq<Status> {
    if responses == [] then []
    else KnownStatuses(responses[..|responses| - 1]) + KnownStatus(responses[|responses| - 1])
  }

  /** When the request of t goes out if the clock stands at `clock`: its earliest time, or later. */
  function StartTime(clock: nat, t: Transaction): nat {
    if t.earliest.Some? && t.earliest.value > clock then t.earliest.value else clock
  }

  /** The clock after t: one turn for the request and one for every known response. */
  function EndTime(clock: nat, t: Transaction): nat {
    StartTime(clock, t) + TURN_MS * (1 + |KnownStatuses(t.responses)|)
  }

  function ClockAfter(ts: seq<Transaction>): nat {
    if ts == [] then 0 else EndTime(ClockAfter(ts[..|ts| - 1]), ts[|ts| - 1])
  }

  /** What interpreting transaction t should show. */
  function MeaningOf(revisions: seq<Revision>, clock: nat, t: Transaction): Observed
    requires t.direction == LocalToRemote ==> RequestMedia(revisions, t).Ok?
  {
    var media := if t.direction == LocalToRemote then RequestMedia(revisions, t).value else None;
    Observed(t.name, t.direction, media.Some?, if media.Some? then Encodings(media.value.codecs) else [],
             StartTime(clock, t), KnownStatuses(t.responses))
  }

  /** Only requests sent by the local side need their media to be found. */
  ghost predicate Compilable(m: Model) {
    forall i :: 0 <= i < |m.transactions| && m.transactions[i].direction == LocalToRemote ==>
      RequestMedia(m.revisions, m.transactions[i]).Ok?
  }

  // ----- the compiler

  function ResponseNode(direction: Direction, response: Response): seq<Node> {
    match response.status
    case None => []
    case Some(s) =>
      [if direction == LocalToRemote then RecvResponse(s, response.optional, s in {401, 407}) else SendResponse(s)]
  }

  function ResponseNodes(direction: Direction, responses: seq<Response>): seq<Node> {
    if responses == [] then []
    else ResponseNodes(direction, responses[..|responses| - 1]) + ResponseNode(direction, responses[|responses| - 1])
  }

  predicate Challenges(direction: Direction, responses: seq<Response>) {
    direction == LocalToRemote && exists i ::
      0 <= i < |responses| && responses[i].status.Some? && responses[i].status.value in {401, 407}
  }

  function RequestNode(m: Model, auth: bool, challenged: bool, t: Transaction): Node
    requires t.direction == LocalToRemote ==> RequestMedia(m.revisions, t).Ok?
  {
    if t.direction == LocalToRemote
    then SendRequest(t.name, auth && challenged && t.name in {"INVITE", "REGISTER"}, RequestMedia(m.revisions, t).value)
    else RecvRequest(t.name)
  }

  function PauseNodes(clock: nat, t: Transaction): seq<Node> {
    if StartTime(clock, t) > clock then [Pause(StartTime(clock, t) - clock)] else []
  }

  function TransactionNodes(m: Model, auth: bool, challenged: bool, clock: nat, t: Transaction): seq<Node>
    requires t.direction == LocalToRemote ==> RequestMedia(m.revisions, t).Ok?
  {
    PauseNodes(clock, t) + [Inert] + [RequestNode(m, auth, challenged, t)] + ResponseNodes(t.direction, t.responses)
  }

  function ChallengedBy(ts: seq<Transaction>): bool {
    if ts == [] then false
    else ChallengedBy(ts[..|ts| - 1]) || Challenges(ts[|ts| - 1].direction, ts[|ts| - 1].responses)
  }

  function ModelNodes(m: Model, auth: bool, n: nat): seq<Node>
    requires n <= |m.transactions|
    requires forall i :: 0 <= i < n && m.transactions[i].direction == LocalToRemote ==>
                 RequestMedia(m.revisions, m.transactions[i]).Ok?
  {
    if n == 0 then []
    else
      ModelNodes(m, auth, n - 1)
      + TransactionNodes(m, auth, ChallengedBy(m.transactions[..n - 1]), ClockAfter(m.transactions[..n - 1]),
                         m.transactions[n - 1])
  }

  lemma ClockStep(ts: seq<Transaction>, n: nat)
    requires n < |ts|
    ensures ClockAfter(ts[..n + 1]) == EndTime(ClockAfter(ts[..n]), ts[n])
    ensures ChallengedBy(ts[..n + 1]) == (ChallengedBy(ts[..n]) || Challenges(ts[n].direction, ts[n].responses))
  {
    assert ts[..n + 1][..n] == ts[..n];
  }

  /** The responses of one transaction: awaited from a remote peer, or sent by the local one. */
  method AppendResponses(direction: Direction, responses: seq<Response>)
    returns (nodes: seq<Node>, turns: nat, challenged: bool)
    ensures nodes == ResponseNodes(direction, responses) && turns == |KnownStatuses(responses)|
    ensures challenged == Challenges(direction, responses)
  {
    nodes, turns, challenged := [], 0, false;
    for k := 0 to |responses|
      invariant nodes == ResponseNodes(direction, responses[..k]) && turns == |KnownStatuses(responses[..k])|
      invariant challenged == Challenges(direction, responses[..k])
    {
      ResponsesStep(direction, responses, k);
      match responses[k].status
      case None =>
      case Some(status) =>
        if direction == LocalToRemote {
          if status in {401, 407} {
            challenged := true;
          }
          nodes := nodes + [RecvResponse(status, responses[k].optional, status in {401, 407})];
        } else {
          nodes := nodes + [SendResponse(status)];
        }
        turns := turns + 1;
    }
    assert responses[..|responses|] == responses;
  }

  /** The nodes of one transaction, the clock after it, and whether it carried a challenge. */
  method CompileTransaction(m: Model, auth: bool, challenged: bool, clock: nat, t: Transaction)
    returns (r: Result<(seq<Node>, nat, bool), ScenarioError>)
    ensures r.Ok? <==> t.direction == LocalToRemote ==> RequestMedia(m.revisions, t).Ok?
    ensures r.Ok? ==>
                r.value == (TransactionNodes(m, auth, challenged, clock, t), EndTime(clock, t),
                            Challenges(t.direction, t.responses))
    ensures r.Err? ==> r.error == SdpWithoutOffer
  {
    hide RequestMedia, ResponseNodes, KnownStatuses, Challenges;
    var nodes: seq<Node>, now := [], clock;
    if t.earliest.Some? && t.earliest.value > clock {
      nodes := nodes + [Pause(t.earliest.value - clock)];
      now := t.earliest.value;
    }
    nodes := nodes + [Inert];
    if t.direction == LocalToRemote {
      var media := RequestMedia(m.revisions, t);
      if media.Err? {
        return Err(media.error);
      }
      nodes := nodes + [SendRequest(t.name, auth && challenged && t.name in {"INVITE", "REGISTER"}, media.value)];
    } else {
      nodes := nodes + [RecvRequest(t.name)];
    }
    assert nodes == PauseNodes(clock, t) + [Inert] + [RequestNode(m, auth, challenged, t)];
    now := now + TURN_MS;
    var responses, turns, challenging := AppendResponses(t.direction, t.responses);
    r := Ok((nodes + responses, now + TURN_MS * turns, challenging));
  }

  lemma NothingCompiled()
    ensures ClockAfter([]) == 0 && !ChallengedBy([])
  {
  }

  /** Append nodes transaction by transaction while a virtual clock runs along. */
  method Compile(m: Model, auth: bool) returns (r: Result<seq<Node>, ScenarioError>)
    ensures r.Ok? <==> Compilable(m)
    ensures r.Ok? ==> r.value == ModelNodes(m, auth, |m.transactions|) + [Inert]
    ensures r.Err? ==> r.error == SdpWithoutOffer
  {
    hide RequestMedia, TransactionNodes, EndTime, Challenges, ClockAfter, ChallengedBy;
    NothingCompiled();
    assert m.transactions[..0] == [];
    var root: seq<Node>, clock: nat, challenged := [], 0, false;
    for n := 0 to |m.transactions|
      invariant forall i :: 0 <= i < n && m.transactions[i].direction == LocalToRemote ==>
                    RequestMedia(m.revisions, m.transactions[i]).Ok?
      invariant root == ModelNodes(m, auth, n)
      invariant clock == ClockAfter(m.transactions[..n]) && challenged == ChallengedBy(m.transactions[..n])
    {
      ClockStep(m.transactions, n);
      var compiled := CompileTransaction(m, auth, challenged, clock, m.transactions[n]);
      if compiled.Err? {
        return Err(compiled.error);
      }
      root := root + compiled.value.0;
      clock := compiled.value.1;
      challenged := challenged || compiled.value.2;
    }
    assert m.transactions[..|m.transactions|] == m.transactions;
    r := Ok(root + [Inert]);
  }

  lemma ResponsesStep(direction: Direction, responses: seq<Response>, k: nat)
    requires k < |responses|
    ensures ResponseNodes(direction, responses[..k + 1])
            == ResponseNodes(direction, responses[..k]) + ResponseNode(direction, responses[k])
    ensures KnownStatuses(responses[..k + 1]) == KnownStatuses(responses[..k]) + KnownStatus(responses[k])
    ensures Challenges(direction, responses[..k + 1]) <==>
            Challenges(direction, responses[..k])
            || (direction == LocalToRemote && responses[k].status.Some? && responses[k].status.value in {401, 407})
  {
    assert responses[..k + 1][..k] == responses[..k];
  }

  // ----- the reference interpreter

  datatype Run = Run(clock: nat, observed: seq<Observed>)

  /** One scenario node against the virtual clock and the observations so far. */
  function Interpret(run: Run, node: Node): Result<Run, ScenarioError> {
    match node
    case Pause(ms) => Ok(run.(clock := run.clock + ms))
    case Inert => Ok(run)
    case SendRequest(name, _, media) =>
      Ok(Run(run.clock + TURN_MS,
             run.observed
               + [Observed(name, LocalToRemote, media.Some?, if media.Some? then Encodings(media.value.codecs) else [],
                           run.clock, [])]))
    case RecvRequest(name) =>
      Ok(Run(run.clock + TURN_MS, run.observed + [Observed(name, RemoteToLocal, false, [], run.clock, [])]))
    case SendResponse(status) => AddStatus(run, status)
    case RecvResponse(status, _, _) => AddStatus(run, status)
  }

  function AddStatus(run: Run, status: Status): Result<Run, ScenarioError> {
    if run.observed == [] then Err(OrphanResponse)
    else
      var last := run.observed[|run.observed| - 1];
      Ok(Run(run.clock + TURN_MS,
             run.observed[..|run.observed| - 1] + [last.(responses := last.responses + [status])]))
  }

  function InterpretAll(run: Run, nodes: seq<Node>): Result<Run, ScenarioError> {
    if nodes == [] then Ok(run)
    else
      match InterpretAll(run, nodes[..|nodes| - 1])
      case Err(e) => Err(e)
      case Ok(before) => Interpret(before, nodes[|nodes| - 1])
  }

  /** Execute the scenario, folding responses into the latest request. */
  method RunIsolated(nodes: seq<Node>) returns (r: Result<seq<Observed>, ScenarioError>)
    ensures match InterpretAll(Run(0, []), nodes)
            case Ok(run) => r == Ok(run.observed)
            case Err(e) => r == Err(e)
  {
    var clock: nat, observed: seq<Observed> := 0, [];
    for i := 0 to |nodes|
      invariant InterpretAll(Run(0, []), nodes[..i]) == Ok(Run(clock, observed))
    {
      assert nodes[..i + 1][..i] == nodes[..i];
      match nodes[i]
      case Pause(ms) =>
        clock := clock + ms;
      case Inert =>
      case SendRequest(name, _, media) =>
        observed :=
          observed
            + [Observed(name, LocalToRemote, media.Some?, if media.Some? then Encodings(media.value.codecs) else [],
                        clock, [])];
        clock := clock + TURN_MS;
      case RecvRequest(name) =>
        observed := observed + [Observed(name, RemoteToLocal, false, [], clock, [])];
        clock := clock + TURN_MS;
      case SendResponse(status) =>
        if observed == [] {
          InterpretFails(Run(0, []), nodes, i + 1);
          return Err(OrphanResponse);
        }
        var last := observed[|observed| - 1];
        observed := observed[..|observed| - 1] + [last.(responses := last.responses + [status])];
        clock := clock + TURN_MS;
      case RecvResponse(status, _, _) =>
        if observed == [] {
          InterpretFails(Run(0, []), nodes, i + 1);
          return Err(OrphanResponse);
        }
        var last := observed[|observed| - 1];
        observed := observed[..|observed| - 1] + [last.(responses := last.responses + [status])];
        clock := clock + TURN_MS;
    }
    assert nodes[..|nodes|] == nodes;
    r := Ok(observed);
  }

  lemma {:induction false} InterpretFails(run: Run, nodes: seq<Node>, k: nat)
    requires k <= |nodes| && InterpretAll(run, nodes[..k]).Err?
    ensures InterpretAll(run, nodes) == InterpretAll(run, nodes[..k])
    decreases |nodes|
  {
    if k == |nodes| {
      assert nodes[..k] == nodes;
    } else {
      assert nodes[..|nodes| - 1][..k] == nodes[..k];
      InterpretFails(run, nodes[..|nodes| - 1], k);
    }
  }

  lemma {:induction false} InterpretAppend(run: Run, a: seq<Node>, b: seq<Node>)
    ensures InterpretAll(run, a + b) ==
            match InterpretAll(run, a)
            case Err(e) => Err(e)
            case Ok(mid) => InterpretAll(mid, b)
  {
    if b == [] {
      assert a + b == a;
    } else {
      assert (a + b)[..|a + b| - 1] == a + b[..|b| - 1];
      InterpretAppend(run, a, b[..|b| - 1]);
    }
  }

  // ----- the pair agrees

  function WithStatuses(run: Run, statuses: seq<Status>): Run
    requires run.observed != []
  {
    var n := |run.observed| - 1;
    Run(run.clock + TURN_MS * |statuses|,
        run.observed[..n] + [run.observed[n].(responses := run.observed[n].responses + statuses)])
  }

  lemma StatusesCompose(run: Run, a: seq<Status>, b: seq<Status>)
    requires run.observed != []
    ensures WithStatuses(WithStatuses(run, a), b) == WithStatuses(run, a + b)
    ensures WithStatuses(run, []) == run
  {
    var n := |run.observed| - 1;
    var last := run.observed[n];
    assert last.responses + [] == last.responses;
    assert run.observed == run.observed[..n] + [last];
    assert last.responses + a + b == last.responses + (a + b);
  }

  /** Known responses are appended to the latest request, one turn each; unknown ones leave no trace. */
  lemma {:induction false} InterpretResponses(run: Run, direction: Direction, responses: seq<Response>)
    requires run.observed != []
    ensures InterpretAll(run, ResponseNodes(direction, responses)) == Ok(WithStatuses(run, KnownStatuses(responses)))
  {
    if responses == [] {
      StatusesCompose(run, [], []);
    } else {
      hide WithStatuses, InterpretAll, ResponseNode;
      var front, last := responses[..|responses| - 1], responses[|responses| - 1];
      InterpretResponses(run, direction, front);
      InterpretAppend(run, ResponseNodes(direction, front), ResponseNode(direction, last));
      StillObserved(run, KnownStatuses(front));
      OneResponse(WithStatuses(run, KnownStatuses(front)), direction, last);
      StatusesCompose(run, KnownStatuses(front), KnownStatus(last));
    }
  }

  lemma StillObserved(run: Run, statuses: seq<Status>)
    requires run.observed != []
    ensures WithStatuses(run, statuses).observed != []
  {
  }

  lemma OneResponse(run: Run, direction: Direction, response: Response)
    requires run.observed != []
    ensures InterpretAll(run, ResponseNode(direction, response)) == Ok(WithStatuses(run, KnownStatus(response)))
  {
    match response.status
    case None =>
      StatusesCompose(run, [], []);
    case Some(s) =>
      hide InterpretAll;
      OneNode(run, ResponseNode(direction, response)[0]);
      OneStatus(run, s);
  }

  lemma OneStatus(run: Run, s: Status)
    requires run.observed != []
    ensures AddStatus(run, s) == Ok(WithStatuses(run, [s]))
  {
  }

  lemma OneNode(run: Run, node: Node)
    ensures InterpretAll(run, [node]) == Interpret(run, node)
  {
  }

  lemma InterpretPause(run: Run, t: Transaction)
    ensures InterpretAll(run, PauseNodes(run.clock, t) + [Inert]) == Ok(Run(StartTime(run.clock, t), run.observed))
  {
    var pause := PauseNodes(run.clock, t);
    if pause != [] {
      OneNode(run, pause[0]);
    }
    InterpretAppend(run, pause, [Inert]);
    OneNode(Run(StartTime(run.clock, t), run.observed), Inert);
  }

  function RequestNodes(m: Model, auth: bool, challenged: bool, clock: nat, t: Transaction): seq<Node>
    requires t.direction == LocalToRemote ==> RequestMedia(m.revisions, t).Ok?
  {
    PauseNodes(clock, t) + [Inert] + [RequestNode(m, auth, challenged, t)]
  }

  lemma InterpretRequest(m: Model, auth: bool, challenged: bool, run: Run, t: Transaction)
    requires t.direction == LocalToRemote ==> RequestMedia(m.revisions, t).Ok?
    ensures InterpretAll(run, RequestNodes(m, auth, challenged, run.clock, t)) ==
            Ok(Run(StartTime(run.clock, t) + TURN_MS,
                   run.observed + [MeaningOf(m.revisions, run.clock, t).(responses := [])]))
  {
    var lead, request := PauseNodes(run.clock, t) + [Inert], RequestNode(m, auth, challenged, t);
    InterpretPause(run, t);
    InterpretAppend(run, lead, [request]);
    OneNode(Run(StartTime(run.clock, t), run.observed), request);
    hide RequestMedia, InterpretAll, KnownStatuses, PauseNodes, StartTime;
  }

  lemma InterpretTransaction(m: Model, auth: bool, challenged: bool, run: Run, t: Transaction)
    requires t.direction == LocalToRemote ==> RequestMedia(m.revisions, t).Ok?
    ensures InterpretAll(run, TransactionNodes(m, auth, challenged, run.clock, t)) ==
            Ok(Run(EndTime(run.clock, t), run.observed + [MeaningOf(m.revisions, run.clock, t)]))
  {
    hide RequestMedia, InterpretAll, ResponseNodes, KnownStatuses, StartTime, RequestNode, PauseNodes;
    var meaning := MeaningOf(m.revisions, run.clock, t);
    var sent := Run(StartTime(run.clock, t) + TURN_MS, run.observed + [meaning.(responses := [])]);
    InterpretRequest(m, auth, challenged, run, t);
    InterpretAppend(run, RequestNodes(m, auth, challenged, run.clock, t), ResponseNodes(t.direction, t.responses));
    InterpretResponses(sent, t.direction, t.responses);
    assert sent.observed[..|run.observed|] == run.observed;
    assert [] + KnownStatuses(t.responses) == KnownStatuses(t.responses);
  }

  function Meanings(m: Model, n: nat): (r: seq<Observed>)
    requires n <= |m.transactions|
    requires forall i :: 0 <= i < n && m.transactions[i].direction == LocalToRemote ==>
                 RequestMedia(m.revisions, m.transactions[i]).Ok?
    ensures |r| == n
  {
    if n == 0 then []
    else Meanings(m, n - 1) + [MeaningOf(m.revisions, ClockAfter(m.transactions[..n - 1]), m.transactions[n - 1])]
  }

  /**
   Interpreting a compiled scenario gives back the model: one observation a transaction, in order, with
   its method, direction, known statuses and media, and the interpreter's clock is the compiler's at
   every transaction. No response is ever orphaned.
   */
  lemma {:induction false} CompiledScenarioRuns(m: Model, auth: bool, n: nat)
    requires n <= |m.transactions|
    requires forall i :: 0 <= i < n && m.transactions[i].direction == LocalToRemote ==>
                 RequestMedia(m.revisions, m.transactions[i]).Ok?
    ensures InterpretAll(Run(0, []), ModelNodes(m, auth, n)) == Ok(Run(ClockAfter(m.transactions[..n]), Meanings(m, n)))
  {
    if n == 0 {
      assert m.transactions[..0] == [];
    }
    if n > 0 {
      hide TransactionNodes, EndTime, MeaningOf, ClockAfter, ChallengedBy, InterpretAll, RequestMedia;
      var ts := m.transactions;
      CompiledScenarioRuns(m, auth, n - 1);
      ClockStep(ts, n - 1);
      var nodes := TransactionNodes(m, auth, ChallengedBy(ts[..n - 1]), ClockAfter(ts[..n - 1]), ts[n - 1]);
      InterpretAppend(Run(0, []), ModelNodes(m, auth, n - 1), nodes);
      InterpretTransaction(m, auth, ChallengedBy(ts[..n - 1]), Run(ClockAfter(ts[..n - 1]), Meanings(m, n - 1)),
                           ts[n - 1]);
    }
  }

  // ----- the comparison

  datatype Field = TransactionCount | MethodField | SdpField | DirectionField | ResponseClasses | SdpCodecs
                 | TimingWindow | TeardownField

  datatype Difference = Difference(index: Option<nat>, field: Field)

  function ClassOf(s: Status): int {
    var n: int := s;
    n / 100
  }

  function Classes(statuses: seq<Status>): (r: seq<int>)
    ensures |r| == |statuses|
    ensures forall i :: 0 <= i < |r| ==> r[i] == ClassOf(statuses[i])
  {
    seq(|statuses|, i requires 0 <= i < |statuses| => ClassOf(statuses[i]))
  }

  predicate InWindow(t: Transaction, offset: nat, tolerance: nat) {
    t.earliest.Some? && t.latest.Some? ==> t.earliest.value - tolerance <= offset <= t.latest.value + tolerance
  }

  function At(index: nat, mismatch: bool, field: Field): seq<Difference> {
    if mismatch then [Difference(Some(index), field)] else []
  }

  function TransactionDiff(revisions: seq<Revision>, t: Transaction, o: Observed, tolerance: nat, index: nat)
    : seq<Difference>
  {
    At(index, t.name != o.name, MethodField)
    + At(index, t.requestHasSdp != o.hasSdp, SdpField)
    + At(index, t.direction != o.direction, DirectionField)
    + At(index, Classes(KnownStatuses(t.responses)) != Classes(o.responses), ResponseClasses)
    + At(index, SourceRequestCodecs(revisions, t) != o.codecs, SdpCodecs)
    + At(index, !InWindow(t, o.offset, tolerance), TimingWindow)
  }

  function TeardownSeen(observed: seq<Observed>): Teardown {
    if observed == [] then NoTeardown
    else
      var last := observed[|observed| - 1];
      if last.name == "BYE" then (if last.direction == LocalToRemote then Local else Remote)
      else TeardownSeen(observed[..|observed| - 1])
  }

  function Diffs(m: Model, observed: seq<Observed>, tolerance: nat, n: nat): seq<Difference>
    requires n <= |m.transactions| && n <= |observed|
  {
    if n == 0 then []
    else
      Diffs(m, observed, tolerance, n - 1)
      + TransactionDiff(m.revisions, m.transactions[n - 1], observed[n - 1], tolerance, n - 1)
  }

  // ----- what the differences mean

  predicate IsOffer(r: Revision, t: Transaction) {
    r.frame == t.requestFrame && r.role == Offer
  }

  /** The offer the comparison reads. */
  ghost predicate FirstOffer(revisions: seq<Revision>, t: Transaction, i: nat) {
    i < |revisions| && IsOffer(revisions[i], t) && forall k :: 0 <= k < i ==> !IsOffer(revisions[k], t)
  }

  /** Where the known statuses stand among the responses, in order. */
  ghost predicate KnownAt(responses: seq<Response>, at: seq<nat>) {
    && (forall k :: 0 <= k < |at| ==> at[k] < |responses| && responses[at[k]].status.Some?)
    && (forall j, k :: 0 <= j < k < |at| ==> at[j] < at[k])
    && forall i :: 0 <= i < |responses| && responses[i].status.Some? ==> i in at
  }

  predicate SameClass(a: int, b: int) {
    a / 100 == b / 100
  }

  /** One status for one known status, of the same class. */
  ghost predicate ClassesAgree(responses: seq<Response>, statuses: seq<Status>) {
    exists at ::
      && KnownAt(responses, at) && |at| == |statuses|
      && forall k :: 0 <= k < |at| ==> SameClass(responses[at[k]].status.value, statuses[k])
  }

  /** The codecs are those of all sections, one section after another; `ends` says where each one begins and ends. */
  ghost predicate SectionsAt(media: seq<Media>, codecs: seq<string>, ends: seq<nat>) {
    && |ends| == |media| + 1 && ends[0] == 0 && ends[|media|] == |codecs|
    && (forall k :: 0 <= k < |media| ==> ends[k + 1] == ends[k] + |media[k].codecs|)
    && forall k, j ::
      0 <= k < |media| && 0 <= j < |media[k].codecs| && ends[k] + j < |codecs| ==>
        codecs[ends[k] + j] == media[k].codecs[j].encoding
  }

  ghost predicate NoOffer(revisions: seq<Revision>, t: Transaction) {
    forall k :: 0 <= k < |revisions| ==> !IsOffer(revisions[k], t)
  }

  /** What the first offer of the request lists; nothing without a description or an offer. */
  ghost predicate CodecsListed(revisions: seq<Revision>, t: Transaction, codecs: seq<string>) {
    if !t.requestHasSdp || NoOffer(revisions, t) then codecs == []
    else exists i: nat, ends :: FirstOffer(revisions, t, i) && SectionsAt(revisions[i].media, codecs, ends)
  }

  /** A transaction of the model and the observation in its place disagree in a field. */
  ghost predicate Disagrees(revisions: seq<Revision>, t: Transaction, o: Observed, tolerance: nat, field: Field) {
    match field
    case MethodField => t.name != o.name
    case SdpField => t.requestHasSdp != o.hasSdp
    case DirectionField => t.direction != o.direction
    case ResponseClasses => !ClassesAgree(t.responses, o.responses)
    case SdpCodecs => !CodecsListed(revisions, t, o.codecs)
    case TimingWindow =>
      && t.earliest.Some? && t.latest.Some?
      && (o.offset + tolerance < t.earliest.value || t.latest.value + tolerance < o.offset)
    case _ => false
  }

  ghost predicate LastBye(observed: seq<Observed>, k: nat) {
    k < |observed| && observed[k].name == "BYE" && forall j :: k < j < |observed| ==> observed[j].name != "BYE"
  }

  /** Whoever sent the last BYE tore the dialog down. */
  ghost predicate TornDownBy(observed: seq<Observed>, side: Teardown) {
    match side
    case NoTeardown => forall k :: 0 <= k < |observed| ==> observed[k].name != "BYE"
    case Local => exists k: nat :: LastBye(observed, k) && observed[k].direction == LocalToRemote
    case Remote => exists k: nat :: LastBye(observed, k) && observed[k].direction == RemoteToLocal
  }

  /** All there is to report. */
  ghost predicate Reportable(m: Model, observed: seq<Observed>, tolerance: nat, d: Difference) {
    match d.index
    case Some(i) =>
      && i < |m.transactions| && i < |observed|
      && Disagrees(m.revisions, m.transactions[i], observed[i], tolerance, d.field)
    case None =>
      || (d.field == TransactionCount && |m.transactions| != |observed|)
      || (d.field == TeardownField && !TornDownBy(observed, m.teardown))
  }

  function Place(field: Field): nat {
    match field
    case TransactionCount => 0
    case MethodField => 1
    case SdpField => 2
    case DirectionField => 3
    case ResponseClasses => 4
    case SdpCodecs => 5
    case TimingWindow => 6
    case TeardownField => 7
  }

  /** The count comes first, the teardown last, and between them one transaction after another, field by field. */
  predicate ReportedBefore(a: Difference, b: Difference) {
    match (a.index, b.index)
    case (None, _) => a.field == TransactionCount && b != a
    case (_, None) => b.field == TeardownField
    case (Some(i), Some(j)) => i < j || (i == j && Place(a.field) < Place(b.field))
  }

  ghost predicate InReportOrder(r: seq<Difference>) {
    forall x, y :: 0 <= x < y < |r| ==> ReportedBefore(r[x], r[y])
  }

  // ----- each field is reported exactly when it disagrees

  lemma {:induction false} KnownFound(responses: seq<Response>) returns (at: seq<nat>)
    ensures KnownAt(responses, at) && |at| == |KnownStatuses(responses)|
    ensures forall k :: 0 <= k < |at| ==> KnownStatuses(responses)[k] == responses[at[k]].status.value
  {
    if responses == [] {
      at := [];
    } else {
      var n := |responses| - 1;
      var front := KnownFound(responses[..n]);
      at := front + if responses[n].status.Some? then [n] else [];
      KnownAfter(responses, front);
      hide KnownAt;
    }
  }

  lemma KnownAfter(responses: seq<Response>, front: seq<nat>)
    requires responses != [] && KnownAt(responses[..|responses| - 1], front)
    ensures KnownAt(responses, front + if responses[|responses| - 1].status.Some? then [|responses| - 1] else [])
    ensures forall k :: 0 <= k < |front| ==> responses[..|responses| - 1][front[k]] == responses[front[k]]
  {
    var n := |responses| - 1;
    var at := front + if responses[n].status.Some? then [n] else [];
    forall i | 0 <= i < |responses| && responses[i].status.Some? ensures i in at {
      if i < n {
        assert responses[..n][i].status.Some?;
      } else {
        assert at[|at| - 1] == n;
      }
    }
  }

  lemma {:induction false} KnownOnce(responses: seq<Response>, a: seq<nat>, b: seq<nat>)
    requires KnownAt(responses, a) && KnownAt(responses, b)
    ensures a == b
  {
    if responses == [] {
      KnownFew(responses, a);
      KnownFew(responses, b);
    } else {
      var n := |responses| - 1;
      var c := KnownBefore(responses, a);
      var d := KnownBefore(responses, b);
      KnownOnce(responses[..n], c, d);
    }
  }

  lemma KnownFew(responses: seq<Response>, at: seq<nat>)
    requires KnownAt(responses, at)
    ensures |at| <= |responses|
  {
    if at != [] {
      KnownFrom(responses, at, |at| - 1);
    }
  }

  lemma {:induction false} KnownFrom(responses: seq<Response>, at: seq<nat>, k: nat)
    requires KnownAt(responses, at) && k < |at|
    ensures k <= at[k] < |responses|
  {
    if k > 0 {
      KnownFrom(responses, at, k - 1);
    }
  }

  lemma KnownBefore(responses: seq<Response>, at: seq<nat>) returns (front: seq<nat>)
    requires responses != [] && KnownAt(responses, at)
    ensures KnownAt(responses[..|responses| - 1], front)
    ensures at == front + if responses[|responses| - 1].status.Some? then [|responses| - 1] else []
  {
    var n := |responses| - 1;
    front := at;
    if responses[n].status.Some? {
      var k :| 0 <= k < |at| && at[k] == n;
      var last := |at| - 1;
      assert at[k] <= at[last] <= n;
      front := at[..k];
    }
    forall i | 0 <= i < n && responses[i].status.Some? ensures i in front {
      assert i in at;
    }
  }

  lemma ClassesExactly(responses: seq<Response>, statuses: seq<Status>)
    ensures ClassesAgree(responses, statuses) <==> Classes(KnownStatuses(responses)) == Classes(statuses)
  {
    var at := KnownFound(responses);
    forall other | KnownAt(responses, other) ensures other == at {
      KnownOnce(responses, at, other);
    }
    var known := KnownStatuses(responses);
    hide KnownAt, KnownStatuses;
    assert Classes(known) == Classes(statuses) <==>
           |at| == |statuses| && forall k :: 0 <= k < |at| ==> ClassOf(known[k]) == ClassOf(statuses[k])
    by {
      if Classes(known) == Classes(statuses) {
        forall k | 0 <= k < |at| ensures ClassOf(known[k]) == ClassOf(statuses[k]) {
          assert Classes(known)[k] == Classes(statuses)[k];
        }
      }
    }
  }

  function Later(ends: seq<nat>, n: nat): (r: seq<nat>)
    ensures |r| == |ends| && forall k :: 0 <= k < |r| ==> r[k] == ends[k] + n
  {
    seq(|ends|, k requires 0 <= k < |ends| => ends[k] + n)
  }

  lemma EncodingAt(codecs: seq<Codec>)
    ensures |Encodings(codecs)| == |codecs|
    ensures forall j :: 0 <= j < |codecs| ==> Encodings(codecs)[j] == codecs[j].encoding
  {
  }

  lemma {:induction false} SectionsFound(media: seq<Media>) returns (ends: seq<nat>)
    ensures SectionsAt(media, AllEncodings(media), ends)
  {
    if media == [] {
      ends := [0];
    } else {
      var first := Encodings(media[0].codecs);
      EncodingAt(media[0].codecs);
      var rest := SectionsFound(media[1..]);
      ends := [0] + Later(rest, |first|);
      forall k, j | 0 <= k < |media| && 0 <= j < |media[k].codecs| && ends[k] + j < |AllEncodings(media)|
        ensures AllEncodings(media)[ends[k] + j] == media[k].codecs[j].encoding
      {
        if k > 0 {
          assert media[k] == media[1..][k - 1];
        }
      }
    }
  }

  lemma {:induction false} SectionsRise(media: seq<Media>, codecs: seq<string>, ends: seq<nat>, k: nat)
    requires SectionsAt(media, codecs, ends) && k <= |media|
    ensures ends[k] <= |codecs|
    decreases |media| - k
  {
    if k < |media| {
      SectionsRise(media, codecs, ends, k + 1);
    }
  }

  lemma {:induction false} SectionsOnce(media: seq<Media>, codecs: seq<string>, ends: seq<nat>)
    requires SectionsAt(media, codecs, ends)
    ensures codecs == AllEncodings(media)
  {
    if media != [] {
      var n := |media[0].codecs|;
      EncodingAt(media[0].codecs);
      SectionsRise(media, codecs, ends, 1);
      var rest := WithoutFirst(media, codecs, ends);
      SectionsOnce(media[1..], codecs[n..], rest);
      assert codecs[..n] == Encodings(media[0].codecs) by {
        forall j | 0 <= j < n ensures codecs[j] == media[0].codecs[j].encoding {
          assert codecs[ends[0] + j] == media[0].codecs[j].encoding;
        }
      }
      assert codecs == codecs[..n] + codecs[n..];
      hide SectionsAt, Encodings;
    }
  }

  lemma WithoutFirst(media: seq<Media>, codecs: seq<string>, ends: seq<nat>) returns (rest: seq<nat>)
    requires media != [] && SectionsAt(media, codecs, ends) && |media[0].codecs| <= |codecs|
    ensures SectionsAt(media[1..], codecs[|media[0].codecs|..], rest)
  {
    var n := |media[0].codecs|;
    forall k | 1 <= k <= |media| ensures ends[k] >= n {
      AfterFirst(media, codecs, ends, k);
    }
    rest := seq(|media|, k requires 0 <= k < |media| => ends[k + 1] - n);
    var more, tail := media[1..], codecs[n..];
    forall k, j | 0 <= k < |more| && 0 <= j < |more[k].codecs| && rest[k] + j < |tail|
      ensures tail[rest[k] + j] == more[k].codecs[j].encoding
    {
      assert codecs[ends[k + 1] + j] == media[k + 1].codecs[j].encoding;
    }
  }

  lemma {:induction false} AfterFirst(media: seq<Media>, codecs: seq<string>, ends: seq<nat>, k: nat)
    requires SectionsAt(media, codecs, ends) && 1 <= k <= |media|
    ensures ends[k] >= |media[0].codecs|
  {
    if k > 1 {
      AfterFirst(media, codecs, ends, k - 1);
    }
  }

  lemma {:induction false} OfferRead(revisions: seq<Revision>, t: Transaction) returns (i: nat)
    requires t.requestHasSdp
    ensures NoOffer(revisions, t) ==> SourceRequestCodecs(revisions, t) == []
    ensures !NoOffer(revisions, t) ==>
              FirstOffer(revisions, t, i) && SourceRequestCodecs(revisions, t) == AllEncodings(revisions[i].media)
  {
    i := 0;
    if revisions != [] && !IsOffer(revisions[0], t) {
      i := OfferRead(revisions[1..], t);
      i := i + 1;
    }
  }

  lemma CodecsExactly(revisions: seq<Revision>, t: Transaction, codecs: seq<string>)
    ensures CodecsListed(revisions, t, codecs) <==> SourceRequestCodecs(revisions, t) == codecs
  {
    if t.requestHasSdp {
      var i := OfferRead(revisions, t);
      hide SourceRequestCodecs, AllEncodings, SectionsAt;
      if !NoOffer(revisions, t) {
        var ends := SectionsFound(revisions[i].media);
        forall j: nat, others | FirstOffer(revisions, t, j) && SectionsAt(revisions[j].media, codecs, others)
          ensures j == i && codecs == AllEncodings(revisions[i].media)
        {
          SectionsOnce(revisions[j].media, codecs, others);
        }
      }
    }
  }

  lemma PairExactly(revisions: seq<Revision>, t: Transaction, o: Observed, tolerance: nat, index: nat, d: Difference)
    ensures d in TransactionDiff(revisions, t, o, tolerance, index) <==>
            d.index == Some(index) && Disagrees(revisions, t, o, tolerance, d.field)
  {
    ClassesExactly(t.responses, o.responses);
    CodecsExactly(revisions, t, o.codecs);
    hide ClassesAgree, Classes, KnownStatuses, CodecsListed, SourceRequestCodecs;
  }

  lemma {:induction false} TeardownExactly(observed: seq<Observed>, side: Teardown)
    ensures TornDownBy(observed, side) <==> TeardownSeen(observed) == side
  {
    if observed != [] {
      var n := |observed| - 1;
      if observed[n].name == "BYE" {
        assert LastBye(observed, n);
      } else {
        var front := observed[..n];
        TeardownExactly(front, side);
        forall k: nat ensures LastBye(front, k) <==> LastBye(observed, k) {
          if LastBye(front, k) {
            assert front[k] == observed[k];
          }
          if LastBye(observed, k) {
            assert k < n && front[k] == observed[k];
          }
        }
        assert forall k :: 0 <= k < n ==> front[k] == observed[k];
      }
    }
  }

  // ----- and in one order

  ghost predicate OfOne(r: seq<Difference>, index: nat, last: nat) {
    InReportOrder(r) && forall x :: 0 <= x < |r| ==> r[x].index == Some(index) && Place(r[x].field) <= last
  }

  lemma OneMoreField(r: seq<Difference>, index: nat, last: nat, mismatch: bool, field: Field)
    requires OfOne(r, index, last) && last < Place(field)
    ensures OfOne(r + At(index, mismatch, field), index, Place(field))
  {
  }

  lemma NoFields(index: nat)
    ensures OfOne([], index, 0)
  {
  }

  lemma PairInOrder(revisions: seq<Revision>, t: Transaction, o: Observed, tolerance: nat, index: nat)
    ensures OfOne(TransactionDiff(revisions, t, o, tolerance, index), index, 6)
  {
    hide At, OfOne, Classes, KnownStatuses, SourceRequestCodecs, InWindow;
    NoFields(index);
    OneMoreField([], index, 0, t.name != o.name, MethodField);
    var r := At(index, t.name != o.name, MethodField);
    assert [] + r == r;
    OneMoreField(r, index, 1, t.requestHasSdp != o.hasSdp, SdpField);
    r := r + At(index, t.requestHasSdp != o.hasSdp, SdpField);
    OneMoreField(r, index, 2, t.direction != o.direction, DirectionField);
    r := r + At(index, t.direction != o.direction, DirectionField);
    OneMoreField(r, index, 3, Classes(KnownStatuses(t.responses)) != Classes(o.responses), ResponseClasses);
    r := r + At(index, Classes(KnownStatuses(t.responses)) != Classes(o.responses), ResponseClasses);
    OneMoreField(r, index, 4, SourceRequestCodecs(revisions, t) != o.codecs, SdpCodecs);
    r := r + At(index, SourceRequestCodecs(revisions, t) != o.codecs, SdpCodecs);
    OneMoreField(r, index, 5, !InWindow(t, o.offset, tolerance), TimingWindow);
  }

  lemma InOrderJoin(a: seq<Difference>, b: seq<Difference>)
    requires InReportOrder(a) && InReportOrder(b)
    requires forall x, y :: x in a && y in b ==> ReportedBefore(x, y)
    ensures InReportOrder(a + b)
  {
    forall x, y | 0 <= x < y < |a + b| ensures ReportedBefore((a + b)[x], (a + b)[y]) {
      if x < |a| <= y {
        assert a[x] in a && b[y - |a|] in b;
      }
    }
  }

  ghost predicate ListsFirst(m: Model, observed: seq<Observed>, tolerance: nat, n: nat, r: seq<Difference>) {
    forall d: Difference :: d in r <==> IndexBefore(d, n) && Reportable(m, observed, tolerance, d)
  }

  predicate IndexBefore(d: Difference, n: nat) {
    d.index.Some? && d.index.value < n
  }

  ghost predicate ListsOne(m: Model, observed: seq<Observed>, tolerance: nat, i: nat, r: seq<Difference>) {
    forall d: Difference :: d in r <==> d.index == Some(i) && Reportable(m, observed, tolerance, d)
  }

  lemma OneMoreListed(m: Model, observed: seq<Observed>, tolerance: nat, i: nat, a: seq<Difference>, b: seq<Difference>)
    requires ListsFirst(m, observed, tolerance, i, a) && ListsOne(m, observed, tolerance, i, b)
    ensures ListsFirst(m, observed, tolerance, i + 1, a + b)
  {
    hide Reportable;
  }

  lemma OneMoreInOrder(m: Model, observed: seq<Observed>, tolerance: nat, i: nat, a: seq<Difference>,
                       b: seq<Difference>)
    requires ListsFirst(m, observed, tolerance, i, a) && ListsOne(m, observed, tolerance, i, b)
    requires InReportOrder(a) && InReportOrder(b)
    ensures InReportOrder(a + b)
  {
    hide Reportable, ReportedBefore;
    forall x, y | x in a && y in b ensures ReportedBefore(x, y) {
      EarlierFirst(x, y);
    }
    InOrderJoin(a, b);
  }

  lemma NothingListed(m: Model, observed: seq<Observed>, tolerance: nat)
    ensures ListsFirst(m, observed, tolerance, 0, []) && InReportOrder([])
  {
    hide Reportable;
  }

  lemma {:induction false} DiffsExactly(m: Model, observed: seq<Observed>, tolerance: nat, n: nat)
    requires n <= |m.transactions| && n <= |observed|
    ensures ListsFirst(m, observed, tolerance, n, Diffs(m, observed, tolerance, n))
    ensures InReportOrder(Diffs(m, observed, tolerance, n))
  {
    hide Reportable, TransactionDiff, ReportedBefore, InReportOrder, ListsFirst, ListsOne;
    if n == 0 {
      NothingListed(m, observed, tolerance);
    } else {
      var before := Diffs(m, observed, tolerance, n - 1);
      var last := TransactionDiff(m.revisions, m.transactions[n - 1], observed[n - 1], tolerance, n - 1);
      DiffsExactly(m, observed, tolerance, n - 1);
      LastPair(m, observed, tolerance, n - 1);
      OneMoreListed(m, observed, tolerance, n - 1, before, last);
      OneMoreInOrder(m, observed, tolerance, n - 1, before, last);
    }
  }

  lemma LastPair(m: Model, observed: seq<Observed>, tolerance: nat, i: nat)
    requires i < |m.transactions| && i < |observed|
    ensures var last := TransactionDiff(m.revisions, m.transactions[i], observed[i], tolerance, i);
            InReportOrder(last) && ListsOne(m, observed, tolerance, i, last)
  {
    var t, o := m.transactions[i], observed[i];
    hide Disagrees, TransactionDiff, ReportedBefore;
    PairInOrder(m.revisions, t, o, tolerance, i);
    forall d: Difference ensures d in TransactionDiff(m.revisions, t, o, tolerance, i) <==>
                                 d.index == Some(i) && Reportable(m, observed, tolerance, d)
    {
      PairExactly(m.revisions, t, o, tolerance, i, d);
    }
  }

  lemma EarlierFirst(a: Difference, b: Difference)
    ensures a.index.Some? && b.index.Some? && a.index.value < b.index.value ==> ReportedBefore(a, b)
    ensures a == Difference(None, TransactionCount) && a != b ==> ReportedBefore(a, b)
    ensures b == Difference(None, TeardownField) && a.index.Some? ==> ReportedBefore(a, b)
  {
  }

  /**
   What is listed is all there is to report, in order: the count, then every field of every pair that disagrees, then
   the teardown. Nothing is listed exactly when nothing is to report.
   */
  lemma DifferencesExactly(m: Model, observed: seq<Observed>, tolerance: nat)
    ensures var r := DiffOf(m, observed, tolerance);
            && (forall d :: d in r <==> Reportable(m, observed, tolerance, d))
            && InReportOrder(r) && (r == [] <==> forall d :: !Reportable(m, observed, tolerance, d))
  {
    var n := Min(|m.transactions|, |observed|);
    DiffsExactly(m, observed, tolerance, n);
    TeardownExactly(observed, m.teardown);
    var count := if |m.transactions| != |observed| then [Difference(None, TransactionCount)] else [];
    var middle := Diffs(m, observed, tolerance, n);
    var last := if m.teardown != TeardownSeen(observed) then [Difference(None, TeardownField)] else [];
    var r := DiffOf(m, observed, tolerance);
    assert r == count + middle + last;
    hide Diffs, DiffOf, Disagrees, TornDownBy, TeardownSeen, ReportedBefore;
    forall x, y | x in count && y in middle ensures ReportedBefore(x, y) {
      EarlierFirst(x, y);
    }
    InOrderJoin(count, middle);
    forall x, y | x in count + middle && y in last ensures ReportedBefore(x, y) {
      EarlierFirst(x, y);
    }
    InOrderJoin(count + middle, last);
    forall d ensures d in r <==> Reportable(m, observed, tolerance, d) {
    }
    assert r != [] ==> r[0] in r;
  }

  method CompareTransaction(revisions: seq<Revision>, wanted: Transaction, actual: Observed, tolerance: nat, i: nat)
    returns (found: seq<Difference>)
    ensures found == TransactionDiff(revisions, wanted, actual, tolerance, i)
  {
    hide KnownStatuses, Classes, SourceRequestCodecs, InWindow, At;
    found := At(i, wanted.name != actual.name, MethodField);
    found := found + At(i, wanted.requestHasSdp != actual.hasSdp, SdpField);
    found := found + At(i, wanted.direction != actual.direction, DirectionField);
    found := found + At(i, Classes(KnownStatuses(wanted.responses)) != Classes(actual.responses), ResponseClasses);
    found := found + At(i, SourceRequestCodecs(revisions, wanted) != actual.codecs, SdpCodecs);
    found := found + At(i, !InWindow(wanted, actual.offset, tolerance), TimingWindow);
  }

  method ObserveTeardown(observed: seq<Observed>) returns (seen: Teardown)
    ensures seen == TeardownSeen(observed)
  {
    seen := NoTeardown;
    for i := 0 to |observed|
      invariant seen == TeardownSeen(observed[..i])
    {
      assert observed[..i + 1][..i] == observed[..i];
      if observed[i].name == "BYE" {
        seen := if observed[i].direction == LocalToRemote then Local else Remote;
      }
    }
    assert observed[..|observed|] == observed;
  }

  /** Accumulate the differences between the model and what was observed. */
  method SemanticDiff(m: Model, observed: seq<Observed>, tolerance: nat) returns (differences: seq<Difference>)
    ensures differences == DiffOf(m, observed, tolerance)
    ensures forall d :: d in differences <==> Reportable(m, observed, tolerance, d)
    ensures InReportOrder(differences)
    ensures differences == [] <==> forall d :: !Reportable(m, observed, tolerance, d)
  {
    DifferencesExactly(m, observed, tolerance);
    hide TransactionDiff, TeardownSeen, Reportable, InReportOrder;
    differences := [];
    if |m.transactions| != |observed| {
      differences := [Difference(None, TransactionCount)];
    }
    ghost var counted := differences;
    for i := 0 to Min(|m.transactions|, |observed|)
      invariant differences == counted + Diffs(m, observed, tolerance, i)
    {
      var found := CompareTransaction(m.revisions, m.transactions[i], observed[i], tolerance, i);
      differences := differences + found;
    }
    var seen := ObserveTeardown(observed);
    if m.teardown != seen {
      differences := differences + [Difference(None, TeardownField)];
    }
  }

  function DiffOf(m: Model, observed: seq<Observed>, tolerance: nat): seq<Difference> {
    (if |m.transactions| != |observed| then [Difference(None, TransactionCount)] else [])
    + Diffs(m, observed, tolerance, Min(|m.transactions|, |observed|))
    + (if m.teardown != TeardownSeen(observed) then [Difference(None, TeardownField)] else [])
  }

  // ----- when a compiled scenario validates

  /** The codecs the generator writes are the codecs the comparison expects. */
  ghost predicate CodecsAgree(m: Model, t: Transaction)
    requires t.direction == LocalToRemote ==> RequestMedia(m.revisions, t).Ok?
  {
    if t.direction == LocalToRemote && t.requestHasSdp then
      SourceRequestCodecs(m.revisions, t) == Encodings(RequestMedia(m.revisions, t).value.value.codecs)
    else SourceRequestCodecs(m.revisions, t) == []
  }

  /** The last BYE decides who tore the dialog down. */
  function TeardownOf(ts: seq<Transaction>): Teardown {
    if ts == [] then NoTeardown
    else if ts[|ts| - 1].name == "BYE" then (if ts[|ts| - 1].direction == LocalToRemote then Local else Remote)
    else TeardownOf(ts[..|ts| - 1])
  }

  lemma {:induction false} TeardownPreserved(m: Model, n: nat)
    requires Compilable(m) && n <= |m.transactions|
    ensures TeardownSeen(Meanings(m, n)) == TeardownOf(m.transactions[..n])
  {
    hide RequestMedia, ClockAfter, KnownStatuses;
    if n > 0 {
      TeardownPreserved(m, n - 1);
      assert m.transactions[..n][..n - 1] == m.transactions[..n - 1];
      assert Meanings(m, n)[..n - 1] == Meanings(m, n - 1);
    }
  }

  lemma {:induction false} MeaningAt(m: Model, n: nat, i: nat)
    requires Compilable(m) && i < n <= |m.transactions|
    ensures Meanings(m, n)[i] == MeaningOf(m.revisions, ClockAfter(m.transactions[..i]), m.transactions[i])
  {
    if i < n - 1 {
      MeaningAt(m, n - 1, i);
    }
  }

  lemma {:induction false} DiffsEmpty(m: Model, observed: seq<Observed>, tolerance: nat, n: nat)
    requires n <= |m.transactions| && n <= |observed|
    ensures Diffs(m, observed, tolerance, n) == [] <==>
            forall i :: 0 <= i < n ==> TransactionDiff(m.revisions, m.transactions[i], observed[i], tolerance, i) == []
  {
    hide TransactionDiff;
    if n > 0 {
      DiffsEmpty(m, observed, tolerance, n - 1);
    }
  }

  /** The offer the generator reads. */
  ghost predicate FirstDescribed(revisions: seq<Revision>, t: Transaction, j: nat) {
    && j < |revisions| && IsOffer(revisions[j], t) && revisions[j].media != []
    && forall k :: 0 <= k < j && IsOffer(revisions[k], t) ==> revisions[k].media == []
  }

  /**
   The first offer of the frame lists no codec after its first section; or it has no section at all,
   and the first section of the offer read in its place lists no codec.
   */
  ghost predicate NothingLost(revisions: seq<Revision>, t: Transaction) {
    exists i: nat, j: nat :: FirstOffer(revisions, t, i) && FirstDescribed(revisions, t, j)
                             && NothingLostBetween(revisions[i], revisions[j], i == j)
  }

  predicate NothingLostBetween(first: Revision, described: Revision, same: bool)
    requires described.media != []
  {
    if same then forall k :: 1 <= k < |first.media| ==> first.media[k].codecs == [] else described.media[0].codecs == []
  }

  lemma {:induction false} OffersRead(revisions: seq<Revision>, t: Transaction) returns (i: nat, j: nat)
    requires t.requestHasSdp && RequestMedia(revisions, t).Ok?
    ensures i <= j && FirstOffer(revisions, t, i) && FirstDescribed(revisions, t, j)
    ensures SourceRequestCodecs(revisions, t) == AllEncodings(revisions[i].media)
    ensures RequestMedia(revisions, t) == Ok(Some(revisions[j].media[0]))
  {
    var r := revisions[0];
    if IsOffer(r, t) && r.media != [] {
      i, j := 0, 0;
    } else {
      i, j := OffersRead(revisions[1..], t);
      i, j := if IsOffer(r, t) then 0 else i + 1, j + 1;
    }
  }

  lemma NoEncodings(codecs: seq<Codec>)
    ensures Encodings(codecs) == [] <==> codecs == []
  {
  }

  lemma {:induction false} NoEncodingsAtAll(media: seq<Media>)
    ensures AllEncodings(media) == [] <==> forall k :: 0 <= k < |media| ==> media[k].codecs == []
  {
    if media != [] {
      NoEncodings(media[0].codecs);
      NoEncodingsAtAll(media[1..]);
    }
  }

  lemma OffersAreUnique(revisions: seq<Revision>, t: Transaction, i: nat, j: nat)
    requires FirstOffer(revisions, t, i) && FirstDescribed(revisions, t, j)
    ensures forall k :: FirstOffer(revisions, t, k) ==> k == i
    ensures forall k :: FirstDescribed(revisions, t, k) ==> k == j
    ensures i == j || revisions[i].media == []
    ensures NothingLost(revisions, t) <==> NothingLostBetween(revisions[i], revisions[j], i == j)
  {
    assert IsOffer(revisions[i], t) && IsOffer(revisions[j], t);
    assert i <= j;
  }

  /** Exactly when the codecs the generator writes are the codecs the comparison expects. */
  lemma CodecsSurvive(m: Model, t: Transaction)
    requires t.direction == LocalToRemote && t.requestHasSdp && RequestMedia(m.revisions, t).Ok?
    ensures CodecsAgree(m, t) <==> NothingLost(m.revisions, t)
  {
    var i, j := OffersRead(m.revisions, t);
    OffersAreUnique(m.revisions, t, i, j);
    var first, read := m.revisions[i].media, m.revisions[j].media[0];
    hide FirstOffer, FirstDescribed, NothingLost, RequestMedia, SourceRequestCodecs, Encodings, AllEncodings;
    if i == j {
      OnlyTheFirst(first);
    } else {
      NoEncodings(read.codecs);
      NoEncodingsAtAll(first);
    }
  }

  lemma OnlyTheFirst(media: seq<Media>)
    requires media != []
    ensures AllEncodings(media) == Encodings(media[0].codecs) <==>
            forall k :: 1 <= k < |media| ==> media[k].codecs == []
  {
    NoEncodingsAtAll(media[1..]);
    assert AllEncodings(media) == Encodings(media[0].codecs) + AllEncodings(media[1..]);
    assert forall k :: 1 <= k < |media| ==> media[k] == media[1..][k - 1];
    assert forall k :: 0 <= k < |media[1..]| ==> media[1..][k] == media[k + 1];
  }

  lemma WithoutSdp(m: Model, t: Transaction)
    requires !t.requestHasSdp
    ensures RequestMedia(m.revisions, t) == Ok(None) && CodecsAgree(m, t)
  {
  }

  /** A transaction survives exactly when it carries no remote SDP, its codecs are not lost, and it is not too late. */
  ghost predicate Survives(m: Model, tolerance: nat, i: nat)
    requires Compilable(m) && i < |m.transactions|
  {
    var t := m.transactions[i];
    && (t.requestHasSdp ==> t.direction == LocalToRemote && NothingLost(m.revisions, t))
    && (t.earliest.Some? && t.latest.Some? ==>
        StartTime(ClockAfter(m.transactions[..i]), t) <= t.latest.value + tolerance)
  }

  lemma TransactionSurvives(m: Model, tolerance: nat, i: nat)
    requires Compilable(m) && i < |m.transactions|
    ensures TransactionDiff(m.revisions, m.transactions[i],
                            MeaningOf(m.revisions, ClockAfter(m.transactions[..i]), m.transactions[i]), tolerance, i)
                              == []
            <==> Survives(m, tolerance, i)
  {
    var t := m.transactions[i];
    if !t.requestHasSdp {
      WithoutSdp(m, t);
    } else if t.direction == LocalToRemote {
      CodecsSurvive(m, t);
    }
    hide NothingLost, RequestMedia, SourceRequestCodecs, ClockAfter, KnownStatuses, Encodings;
  }

  /** Running the compiler's own scenario shows exactly the meaning of the model. */
  lemma CompiledScenarioMeans(m: Model, auth: bool)
    requires Compilable(m)
    ensures InterpretAll(Run(0, []), ModelNodes(m, auth, |m.transactions|) + [Inert]) ==
            Ok(Run(ClockAfter(m.transactions), Meanings(m, |m.transactions|)))
  {
    hide InterpretAll, ModelNodes, Meanings, ClockAfter;
    var n := |m.transactions|;
    CompiledScenarioRuns(m, auth, n);
    assert m.transactions[..n] == m.transactions;
    InterpretAppend(Run(0, []), ModelNodes(m, auth, n), [Inert]);
    OneNode(Run(ClockAfter(m.transactions), Meanings(m, n)), Inert);
  }

  /**
   Validating the compiler's own scenario passes exactly when every transaction survives and the model's
   teardown is its last BYE. Method, direction and response classes never differ, and a request is never early.
   */
  lemma ValidationOutcome(m: Model, tolerance: nat)
    requires Compilable(m)
    ensures DiffOf(m, Meanings(m, |m.transactions|), tolerance) == [] <==>
            (forall i :: 0 <= i < |m.transactions| ==> Survives(m, tolerance, i))
              && m.teardown == TeardownOf(m.transactions)
  {
    var n := |m.transactions|;
    var observed := Meanings(m, n);
    TeardownPreserved(m, n);
    assert m.transactions[..n] == m.transactions;
    hide TransactionDiff, Survives, Meanings, TeardownSeen, TeardownOf, Diffs;
    DiffsEmpty(m, observed, tolerance, n);
    forall i | 0 <= i < n
      ensures TransactionDiff(m.revisions, m.transactions[i], observed[i], tolerance, i) == [] <==>
              Survives(m, tolerance, i)
    {
      MeaningAt(m, n, i);
      TransactionSurvives(m, tolerance, i);
    }
    AllEmpty(if |m.transactions| != |observed| then [Difference(None, TransactionCount)] else [],
             Diffs(m, observed, tolerance, n),
             if m.teardown != TeardownSeen(observed) then [Difference(None, TeardownField)] else []);
  }

  lemma AllEmpty<T>(a: seq<T>, b: seq<T>, c: seq<T>)
    ensures a + b + c == [] <==> a == [] && b == [] && c == []
  {
  }

  /** One offer a frame with a single section is enough for the codecs to agree. */
  lemma SingleSectionCodecsAgree(m: Model, t: Transaction)
    requires t.direction == LocalToRemote && t.requestHasSdp && RequestMedia(m.revisions, t).Ok?
    requires forall r :: r in m.revisions && r.frame == t.requestFrame && r.role == Offer ==> |r.media| == 1
    ensures CodecsAgree(m, t)
  {
    SingleSection(m.revisions, t);
  }

  lemma {:induction false} SingleSection(revisions: seq<Revision>, t: Transaction)
    requires t.requestHasSdp && RequestMedia(revisions, t).Ok?
    requires forall r :: r in revisions && r.frame == t.requestFrame && r.role == Offer ==> |r.media| == 1
    ensures SourceRequestCodecs(revisions, t) == Encodings(RequestMedia(revisions, t).value.value.codecs)
  {
    var r := revisions[0];
    assert r in revisions;
    if r.frame == t.requestFrame && r.role == Offer {
      assert r.media[1..] == [];
      assert AllEncodings(r.media[1..]) == [];
      assert AllEncodings(r.media) == Encodings(r.media[0].codecs);
    } else {
      SingleSection(revisions[1..], t);
    }
  }

  /** An offer without sections before the described one: the generator skips it, the comparison does not. */
  lemma EmptyOfferDiffers()
    ensures var offers := [Revision(Some(1), Offer, []), Revision(Some(1), Offer, [Media([Codec(0, "PCMU", 8000)])])];
            var t := Transaction("INVITE", LocalToRemote, None, None, Some(1), true, []);
            var m := Model([t], offers, NoTeardown);
            Compilable(m) && !CodecsAgree(m, t)
  {
  }

  /** A codec in a second section is lost by the generator and reported by the comparison. */
  lemma SecondSectionDiffers()
    ensures var offer := Revision(Some(1), Offer, [Media([Codec(0, "PCMU", 8000)]), Media([Codec(8, "PCMA", 8000)])]);
            var t := Transaction("INVITE", LocalToRemote, None, None, Some(1), true, []);
            var m := Model([t], [offer], NoTeardown);
            Compilable(m) && !CodecsAgree(m, t)
  {
  }
}
