/** Dialogs: one state machine a root INVITE and callee tag, walked over that dialog's frames in order. */
module Dialogs {
  import opened Prelude
  import opened Sorting
  import opened Transactions

  datatype DialogState = Fresh | Trying | Early | Challenged | Confirmed | Renegotiating | Cancelling | Terminating
                       | Terminated | Rejected | Unfinished

  datatype Happening = Invited | Reinvited | Updated | Acknowledged | CancelAsked | RemoteBye | LocalBye
                     | Challenge(status: int) | ReinviteFailed(status: int) | Provisional(status: int)
                     | Accepted(status: int)
                     | Cancelled | InviteFailed(status: int) | Negotiated(status: int) | UpdateEnded(status: int)
                     | CancelDone(status: int) | ByeDone(status: int)

  datatype Move = Move(previous: DialogState, current: DialogState, event: Happening, evidence: Evidence)

  /** A frame of a dialog with the transaction it was filed under. */
  datatype Item = Item(frame: Frame, transaction: Transaction, isRequest: bool)

  datatype Dialog = Dialog(
    root: RootKey, calleeTag: Option<string>, keys: seq<Key>, state: DialogState, complete: bool, moves: seq<Move>)

  /** What makes two initial INVITEs tries of one call. */
  datatype RootKey = RootKey(callId: string, callerTag: Option<string>, flow: Flow)

  // ----- which frames belong

  function FromTag(f: Frame): Option<string> {
    if f.sip.Some? then f.sip.value.fromTag else None
  }

  function ToTag(f: Frame): Option<string> {
    if f.sip.Some? then f.sip.value.toTag else None
  }

  function CallId(f: Frame): Option<string> {
    if f.sip.Some? then f.sip.value.callId else None
  }

  function CseqOf(f: Frame): Option<int> {
    if f.sip.Some? then f.sip.value.cseqNumber else None
  }

  predicate Denied(f: Frame) {
    StatusOf(f) == Some(401) || StatusOf(f) == Some(407)
  }

  predicate Belongs(f: Frame, root: RootKey, calleeTag: Option<string>) {
    && CallId(f) == Some(root.callId)
    && (|| (Denied(f) && FromTag(f) == root.callerTag)
        || (root.callerTag.Some? && calleeTag.Some?
            && ((FromTag(f) == root.callerTag && ToTag(f) == calleeTag)
                || (FromTag(f) == calleeTag && ToTag(f) == root.callerTag)))
        || (FromTag(f) == root.callerTag && ToTag(f) == None))
  }

  function FramesOf(t: Transaction): seq<Item> {
    (if t.request.Some? then [Item(t.request.value, t, true)] else [])
    + Map((f: Frame) => Item(f, t, false), t.responses)
  }

  function Filter(items: seq<Item>, root: RootKey, calleeTag: Option<string>): seq<Item> {
    if items == [] then []
    else
      Filter(items[..|items| - 1], root, calleeTag)
      + if Belongs(items[|items| - 1].frame, root, calleeTag) then [items[|items| - 1]] else []
  }

  function Gather(ts: seq<Transaction>, root: RootKey, calleeTag: Option<string>): seq<Item> {
    if ts == [] then [] else Gather(ts[..|ts| - 1], root, calleeTag) + Filter(FramesOf(ts[|ts| - 1]), root, calleeTag)
  }

  predicate ItemLe(a: Item, b: Item) {
    FrameLe(a.frame, b.frame)
  }

  // ----- one step

  function MethodOf(i: Item): string {
    if i.frame.sip.None? then ""
    else
      match if i.isRequest then i.frame.sip.value.requestMethod else i.frame.sip.value.cseqMethod
      case Some(m) => Upper(m)
      case None => ""
  }

  /** The transaction renegotiates an existing dialog: its request already named the callee. */
  predicate InDialog(t: Transaction) {
    t.request.Some? && ToTag(t.request.value).Some?
  }

  function RequestMove(state: DialogState, i: Item, flow: Flow): Option<(DialogState, Happening)> {
    var m := MethodOf(i);
    if m == "INVITE" then
      if state == Confirmed || state == Early then Some((Renegotiating, Reinvited))
      else if state == Fresh || state == Challenged || state == Unfinished then Some((Trying, Invited))
      else None
    else if m == "UPDATE" then Some((Renegotiating, Updated))
    else if m == "ACK" then Some((state, Acknowledged))
    else if m == "CANCEL" then Some((Cancelling, CancelAsked))
    else if m == "BYE" then Some((Terminating, if FlowOf(i.frame) == Some(Reverse(flow)) then RemoteBye else LocalBye))
    else None
  }

  function ResponseMove(state: DialogState, i: Item, status: int): Option<(DialogState, Happening)> {
    var m := MethodOf(i);
    if m == "INVITE" then
      if status == 401 || status == 407 then
        if InDialog(i.transaction) then Some((Confirmed, ReinviteFailed(status)))
        else Some((Challenged, Challenge(status)))
      else if 100 < status < 200 then Some((Early, Provisional(status)))
      else if 200 <= status < 300 then Some((Confirmed, Accepted(status)))
      else if status == 487 then Some((Terminated, Cancelled))
      else if status >= 300 then
        if InDialog(i.transaction) then Some((Confirmed, ReinviteFailed(status)))
        else Some((Rejected, InviteFailed(status)))
      else None
    else if m == "UPDATE" && 200 <= status < 300 then Some((Confirmed, Negotiated(status)))
    else if m == "UPDATE" && status >= 200 then Some((Confirmed, UpdateEnded(status)))
    else if m == "CANCEL" && 200 <= status < 300 then Some((state, CancelDone(status)))
    else if m == "BYE" && 200 <= status < 300 then Some((Terminated, ByeDone(status)))
    else None
  }

  function MoveOf(state: DialogState, i: Item, flow: Flow): Option<(DialogState, Happening)> {
    if i.isRequest then RequestMove(state, i, flow)
    else
      match StatusOf(i.frame)
      case Some(status) => ResponseMove(state, i, status)
      case None => None
  }

  function Arrived(moves: seq<Move>): DialogState {
    if moves == [] then Fresh else moves[|moves| - 1].current
  }

  function MovesOf(items: seq<Item>, flow: Flow): seq<Move> {
    if items == [] then []
    else
      var before, last := MovesOf(items[..|items| - 1], flow), items[|items| - 1];
      match MoveOf(Arrived(before), last, flow)
      case Some((next, event)) => before + [Move(Arrived(before), next, event, last.frame.evidence)]
      case None => before
  }

  // ----- what makes a dialog conclusive

  predicate Succeeded(i: Item) {
    !i.isRequest && MethodOf(i) == "INVITE" && StatusOf(i.frame).Some? && 200 <= StatusOf(i.frame).value < 300
  }

  /** A final refusal of an initial INVITE, challenges aside. */
  predicate Refused(i: Item) {
    && !i.isRequest && MethodOf(i) == "INVITE" && StatusOf(i.frame).Some? && StatusOf(i.frame).value >= 300
    && !Denied(i.frame) && !InDialog(i.transaction)
  }

  predicate Acks(i: Item) {
    i.isRequest && MethodOf(i) == "ACK"
  }

  predicate HungUp(i: Item) {
    !i.isRequest && MethodOf(i) == "BYE" && StatusOf(i.frame).Some? && 200 <= StatusOf(i.frame).value < 300
  }

  predicate InviteCancelled(i: Item) {
    !i.isRequest && MethodOf(i) == "INVITE" && StatusOf(i.frame) == Some(487)
  }

  predicate AcksOf(i: Item, cseq: int) {
    Acks(i) && CseqOf(i.frame) == Some(cseq)
  }

  ghost predicate Acked(items: seq<Item>, cseq: int) {
    exists j :: 0 <= j < |items| && AcksOf(items[j], cseq)
  }

  /** Some INVITE succeeded, every success was acknowledged, and the call was hung up. */
  ghost predicate CarriedThrough(items: seq<Item>) {
    && (exists i :: 0 <= i < |items| && Succeeded(items[i]) && CseqOf(items[i].frame).Some?)
    && (forall i :: 0 <= i < |items| && Succeeded(items[i]) && CseqOf(items[i].frame).Some? ==>
        Acked(items, CseqOf(items[i].frame).value))
    && (exists i :: 0 <= i < |items| && HungUp(items[i]))
  }

  /** Some initial INVITE was refused and the refusal acknowledged. */
  ghost predicate TurnedDown(items: seq<Item>) {
    exists i ::
      0 <= i < |items| && Refused(items[i]) && CseqOf(items[i].frame).Some?
        && Acked(items, CseqOf(items[i].frame).value)
  }

  // ----- properties of every walk

  ghost predicate ChainedMoves(moves: seq<Move>) {
    && (moves != [] ==> moves[0].previous == Fresh)
    && forall i, j :: 0 <= i && j == i + 1 && j < |moves| ==> moves[j].previous == moves[i].current
  }

  lemma {:induction false} MovesChain(items: seq<Item>, flow: Flow)
    ensures ChainedMoves(MovesOf(items, flow))
  {
    if items != [] {
      hide MoveOf;
      MovesChain(items[..|items| - 1], flow);
    }
  }

  lemma LeavesFresh(state: DialogState, i: Item, flow: Flow)
    ensures MoveOf(state, i, flow).Some? && state != Fresh ==> MoveOf(state, i, flow).value.0 != Fresh
    ensures MoveOf(state, i, flow).Some? && state != Unfinished ==> MoveOf(state, i, flow).value.0 != Unfinished
    ensures Succeeded(i) || Refused(i) ==> MoveOf(state, i, flow).Some? && MoveOf(state, i, flow).value.0 != Fresh
  {
  }

  /** No frame ever puts a dialog in the unfinished state; only closing it can. */
  lemma {:induction false} NeverUnfinished(items: seq<Item>, flow: Flow)
    ensures Arrived(MovesOf(items, flow)) != Unfinished
  {
    if items != [] {
      LeavesFresh(Arrived(MovesOf(items[..|items| - 1], flow)), items[|items| - 1], flow);
      hide MoveOf, Succeeded, Refused;
      NeverUnfinished(items[..|items| - 1], flow);
    }
  }

  /** Once an INVITE was answered or refused, the dialog is never fresh again. */
  lemma {:induction false} NeverFreshAgain(items: seq<Item>, flow: Flow, i: nat)
    requires i < |items| && (Succeeded(items[i]) || Refused(items[i]))
    ensures Arrived(MovesOf(items, flow)) != Fresh
  {
    hide MoveOf, Succeeded, Refused;
    var n := |items| - 1;
    LeavesFresh(Arrived(MovesOf(items[..n], flow)), items[n], flow);
    if i < n {
      NeverFreshAgain(items[..n], flow, i);
    }
  }

  /** Ended by a hang-up or a cancelled INVITE, and by nothing else. */
  lemma {:induction false} HowItEnds(items: seq<Item>, flow: Flow)
    requires Arrived(MovesOf(items, flow)) == Terminated
    ensures exists i :: 0 <= i < |items| && (HungUp(items[i]) || InviteCancelled(items[i]))
  {
    var n := |items| - 1;
    var before := MovesOf(items[..n], flow);
    if HungUp(items[n]) || InviteCancelled(items[n]) {
    } else {
      assert Arrived(before) == Terminated;
      HowItEnds(items[..n], flow);
      var i :| 0 <= i < n && (HungUp(items[..n][i]) || InviteCancelled(items[..n][i]));
      assert HungUp(items[i]) || InviteCancelled(items[i]);
    }
  }

  predicate Over(state: DialogState) {
    state == Terminated || state == Rejected
  }

  /** The frames that end a dialog: a hang-up confirmed, a cancelled INVITE, or an initial one refused. */
  predicate Settles(i: Item) {
    HungUp(i) || InviteCancelled(i) || Refused(i)
  }

  /** The frames that bring an ended dialog back. */
  predicate Stirs(i: Item) {
    var m := MethodOf(i);
    if i.isRequest then m == "UPDATE" || m == "CANCEL" || m == "BYE"
    else
      match StatusOf(i.frame)
      case None => false
      case Some(status) =>
        || (m == "INVITE" && (status == 401 || status == 407 || 100 < status < 300
                              || (status >= 300 && status != 487 && InDialog(i.transaction))))
        || (m == "UPDATE" && status >= 200)
  }

  /** The dialog was settled and nothing brought it back. */
  ghost predicate Settled(items: seq<Item>) {
    exists i :: 0 <= i < |items| && Settles(items[i]) && forall j :: i < j < |items| ==> !Stirs(items[j])
  }

  lemma StepOver(state: DialogState, i: Item, flow: Flow)
    ensures !(Settles(i) && Stirs(i))
    ensures var next := if MoveOf(state, i, flow).Some? then MoveOf(state, i, flow).value.0 else state;
            Over(next) <==> Settles(i) || (Over(state) && !Stirs(i))
  {
  }

  lemma SettledStep(items: seq<Item>)
    requires items != []
    requires forall i :: 0 <= i < |items| ==> !(Settles(items[i]) && Stirs(items[i]))
    ensures var n := |items| - 1;
            Settled(items) <==> Settles(items[n]) || (Settled(items[..n]) && !Stirs(items[n]))
  {
    hide Settles, Stirs;
    var n := |items| - 1;
    var front := items[..n];
    if Settled(front) && !Stirs(items[n]) {
      var i :| 0 <= i < n && Settles(front[i]) && forall j :: i < j < n ==> !Stirs(front[j]);
      assert Settles(items[i]) && forall j :: i < j < n ==> !Stirs(front[j]) && front[j] == items[j];
    }
    if Settled(items) && !Settles(items[n]) {
      var i :| 0 <= i < |items| && Settles(items[i]) && forall j :: i < j < |items| ==> !Stirs(items[j]);
      assert Settles(front[i]) && forall j :: i < j < n ==> front[j] == items[j];
    }
  }

  /** A walk ends terminated or rejected exactly when something settled it and nothing after that stirred it. */
  lemma {:induction false} OverExactly(items: seq<Item>, flow: Flow)
    ensures Over(Arrived(MovesOf(items, flow))) <==> Settled(items)
  {
    hide MoveOf, Settles, Stirs, Settled;
    if items == [] {
      NothingSettled();
    } else {
      var n := |items| - 1;
      OverExactly(items[..n], flow);
      forall i | 0 <= i < |items|
        ensures !(Settles(items[i]) && Stirs(items[i]))
      {
        StepOver(Fresh, items[i], flow);
      }
      StepOver(Arrived(MovesOf(items[..n], flow)), items[n], flow);
      SettledStep(items);
    }
  }

  lemma NothingSettled()
    ensures !Settled([])
  {
  }

  // ----- closing one dialog

  function Numbers(items: seq<Item>, wanted: Item -> bool): set<int> {
    set i | 0 <= i < |items| && wanted(items[i]) && CseqOf(items[i].frame).Some? :: CseqOf(items[i].frame).value
  }

  lemma OneMoreNumber(items: seq<Item>, wanted: Item -> bool, n: nat)
    requires n < |items|
    ensures Numbers(items[..n + 1], wanted) ==
            Numbers(items[..n], wanted) + if wanted(items[n]) && CseqOf(items[n].frame).Some? then
              {CseqOf(items[n].frame).value} else {}
  {
    hide CseqOf;
    var front, more := items[..n], items[..n + 1];
    forall x | x in Numbers(front, wanted) ensures x in Numbers(more, wanted) {
      var i :| 0 <= i < n && wanted(front[i]) && CseqOf(front[i].frame).Some? && CseqOf(front[i].frame).value == x;
      assert more[i] == front[i];
    }
    forall x | x in Numbers(more, wanted)
      ensures x in Numbers(front, wanted) || (wanted(items[n]) && CseqOf(items[n].frame) == Some(x))
    {
      var i :| 0 <= i <= n && wanted(more[i]) && CseqOf(more[i].frame).Some? && CseqOf(more[i].frame).value == x;
      if i < n {
        assert front[i] == more[i];
      }
    }
    if wanted(items[n]) && CseqOf(items[n].frame).Some? {
      assert more[n] == items[n];
    }
  }

  lemma AckNumbers(items: seq<Item>, cseq: int)
    ensures cseq in Numbers(items, Acks) <==> Acked(items, cseq)
  {
    if Acked(items, cseq) {
      var j :| 0 <= j < |items| && AcksOf(items[j], cseq);
    }
    if cseq in Numbers(items, Acks) {
      var j :| 0 <= j < |items| && Acks(items[j]) && CseqOf(items[j].frame).Some?
        && CseqOf(items[j].frame).value == cseq;
      assert AcksOf(items[j], cseq);
    }
  }

  ghost predicate Any(items: seq<Item>, wanted: Item -> bool) {
    exists i :: 0 <= i < |items| && wanted(items[i])
  }

  lemma OneMoreAny(items: seq<Item>, wanted: Item -> bool, n: nat)
    requires n < |items|
    ensures Any(items[..n + 1], wanted) <==> Any(items[..n], wanted) || wanted(items[n])
  {
    var front, more := items[..n], items[..n + 1];
    if Any(front, wanted) {
      var i :| 0 <= i < n && wanted(front[i]);
      assert wanted(more[i]);
    }
    if wanted(items[n]) {
      assert wanted(more[n]);
    }
    if Any(more, wanted) && !wanted(items[n]) {
      var i :| 0 <= i <= n && wanted(more[i]);
      assert wanted(front[i]);
    }
  }

  /** The sets the walk collects decide the same thing as the frames themselves. */
  lemma SetsDecide(items: seq<Item>)
    ensures var won, lost, acked := Numbers(items, Succeeded), Numbers(items, Refused), Numbers(items, Acks);
            && (CarriedThrough(items) <==> won != {} && won <= acked && Any(items, HungUp))
            && (TurnedDown(items) <==> lost * acked != {})
  {
    hide Succeeded, Refused, Acks, HungUp, CseqOf, Acked;
    var won, lost, acked := Numbers(items, Succeeded), Numbers(items, Refused), Numbers(items, Acks);
    forall x ensures x in acked <==> Acked(items, x) {
      AckNumbers(items, x);
    }
    WonDecides(items, acked);
    LostDecides(items, acked);
  }

  lemma WonDecides(items: seq<Item>, acked: set<int>)
    requires forall x :: x in acked <==> Acked(items, x)
    ensures var won := Numbers(items, Succeeded);
            CarriedThrough(items) <==> won != {} && won <= acked && Any(items, HungUp)
  {
    hide Succeeded, HungUp, CseqOf, Acked;
    var won := Numbers(items, Succeeded);
    if CarriedThrough(items) {
      var i :| 0 <= i < |items| && Succeeded(items[i]) && CseqOf(items[i].frame).Some?;
      assert CseqOf(items[i].frame).value in won;
    }
    if won != {} && won <= acked && Any(items, HungUp) {
      var x :| x in won;
      forall i | 0 <= i < |items| && Succeeded(items[i]) && CseqOf(items[i].frame).Some?
        ensures Acked(items, CseqOf(items[i].frame).value)
      {
        assert CseqOf(items[i].frame).value in won;
      }
    }
  }

  lemma LostDecides(items: seq<Item>, acked: set<int>)
    requires forall x :: x in acked <==> Acked(items, x)
    ensures TurnedDown(items) <==> Numbers(items, Refused) * acked != {}
  {
    hide Refused, CseqOf, Acked;
    var lost := Numbers(items, Refused);
    if TurnedDown(items) {
      var i :| 0 <= i < |items| && Refused(items[i]) && CseqOf(items[i].frame).Some?
        && Acked(items, CseqOf(items[i].frame).value);
      assert CseqOf(items[i].frame).value in lost * acked;
    }
    if lost * acked != {} {
      var x :| x in lost * acked;
      var i :| 0 <= i < |items| && Refused(items[i]) && CseqOf(items[i].frame).Some?
        && CseqOf(items[i].frame).value == x;
    }
  }

  predicate CancelConfirmed(i: Item) {
    !i.isRequest && MethodOf(i) == "CANCEL" && StatusOf(i.frame).Some? && 200 <= StatusOf(i.frame).value < 300
  }

  /**
   Walk a dialog's frames. It is conclusive exactly when the call was carried through or turned
   down; the separate test for a cancelled call never decides anything, because it asks for an
   acknowledged refusal, which is enough by itself.
   */
  method WalkDialog(items: seq<Item>, flow: Flow) returns (state: DialogState, moves: seq<Move>, conclusive: bool)
    ensures moves == MovesOf(items, flow) && state == Arrived(moves)
    ensures conclusive <==> CarriedThrough(items) || TurnedDown(items)
  {
    hide MoveOf, Succeeded, Refused, Acks, HungUp, CancelConfirmed, InviteCancelled, CseqOf, CarriedThrough, TurnedDown,
      Any;
    state, moves := Fresh, [];
    var successful: set<int>, failed: set<int>, acknowledged: set<int> := {}, {}, {};
    var byeSuccess, cancelSuccess, invite487 := false, false, false;
    NoneYet(items);
    for n := 0 to |items|
      invariant moves == MovesOf(items[..n], flow) && state == Arrived(moves)
      invariant successful == Numbers(items[..n], Succeeded) && failed == Numbers(items[..n], Refused)
      invariant acknowledged == Numbers(items[..n], Acks)
      invariant byeSuccess <==> Any(items[..n], HungUp)
    {
      var i := items[n];
      assert items[..n + 1][..n] == items[..n];
      OneMoreNumber(items, Succeeded, n);
      OneMoreNumber(items, Refused, n);
      OneMoreNumber(items, Acks, n);
      OneMoreAny(items, HungUp, n);
      var move := MoveOf(state, i, flow);
      if move.Some? {
        moves := moves + [Move(state, move.value.0, move.value.1, i.frame.evidence)];
        state := move.value.0;
      }
      var cseq := CseqOf(i.frame);
      if cseq.Some? {
        if Succeeded(i) {
          successful := successful + {cseq.value};
        }
        if Refused(i) {
          failed := failed + {cseq.value};
        }
        if Acks(i) {
          acknowledged := acknowledged + {cseq.value};
        }
      }
      byeSuccess := byeSuccess || HungUp(i);
      cancelSuccess := cancelSuccess || CancelConfirmed(i);
      invite487 := invite487 || InviteCancelled(i);
    }
    assert items[..|items|] == items;
    SetsDecide(items);
    var setupAcknowledged := successful != {} && successful <= acknowledged;
    var failureAcknowledged := failed * acknowledged != {};
    var successfulComplete := setupAcknowledged && byeSuccess;
    var canceledComplete := cancelSuccess && invite487 && failureAcknowledged;
    conclusive := successfulComplete || canceledComplete || failureAcknowledged;
  }

  lemma NoneYet(items: seq<Item>)
    ensures !Any(items[..0], HungUp)
  {
  }

  /** A conclusive dialog has left its first state. */
  lemma ConclusiveMoved(items: seq<Item>, flow: Flow)
    requires CarriedThrough(items) || TurnedDown(items)
    ensures Arrived(MovesOf(items, flow)) != Fresh
  {
    hide Succeeded, Refused, HungUp, Acked, MovesOf;
    if CarriedThrough(items) {
      var i :| 0 <= i < |items| && Succeeded(items[i]);
      NeverFreshAgain(items, flow, i);
    } else {
      var i :| 0 <= i < |items| && Refused(items[i]);
      NeverFreshAgain(items, flow, i);
    }
  }

  /**
   Conclusive is not ended: an acknowledged refusal settles the dialog even when a later attempt
   was answered and nobody hung up.
   */
  lemma ConclusiveButUp(refusal: Item, ack: Item, answer: Item, flow: Flow, cseq: int)
    requires Refused(refusal) && CseqOf(refusal.frame) == Some(cseq) && AcksOf(ack, cseq) && Succeeded(answer)
    ensures var items := [refusal, ack, answer];
            TurnedDown(items) && !Any(items, HungUp) && Arrived(MovesOf(items, flow)) == Confirmed
  {
    var items := [refusal, ack, answer];
    assert AcksOf(items[1], cseq);
    assert Refused(items[0]) && CseqOf(items[0].frame).Some? && Acked(items, CseqOf(items[0].frame).value);
    assert items[..2] == [refusal, ack];
  }

  /** A frame of the call, or between the same parties, that could not be read in full. */
  predicate Doubtful(f: Frame, root: RootKey) {
    && f.sip.Some? && (!f.intact || BaseOf(f).None?)
    && (CallId(f) == Some(root.callId) || FlowOf(f) == Some(root.flow) || FlowOf(f) == Some(Reverse(root.flow)))
  }

  predicate Involved(t: Transaction, root: RootKey, calleeTag: Option<string>) {
    Filter(FramesOf(t), root, calleeTag) != []
  }

  ghost predicate Uncertain(frames: seq<Frame>, ts: seq<Transaction>, root: RootKey, calleeTag: Option<string>) {
    || (exists f :: f in frames && Doubtful(f, root))
    || (exists t :: t in ts && Involved(t, root, calleeTag) && t.ambiguous)
  }

  function KeysInvolved(ts: seq<Transaction>, root: RootKey, calleeTag: Option<string>): seq<Key> {
    if ts == [] then []
    else
      KeysInvolved(ts[..|ts| - 1], root, calleeTag)
      + if Involved(ts[|ts| - 1], root, calleeTag) then [ts[|ts| - 1].key] else []
  }

  function DialogItems(ts: seq<Transaction>, root: RootKey, calleeTag: Option<string>): seq<Item> {
    Sort(ItemLe, Gather(ts, root, calleeTag))
  }

  /** What is reported about a dialog, in terms of its frames. */
  ghost predicate Reported(d: Dialog, frames: seq<Frame>, ts: seq<Transaction>) {
    var items := DialogItems(ts, d.root, d.calleeTag);
    && d.keys == KeysInvolved(ts, d.root, d.calleeTag)
    && d.moves == MovesOf(items, d.root.flow) && ChainedMoves(d.moves)
    && (d.complete <==> (CarriedThrough(items) || TurnedDown(items)) && !Uncertain(frames, ts, d.root, d.calleeTag))
    && d.state == (if Arrived(d.moves) == Fresh then Unfinished else Arrived(d.moves))
    && d.state != Fresh && (d.complete ==> d.state != Unfinished)
    && (Over(d.state) <==> Settled(items))
  }

  method DialogFromRoot(root: RootKey, ts: seq<Transaction>, calleeTag: Option<string>, frames: seq<Frame>)
    returns (d: Dialog)
    ensures d.root == root && d.calleeTag == calleeTag && Reported(d, frames, ts)
  {
    hide MovesOf, CarriedThrough, TurnedDown, KeysInvolved, DialogItems, Uncertain, Settled;
    var keys, uncertain := Include(root, ts, calleeTag, frames);
    var items := DialogItems(ts, root, calleeTag);
    var state, moves, conclusive := WalkDialog(items, root.flow);
    MovesChain(items, root.flow);
    NeverUnfinished(items, root.flow);
    OverExactly(items, root.flow);
    if conclusive {
      ConclusiveMoved(items, root.flow);
    }
    var complete := conclusive && !uncertain;
    if moves == [] || (!complete && state == Fresh) {
      state := Unfinished;
    }
    d := Dialog(root, calleeTag, keys, state, complete, moves);
  }

  /** The transactions of a dialog, and whether anything about it is uncertain. */
  method Include(root: RootKey, ts: seq<Transaction>, calleeTag: Option<string>, frames: seq<Frame>)
    returns (keys: seq<Key>, uncertain: bool)
    ensures keys == KeysInvolved(ts, root, calleeTag) && (uncertain <==> Uncertain(frames, ts, root, calleeTag))
  {
    hide Involved, Doubtful;
    keys := [];
    var ambiguous := false;
    for i := 0 to |ts|
      invariant keys == KeysInvolved(ts[..i], root, calleeTag)
      invariant ambiguous <==> exists k :: 0 <= k < i && Involved(ts[k], root, calleeTag) && ts[k].ambiguous
    {
      assert ts[..i + 1][..i] == ts[..i];
      if Involved(ts[i], root, calleeTag) {
        keys := keys + [ts[i].key];
        ambiguous := ambiguous || ts[i].ambiguous;
      }
    }
    assert ts[..|ts|] == ts;
    var doubtful := false;
    for i := 0 to |frames|
      invariant doubtful <==> exists k :: 0 <= k < i && Doubtful(frames[k], root)
    {
      doubtful := doubtful || Doubtful(frames[i], root);
    }
    UncertainAt(frames, ts, root, calleeTag);
    uncertain := doubtful || ambiguous;
  }

  lemma UncertainAt(frames: seq<Frame>, ts: seq<Transaction>, root: RootKey, calleeTag: Option<string>)
    ensures Uncertain(frames, ts, root, calleeTag) <==>
              || (exists k :: 0 <= k < |frames| && Doubtful(frames[k], root))
              || (exists k :: 0 <= k < |ts| && Involved(ts[k], root, calleeTag) && ts[k].ambiguous)
  {
    hide Involved, Doubtful;
  }

  // ----- one dialog a root and callee tag

  predicate IsRoot(t: Transaction) {
    t.request.Some? && IsRequest(t.request.value) && Upper(t.request.value.sip.value.requestMethod.value) == "INVITE"
    && ToTag(t.request.value) == None
  }

  function RootOf(t: Transaction): RootKey {
    RootKey(t.key.base.callId, if t.request.Some? then FromTag(t.request.value) else None, t.key.flow)
  }

  /** A response that names a callee and does more than ask for credentials. */
  predicate Names(t: Transaction, k: nat, tag: string) {
    k < |t.responses| && ToTag(t.responses[k]) == Some(tag) && !Denied(t.responses[k])
  }

  ghost predicate Forked(ts: seq<Transaction>, root: RootKey, tag: string) {
    exists i, k :: 0 <= i < |ts| && IsRoot(ts[i]) && RootOf(ts[i]) == root && Names(ts[i], k, tag)
  }

  ghost predicate Rooted(ts: seq<Transaction>, root: RootKey) {
    exists i :: 0 <= i < |ts| && IsRoot(ts[i]) && RootOf(ts[i]) == root
  }

  /** The dialogs there are: one for each callee that answered a root, or one with no callee yet. */
  ghost predicate Exists(ts: seq<Transaction>, root: RootKey, calleeTag: Option<string>) {
    && Rooted(ts, root)
    && match calleeTag
       case Some(tag) => Forked(ts, root, tag)
       case None => forall tag :: !Forked(ts, root, tag)
  }

  method RootsByCall(ts: seq<Transaction>) returns (roots: seq<RootKey>)
    ensures forall root :: root in roots <==> Rooted(ts, root)
    ensures forall i, j :: 0 <= i < j < |roots| ==> roots[i] != roots[j]
  {
    hide IsRoot, RootOf;
    roots := [];
    for i := 0 to |ts|
      invariant forall root :: root in roots <==> exists k :: 0 <= k < i && IsRoot(ts[k]) && RootOf(ts[k]) == root
      invariant forall a, b :: 0 <= a < b < |roots| ==> roots[a] != roots[b]
    {
      if IsRoot(ts[i]) && RootOf(ts[i]) !in roots {
        roots := roots + [RootOf(ts[i])];
      }
    }
  }

  /** The callee tags of one root, each once, in ascending order. */
  method CalleeTags(ts: seq<Transaction>, root: RootKey) returns (tags: seq<string>)
    ensures forall tag :: tag in tags <==> Forked(ts, root, tag)
    ensures forall i, j :: 0 <= i < j < |tags| ==> tags[i] != tags[j]
  {
    hide IsRoot, RootOf, Denied;
    var found: seq<string> := [];
    for i := 0 to |ts|
      invariant forall tag :: tag in found <==> ForkedBefore(ts, root, i, tag)
      invariant forall a, b :: 0 <= a < b < |found| ==> found[a] != found[b]
    {
      if IsRoot(ts[i]) && RootOf(ts[i]) == root {
        ghost var before := found;
        forall tag
          ensures ForkedBefore(ts, root, i + 1, tag) <==>
                  ForkedBefore(ts, root, i, tag) || NamedBefore(ts[i], |ts[i].responses|, tag)
        {
        }
        for k := 0 to |ts[i].responses|
          invariant forall tag :: tag in found <==> tag in before || NamedBefore(ts[i], k, tag)
          invariant forall a, b :: 0 <= a < b < |found| ==> found[a] != found[b]
        {
          forall tag ensures NamedBefore(ts[i], k + 1, tag) <==> NamedBefore(ts[i], k, tag) || Names(ts[i], k, tag) {
          }
          var tag := ToTag(ts[i].responses[k]);
          if tag.Some? && !Denied(ts[i].responses[k]) && tag.value !in found {
            found := found + [tag.value];
          }
        }
      }
    }
    forall tag ensures ForkedBefore(ts, root, |ts|, tag) <==> Forked(ts, root, tag) {
    }
    tags := Sort(StringLe, found);
    SortMembers(StringLe, found);
    SortPermutes(StringLe, found);
    StillDistinct(found, tags);
  }

  ghost predicate NamedBefore(t: Transaction, n: nat, tag: string) {
    exists k :: 0 <= k < n && Names(t, k, tag)
  }

  ghost predicate ForkedBefore(ts: seq<Transaction>, root: RootKey, n: nat, tag: string)
    requires n <= |ts|
  {
    exists i, k :: 0 <= i < n && IsRoot(ts[i]) && RootOf(ts[i]) == root && Names(ts[i], k, tag)
  }

  lemma {:induction false} OnceEach<T>(s: seq<T>, x: T)
    requires forall i, j :: 0 <= i < j < |s| ==> s[i] != s[j]
    ensures multiset(s)[x] <= 1
  {
    if s != [] {
      var n := |s| - 1;
      OnceEach(s[..n], x);
      assert s == s[..n] + [s[n]];
      assert s[n] !in s[..n];
    }
  }

  lemma StillDistinct<T>(a: seq<T>, b: seq<T>)
    requires multiset(a) == multiset(b) && forall i, j :: 0 <= i < j < |a| ==> a[i] != a[j]
    ensures forall i, j :: 0 <= i < j < |b| ==> b[i] != b[j]
  {
    forall i, j | 0 <= i < j < |b| ensures b[i] != b[j] {
      if b[i] == b[j] {
        TwiceCounts(b, i, j);
        OnceEach(a, b[i]);
      }
    }
  }

  predicate DialogLe(a: Dialog, b: Dialog) {
    StringLe(a.root.callId, b.root.callId)
    && (a.root.callId == b.root.callId ==>
          StringLe(a.root.flow.initiatorAddress, b.root.flow.initiatorAddress)
          && (a.root.flow.initiatorAddress == b.root.flow.initiatorAddress ==>
                a.root.flow.initiatorPort < b.root.flow.initiatorPort
                || (a.root.flow.initiatorPort == b.root.flow.initiatorPort && StringLe(TagText(a), TagText(b)))))
  }

  function TagText(d: Dialog): string {
    if d.calleeTag.Some? then d.calleeTag.value else ""
  }

  lemma DialogOrder()
    ensures TotalPreorder(DialogLe)
  {
    forall x, y ensures DialogLe(x, y) || DialogLe(y, x) {
      Comparable(x, y);
    }
    forall x, y, z | DialogLe(x, y) && DialogLe(y, z) ensures DialogLe(x, z) {
      Chains(x, y, z);
    }
  }

  lemma Comparable(x: Dialog, y: Dialog)
    ensures DialogLe(x, y) || DialogLe(y, x)
  {
    StringLeTotal(x.root.callId, y.root.callId);
    StringLeTotal(x.root.flow.initiatorAddress, y.root.flow.initiatorAddress);
    StringLeTotal(TagText(x), TagText(y));
    hide StringLe, TagText;
  }

  lemma Chains(x: Dialog, y: Dialog, z: Dialog)
    requires DialogLe(x, y) && DialogLe(y, z)
    ensures DialogLe(x, z)
  {
    Ordered(x.root.callId, y.root.callId, z.root.callId);
    if x.root.callId == y.root.callId == z.root.callId {
      Ordered(x.root.flow.initiatorAddress, y.root.flow.initiatorAddress, z.root.flow.initiatorAddress);
      if x.root.flow.initiatorAddress == y.root.flow.initiatorAddress == z.root.flow.initiatorAddress
         && x.root.flow.initiatorPort == y.root.flow.initiatorPort == z.root.flow.initiatorPort {
        StringLeTransitive(TagText(x), TagText(y), TagText(z));
      }
    }
    hide StringLe, TagText;
  }

  /** Going up twice goes up, and comes back to the start only by staying there. */
  lemma Ordered(a: string, b: string, c: string)
    requires StringLe(a, b) && StringLe(b, c)
    ensures StringLe(a, c) && (a == c ==> a == b)
  {
    StringLeTransitive(a, b, c);
    StringLeTotal(a, b);
  }

  ghost predicate DistinctDialogs(ds: seq<Dialog>) {
    forall i, j :: 0 <= i < j < |ds| ==> ds[i].root != ds[j].root || ds[i].calleeTag != ds[j].calleeTag
  }

  ghost predicate HasDialog(ds: seq<Dialog>, root: RootKey, calleeTag: Option<string>) {
    exists i :: 0 <= i < |ds| && ds[i].root == root && ds[i].calleeTag == calleeTag
  }

  /** Each dialog of one root: one for each callee tag, or one without. */
  method DialogsOfRoot(root: RootKey, ts: seq<Transaction>, frames: seq<Frame>) returns (ds: seq<Dialog>)
    requires Rooted(ts, root)
    ensures forall d :: d in ds ==> d.root == root && Reported(d, frames, ts)
    ensures DistinctDialogs(ds)
    ensures forall calleeTag :: HasDialog(ds, root, calleeTag) <==> Exists(ts, root, calleeTag)
  {
    hide Reported, Forked, Rooted;
    var tags := CalleeTags(ts, root);
    ds := [];
    if tags == [] {
      var d := DialogFromRoot(root, ts, None, frames);
      ds := [d];
      assert ds[0].root == root && ds[0].calleeTag == None;
      forall calleeTag ensures HasDialog(ds, root, calleeTag) <==> Exists(ts, root, calleeTag) {
      }
    } else {
      for i := 0 to |tags|
        invariant |ds| == i
        invariant forall k :: 0 <= k < i ==>
                      ds[k].root == root && ds[k].calleeTag == Some(tags[k]) && Reported(ds[k], frames, ts)
      {
        var d := DialogFromRoot(root, ts, Some(tags[i]), frames);
        ds := ds + [d];
      }
      forall calleeTag ensures HasDialog(ds, root, calleeTag) <==> Exists(ts, root, calleeTag) {
        assert tags[0] in tags;
        if Exists(ts, root, calleeTag) && calleeTag.Some? {
          var k :| 0 <= k < |tags| && tags[k] == calleeTag.value;
          assert ds[k].calleeTag == calleeTag;
        }
      }
    }
  }

  /**
   Reconstruct every dialog of a capture: exactly one for each root and callee that exist, each
   reported as its frames say.
   */
  method ReconstructDialogs(frames: seq<Frame>) returns (ds: seq<Dialog>)
    ensures var ts := Reconstruction(frames).transactions;
            && (forall d :: d in ds ==> Reported(d, frames, ts))
            && DistinctDialogs(ds) && Sorted(DialogLe, ds)
            && forall root, calleeTag :: HasDialog(ds, root, calleeTag) <==> Exists(ts, root, calleeTag)
  {
    hide Reported, Exists, Rooted, Reconstruction;
    DialogOrder();
    hide DialogLe;
    var records, orphans := ReconstructTransactions(frames);
    var ts := Map((r: Record) => r.transaction, records);
    TransactionsKept(frames, records, ts);
    var roots := RootsByCall(ts);
    var all: seq<Dialog> := [];
    for i := 0 to |roots|
      invariant forall d :: d in all ==> Reported(d, frames, ts) && d.root in roots[..i]
      invariant DistinctDialogs(all)
      invariant forall root, calleeTag :: HasDialog(all, root, calleeTag) <==>
                root in roots[..i] && Exists(ts, root, calleeTag)
    {
      assert roots[i] in roots;
      var more := DialogsOfRoot(roots[i], ts, frames);
      AddDialogs(all, more, roots, i, ts);
      all := all + more;
    }
    assert roots[..|roots|] == roots;
    forall root, calleeTag | Exists(ts, root, calleeTag) ensures root in roots {
      ExistsRooted(ts, root, calleeTag);
    }
    ds := Sort(DialogLe, all);
    SortMembers(DialogLe, all);
    SortPermutes(DialogLe, all);
    SortSorted(DialogLe, all);
    SortedDialogs(all, ds);
  }

  lemma ExistsRooted(ts: seq<Transaction>, root: RootKey, calleeTag: Option<string>)
    requires Exists(ts, root, calleeTag)
    ensures Rooted(ts, root)
  {
  }

  lemma TransactionsKept(frames: seq<Frame>, records: seq<Record>, ts: seq<Transaction>)
    requires |records| == |ts| == |Reconstruction(frames).transactions|
    requires forall i :: 0 <= i < |ts| ==>
               ts[i] == records[i].transaction && records[i] == RecordOf(Reconstruction(frames).transactions[i])
    ensures ts == Reconstruction(frames).transactions
  {
    hide Reconstruction, History, Answered;
  }

  lemma AddDialogs(all: seq<Dialog>, more: seq<Dialog>, roots: seq<RootKey>, i: nat, ts: seq<Transaction>)
    requires i < |roots| && forall a, b :: 0 <= a < b < |roots| ==> roots[a] != roots[b]
    requires DistinctDialogs(all) && DistinctDialogs(more)
    requires forall d :: d in all ==> d.root in roots[..i]
    requires forall d :: d in more ==> d.root == roots[i]
    requires forall root, calleeTag :: HasDialog(all, root, calleeTag) <==>
             root in roots[..i] && Exists(ts, root, calleeTag)
    requires forall calleeTag :: HasDialog(more, roots[i], calleeTag) <==> Exists(ts, roots[i], calleeTag)
    ensures DistinctDialogs(all + more)
    ensures forall root, calleeTag ::
              HasDialog(all + more, root, calleeTag) <==> root in roots[..i + 1] && Exists(ts, root, calleeTag)
  {
    hide Exists;
    assert roots[..i + 1] == roots[..i] + [roots[i]];
    assert roots[i] !in roots[..i];
    forall a, b | 0 <= a < b < |all + more|
      ensures (all + more)[a].root != (all + more)[b].root || (all + more)[a].calleeTag != (all + more)[b].calleeTag
    {
      if a < |all| <= b {
        assert all[a] in all && more[b - |all|] in more;
      }
    }
    forall root, calleeTag
      ensures HasDialog(all + more, root, calleeTag) <==> root in roots[..i + 1] && Exists(ts, root, calleeTag)
    {
      HasEither(all, more, root, calleeTag);
      if HasDialog(more, root, calleeTag) {
        var k :| 0 <= k < |more| && more[k].root == root && more[k].calleeTag == calleeTag;
        assert more[k] in more;
      }
    }
  }

  lemma HasEither(a: seq<Dialog>, b: seq<Dialog>, root: RootKey, calleeTag: Option<string>)
    ensures HasDialog(a + b, root, calleeTag) <==> HasDialog(a, root, calleeTag) || HasDialog(b, root, calleeTag)
  {
    if HasDialog(a, root, calleeTag) {
      var i :| 0 <= i < |a| && a[i].root == root && a[i].calleeTag == calleeTag;
      assert (a + b)[i] == a[i];
    }
    if HasDialog(b, root, calleeTag) {
      var i :| 0 <= i < |b| && b[i].root == root && b[i].calleeTag == calleeTag;
      assert (a + b)[|a| + i] == b[i];
    }
  }

  lemma SortedDialogs(all: seq<Dialog>, ds: seq<Dialog>)
    requires multiset(all) == multiset(ds) && DistinctDialogs(all)
    ensures DistinctDialogs(ds)
    ensures forall root, calleeTag :: HasDialog(ds, root, calleeTag) <==> HasDialog(all, root, calleeTag)
  {
    SameMembers(all, ds);
    StillDistinct(all, ds);
    forall i, j | 0 <= i < j < |ds| ensures ds[i].root != ds[j].root || ds[i].calleeTag != ds[j].calleeTag {
      assert ds[i] in all && ds[j] in all && ds[i] != ds[j];
    }
    forall root, calleeTag ensures HasDialog(ds, root, calleeTag) <==> HasDialog(all, root, calleeTag) {
      SameHas(all, ds, root, calleeTag);
      SameHas(ds, all, root, calleeTag);
    }
  }

  lemma SameHas(a: seq<Dialog>, b: seq<Dialog>, root: RootKey, calleeTag: Option<string>)
    requires forall d :: d in a ==> d in b
    ensures HasDialog(a, root, calleeTag) ==> HasDialog(b, root, calleeTag)
  {
    if HasDialog(a, root, calleeTag) {
      var i :| 0 <= i < |a| && a[i].root == root && a[i].calleeTag == calleeTag;
      assert a[i] in b;
    }
  }

  // ----- complete, and up

  const INVITE_ONE: Frame := CallerSends(1, "INVITE", 1, "a")

  const BUSY: Frame := CalleeAnswers(2, 486, 1, "a", None)

  const ACK_ONE: Frame := CallerSends(3, "ACK", 1, "a")

  const INVITE_TWO: Frame := CallerSends(4, "INVITE", 2, "b")

  const ANSWER: Frame := CalleeAnswers(5, 200, 2, "b", Some("callee"))

  /** A call is refused, the refusal acknowledged, and a second attempt answered. */
  const RETRIED: seq<Frame> := [INVITE_ONE, BUSY, ACK_ONE, INVITE_TWO, ANSWER]

  const RETRIED_ROOT: RootKey := RootKey("call", Some("caller"), CALL_FLOW)

  const REFUSED_TRY: Transaction := Transaction(CallKey("INVITE", 1, "a"), Some(INVITE_ONE), [BUSY], [], false)

  const ACK_TRY: Transaction := Transaction(CallKey("ACK", 1, "a"), Some(ACK_ONE), [], [], false)

  const ANSWERED_TRY: Transaction := Transaction(CallKey("INVITE", 2, "b"), Some(INVITE_TWO), [ANSWER], [], false)

  const RETRIED_ITEMS: seq<Item> :=
    [Item(INVITE_ONE, REFUSED_TRY, true), Item(BUSY, REFUSED_TRY, false), Item(ACK_ONE, ACK_TRY, true),
     Item(INVITE_TWO, ANSWERED_TRY, true), Item(ANSWER, ANSWERED_TRY, false)]

  lemma FirstTry()
    ensures Step(Step(State([], []), INVITE_ONE), BUSY) == State([REFUSED_TRY], [])
  {
    FrameKeys(1, "INVITE", 1, "a", 486, None);
    FrameKeys(2, "INVITE", 1, "a", 486, None);
    hide Step, Keyed, OwnKey, AnsweredKey, IsRequest, StatusOf, CallerSends, CalleeAnswers, CallKey;
    var invited := Transaction(CallKey("INVITE", 1, "a"), Some(INVITE_ONE), [], [], false);
    OpensNew(State([], []), INVITE_ONE);
    Replaces(invited, REFUSED_TRY, [BUSY]);
    AnswersOne(State([invited], []), BUSY, 0);
  }

  lemma AckFiled()
    ensures Step(State([REFUSED_TRY], []), ACK_ONE) == State([REFUSED_TRY, ACK_TRY], [])
  {
    FrameKeys(3, "ACK", 1, "a", 200, None);
    assert CallKey("INVITE", 1, "a") != CallKey("ACK", 1, "a");
    hide Step, Keyed, OwnKey, AnsweredKey, IsRequest, StatusOf, CallerSends, CalleeAnswers, CallKey;
    OpensNew(State([REFUSED_TRY], []), ACK_ONE);
  }

  lemma SecondTry()
    ensures Step(Step(State([REFUSED_TRY, ACK_TRY], []), INVITE_TWO), ANSWER)
            == State([REFUSED_TRY, ACK_TRY, ANSWERED_TRY], [])
  {
    FrameKeys(4, "INVITE", 2, "b", 200, None);
    FrameKeys(5, "INVITE", 2, "b", 200, Some("callee"));
    assert CallKey("INVITE", 1, "a") != CallKey("INVITE", 2, "b")
           && CallKey("ACK", 1, "a") != CallKey("INVITE", 2, "b");
    hide Step, Keyed, OwnKey, AnsweredKey, IsRequest, StatusOf, CallerSends, CalleeAnswers, CallKey;
    var invited := Transaction(CallKey("INVITE", 2, "b"), Some(INVITE_TWO), [], [], false);
    OpensNew(State([REFUSED_TRY, ACK_TRY], []), INVITE_TWO);
    AnswersOne(State([REFUSED_TRY, ACK_TRY, invited], []), ANSWER, 2);
    assert invited.responses + [ANSWER] == [ANSWER];
    assert invited.(responses := [ANSWER]) == ANSWERED_TRY;
    assert [REFUSED_TRY, ACK_TRY] + [invited] == [REFUSED_TRY, ACK_TRY, invited];
    assert [REFUSED_TRY, ACK_TRY, invited][2 := ANSWERED_TRY] == [REFUSED_TRY, ACK_TRY, ANSWERED_TRY];
  }

  lemma FiveFrames(a: Frame, b: Frame, c: Frame, d: Frame, e: Frame)
    requires FrameNumber(a) <= FrameNumber(b) <= FrameNumber(c) <= FrameNumber(d) <= FrameNumber(e)
    ensures Reconstruction([a, b, c, d, e]) == Step(Step(Step(Step(Step(State([], []), a), b), c), d), e)
  {
    hide Step;
    var frames := [a, b, c, d, e];
    FoldsTo(frames, 0);
    FoldsTo(frames, 1);
    FoldsTo(frames, 2);
    FoldsTo(frames, 3);
    FoldsTo(frames, 4);
    InOrder(frames);
  }

  lemma RetriedTransactions()
    ensures Reconstruction(RETRIED) == State([REFUSED_TRY, ACK_TRY, ANSWERED_TRY], [])
  {
    hide Step, Reconstruction;
    FiveFrames(INVITE_ONE, BUSY, ACK_ONE, INVITE_TWO, ANSWER);
    hide CallerSends, CalleeAnswers, CallKey;
    FirstTry();
    AckFiled();
    SecondTry();
  }

  lemma OneItem(item: Item, root: RootKey, calleeTag: Option<string>)
    requires Belongs(item.frame, root, calleeTag)
    ensures Filter([item], root, calleeTag) == [item]
  {
    assert [item][..0] == [];
    hide Belongs;
  }

  lemma TwoItems(a: Item, b: Item, root: RootKey, calleeTag: Option<string>)
    requires Belongs(a.frame, root, calleeTag) && Belongs(b.frame, root, calleeTag)
    ensures Filter([a, b], root, calleeTag) == [a, b]
  {
    OneItem(a, root, calleeTag);
    assert [a, b][..1] == [a];
    hide Belongs;
  }

  lemma RetriedBelong()
    ensures forall f :: f in RETRIED ==> Belongs(f, RETRIED_ROOT, Some("callee"))
  {
  }

  lemma RetriedGathered()
    ensures Gather([REFUSED_TRY, ACK_TRY, ANSWERED_TRY], RETRIED_ROOT, Some("callee")) == RETRIED_ITEMS
  {
    var callee := Some("callee");
    RetriedBelong();
    hide Belongs, CallerSends, CalleeAnswers, CallKey;
    assert FramesOf(REFUSED_TRY) == [RETRIED_ITEMS[0], RETRIED_ITEMS[1]];
    assert FramesOf(ACK_TRY) == [RETRIED_ITEMS[2]];
    assert FramesOf(ANSWERED_TRY) == [RETRIED_ITEMS[3], RETRIED_ITEMS[4]];
    assert INVITE_ONE in RETRIED && BUSY in RETRIED && ACK_ONE in RETRIED && INVITE_TWO in RETRIED && ANSWER in RETRIED;
    TwoItems(RETRIED_ITEMS[0], RETRIED_ITEMS[1], RETRIED_ROOT, callee);
    OneItem(RETRIED_ITEMS[2], RETRIED_ROOT, callee);
    TwoItems(RETRIED_ITEMS[3], RETRIED_ITEMS[4], RETRIED_ROOT, callee);
    hide Filter, FramesOf;
    GatherThree(REFUSED_TRY, ACK_TRY, ANSWERED_TRY, RETRIED_ROOT, callee);
  }

  lemma GatherThree(a: Transaction, b: Transaction, c: Transaction, root: RootKey, calleeTag: Option<string>)
    ensures Gather([a, b, c], root, calleeTag)
         == Filter(FramesOf(a), root, calleeTag) + Filter(FramesOf(b), root, calleeTag)
           + Filter(FramesOf(c), root, calleeTag)
  {
    hide Filter, FramesOf;
    assert [a, b, c][..2] == [a, b] && [a, b][..1] == [a] && [a][..0] == [];
    assert Gather([a], root, calleeTag) == Filter(FramesOf(a), root, calleeTag);
    assert Gather([a, b], root, calleeTag)
           == Filter(FramesOf(a), root, calleeTag) + Filter(FramesOf(b), root, calleeTag);
  }

  lemma RetriedSorted()
    ensures DialogItems([REFUSED_TRY, ACK_TRY, ANSWERED_TRY], RETRIED_ROOT, Some("callee")) == RETRIED_ITEMS
  {
    RetriedGathered();
    assert Sorted(ItemLe, RETRIED_ITEMS);
    SortFixed(ItemLe, RETRIED_ITEMS);
    hide Gather;
  }

  lemma RetriedEnds()
    ensures TurnedDown(RETRIED_ITEMS) && Arrived(MovesOf(RETRIED_ITEMS, CALL_FLOW)) == Confirmed
  {
    var items := RETRIED_ITEMS;
    CapsStay();
    hide MovesOf;
    assert Refused(items[1]) && CseqOf(items[1].frame) == Some(1);
    assert AcksOf(items[2], 1);
    var before := Arrived(MovesOf(items[..4], CALL_FLOW));
    assert MoveOf(before, items[4], CALL_FLOW) == Some((Confirmed, Accepted(200)));
    LastMoves(items, CALL_FLOW, Confirmed, Accepted(200));
  }

  lemma LastMoves(items: seq<Item>, flow: Flow, next: DialogState, event: Happening)
    requires items != []
    requires MoveOf(Arrived(MovesOf(items[..|items| - 1], flow)), items[|items| - 1], flow) == Some((next, event))
    ensures Arrived(MovesOf(items, flow)) == next
  {
    hide MoveOf;
  }

  lemma RetriedCertain()
    ensures !Uncertain(RETRIED, [REFUSED_TRY, ACK_TRY, ANSWERED_TRY], RETRIED_ROOT, Some("callee"))
  {
    hide Involved;
  }

  predicate IsRetried(d: Dialog) {
    d.root == RETRIED_ROOT && d.calleeTag == Some("callee")
  }

  /**
   Complete is not over: a refused first attempt, acknowledged, makes the dialog complete although the
   second attempt was answered and nobody hung up. The capture has such a dialog, and it is reported so.
   */
  lemma CompleteButUp()
    ensures var ts := Reconstruction(RETRIED).transactions;
            && Exists(ts, RETRIED_ROOT, Some("callee"))
            && forall d :: IsRetried(d) && Reported(d, RETRIED, ts) ==> d.complete && d.state == Confirmed
  {
    hide *;
    RetriedTransactions();
    RetriedExists();
    RetriedReported();
  }

  lemma RetriedExists()
    ensures Exists([REFUSED_TRY, ACK_TRY, ANSWERED_TRY], RETRIED_ROOT, Some("callee"))
  {
    var ts := [REFUSED_TRY, ACK_TRY, ANSWERED_TRY];
    CapsStay();
    assert IsRoot(ts[2]) && RootOf(ts[2]) == RETRIED_ROOT && Names(ts[2], 0, "callee");
  }

  lemma RetriedReported()
    ensures forall d :: IsRetried(d) && Reported(d, RETRIED, [REFUSED_TRY, ACK_TRY, ANSWERED_TRY]) ==>
                d.complete && d.state == Confirmed
  {
    RetriedSorted();
    RetriedEnds();
    RetriedCertain();
    hide DialogItems, TurnedDown, MovesOf, Uncertain, CarriedThrough, KeysInvolved, Settled, ChainedMoves;
  }
}
