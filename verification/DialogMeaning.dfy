/** What the states and events of a dialog say about its frames, told without the transition table. */
module DialogMeaning {
  import opened Prelude
  import opened Sorting
  import opened Transactions
  import opened Dialogs

  // ----- reading one frame

  predicate Asks(i: Item, token: string) {
    && i.isRequest && i.frame.sip.Some? && i.frame.sip.value.requestMethod.Some?
    && Upper(i.frame.sip.value.requestMethod.value) == token
  }

  /** The status of a response to a request of that method. */
  function ReplyTo(i: Item, token: string): Option<int> {
    if !i.isRequest && i.frame.sip.Some? && i.frame.sip.value.cseqMethod.Some?
       && Upper(i.frame.sip.value.cseqMethod.value) == token
    then i.frame.sip.value.statusCode
    else None
  }

  predicate Replies(i: Item, token: string, low: int, high: int) {
    ReplyTo(i, token).Some? && low <= ReplyTo(i, token).value <= high
  }

  predicate Fails(i: Item) {
    ReplyTo(i, "INVITE").Some? && ReplyTo(i, "INVITE").value >= 300 && ReplyTo(i, "INVITE").value != 487
  }

  predicate Demands(i: Item) {
    ReplyTo(i, "INVITE") == Some(401) || ReplyTo(i, "INVITE") == Some(407)
  }

  /** The request that is answered already named the callee. */
  predicate Inside(i: Item) {
    && i.transaction.request.Some? && i.transaction.request.value.sip.Some?
    && i.transaction.request.value.sip.value.toTag.Some?
  }

  /** The frame goes from the responder of the flow to its initiator. */
  predicate Against(f: Frame, flow: Flow) {
    && f.source == Endpoint(Some(flow.responderAddress), Some(flow.responderPort), Some(flow.transport))
    && f.destination == Endpoint(Some(flow.initiatorAddress), Some(flow.initiatorPort), Some(flow.transport))
  }

  // ----- the state

  /** The frames that put a dialog in a state, whatever state it was in. */
  predicate LeadsTo(i: Item, state: DialogState) {
    match state
    case Early => Replies(i, "INVITE", 101, 199)
    case Confirmed =>
      Replies(i, "INVITE", 200, 299) || (Fails(i) && Inside(i))
      || (ReplyTo(i, "UPDATE").Some? && ReplyTo(i, "UPDATE").value >= 200)
    case Challenged => Demands(i) && !Inside(i)
    case Rejected => Fails(i) && !Demands(i) && !Inside(i)
    case Terminated => ReplyTo(i, "INVITE") == Some(487) || Replies(i, "BYE", 200, 299)
    case Renegotiating => Asks(i, "UPDATE")
    case Cancelling => Asks(i, "CANCEL")
    case Terminating => Asks(i, "BYE")
    case _ => false
  }

  ghost predicate Leads(i: Item) {
    exists state :: LeadsTo(i, state)
  }

  ghost predicate LastLead(items: seq<Item>, k: nat, state: DialogState) {
    k < |items| && LeadsTo(items[k], state) && forall j :: k < j < |items| ==> !Leads(items[j])
  }

  ghost predicate NoLead(items: seq<Item>) {
    forall j :: 0 <= j < |items| ==> !Leads(items[j])
  }

  ghost predicate InvitedFrom(items: seq<Item>, k: nat) {
    exists j :: k <= j < |items| && Asks(items[j], "INVITE")
  }

  ghost predicate StaysIn(items: seq<Item>, state: DialogState) {
    exists k: nat :: LastLead(items, k, state) && !InvitedFrom(items, k + 1)
  }

  ghost predicate InvitedIn(items: seq<Item>, state: DialogState) {
    exists k: nat :: LastLead(items, k, state) && InvitedFrom(items, k + 1)
  }

  ghost predicate Ended(items: seq<Item>, state: DialogState) {
    exists k: nat :: LastLead(items, k, state)
  }

  /**
   A dialog is where its last leading frame led it, except that an INVITE after it starts a try of a dialog that is
   fresh or challenged, and a renegotiation of one that is early or confirmed.
   */
  ghost predicate StateMeans(items: seq<Item>, state: DialogState) {
    match state
    case Fresh => NoLead(items) && !InvitedFrom(items, 0)
    case Trying => (NoLead(items) && InvitedFrom(items, 0)) || InvitedIn(items, Challenged)
    case Early => StaysIn(items, Early)
    case Challenged => StaysIn(items, Challenged)
    case Confirmed => StaysIn(items, Confirmed)
    case Renegotiating => Ended(items, Renegotiating) || InvitedIn(items, Early) || InvitedIn(items, Confirmed)
    case Cancelling => Ended(items, Cancelling)
    case Terminating => Ended(items, Terminating)
    case Terminated => Ended(items, Terminated)
    case Rejected => Ended(items, Rejected)
    case Unfinished => false
  }

  /** Where a lead and the INVITEs after it leave a dialog. */
  function LeftIn(lead: Option<DialogState>, invited: bool): DialogState {
    match lead
    case None => if invited then Trying else Fresh
    case Some(state) =>
      if !invited then state
      else if state == Challenged then Trying
      else if state == Early || state == Confirmed then Renegotiating
      else state
  }

  ghost predicate Summary(items: seq<Item>, lead: Option<DialogState>, invited: bool) {
    match lead
    case None => NoLead(items) && (invited <==> InvitedFrom(items, 0))
    case Some(state) => exists k: nat :: LastLead(items, k, state) && (invited <==> InvitedFrom(items, k + 1))
  }

  lemma LeadsOnce(i: Item, a: DialogState, b: DialogState)
    requires LeadsTo(i, a) && LeadsTo(i, b)
    ensures a == b && !Asks(i, "INVITE")
  {
  }

  lemma OneSummary(items: seq<Item>, a: Option<DialogState>, b: Option<DialogState>, x: bool, y: bool)
    requires Summary(items, a, x) && Summary(items, b, y)
    ensures a == b && x == y
  {
    hide LeadsTo, Asks, InvitedFrom;
    if a.Some? && b.Some? {
      var k: nat :| LastLead(items, k, a.value) && (x <==> InvitedFrom(items, k + 1));
      var l: nat :| LastLead(items, l, b.value) && (y <==> InvitedFrom(items, l + 1));
      assert Leads(items[k]) && Leads(items[l]);
      LeadsOnce(items[k], a.value, b.value);
    }
  }

  lemma SummaryOf(items: seq<Item>, state: DialogState) returns (lead: Option<DialogState>, invited: bool)
    requires StateMeans(items, state)
    ensures Summary(items, lead, invited) && LeftIn(lead, invited) == state
  {
    hide LastLead, NoLead, InvitedFrom;
    if state == Fresh {
      lead, invited := None, false;
    } else if state == Trying && NoLead(items) && InvitedFrom(items, 0) {
      lead, invited := None, true;
    } else if state == Trying {
      lead, invited := Some(Challenged), true;
    } else if state == Early || state == Challenged || state == Confirmed {
      lead, invited := Some(state), false;
    } else if state == Renegotiating && InvitedIn(items, Early) {
      lead, invited := Some(Early), true;
    } else if state == Renegotiating && InvitedIn(items, Confirmed) {
      lead, invited := Some(Confirmed), true;
    } else {
      var k: nat :| LastLead(items, k, state);
      lead, invited := Some(state), InvitedFrom(items, k + 1);
    }
  }

  lemma LeftMeans(items: seq<Item>, lead: Option<DialogState>, invited: bool)
    requires Summary(items, lead, invited)
    ensures StateMeans(items, LeftIn(lead, invited))
  {
    if lead.Some? {
      var k: nat :| LastLead(items, k, lead.value) && (invited <==> InvitedFrom(items, k + 1));
      assert LeadsTo(items[k], lead.value);
      hide LastLead, NoLead, InvitedFrom;
    }
  }

  lemma MeansLeft(items: seq<Item>, lead: Option<DialogState>, invited: bool, state: DialogState)
    requires Summary(items, lead, invited)
    ensures StateMeans(items, state) <==> state == LeftIn(lead, invited)
  {
    LeftMeans(items, lead, invited);
    hide StateMeans, Summary;
    if StateMeans(items, state) {
      var other, more := SummaryOf(items, state);
      OneSummary(items, lead, other, invited, more);
    }
  }

  /** What one frame does to the state. */
  lemma OneMove(was: DialogState, i: Item, flow: Flow)
    ensures var next := if MoveOf(was, i, flow).Some? then MoveOf(was, i, flow).value.0 else was;
            && (forall state :: LeadsTo(i, state) ==> next == state)
            && (Asks(i, "INVITE") ==>
                  next == if was == Confirmed || was == Early then Renegotiating
                          else if was == Fresh || was == Challenged || was == Unfinished then Trying
                          else was)
            && (!Leads(i) && !Asks(i, "INVITE") ==> next == was)
  {
    if i.isRequest {
      OneRequest(was, i, flow);
    } else {
      OneReply(was, i, flow);
    }
    hide MoveOf, LeadsTo, Asks;
  }

  lemma ReadRequest(i: Item, token: string)
    requires i.isRequest && token != ""
    ensures Asks(i, token) <==> MethodOf(i) == token
    ensures ReplyTo(i, token) == None
  {
    hide Upper;
  }

  lemma ReadReply(i: Item, token: string)
    requires !i.isRequest && token != ""
    ensures !Asks(i, token)
    ensures ReplyTo(i, token) == if MethodOf(i) == token then StatusOf(i.frame) else None
  {
    hide Upper;
  }

  lemma ReadMethods(i: Item)
    ensures i.isRequest ==>
              forall token :: token in {"INVITE", "UPDATE", "ACK", "CANCEL", "BYE"} ==>
                (Asks(i, token) <==> MethodOf(i) == token) && ReplyTo(i, token) == None
    ensures !i.isRequest ==>
              forall token :: token in {"INVITE", "UPDATE", "ACK", "CANCEL", "BYE"} ==>
                !Asks(i, token) && ReplyTo(i, token) == if MethodOf(i) == token then StatusOf(i.frame) else None
  {
    hide Asks, ReplyTo, MethodOf;
    forall token | token in {"INVITE", "UPDATE", "ACK", "CANCEL", "BYE"}
      ensures i.isRequest ==> (Asks(i, token) <==> MethodOf(i) == token) && ReplyTo(i, token) == None
      ensures !i.isRequest ==>
                !Asks(i, token) && ReplyTo(i, token) == if MethodOf(i) == token then StatusOf(i.frame) else None
    {
      if i.isRequest {
        ReadRequest(i, token);
      } else {
        ReadReply(i, token);
      }
    }
  }

  /** Which state a frame leads to, if any. */
  lemma LeadOf(i: Item)
    ensures Leads(i) <==>
            || LeadsTo(i, Early) || LeadsTo(i, Confirmed) || LeadsTo(i, Challenged) || LeadsTo(i, Rejected)
            || LeadsTo(i, Terminated) || LeadsTo(i, Renegotiating) || LeadsTo(i, Cancelling) || LeadsTo(i, Terminating)
  {
    hide Asks, ReplyTo, Fails, Demands, Inside, Replies;
  }

  lemma OneRequest(was: DialogState, i: Item, flow: Flow)
    requires i.isRequest
    ensures var next := if MoveOf(was, i, flow).Some? then MoveOf(was, i, flow).value.0 else was;
            && (forall state :: LeadsTo(i, state) ==> next == state)
            && (Asks(i, "INVITE") ==>
                  next == if was == Confirmed || was == Early then Renegotiating
                          else if was == Fresh || was == Challenged || was == Unfinished then Trying
                          else was)
            && (!Leads(i) && !Asks(i, "INVITE") ==> next == was)
  {
    ReadMethods(i);
    LeadOf(i);
    hide Asks, ReplyTo, MethodOf, Leads, Inside;
  }

  lemma OneReply(was: DialogState, i: Item, flow: Flow)
    requires !i.isRequest
    ensures var next := if MoveOf(was, i, flow).Some? then MoveOf(was, i, flow).value.0 else was;
            && (forall state :: LeadsTo(i, state) ==> next == state)
            && !Asks(i, "INVITE") && (!Leads(i) ==> next == was)
  {
    ReadMethods(i);
    LeadOf(i);
    hide Asks, ReplyTo, MethodOf, Leads;
  }

  lemma SummaryStep(items: seq<Item>, lead: Option<DialogState>, invited: bool)
    requires items != [] && Summary(items[..|items| - 1], lead, invited)
    ensures var last := items[|items| - 1];
            && (forall state :: LeadsTo(last, state) ==> Summary(items, Some(state), false))
            && (Asks(last, "INVITE") ==> Summary(items, lead, true))
            && (!Leads(last) && !Asks(last, "INVITE") ==> Summary(items, lead, invited))
  {
    var n := |items| - 1;
    var front, last := items[..n], items[n];
    assert forall j :: 0 <= j < n ==> front[j] == items[j];
    forall state | LeadsTo(last, state) ensures Summary(items, Some(state), false) {
      assert LastLead(items, n, state);
    }
    if !Leads(last) || Asks(last, "INVITE") {
      if Asks(last, "INVITE") {
        assert !Leads(last) by {
          if state :| LeadsTo(last, state) {
            LeadsOnce(last, state, state);
          }
        }
      }
      KeepsLead(items, lead, invited);
    }
  }

  lemma KeepsLead(items: seq<Item>, lead: Option<DialogState>, invited: bool)
    requires items != [] && Summary(items[..|items| - 1], lead, invited) && !Leads(items[|items| - 1])
    ensures Summary(items, lead, invited || Asks(items[|items| - 1], "INVITE"))
  {
    hide LeadsTo, Asks, Leads;
    var n := |items| - 1;
    var front := items[..n];
    match lead
    case None =>
      InvitedLonger(items, 0);
    case Some(state) =>
      var k: nat :| LastLead(front, k, state) && (invited <==> InvitedFrom(front, k + 1));
      InvitedLonger(items, k + 1);
      assert LastLead(items, k, state);
  }

  lemma InvitedLonger(items: seq<Item>, k: nat)
    requires items != [] && k < |items|
    ensures InvitedFrom(items, k) <==> InvitedFrom(items[..|items| - 1], k) || Asks(items[|items| - 1], "INVITE")
  {
    hide Asks;
    var n := |items| - 1;
    if InvitedFrom(items[..n], k) {
      var j :| k <= j < n && Asks(items[..n][j], "INVITE");
      assert Asks(items[j], "INVITE");
    }
    if InvitedFrom(items, k) && !Asks(items[n], "INVITE") {
      var j :| k <= j <= n && Asks(items[j], "INVITE");
      assert Asks(items[..n][j], "INVITE");
    }
  }

  lemma LeadKinds(i: Item)
    ensures forall state :: LeadsTo(i, state) ==> state !in {Fresh, Trying, Unfinished}
  {
    hide Replies, ReplyTo, Fails, Inside, Demands, Asks;
  }

  lemma {:induction false} WalkSummary(items: seq<Item>, flow: Flow) returns (lead: Option<DialogState>, invited: bool)
    ensures Summary(items, lead, invited) && Arrived(MovesOf(items, flow)) == LeftIn(lead, invited)
    ensures lead.Some? ==> lead.value !in {Fresh, Trying, Unfinished}
  {
    if items == [] {
      lead, invited := None, false;
    } else {
      var n := |items| - 1;
      var last := items[n];
      var was, more := WalkSummary(items[..n], flow);
      var before := Arrived(MovesOf(items[..n], flow));
      OneMove(before, last, flow);
      SummaryStep(items, was, more);
      NextArrived(items, flow);
      LeadKinds(last);
      hide Summary, MoveOf, MovesOf, LeadsTo, Asks;
      if Leads(last) {
        var state :| LeadsTo(last, state);
        lead, invited := Some(state), false;
      } else if Asks(last, "INVITE") {
        lead, invited := was, true;
      } else {
        lead, invited := was, more;
      }
    }
  }

  lemma NextArrived(items: seq<Item>, flow: Flow)
    requires items != []
    ensures var n := |items| - 1;
            var was := Arrived(MovesOf(items[..n], flow));
            var move := MoveOf(was, items[n], flow);
            && Arrived(MovesOf(items, flow)) == (if move.Some? then move.value.0 else was)
            && MovesOf(items, flow)
               == MovesOf(items[..n], flow)
                  + if move.Some? then [Move(was, move.value.0, move.value.1, items[n].frame.evidence)] else []
  {
    hide MoveOf;
  }

  /** Exactly which frames leave a dialog in which state. */
  lemma StateExactly(items: seq<Item>, flow: Flow, state: DialogState)
    ensures Arrived(MovesOf(items, flow)) == state <==> StateMeans(items, state)
  {
    var lead, invited := WalkSummary(items, flow);
    MeansLeft(items, lead, invited, state);
  }

  // ----- the events

  /** What a frame is listed as, in a dialog that was in the given state. */
  predicate Happened(i: Item, flow: Flow, was: DialogState, event: Happening) {
    match event
    case Invited => Asks(i, "INVITE") && was in {Fresh, Challenged, Unfinished}
    case Reinvited => Asks(i, "INVITE") && was in {Confirmed, Early}
    case Updated => Asks(i, "UPDATE")
    case Acknowledged => Asks(i, "ACK")
    case CancelAsked => Asks(i, "CANCEL")
    case RemoteBye => Asks(i, "BYE") && Against(i.frame, flow)
    case LocalBye => Asks(i, "BYE") && !Against(i.frame, flow)
    case Challenge(status) => ReplyTo(i, "INVITE") == Some(status) && Demands(i) && !Inside(i)
    case ReinviteFailed(status) => ReplyTo(i, "INVITE") == Some(status) && Fails(i) && Inside(i)
    case InviteFailed(status) => ReplyTo(i, "INVITE") == Some(status) && Fails(i) && !Demands(i) && !Inside(i)
    case Provisional(status) => ReplyTo(i, "INVITE") == Some(status) && 100 < status < 200
    case Accepted(status) => ReplyTo(i, "INVITE") == Some(status) && 200 <= status < 300
    case Cancelled => ReplyTo(i, "INVITE") == Some(487)
    case Negotiated(status) => ReplyTo(i, "UPDATE") == Some(status) && 200 <= status < 300
    case UpdateEnded(status) => ReplyTo(i, "UPDATE") == Some(status) && 300 <= status
    case CancelDone(status) => ReplyTo(i, "CANCEL") == Some(status) && 200 <= status < 300
    case ByeDone(status) => ReplyTo(i, "BYE") == Some(status) && 200 <= status < 300
  }

  lemma RunsAgainst(f: Frame, flow: Flow)
    ensures FlowOf(f) == Some(Reverse(flow)) <==> Against(f, flow)
  {
  }

  lemma RequestEvent(was: DialogState, i: Item, flow: Flow, event: Happening)
    requires i.isRequest
    ensures Happened(i, flow, was, event) <==> MoveOf(was, i, flow).Some? && MoveOf(was, i, flow).value.1 == event
  {
    ReadMethods(i);
    RunsAgainst(i.frame, flow);
    hide Asks, ReplyTo, MethodOf, Against, FlowOf, Inside;
  }

  lemma ReplyEvent(was: DialogState, i: Item, flow: Flow, event: Happening)
    requires !i.isRequest
    ensures Happened(i, flow, was, event) <==> MoveOf(was, i, flow).Some? && MoveOf(was, i, flow).value.1 == event
  {
    if MethodOf(i) == "INVITE" {
      InviteReplyEvent(was, i, flow, event);
    } else {
      OtherReplyEvent(was, i, flow, event);
    }
    hide Happened, MoveOf;
  }

  lemma InviteReplyEvent(was: DialogState, i: Item, flow: Flow, event: Happening)
    requires !i.isRequest && MethodOf(i) == "INVITE"
    ensures Happened(i, flow, was, event) <==> MoveOf(was, i, flow).Some? && MoveOf(was, i, flow).value.1 == event
  {
    ReadInvite(i);
    if MoveOf(was, i, flow).Some? {
      Listed(was, i, flow);
    }
    if Happened(i, flow, was, event) {
      OnlyThat(was, i, flow, event);
    }
    hide MoveOf, Happened;
  }

  lemma ReadInvite(i: Item)
    requires !i.isRequest && MethodOf(i) == "INVITE"
    ensures Invites(i)
  {
    ReadMethods(i);
  }

  predicate Invites(i: Item) {
    && !i.isRequest && MethodOf(i) == "INVITE" && ReplyTo(i, "INVITE") == StatusOf(i.frame)
    && (forall token :: token in {"INVITE", "UPDATE", "ACK", "CANCEL", "BYE"} ==> !Asks(i, token))
    && forall token :: token in {"UPDATE", "CANCEL", "BYE"} ==> ReplyTo(i, token) == None
  }

  lemma Listed(was: DialogState, i: Item, flow: Flow)
    requires Invites(i) && MoveOf(was, i, flow).Some?
    ensures Happened(i, flow, was, MoveOf(was, i, flow).value.1)
  {
    assert Inside(i) == InDialog(i.transaction);
    hide Asks, ReplyTo, MethodOf, Against, Inside, InDialog, StatusOf;
  }

  lemma OnlyThat(was: DialogState, i: Item, flow: Flow, event: Happening)
    requires Invites(i) && Happened(i, flow, was, event)
    ensures MoveOf(was, i, flow).Some? && MoveOf(was, i, flow).value.1 == event
  {
    assert Inside(i) == InDialog(i.transaction);
    hide Asks, ReplyTo, MethodOf, Against, Inside, InDialog, StatusOf;
  }

  lemma OtherReplyEvent(was: DialogState, i: Item, flow: Flow, event: Happening)
    requires !i.isRequest && MethodOf(i) != "INVITE"
    ensures Happened(i, flow, was, event) <==> MoveOf(was, i, flow).Some? && MoveOf(was, i, flow).value.1 == event
  {
    ReadMethods(i);
    hide Asks, ReplyTo, MethodOf, Against, Inside, InDialog, StatusOf;
  }

  /** Exactly which event each frame adds to the log, after which state and before which. */
  lemma EventExactly(items: seq<Item>, flow: Flow, k: nat, event: Happening)
    requires k < |items|
    ensures var before, after := MovesOf(items[..k], flow), MovesOf(items[..k + 1], flow);
            var was, now := Arrived(before), Arrived(after);
            && StateMeans(items[..k], was) && StateMeans(items[..k + 1], now)
            && (Happened(items[k], flow, was, event) <==>
                after == before + [Move(was, now, event, items[k].frame.evidence)])
            && (after == before || |after| == |before| + 1)
  {
    var front, more := items[..k], items[..k + 1];
    assert more[..k] == front && more[k] == items[k];
    var was := Arrived(MovesOf(front, flow));
    StateExactly(front, flow, was);
    StateExactly(more, flow, Arrived(MovesOf(more, flow)));
    NextArrived(more, flow);
    if items[k].isRequest {
      RequestEvent(was, items[k], flow, event);
    } else {
      ReplyEvent(was, items[k], flow, event);
    }
    hide StateMeans, MoveOf, MovesOf, Happened;
  }

  // ----- which frames a dialog has

  /** From the caller, outside any dialog, to this callee or as a challenge; or from this callee to the caller. */
  ghost predicate Concerns(f: Frame, root: RootKey, calleeTag: Option<string>) {
    && f.sip.Some? && f.sip.value.callId == Some(root.callId)
    && var sip := f.sip.value;
       || (sip.fromTag == root.callerTag
           && (sip.toTag == None || sip.statusCode == Some(401) || sip.statusCode == Some(407)
               || (root.callerTag.Some? && sip.toTag == calleeTag)))
       || (root.callerTag.Some? && calleeTag.Some? && sip.fromTag == calleeTag && sip.toTag == root.callerTag)
  }

  lemma BelongsMeans(f: Frame, root: RootKey, calleeTag: Option<string>)
    ensures Belongs(f, root, calleeTag) <==> Concerns(f, root, calleeTag)
  {
  }

  /** A frame with both tags that is no challenge concerns one callee only, so forks never mix. */
  lemma ForksApart(f: Frame, root: RootKey, a: string, b: string)
    requires Concerns(f, root, Some(a)) && Concerns(f, root, Some(b))
    requires f.sip.value.toTag.Some? && f.sip.value.statusCode != Some(401) && f.sip.value.statusCode != Some(407)
    ensures a == b
  {
  }

  lemma {:induction false} FilterMeans(items: seq<Item>, root: RootKey, calleeTag: Option<string>, x: Item)
    ensures x in Filter(items, root, calleeTag) <==> x in items && Concerns(x.frame, root, calleeTag)
  {
    if items != [] {
      var n := |items| - 1;
      FilterMeans(items[..n], root, calleeTag, x);
      BelongsMeans(items[n].frame, root, calleeTag);
      assert items == items[..n] + [items[n]];
      hide Belongs, Concerns;
    }
  }

  lemma FramesOfMeans(t: Transaction, x: Item)
    ensures x in FramesOf(t) <==>
            x.transaction == t && if x.isRequest then t.request == Some(x.frame) else x.frame in t.responses
  {
    var replies := Map((f: Frame) => Item(f, t, false), t.responses);
    if x in replies {
      var i :| 0 <= i < |replies| && replies[i] == x;
      assert t.responses[i] == x.frame;
    }
    if x.transaction == t && !x.isRequest && x.frame in t.responses {
      var i :| 0 <= i < |t.responses| && t.responses[i] == x.frame;
      assert replies[i] == x;
    }
  }

  lemma {:induction false} GatherMeans(ts: seq<Transaction>, root: RootKey, calleeTag: Option<string>, x: Item)
    ensures x in Gather(ts, root, calleeTag) <==>
            x.transaction in ts && x in FramesOf(x.transaction) && Concerns(x.frame, root, calleeTag)
  {
    hide FramesOf, Concerns;
    if ts != [] {
      var n := |ts| - 1;
      GatherMeans(ts[..n], root, calleeTag, x);
      FilterMeans(FramesOf(ts[n]), root, calleeTag, x);
      FramesOfMeans(ts[n], x);
      FramesOfMeans(x.transaction, x);
      assert ts == ts[..n] + [ts[n]];
      hide Filter;
    }
  }

  function NumberOf(f: Frame): nat {
    match f.evidence.frameNumber
    case None => 0x7FFF_FFFF_FFFF_FFFF
    case Some(number) => number
  }

  /** The frames of a dialog: those filed under a transaction that concern it, by frame number. */
  lemma ItemsMean(ts: seq<Transaction>, root: RootKey, calleeTag: Option<string>)
    ensures var items := DialogItems(ts, root, calleeTag);
            && (forall x :: x in items <==>
                  && x.transaction in ts && Concerns(x.frame, root, calleeTag)
                  && if x.isRequest then x.transaction.request == Some(x.frame) else x.frame in x.transaction.responses)
            && forall i, j :: 0 <= i < j < |items| ==> NumberOf(items[i].frame) <= NumberOf(items[j].frame)
  {
    var all := Gather(ts, root, calleeTag);
    SortMembers(ItemLe, all);
    SortSorted(ItemLe, all);
    hide Gather, FramesOf, Concerns;
    forall x
      ensures x in all <==>
        && x.transaction in ts && Concerns(x.frame, root, calleeTag)
        && if x.isRequest then x.transaction.request == Some(x.frame) else x.frame in x.transaction.responses
    {
      GatherMeans(ts, root, calleeTag, x);
      FramesOfMeans(x.transaction, x);
    }
  }

  // ----- when a dialog is complete

  predicate NumberIs(i: Item, cseq: int) {
    i.frame.sip.Some? && i.frame.sip.value.cseqNumber == Some(cseq)
  }

  ghost predicate Acknowledges(items: seq<Item>, cseq: int) {
    exists j :: 0 <= j < |items| && Asks(items[j], "ACK") && NumberIs(items[j], cseq)
  }

  /** A final refusal of the first INVITE other than a demand for credentials. */
  predicate TurnsDown(i: Item) {
    ReplyTo(i, "INVITE").Some? && ReplyTo(i, "INVITE").value >= 300 && !Demands(i) && !Inside(i)
  }

  /**
   Either some INVITE succeeded, every success was acknowledged under its number, and a BYE was confirmed; or a refusal
   was acknowledged under its number.
   */
  ghost predicate Concluded(items: seq<Item>) {
    || ((exists i, cseq :: 0 <= i < |items| && Replies(items[i], "INVITE", 200, 299) && NumberIs(items[i], cseq))
        && (forall i, cseq ::
              0 <= i < |items| && Replies(items[i], "INVITE", 200, 299) && NumberIs(items[i], cseq) ==>
                Acknowledges(items, cseq))
        && exists i :: 0 <= i < |items| && Replies(items[i], "BYE", 200, 299))
    || exists i, cseq ::
      0 <= i < |items| && TurnsDown(items[i]) && NumberIs(items[i], cseq) && Acknowledges(items, cseq)
  }

  lemma ReadSigns(i: Item)
    ensures Succeeded(i) <==> Replies(i, "INVITE", 200, 299)
    ensures HungUp(i) <==> Replies(i, "BYE", 200, 299)
    ensures Refused(i) <==> TurnsDown(i)
    ensures Acks(i) <==> Asks(i, "ACK")
    ensures forall cseq :: CseqOf(i.frame) == Some(cseq) <==> NumberIs(i, cseq)
  {
    ReadMethods(i);
    hide Asks, ReplyTo, MethodOf;
  }

  lemma AckedMeans(items: seq<Item>, cseq: int)
    ensures Acked(items, cseq) <==> Acknowledges(items, cseq)
  {
    forall j | 0 <= j < |items| ensures AcksOf(items[j], cseq) <==> Asks(items[j], "ACK") && NumberIs(items[j], cseq) {
      ReadSigns(items[j]);
    }
    hide AcksOf, Asks, NumberIs;
  }

  lemma ConcludedMeans(items: seq<Item>)
    ensures CarriedThrough(items) || TurnedDown(items) <==> Concluded(items)
  {
    forall i | 0 <= i < |items|
      ensures Succeeded(items[i]) <==> Replies(items[i], "INVITE", 200, 299)
      ensures HungUp(items[i]) <==> Replies(items[i], "BYE", 200, 299)
      ensures Refused(items[i]) <==> TurnsDown(items[i])
      ensures forall cseq :: CseqOf(items[i].frame) == Some(cseq) <==> NumberIs(items[i], cseq)
    {
      ReadSigns(items[i]);
    }
    forall cseq ensures Acked(items, cseq) <==> Acknowledges(items, cseq) {
      AckedMeans(items, cseq);
    }
    hide Succeeded, HungUp, Refused, Replies, TurnsDown, CseqOf, NumberIs, Acked, Acknowledges;
  }

  // ----- what is uncertain about a dialog, and its transactions

  /** A SIP frame that was cut, or whose call, sequence or branch could not be read. */
  predicate Unread(f: Frame) {
    && f.sip.Some?
    && (!f.intact || f.sip.value.callId.None? || f.sip.value.cseqNumber.None? || f.sip.value.cseqMethod.None?
        || f.sip.value.viaBranch.None?)
  }

  predicate Along(f: Frame, flow: Flow) {
    && f.source == Endpoint(Some(flow.initiatorAddress), Some(flow.initiatorPort), Some(flow.transport))
    && f.destination == Endpoint(Some(flow.responderAddress), Some(flow.responderPort), Some(flow.transport))
  }

  /** It has the call identifier, or runs between the same two ends. */
  predicate Clouds(f: Frame, root: RootKey) {
    Unread(f) && (f.sip.value.callId == Some(root.callId) || Along(f, root.flow) || Against(f, root.flow))
  }

  lemma CloudsMeans(f: Frame, root: RootKey)
    ensures Doubtful(f, root) <==> Clouds(f, root)
  {
    RunsAgainst(f, root.flow);
    assert FlowOf(f) == Some(root.flow) <==> Along(f, root.flow);
    hide FlowOf, Along, Against, Reverse;
  }

  ghost predicate TakesPart(t: Transaction, root: RootKey, calleeTag: Option<string>) {
    exists f :: (t.request == Some(f) || f in t.responses) && Concerns(f, root, calleeTag)
  }

  lemma TakesPartMeans(t: Transaction, root: RootKey, calleeTag: Option<string>)
    ensures Involved(t, root, calleeTag) <==> TakesPart(t, root, calleeTag)
  {
    var items := Filter(FramesOf(t), root, calleeTag);
    hide Concerns, Filter, FramesOf;
    if items != [] {
      FilterMeans(FramesOf(t), root, calleeTag, items[0]);
      FramesOfMeans(t, items[0]);
      assert items[0] in items;
    }
    if f :| (t.request == Some(f) || f in t.responses) && Concerns(f, root, calleeTag) {
      var x := Item(f, t, t.request == Some(f));
      FilterMeans(FramesOf(t), root, calleeTag, x);
      FramesOfMeans(t, x);
    }
  }

  ghost predicate Unsure(frames: seq<Frame>, ts: seq<Transaction>, root: RootKey, calleeTag: Option<string>) {
    || (exists f :: f in frames && Clouds(f, root))
    || exists t :: t in ts && TakesPart(t, root, calleeTag) && t.ambiguous
  }

  lemma UnsureMeans(frames: seq<Frame>, ts: seq<Transaction>, root: RootKey, calleeTag: Option<string>)
    ensures Uncertain(frames, ts, root, calleeTag) <==> Unsure(frames, ts, root, calleeTag)
  {
    forall f ensures Doubtful(f, root) <==> Clouds(f, root) {
      CloudsMeans(f, root);
    }
    forall t ensures Involved(t, root, calleeTag) <==> TakesPart(t, root, calleeTag) {
      TakesPartMeans(t, root, calleeTag);
    }
    hide Doubtful, Clouds, Involved, TakesPart;
  }

  /** Where the transactions that take part stand. */
  ghost predicate PartsAt(ts: seq<Transaction>, root: RootKey, calleeTag: Option<string>, at: seq<nat>) {
    && (forall k :: 0 <= k < |at| ==> at[k] < |ts| && TakesPart(ts[at[k]], root, calleeTag))
    && (forall j, k :: 0 <= j < k < |at| ==> at[j] < at[k])
    && forall i :: 0 <= i < |ts| && TakesPart(ts[i], root, calleeTag) ==> i in at
  }

  /** The keys of a dialog are those of the transactions that take part in it, in order. */
  lemma {:induction false} KeysMean(ts: seq<Transaction>, root: RootKey, calleeTag: Option<string>)
    returns (at: seq<nat>)
    ensures PartsAt(ts, root, calleeTag, at) && |KeysInvolved(ts, root, calleeTag)| == |at|
    ensures forall k :: 0 <= k < |at| ==> KeysInvolved(ts, root, calleeTag)[k] == ts[at[k]].key
  {
    hide Involved, TakesPart;
    if ts == [] {
      at := [];
    } else {
      var n := |ts| - 1;
      TakesPartMeans(ts[n], root, calleeTag);
      var front := KeysMean(ts[..n], root, calleeTag);
      at := front + if TakesPart(ts[n], root, calleeTag) then [n] else [];
      PartsAfter(ts, root, calleeTag, front);
      hide PartsAt;
    }
  }

  lemma PartsAfter(ts: seq<Transaction>, root: RootKey, calleeTag: Option<string>, front: seq<nat>)
    requires ts != [] && PartsAt(ts[..|ts| - 1], root, calleeTag, front)
    ensures PartsAt(ts, root, calleeTag,
                    front + if TakesPart(ts[|ts| - 1], root, calleeTag) then [|ts| - 1] else [])
    ensures forall k :: 0 <= k < |front| ==> front[k] < |ts| - 1
  {
    hide TakesPart;
    var n := |ts| - 1;
    var at := front + if TakesPart(ts[n], root, calleeTag) then [n] else [];
    forall i | 0 <= i < |ts| && TakesPart(ts[i], root, calleeTag) ensures i in at {
      if i < n {
        assert ts[..n][i] == ts[i];
      } else {
        assert at[|at| - 1] == n;
      }
    }
  }

  // ----- which dialogs there are

  /** An INVITE that names no callee yet starts a dialog of its call, caller and flow. */
  ghost predicate Starts(t: Transaction, root: RootKey) {
    && t.request.Some? && t.request.value.sip.Some?
    && var sip := t.request.value.sip.value;
       && sip.requestMethod.Some? && Upper(sip.requestMethod.value) == "INVITE" && sip.toTag == None
       && root == RootKey(t.key.base.callId, sip.fromTag, t.key.flow)
  }

  /** A response that names the callee, other than a demand for credentials. */
  predicate NamedIn(f: Frame, tag: string) {
    && f.sip.Some? && f.sip.value.toTag == Some(tag) && f.sip.value.statusCode != Some(401)
    && f.sip.value.statusCode != Some(407)
  }

  ghost predicate AnsweredBy(ts: seq<Transaction>, root: RootKey, tag: string) {
    exists t, f :: t in ts && Starts(t, root) && f in t.responses && NamedIn(f, tag)
  }

  ghost predicate IsDialog(ts: seq<Transaction>, root: RootKey, calleeTag: Option<string>) {
    match calleeTag
    case Some(tag) => AnsweredBy(ts, root, tag)
    case None => (exists t :: t in ts && Starts(t, root)) && forall tag :: !AnsweredBy(ts, root, tag)
  }

  lemma StartsMeans(t: Transaction, root: RootKey)
    ensures IsRoot(t) && RootOf(t) == root <==> Starts(t, root)
  {
    hide Upper;
  }

  lemma ForkedMeans(ts: seq<Transaction>, root: RootKey, tag: string)
    ensures Forked(ts, root, tag) <==> AnsweredBy(ts, root, tag)
  {
    forall t ensures IsRoot(t) && RootOf(t) == root <==> Starts(t, root) {
      StartsMeans(t, root);
    }
    hide IsRoot, RootOf, Starts;
    if Forked(ts, root, tag) {
      var i, k: nat :| 0 <= i < |ts| && IsRoot(ts[i]) && RootOf(ts[i]) == root && Names(ts[i], k, tag);
      assert ts[i] in ts && ts[i].responses[k] in ts[i].responses && NamedIn(ts[i].responses[k], tag);
    }
    if AnsweredBy(ts, root, tag) {
      var t, f :| t in ts && Starts(t, root) && f in t.responses && NamedIn(f, tag);
      var i :| 0 <= i < |ts| && ts[i] == t;
      var k :| 0 <= k < |t.responses| && t.responses[k] == f;
      assert Names(ts[i], k, tag);
    }
  }

  /** One dialog a callee that answers, and one without a callee for a call that nobody answers. */
  lemma ExistsMeans(ts: seq<Transaction>, root: RootKey, calleeTag: Option<string>)
    ensures Exists(ts, root, calleeTag) <==> IsDialog(ts, root, calleeTag)
  {
    forall tag ensures Forked(ts, root, tag) <==> AnsweredBy(ts, root, tag) {
      ForkedMeans(ts, root, tag);
    }
    RootedMeans(ts, root);
    if calleeTag.Some? && AnsweredBy(ts, root, calleeTag.value) {
      var t, f :| t in ts && Starts(t, root) && f in t.responses && NamedIn(f, calleeTag.value);
    }
    hide Forked, AnsweredBy, Rooted, Starts;
  }

  /** Dialogs come by call, then by the caller's address and port, then by callee tag, the one without a tag first. */
  predicate Precedes(a: Dialog, b: Dialog) {
    var x, y := a.root, b.root;
    if x.callId != y.callId then StringLe(x.callId, y.callId)
    else if x.flow.initiatorAddress != y.flow.initiatorAddress then
      StringLe(x.flow.initiatorAddress, y.flow.initiatorAddress)
    else if x.flow.initiatorPort != y.flow.initiatorPort then x.flow.initiatorPort < y.flow.initiatorPort
    else
      match (a.calleeTag, b.calleeTag)
      case (None, _) => true
      case (Some(s), Some(t)) => StringLe(s, t)
      case (Some(s), None) => s == ""
  }

  lemma OrderMeans(a: Dialog, b: Dialog)
    ensures DialogLe(a, b) <==> Precedes(a, b)
  {
    StringLeTotal(a.root.callId, a.root.callId);
    StringLeTotal(a.root.flow.initiatorAddress, a.root.flow.initiatorAddress);
    StringLeTotal(TagText(a), TagText(b));
    assert StringLe("", TagText(b));
    if TagText(b) == "" && StringLe(TagText(a), "") {
      StringLeTotal("", TagText(a));
    }
  }

  lemma RootedMeans(ts: seq<Transaction>, root: RootKey)
    ensures Rooted(ts, root) <==> exists t :: t in ts && Starts(t, root)
  {
    forall t ensures IsRoot(t) && RootOf(t) == root <==> Starts(t, root) {
      StartsMeans(t, root);
    }
    hide IsRoot, RootOf, Starts;
    if t :| t in ts && Starts(t, root) {
      var i :| 0 <= i < |ts| && ts[i] == t;
    }
  }

  /**
   What is reported about every dialog: the state its frames mean, a log that ends there, the keys of its transactions,
   and complete exactly when it is concluded and nothing about it is uncertain.
   */
  lemma ReportedMeans(d: Dialog, frames: seq<Frame>, ts: seq<Transaction>) returns (at: seq<nat>)
    requires Reported(d, frames, ts)
    ensures var items := DialogItems(ts, d.root, d.calleeTag);
            && d.moves == MovesOf(items, d.root.flow)
            && (d.complete <==> Concluded(items) && !Unsure(frames, ts, d.root, d.calleeTag))
            && if d.state == Unfinished then StateMeans(items, Fresh) else StateMeans(items, d.state)
    ensures PartsAt(ts, d.root, d.calleeTag, at) && |d.keys| == |at|
    ensures forall k :: 0 <= k < |at| ==> d.keys[k] == ts[at[k]].key
  {
    at := KeysMean(ts, d.root, d.calleeTag);
    ConcludedMeans(DialogItems(ts, d.root, d.calleeTag));
    UnsureMeans(frames, ts, d.root, d.calleeTag);
    var items := DialogItems(ts, d.root, d.calleeTag);
    StateExactly(items, d.root.flow, Arrived(MovesOf(items, d.root.flow)));
    NeverUnfinished(items, d.root.flow);
    hide DialogItems, StateMeans, MovesOf, CarriedThrough, TurnedDown, KeysInvolved, Uncertain, Concluded,
      Unsure, PartsAt;
  }
}
