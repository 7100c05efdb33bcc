/** When `Coordinator::run` can return: what the announcement of completion sets
    free, and what a pause holds back. */
module Returning {
  import opened Common
  import opened Swarm
  import opened Assembler
  import Tracking
  import Bitfields
  import W = Wire

  // ----- no control change is slept through

  /** The session has passed the head of its loop and not left it. */
  predicate InLoop(x: Session) {
    x.phase.Reserving? || x.phase.Filling? || x.phase.Waiting? || x.phase.Emitting? || x.phase.Announcing?
  }

  /** A session has seen no version that was not there yet; one that sleeps on the
      current version was told to, and so was one that works on it. */
  predicate Attentive(sh: Shared, x: Session) {
    && x.seen <= sh.version
    && (x.phase.Idling? && x.seen == sh.version ==> sh.control.Suspended?)
    && (InLoop(x) && x.seen == sh.version ==> sh.control.Running?)
  }

  /** The controls, as every session sees them, stay as they are. */
  predicate SameControl(sh: Shared, sh': Shared) {
    && sh'.control == sh.control && sh'.version == sh.version
    && sh'.coordinatorAlive == sh.coordinatorAlive && sh'.receiverOpen == sh.receiverOpen
    && sh'.done == sh.done
  }

  lemma BlockLeavesControl(c: Config, sh: Shared, x: Session, b: W.Block)
    requires x.phase.Waiting?
    ensures var (sh', x') := OnBlock(c, sh, x, b);
      SameControl(sh, sh') && x'.seen == x.seen && !x'.phase.Idling?
  {
    hide Assembly.AddBlock, Assembly.IsComplete, Config.Verifies, Tracking.Tracker.IsComplete;
  }

  lemma MessageLeavesControl(c: Config, sh: Shared, x: Session, m: W.Message)
    requires x.phase.Waiting?
    ensures var (sh', x') := OnMessage(c, sh, x, m);
      SameControl(sh, sh') && x'.seen == x.seen && !x'.phase.Idling?
  {
    hide OnBlock, Bitfields.FromWire;
    if m.Piece? {
      BlockLeavesControl(c, sh.(wire := sh.wire + |m.block.data|), x, m.block);
    }
  }

  lemma ReserveLeavesControl(c: Config, sh: Shared, x: Session)
    requires x.phase.Reserving?
    ensures var (sh', x') := OnReserve(c, sh, x);
      SameControl(sh, sh') && x'.seen == x.seen && !x'.phase.Idling?
  {
    hide Tracking.Tracker.Rarest, Tracking.Tracker.IsComplete, Fresh;
  }

  /** A step of a session leaves the controls alone, and sleeps through nothing. */
  lemma StepLeavesControl(c: Config, sh: Shared, x: Session, e: Event)
    requires Enabled(c, sh, x, e)
    ensures var (sh', x') := Step(c, sh, x, e);
      && SameControl(sh, sh'.(done := sh.done)) && sh'.done == (sh.done || e.Announce?)
      && (Attentive(sh, x) ==> Attentive(sh', x'))
  {
    hide OnMessage, OnReserve, OnControl, OnEmit, CanRequest, Relinquish, Tracking.Tracker.RemoveBitfield;
    match e
    case Receive(m) => MessageLeavesControl(c, sh, x, m);
    case Reserve => ReserveLeavesControl(c, sh, x);
    case ReadControl => ReadLeavesControl(sh, x);
    case Emit => EmitLeavesControl(sh, x);
    case _ =>
  }

  lemma ReadLeavesControl(sh: Shared, x: Session)
    ensures SameControl(sh, OnControl(sh, x).0)
    ensures Attentive(sh, x) ==> Attentive(OnControl(sh, x).0, OnControl(sh, x).1)
  {
    hide Relinquish;
  }

  lemma EmitLeavesControl(sh: Shared, x: Session)
    requires x.phase.Emitting?
    ensures SameControl(sh, OnEmit(sh, x).0)
    ensures Attentive(sh, x) ==> Attentive(OnEmit(sh, x).0, OnEmit(sh, x).1)
  {
  }

  ghost predicate AllAttentive(s: State) {
    forall k :: 0 <= k < |s.sessions| ==> Attentive(s.shared, s.sessions[k])
  }

  lemma ActStaysAttentive(c: Config, s: State, a: Action)
    requires CanAct(c, s, a) && AllAttentive(s)
    ensures AllAttentive(Act(c, s, a))
  {
    if a.At? {
      StepLeavesControl(c, s.shared, s.sessions[a.peer], a.event);
      hide Step, Enabled;
    }
  }

  /** In every state of every run: a sleeping session that has seen the latest
      control state was told to sleep by it, and a working one to work. No control
      change is ever missed. */
  lemma {:induction false} NoLostWakeUp(c: Config, peers: nat, states: seq<State>, actions: seq<Action>, n: nat)
    requires IsRun(c, peers, states, actions) && n < |states|
    ensures AllAttentive(states[n])
  {
    hide CanAct, Act;
    if n > 0 {
      NoLostWakeUp(c, peers, states, actions, n - 1);
      ActStaysAttentive(c, states[n - 1], actions[n - 1]);
    }
  }

  // ----- what a pause holds back

  /** The session sleeps, or its next steps lead it nowhere but back to the head of
      its loop. */
  predicate HeadsForControl(x: Session) {
    x.phase.Idling? || x.phase.LoopHead? || (x.phase.Emitting? && !x.phase.complete)
  }

  /** The pause, as long as it lasts, keeps the session. */
  predicate Trapped(sh: Shared, x: Session) {
    sh.control.Suspended? && sh.coordinatorAlive && HeadsForControl(x)
  }

  predicate Held(s: State) {
    exists k :: 0 <= k < |s.sessions| && Trapped(s.shared, s.sessions[k])
  }

  /** A run of the swarm from any state on. */
  ghost predicate Continues(c: Config, s: State, states: seq<State>, actions: seq<Action>) {
    && |states| == |actions| + 1
    && states[0] == s
    && forall k :: 0 <= k < |actions| ==>
         CanAct(c, states[k], actions[k]) && states[k + 1] == Act(c, states[k], actions[k])
  }

  /** Nobody touches the control, and the coordinator stays. */
  predicate ControlRests(actions: seq<Action>) {
    forall k :: 0 <= k < |actions| ==> !actions[k].SetControl? && !actions[k].DropCoordinator?
  }

  lemma TrappedStays(c: Config, s: State, a: Action, k: nat)
    requires CanAct(c, s, a) && !a.SetControl? && !a.DropCoordinator?
    requires k < |s.sessions| && Trapped(s.shared, s.sessions[k])
    ensures |Act(c, s, a).sessions| == |s.sessions|
    ensures Trapped(Act(c, s, a).shared, Act(c, s, a).sessions[k])
  {
    if a.At? {
      StepLeavesControl(c, s.shared, s.sessions[a.peer], a.event);
      hide OnMessage, OnReserve, CanRequest;
      if a.peer != k {
        hide Step, Enabled;
      }
    }
  }

  /** However long the run goes on without a control change, complete or not, a
      session that the pause keeps has not ended. */
  lemma {:induction false} PausedRunNeverReturns(
    c: Config, s: State, states: seq<State>, actions: seq<Action>, k: nat, n: nat)
    requires Continues(c, s, states, actions) && ControlRests(actions) && n < |states|
    requires k < |s.sessions| && Trapped(s.shared, s.sessions[k])
    ensures |states[n].sessions| == |s.sessions| && Trapped(states[n].shared, states[n].sessions[k])
    ensures !HasReturned(states[n])
  {
    hide CanAct, Act;
    if n > 0 {
      PausedRunNeverReturns(c, s, states, actions, k, n - 1);
      TrappedStays(c, states[n - 1], actions[n - 1], k);
    }
    assert !states[n].sessions[k].phase.Gone?;
  }

  // ----- what completion sets free

  /** The next step a session takes without its peer, once the torrent is
      announced complete; a connection still being made is given up. */
  function OwnEvent(c: Config, sh: Shared, x: Session): Event {
    match x.phase
    case Dialing => Refuse
    case LoopHead => ReadControl
    case Reserving => Reserve
    case Filling => if CanRequest(c, x) then SendRequest else PipelineReady
    case Waiting => DoneChanged
    case Idling => if x.seen != sh.version then ControlChanged else CoordinatorDropped
    case Emitting(_, _) => Emit
    case Announcing => Announce
    case Leaving(_) => Withdraw
    case Gone(_) => Withdraw
  }

  /** How many such steps at most it has before it. */
  function StepsLeft(sh: Shared, x: Session): nat {
    match x.phase
    case Emitting(_, _) => 24
    case Idling => if x.seen != sh.version then 23 else 21
    case LoopHead => 22
    case Reserving => 20
    case Filling => 3 + (if x.inFlight < MAX_PIPELINED_REQUESTS then MAX_PIPELINED_REQUESTS - x.inFlight else 0)
    case Waiting => 2
    case Announcing => 2
    case Dialing => 1
    case Leaving(_) => 1
    case Gone(_) => 0
  }

  /** After the announcement every session that no pause keeps can take its next
      step without its peer; the step brings it closer to its end and does not
      deliver it to the pause. */
  lemma DoneReleasesSessions(c: Config, sh: Shared, x: Session)
    requires sh.done && Attentive(sh, x) && !Trapped(sh, x) && !x.phase.Gone?
    ensures Enabled(c, sh, x, OwnEvent(c, sh, x))
    ensures var (sh', x') := Step(c, sh, x, OwnEvent(c, sh, x));
      StepsLeft(sh', x') < StepsLeft(sh, x) && !Trapped(sh', x')
  {
    hide Tracking.Tracker.Rarest, Tracking.Tracker.IsComplete, Fresh, OnMessage;
  }

  function StepsLeftOf(s: State): seq<nat> {
    seq(|s.sessions|, k requires 0 <= k < |s.sessions| => StepsLeft(s.shared, s.sessions[k]))
  }

  lemma OwnActReleases(c: Config, s: State, k: nat)
    requires s.shared.done && AllAttentive(s) && !Held(s) && k < |s.sessions| && !s.sessions[k].phase.Gone?
    ensures var a := At(k, OwnEvent(c, s.shared, s.sessions[k]));
      CanAct(c, s, a) && var s' := Act(c, s, a);
      && s'.shared.done && AllAttentive(s') && !Held(s')
      && Sum(StepsLeftOf(s')) < Sum(StepsLeftOf(s))
  {
    var x := s.sessions[k];
    var e := OwnEvent(c, s.shared, x);
    assert Attentive(s.shared, x) && !Trapped(s.shared, x);
    DoneReleasesSessions(c, s.shared, x);
    StepLeavesControl(c, s.shared, x, e);
    ActStaysAttentive(c, s, At(k, e));
    var s' := Act(c, s, At(k, e));
    hide Step, Enabled, OwnEvent, Attentive;
    forall j | 0 <= j < |s.sessions| && j != k
      ensures s'.sessions[j] == s.sessions[j] && !Trapped(s'.shared, s'.sessions[j])
      ensures StepsLeft(s'.shared, s'.sessions[j]) == StepsLeft(s.shared, s.sessions[j])
    {
      assert !Trapped(s.shared, s.sessions[j]);
    }
    SumUpdate(StepsLeftOf(s), k, StepsLeft(s'.shared, s'.sessions[k]));
    assert StepsLeftOf(s') == StepsLeftOf(s)[k := StepsLeft(s'.shared, s'.sessions[k])];
  }

  /** The sessions bring themselves to their ends. */
  lemma {:induction false} ReleasedRunReturns(c: Config, s: State) returns (states: seq<State>, actions: seq<Action>)
    requires s.shared.done && AllAttentive(s) && !Held(s)
    ensures Continues(c, s, states, actions) && ControlRests(actions) && HasReturned(states[|actions|])
    decreases Sum(StepsLeftOf(s))
  {
    hide AllAttentive, Held, CanAct, Act, OwnEvent, StepsLeftOf;
    if HasReturned(s) {
      states, actions := [s], [];
    } else {
      var k :| 0 <= k < |s.sessions| && !s.sessions[k].phase.Gone?;
      var a := At(k, OwnEvent(c, s.shared, s.sessions[k]));
      OwnActReleases(c, s, k);
      var rest, acts := ReleasedRunReturns(c, Act(c, s, a));
      states, actions := [s] + rest, [a] + acts;
    }
  }

  /** The run can come to its return, the control left as it is. */
  ghost predicate CanReturn(c: Config, s: State) {
    exists states, actions ::
      Continues(c, s, states, actions) && ControlRests(actions) && HasReturned(states[|actions|])
  }

  /** Once completion is announced, `run` can return without a control change, and
      without any peer, exactly when no session is kept by a pause. */
  lemma ReturnsIff(c: Config, peers: nat, states: seq<State>, actions: seq<Action>, n: nat)
    requires IsRun(c, peers, states, actions) && n < |states| && states[n].shared.done
    ensures CanReturn(c, states[n]) <==> !Held(states[n])
  {
    hide CanAct, Act, AllAttentive, HasReturned, Trapped, ControlRests, Continues;
    var s := states[n];
    NoLostWakeUp(c, peers, states, actions, n);
    if Held(s) {
      var k :| 0 <= k < |s.sessions| && Trapped(s.shared, s.sessions[k]);
      forall more, acts | Continues(c, s, more, acts) && ControlRests(acts)
        ensures |more| == |acts| + 1 && !HasReturned(more[|acts|])
      {
        ContinuesLength(c, s, more, acts);
        PausedRunNeverReturns(c, s, more, acts, k, |acts|);
      }
    } else {
      var more, acts := ReleasedRunReturns(c, s);
    }
  }

  lemma ContinuesLength(c: Config, s: State, states: seq<State>, actions: seq<Action>)
    requires Continues(c, s, states, actions)
    ensures |states| == |actions| + 1
  {
    hide CanAct, Act;
  }

  // ----- what a cancellation ends

  /** The next step a session takes without its peer, once the download is
      cancelled. */
  function CancelledEvent(c: Config, sh: Shared, x: Session): Event {
    if x.phase.Waiting? then ControlChanged else OwnEvent(c, sh, x)
  }

  function StepsToCancel(x: Session): nat {
    match x.phase
    case Reserving => 40
    case Filling => 24 + (if x.inFlight < MAX_PIPELINED_REQUESTS then MAX_PIPELINED_REQUESTS - x.inFlight else 0)
    case Waiting => 23
    case Emitting(_, _) => 23
    case Idling => 23
    case LoopHead => 22
    case Announcing => 2
    case Dialing => 1
    case Leaving(_) => 1
    case Gone(_) => 0
  }

  /** Every session can take its next step on its own, and each such step brings it
      closer to its end. */
  lemma CancelReleases(c: Config, sh: Shared, x: Session)
    requires sh.control.Cancelled? && Attentive(sh, x) && !x.phase.Gone?
    ensures Enabled(c, sh, x, CancelledEvent(c, sh, x))
    ensures StepsToCancel(Step(c, sh, x, CancelledEvent(c, sh, x)).1) < StepsToCancel(x)
  {
    hide Tracking.Tracker.Rarest, Tracking.Tracker.IsComplete, Fresh, OnMessage;
  }

  function StepsToCancelOf(s: State): seq<nat> {
    seq(|s.sessions|, k requires 0 <= k < |s.sessions| => StepsToCancel(s.sessions[k]))
  }

  lemma CancelActReleases(c: Config, s: State, k: nat)
    requires s.shared.control.Cancelled? && AllAttentive(s) && k < |s.sessions| && !s.sessions[k].phase.Gone?
    ensures var a := At(k, CancelledEvent(c, s.shared, s.sessions[k]));
      CanAct(c, s, a) && var s' := Act(c, s, a);
      && s'.shared.control.Cancelled? && AllAttentive(s')
      && Sum(StepsToCancelOf(s')) < Sum(StepsToCancelOf(s))
  {
    var x := s.sessions[k];
    var e := CancelledEvent(c, s.shared, x);
    assert Attentive(s.shared, x);
    CancelReleases(c, s.shared, x);
    StepLeavesControl(c, s.shared, x, e);
    ActStaysAttentive(c, s, At(k, e));
    var s' := Act(c, s, At(k, e));
    hide Step, Enabled, OwnEvent, CancelledEvent, Attentive, StepsToCancel;
    SumUpdate(StepsToCancelOf(s), k, StepsToCancel(s'.sessions[k]));
    assert StepsToCancelOf(s') == StepsToCancelOf(s)[k := StepsToCancel(s'.sessions[k])];
  }

  lemma {:induction false} CancelledRunEnds(c: Config, s: State) returns (states: seq<State>, actions: seq<Action>)
    requires s.shared.control.Cancelled? && AllAttentive(s)
    ensures Continues(c, s, states, actions) && ControlRests(actions) && HasReturned(states[|actions|])
    decreases Sum(StepsToCancelOf(s))
  {
    hide AllAttentive, CanAct, Act, CancelledEvent, StepsToCancelOf;
    if HasReturned(s) {
      states, actions := [s], [];
    } else {
      var k :| 0 <= k < |s.sessions| && !s.sessions[k].phase.Gone?;
      var a := At(k, CancelledEvent(c, s.shared, s.sessions[k]));
      CancelActReleases(c, s, k);
      var rest, acts := CancelledRunEnds(c, Act(c, s, a));
      states, actions := [s] + rest, [a] + acts;
    }
  }

  /** Whatever the sessions were doing, complete or not: once the download is
      cancelled and left so, `run` can return, without help from any peer. */
  lemma CancelReturns(c: Config, peers: nat, states: seq<State>, actions: seq<Action>, n: nat)
    requires IsRun(c, peers, states, actions) && n < |states| && states[n].shared.control.Cancelled?
    ensures CanReturn(c, states[n])
  {
    hide CanAct, Act, AllAttentive, HasReturned, ControlRests, Continues;
    NoLostWakeUp(c, peers, states, actions, n);
    var more, acts := CancelledRunEnds(c, states[n]);
  }
}
