/** What `in_flight` counts: requests made, less blocks taken in. */
module Pipeline {
  import opened Common
  import opened Piece
  import opened Assembler
  import opened Swarm
  import opened Invariants
  import opened Runs
  import Tracking
  import Bitfields
  import W = Wire

  /** The blocks taken in for the current piece are the ones marked; the counter is
      the requests less the blocks taken in, and stops at zero, which it can do
      only when nothing is left to request; and a session waits only when it can
      request no more. */
  ghost predicate Counted(c: Config, x: Session) {
    && (x.phase.Waiting? ==> !CanRequest(c, x))
    && (x.current.Some? ==>
          var a := x.current.value;
          && (forall k :: 0 <= k < |a.received| ==> (a.received[k] <==> k in x.answers))
          && (forall i :: 0 <= i < |x.answers| ==> x.answers[i] < |a.received|)
          && x.inFlight == Max(0, x.nextBlock - |x.answers|)
          && (x.nextBlock < |x.answers| ==> x.nextBlock == |a.received|))
  }

  lemma SendStaysCounted(c: Config, x: Session)
    requires Counted(c, x) && Window(c, x) && x.phase.Filling? && CanRequest(c, x)
    ensures Counted(c, OnSend(c, x))
  {
    hide RequestsInOrder;
  }

  lemma AnswerStaysCounted(c: Config, x: Session, b: W.Block)
    requires Counted(c, x) && Window(c, x) && x.phase.Waiting? && x.current.Some?
    requires x.current.value.AddBlock(b.begin, b.data).0.Accepted?
    ensures Counted(c, x.(
      phase := LoopHead,
      current := Some(x.current.value.AddBlock(b.begin, b.data).1),
      inFlight := if x.inFlight > 0 then x.inFlight - 1 else 0,
      answers := x.answers + [b.begin / BLOCK_SIZE]))
  {
    hide RequestsInOrder;
    AddBlockKeepsValid(x.current.value, b.begin, b.data);
  }

  lemma WholePieceStaysCounted(c: Config, sh: Shared, x: Session, a: Assembly)
    requires x.current.None?
    ensures Counted(c, OnWholePiece(c, sh, x, a).1)
  {
    hide Tracking.Tracker.IsComplete, Config.Verifies;
  }

  lemma BlockStaysCounted(c: Config, sh: Shared, x: Session, b: W.Block)
    requires Counted(c, x) && Window(c, x) && x.phase.Waiting?
    ensures Counted(c, OnBlock(c, sh, x, b).1)
  {
    hide RequestsInOrder, OnWholePiece, Assembly.Valid, Assembly.AddBlock, Assembly.IsComplete;
    if x.current.Some? {
      var (verdict, a) := x.current.value.AddBlock(b.begin, b.data);
      var y := x.(inFlight := if x.inFlight > 0 then x.inFlight - 1 else 0, current := None);
      WholePieceStaysCounted(c, sh, y, a);
      if verdict.Accepted? {
        AnswerStaysCounted(c, x, b);
      }
    }
  }

  lemma MessageStaysCounted(c: Config, sh: Shared, x: Session, m: W.Message)
    requires Counted(c, x) && Window(c, x) && x.phase.Waiting?
    ensures Counted(c, OnMessage(c, sh, x, m).1)
  {
    hide RequestsInOrder, OnBlock, Assembly.Valid, Assembly.IsComplete, Bitfields.FromWire, Relinquish;
    if m.Piece? {
      BlockStaysCounted(c, sh.(wire := sh.wire + |m.block.data|), x, m.block);
    }
  }

  lemma ReserveStaysCounted(c: Config, sh: Shared, x: Session)
    requires Counted(c, x) && x.phase.Reserving?
    ensures Counted(c, OnReserve(c, sh, x).1)
  {
    hide Tracking.Tracker.Rarest, Tracking.Tracker.IsComplete;
  }

  lemma StepStaysCounted(c: Config, sh: Shared, x: Session, e: Event)
    requires Counted(c, x) && Window(c, x) && Enabled(c, sh, x, e)
    ensures Counted(c, Step(c, sh, x, e).1)
  {
    hide RequestsInOrder, OnReserve, OnMessage, OnSend, Assembly.Valid, Assembly.IsComplete, Relinquish;
    match e
    case Receive(m) => MessageStaysCounted(c, sh, x, m);
    case Reserve => ReserveStaysCounted(c, sh, x);
    case SendRequest => SendStaysCounted(c, x);
    case _ =>
  }

  /** In every state of every run. */
  lemma {:induction false} RunStaysCounted(
    c: Config, peers: nat, states: seq<State>, actions: seq<Action>, n: nat, k: nat)
    requires c.WellFormed() && IsRun(c, peers, states, actions) && n < |states| && k < |states[n].sessions|
    ensures Counted(c, states[n].sessions[k])
  {
    hide CanAct, Act, Inv, Counted;
    if n == 0 {
      StartsCounted(c, peers, k);
    } else {
      ActKeepsSessions(c, states[n - 1], actions[n - 1]);
      RunHolds(c, peers, states, actions, n - 1);
      RunStaysCounted(c, peers, states, actions, n - 1, k);
      ActStaysCounted(c, states[n - 1], actions[n - 1], k);
    }
  }

  lemma StartsCounted(c: Config, peers: nat, k: nat)
    requires k < peers
    ensures Counted(c, Init(c, peers).sessions[k])
  {
  }

  lemma ActKeepsSessions(c: Config, s: State, a: Action)
    requires CanAct(c, s, a)
    ensures |Act(c, s, a).sessions| == |s.sessions|
  {
    hide Step, Enabled;
  }

  lemma ActStaysCounted(c: Config, s: State, a: Action, k: nat)
    requires Inv(c, s) && CanAct(c, s, a) && k < |s.sessions| && Counted(c, s.sessions[k])
    ensures |Act(c, s, a).sessions| == |s.sessions| && Counted(c, Act(c, s, a).sessions[k])
  {
    hide Counted, SharedInv, AvailabilityExact, ClaimsExact, ExactlyOnce, Window, PhaseHolds;
    if a.At? && a.peer == k {
      assert SessionInv(c, s.shared, s.sessions[k]);
      StepStaysCounted(c, s.shared, s.sessions[k], a.event);
    }
    hide Step, Enabled;
  }

  /** While a piece is held, `in_flight` is the number of requests made since the
      reservation less the number of blocks taken in since, or zero if more were
      taken in. */
  lemma InFlightIsExact(
    c: Config, peers: nat, states: seq<State>, actions: seq<Action>, n: nat, k: nat)
    requires c.WellFormed() && IsRun(c, peers, states, actions) && n < |states|
    requires k < |states[n].sessions| && states[n].sessions[k].current.Some?
    ensures var x := states[n].sessions[k];
      && |x.requests| == x.nextBlock
      && x.inFlight == Max(0, |x.requests| - |x.answers|)
      && (forall j :: 0 <= j < |x.current.value.received| ==> (x.current.value.received[j] <==> j in x.answers))
  {
    hide CanAct, Act, Init, SharedInv, AvailabilityExact, ClaimsExact, ExactlyOnce, PhaseHolds, Assembly.Valid;
    RunHolds(c, peers, states, actions, n);
    RunStaysCounted(c, peers, states, actions, n, k);
    assert SessionInv(c, states[n].shared, states[n].sessions[k]);
  }

  // ----- what that means for requests

  /** Requests made and not answered. */
  function Unanswered(x: Session): set<nat>
    requires x.current.Some?
  {
    set j: nat | j in Below(x.nextBlock) && j !in x.answers
  }

  /** Blocks that came before they were requested. */
  function Early(x: Session): set<nat>
    requires x.current.Some?
  {
    set j: nat | j in x.answers && j >= x.nextBlock
  }

  predicate NoRepeats(answers: seq<nat>) {
    forall i, j :: 0 <= i < j < |answers| ==> answers[i] != answers[j]
  }

  function Blocks(answers: seq<nat>): set<nat> {
    set j: nat | j in answers
  }

  lemma {:induction false} RepeatsShrink(answers: seq<nat>)
    ensures |Blocks(answers)| <= |answers|
    ensures |Blocks(answers)| == |answers| <==> NoRepeats(answers)
  {
    if answers != [] {
      var front, last := answers[..|answers| - 1], answers[|answers| - 1];
      RepeatsShrink(front);
      assert answers == front + [last];
      assert Blocks(answers) == Blocks(front) + {last};
      if last in front {
        assert Blocks(answers) == Blocks(front);
        var i :| 0 <= i < |front| && front[i] == last;
        assert answers[i] == answers[|answers| - 1];
      } else {
        assert forall i :: 0 <= i < |front| ==> answers[i] == front[i] && front[i] in front;
        assert last !in Blocks(front);
      }
      if NoRepeats(answers) {
        assert forall i :: 0 <= i < |front| ==> answers[i] == front[i];
      }
    }
  }

  lemma CountBlocks(x: Session)
    requires x.current.Some?
    ensures |Unanswered(x)| - |Early(x)| == x.nextBlock - |Blocks(x.answers)|
  {
    var made, got := Below(x.nextBlock), Blocks(x.answers);
    assert Unanswered(x) == made - got;
    assert Early(x) == got - made;
    assert |made - got| == |made| - |made * got|;
    assert |got - made| == |got| - |made * got|;
  }

  /** The counter is what it is said to be, the outstanding requests, less those
      blocks that came early, exactly when no block was repeated. */
  lemma InFlightCountsRequestsIff(
    c: Config, peers: nat, states: seq<State>, actions: seq<Action>, n: nat, k: nat)
    requires c.WellFormed() && IsRun(c, peers, states, actions) && n < |states|
    requires k < |states[n].sessions| && states[n].sessions[k].current.Some?
    ensures var x := states[n].sessions[k];
      x.inFlight == |Unanswered(x)| - |Early(x)| <==> NoRepeats(x.answers)
  {
    hide CanAct, Act, Init, SharedInv, AvailabilityExact, ClaimsExact, ExactlyOnce, PhaseHolds, RequestsInOrder;
    RunHolds(c, peers, states, actions, n);
    RunStaysCounted(c, peers, states, actions, n, k);
    var x := states[n].sessions[k];
    assert SessionInv(c, states[n].shared, x);
    CountersCompare(c, x);
  }

  lemma CountersCompare(c: Config, x: Session)
    requires Window(c, x) && Counted(c, x) && x.current.Some?
    ensures x.inFlight == |Unanswered(x)| - |Early(x)| <==> NoRepeats(x.answers)
  {
    hide RequestsInOrder;
    CountBlocks(x);
    RepeatsShrink(x.answers);
    var a := x.current.value;
    if x.nextBlock == |a.received| {
      assert Blocks(x.answers) <= Below(|a.received|);
      FullSubset(Blocks(x.answers), |a.received|);
      CompleteIff(a);
      var missing :| 0 <= missing < |a.received| && !a.received[missing];
      assert missing in Below(|a.received|) && missing !in Blocks(x.answers);
    }
  }

  // ----- and for the time-out

  /** The event is the peer's doing. */
  predicate FromPeer(e: Event) {
    e.Receive? || e.Closed? || e.ReceiveFails?
  }

  /** A session that waits with a piece, undisturbed by the controls and by its
      siblings, depends on its peer alone exactly when it has taken in at least as
      many blocks as it requested. */
  lemma StallsIff(c: Config, sh: Shared, x: Session)
    requires Counted(c, x) && Window(c, x) && x.phase.Waiting? && x.current.Some?
    ensures Enabled(c, sh, x, TimedOut) <==> |x.answers| < |x.requests|
    ensures x.seen == sh.version && sh.coordinatorAlive && !sh.done ==>
      ((forall e: Event :: Enabled(c, sh, x, e) ==> FromPeer(e)) <==> |x.answers| >= |x.requests|)
  {
    hide Assembly.Valid;
    if forall e: Event :: Enabled(c, sh, x, e) ==> FromPeer(e) {
      assert !FromPeer(TimedOut);
    }
  }
}
