/** What the state of a run says about its past: what each peer last said, what was
    asked of the coordinator, what came over the wire, and why sessions ended. */
module History {
  import opened Common
  import opened Piece
  import opened Assembler
  import opened Swarm
  import opened Invariants
  import opened Runs
  import opened Greetings
  import Returning
  import Pipeline
  import Theorems
  import Tracking
  import Bitfields
  import W = Wire

  // ----- what a peer has said

  /** Action `j` is session `k` receiving this message. */
  predicate Hears(actions: seq<Action>, j: nat, k: nat, m: W.Message) {
    j < |actions| && actions[j] == At(k, Receive(m))
  }

  predicate HearsChoke(actions: seq<Action>, j: nat, k: nat) { Hears(actions, j, k, W.Choke) }

  predicate HearsUnchoke(actions: seq<Action>, j: nat, k: nat) { Hears(actions, j, k, W.Unchoke) }

  /** Among the first `n` actions the peer of session `k` unchoked, and it has not
      choked since. */
  ghost predicate Unchoked(actions: seq<Action>, k: nat, n: nat) {
    exists j :: 0 <= j < n && HearsUnchoke(actions, j, k) && forall m :: j < m < n ==> !HearsChoke(actions, m, k)
  }

  /** What a step does to what the session knows of its peer. */
  lemma StepHears(c: Config, sh: Shared, x: Session, e: Event)
    requires Enabled(c, sh, x, e)
    ensures var x' := Step(c, sh, x, e).1;
      && (x'.choked <==> if e == Receive(W.Choke) then true else if e == Receive(W.Unchoke) then false else x.choked)
      && x'.peerHas == if e.Receive? then Learn(x.peerHas, e.message, c.Count()) else x.peerHas
  {
    hide CanRequest, OnMessage, OnReserve, Relinquish, Tracking.Tracker.RemoveBitfield;
    match e
    case Receive(m) => MessageHears(c, sh, x, m);
    case Reserve => ReserveHears(c, sh, x);
    case _ =>
  }

  lemma ReserveHears(c: Config, sh: Shared, x: Session)
    requires x.phase.Reserving?
    ensures var x' := OnReserve(c, sh, x).1; x'.choked == x.choked && x'.peerHas == x.peerHas
  {
    hide Tracking.Tracker.Rarest, Tracking.Tracker.IsComplete, Fresh;
  }

  lemma BlockHears(c: Config, sh: Shared, x: Session, b: W.Block)
    ensures var x' := OnBlock(c, sh, x, b).1; x'.choked == x.choked && x'.peerHas == x.peerHas
  {
    hide Assembly.AddBlock, Assembly.IsComplete, Config.Verifies, Tracking.Tracker.IsComplete;
  }

  lemma MessageHears(c: Config, sh: Shared, x: Session, m: W.Message)
    ensures var x' := OnMessage(c, sh, x, m).1;
      && (x'.choked <==> if m.Choke? then true else if m.Unchoke? then false else x.choked)
      && x'.peerHas == Learn(x.peerHas, m, c.Count())
  {
    hide OnBlock, Bitfields.FromWire, Relinquish;
    if m.Piece? {
      BlockHears(c, sh.(wire := sh.wire + |m.block.data|), x, m.block);
    }
    if m.Have? && m.index in x.peerHas {
      assert x.peerHas + {m.index} == x.peerHas;
    }
  }

  /** In every state of every run: a session takes its peer to be willing exactly
      when the peer has unchoked, and not choked since. */
  lemma {:induction false} ChokedIsLastWord(
    c: Config, peers: nat, states: seq<State>, actions: seq<Action>, n: nat, k: nat)
    requires IsRun(c, peers, states, actions) && n < |states| && k < peers
    ensures |states[n].sessions| == peers
    ensures !states[n].sessions[k].choked <==> Unchoked(actions, k, n)
  {
    hide CanAct, Act;
    if n > 0 {
      ChokedIsLastWord(c, peers, states, actions, n - 1, k);
      ActHears(c, states[n - 1], actions[n - 1], k);
      LastWord(actions, k, n);
    }
  }

  lemma LastWord(actions: seq<Action>, k: nat, n: nat)
    requires 0 < n <= |actions|
    ensures Unchoked(actions, k, n) <==>
      HearsUnchoke(actions, n - 1, k) || (Unchoked(actions, k, n - 1) && !HearsChoke(actions, n - 1, k))
  {
    if Unchoked(actions, k, n) {
      var j :| 0 <= j < n && HearsUnchoke(actions, j, k) && forall m :: j < m < n ==> !HearsChoke(actions, m, k);
      if j < n - 1 {
        assert !HearsChoke(actions, n - 1, k);
      }
    }
  }

  lemma ActHears(c: Config, s: State, a: Action, k: nat)
    requires CanAct(c, s, a) && k < |s.sessions|
    ensures |Act(c, s, a).sessions| == |s.sessions|
    ensures var (x, x') := (s.sessions[k], Act(c, s, a).sessions[k]);
      && (x'.choked <==>
            if a == At(k, Receive(W.Choke)) then true else if a == At(k, Receive(W.Unchoke)) then false else x.choked)
      && x'.peerHas ==
         if a.At? && a.peer == k && a.event.Receive? then Learn(x.peerHas, a.event.message, c.Count()) else x.peerHas
  {
    if a.At? && a.peer == k {
      StepHears(c, s.shared, s.sessions[k], a.event);
    }
    hide Step, Enabled, Learn;
  }

  /** No request is sent, and no piece taken up, but for a peer whose last word on it
      was to unchoke. */
  lemma ActsOnlyWhenUnchoked(
    c: Config, peers: nat, states: seq<State>, actions: seq<Action>, n: nat, k: nat)
    requires IsRun(c, peers, states, actions) && n < |actions| && k < peers
    requires |states[n].sessions| == |states[n + 1].sessions| == peers
    requires actions[n] == At(k, SendRequest)
      || (actions[n] == At(k, Reserve) && states[n + 1].sessions[k].current != states[n].sessions[k].current)
    ensures Unchoked(actions, k, n)
  {
    ChokedIsLastWord(c, peers, states, actions, n, k);
    assert CanAct(c, states[n], actions[n]) && states[n + 1] == Act(c, states[n], actions[n]);
    hide IsRun, Unchoked, Tracking.Tracker.Rarest, Tracking.Tracker.IsComplete, Fresh;
  }

  /** The messages that session `k` has received in the first `n` actions. */
  function Inbox(actions: seq<Action>, k: nat, n: nat): seq<W.Message>
    requires n <= |actions|
  {
    if n == 0 then []
    else
      var a := actions[n - 1];
      Inbox(actions, k, n - 1) + (if a.At? && a.peer == k && a.event.Receive? then [a.event.message] else [])
  }

  /** And what it takes its peer to have is what the peer has said. */
  lemma {:induction false} PeerHasIsWhatWasSaid(
    c: Config, peers: nat, states: seq<State>, actions: seq<Action>, n: nat, k: nat)
    requires IsRun(c, peers, states, actions) && n < |states| && k < peers
    ensures |states[n].sessions| == peers
    ensures states[n].sessions[k].peerHas == LearnAll(Inbox(actions, k, n), c.Count())
  {
    hide CanAct, Act, Learn;
    if n > 0 {
      PeerHasIsWhatWasSaid(c, peers, states, actions, n - 1, k);
      ActHears(c, states[n - 1], actions[n - 1], k);
      var before, now := Inbox(actions, k, n - 1), Inbox(actions, k, n);
      if now != before {
        assert now[..|now| - 1] == before;
      }
    }
  }

  // ----- what was asked of the coordinator

  /** The argument of the last control change. */
  function LastControl(actions: seq<Action>, n: nat): ControlState
    requires n <= |actions|
  {
    if n == 0 then Running
    else if actions[n - 1].SetControl? then actions[n - 1].control
    else LastControl(actions, n - 1)
  }

  function ControlChanges(actions: seq<Action>, n: nat): nat
    requires n <= |actions|
  {
    if n == 0 then 0
    else ControlChanges(actions, n - 1) + (if actions[n - 1].SetControl? then 1 else 0)
  }

  predicate Happened(actions: seq<Action>, n: nat, a: Action)
    requires n <= |actions|
  {
    exists j :: 0 <= j < n && actions[j] == a
  }

  predicate Announced(actions: seq<Action>, n: nat)
    requires n <= |actions|
  {
    exists j :: 0 <= j < n && actions[j].At? && actions[j].event.Announce?
  }

  /** The bytes of one action that came over the wire as blocks. */
  function BlockBytes(a: Action): nat {
    if a.At? && a.event.Receive? && a.event.message.Piece? then |a.event.message.block.data| else 0
  }

  function AllBlockBytes(actions: seq<Action>, n: nat): nat
    requires n <= |actions|
  {
    if n == 0 then 0 else AllBlockBytes(actions, n - 1) + BlockBytes(actions[n - 1])
  }

  lemma StepCounts(c: Config, sh: Shared, x: Session, k: nat, e: Event)
    requires Enabled(c, sh, x, e)
    ensures var sh' := Step(c, sh, x, e).0;
      && sh'.wire == sh.wire + BlockBytes(At(k, e))
      && sh'.everCancelled == sh.everCancelled
  {
    match e
    case Receive(m) =>
      MessageCounts(c, sh, x, m);
      hide Enabled, OnMessage, OnReserve, OnControl, OnEmit, OnSend, Relinquish;
    case Reserve =>
      ReserveCounts(c, sh, x);
      hide Enabled, OnMessage, OnReserve, OnControl, OnEmit, OnSend, Relinquish;
    case _ =>
      hide OnMessage, OnReserve, Relinquish, Tracking.Tracker.RemoveBitfield;
  }

  lemma MessageCounts(c: Config, sh: Shared, x: Session, m: W.Message)
    ensures var sh' := OnMessage(c, sh, x, m).0;
      && sh'.wire == sh.wire + BlockBytes(At(0, Receive(m)))
      && sh'.everCancelled == sh.everCancelled
  {
    if m.Piece? {
      Theorems.MessageIsBlock(c, sh, x, m.block);
      BlockCounts(c, sh.(wire := sh.wire + |m.block.data|), x, m.block);
    } else {
      OtherMessageCounts(c, sh, x, m);
    }
    hide OnMessage, OnBlock;
  }

  lemma BlockCounts(c: Config, sh: Shared, x: Session, b: W.Block)
    ensures var sh' := OnBlock(c, sh, x, b).0; sh'.wire == sh.wire && sh'.everCancelled == sh.everCancelled
  {
    hide Assembly.AddBlock, Assembly.IsComplete, Config.Verifies, Tracking.Tracker.IsComplete;
  }

  lemma OtherMessageCounts(c: Config, sh: Shared, x: Session, m: W.Message)
    requires !m.Piece?
    ensures var sh' := OnMessage(c, sh, x, m).0; sh'.wire == sh.wire && sh'.everCancelled == sh.everCancelled
  {
    hide OnBlock, Bitfields.FromWire, Relinquish;
  }

  lemma ReserveCounts(c: Config, sh: Shared, x: Session)
    ensures var sh' := OnReserve(c, sh, x).0; sh'.wire == sh.wire && sh'.everCancelled == sh.everCancelled
  {
    hide Tracking.Tracker.Rarest, Tracking.Tracker.IsComplete, Fresh;
  }

  /** What one action does to everything but the pieces. */
  lemma ActRecords(c: Config, s: State, a: Action)
    requires CanAct(c, s, a)
    ensures var (sh, sh') := (s.shared, Act(c, s, a).shared);
      && sh'.control == (if a.SetControl? then a.control else sh.control)
      && sh'.version == sh.version + (if a.SetControl? then 1 else 0)
      && (sh'.coordinatorAlive <==> sh.coordinatorAlive && a != DropCoordinator)
      && (sh'.receiverOpen <==> sh.receiverOpen && a != DropReceiver)
      && (sh'.done <==> sh.done || (a.At? && a.event.Announce?))
      && (sh'.everCancelled <==> sh.everCancelled || a == SetControl(Cancelled))
      && sh'.wire == sh.wire + BlockBytes(a)
  {
    if a.At? {
      Returning.StepLeavesControl(c, s.shared, s.sessions[a.peer], a.event);
      StepCounts(c, s.shared, s.sessions[a.peer], a.peer, a.event);
    }
    hide Step, Enabled;
  }

  /** In every state of every run: the control is what was last asked for, its version
      counts the requests, the coordinator and the receiver are there until dropped,
      completion is announced once a session has announced it, and the wire total is
      the sum of the blocks received. */
  lemma {:induction false} SharedIsHistory(
    c: Config, peers: nat, states: seq<State>, actions: seq<Action>, n: nat)
    requires IsRun(c, peers, states, actions) && n < |states|
    ensures states[n].shared.control == LastControl(actions, n)
    ensures states[n].shared.version == ControlChanges(actions, n)
    ensures states[n].shared.coordinatorAlive <==> !Happened(actions, n, DropCoordinator)
    ensures states[n].shared.receiverOpen <==> !Happened(actions, n, DropReceiver)
    ensures states[n].shared.everCancelled <==> Happened(actions, n, SetControl(Cancelled))
    ensures states[n].shared.done <==> Announced(actions, n)
    ensures states[n].shared.wire == AllBlockBytes(actions, n)
  {
    hide CanAct, Act, BlockBytes;
    if n > 0 {
      SharedIsHistory(c, peers, states, actions, n - 1);
      ActRecords(c, states[n - 1], actions[n - 1]);
      OneMore(actions, n, DropCoordinator);
      OneMore(actions, n, DropReceiver);
      OneMore(actions, n, SetControl(Cancelled));
      OneMoreAnnounced(actions, n);
      hide Happened, Announced;
    }
  }

  lemma OneMore(actions: seq<Action>, n: nat, a: Action)
    requires 0 < n <= |actions|
    ensures Happened(actions, n, a) <==> Happened(actions, n - 1, a) || actions[n - 1] == a
  {
  }

  lemma OneMoreAnnounced(actions: seq<Action>, n: nat)
    requires 0 < n <= |actions|
    ensures Announced(actions, n) <==>
      Announced(actions, n - 1) || (actions[n - 1].At? && actions[n - 1].event.Announce?)
  {
  }

  /** How many actions came before session `k` last looked at the control. */
  function LastLook(actions: seq<Action>, k: nat, n: nat): (j: nat)
    requires n <= |actions|
    ensures j <= n
  {
    if n == 0 then 0
    else if actions[n - 1] == At(k, ReadControl) || actions[n - 1] == At(k, ControlChanged) then n - 1
    else LastLook(actions, k, n - 1)
  }

  lemma StepSees(c: Config, sh: Shared, x: Session, e: Event)
    requires Enabled(c, sh, x, e)
    ensures Step(c, sh, x, e).1.seen == if e.ReadControl? || e.ControlChanged? then sh.version else x.seen
  {
    hide OnMessage, OnReserve, CanRequest, Relinquish, Tracking.Tracker.RemoveBitfield;
    match e
    case Receive(m) => Returning.MessageLeavesControl(c, sh, x, m);
    case Reserve => Returning.ReserveLeavesControl(c, sh, x);
    case _ =>
  }

  /** A session has seen the changes that were made before it last looked. */
  lemma {:induction false} SeenIsLastLook(
    c: Config, peers: nat, states: seq<State>, actions: seq<Action>, n: nat, k: nat)
    requires IsRun(c, peers, states, actions) && n < |states| && k < peers
    ensures |states[n].sessions| == peers
    ensures states[n].sessions[k].seen == ControlChanges(actions, LastLook(actions, k, n))
  {
    hide Enabled, Step, ControlChanges;
    if n == 0 {
      NoChanges(actions);
    } else {
      SeenIsLastLook(c, peers, states, actions, n - 1, k);
      SharedIsHistory(c, peers, states, actions, n - 1);
      var s, a := states[n - 1], actions[n - 1];
      assert CanAct(c, s, a) && states[n] == Act(c, s, a);
      hide IsRun;
      if a.At? && a.peer == k {
        StepSees(c, s.shared, s.sessions[k], a.event);
      }
    }
  }

  lemma NoChanges(actions: seq<Action>)
    ensures ControlChanges(actions, 0) == 0
  {
  }

  /** From any reachable state the call to cancel brings the run to where it can
      return: whatever the sessions were doing, without help from any peer. */
  lemma CancelCallReturns(c: Config, peers: nat, states: seq<State>, actions: seq<Action>, n: nat)
    requires IsRun(c, peers, states, actions) && n < |states| && states[n].shared.coordinatorAlive
    ensures CanAct(c, states[n], SetControl(Cancelled))
    ensures Returning.CanReturn(c, Act(c, states[n], SetControl(Cancelled)))
  {
    var a := SetControl(Cancelled);
    var more, all := states[..n + 1] + [Act(c, states[n], a)], actions[..n] + [a];
    assert IsRun(c, peers, more, all) by {
      hide Act, Init;
    }
    Returning.CancelReturns(c, peers, more, all, n + 1);
    hide Returning.CanReturn, IsRun;
  }

  // ----- why a session leaves its loop

  /** The bitfield has not one byte for every eight pieces begun. */
  predicate WrongLength(bits: seq<Byte>, n: nat) {
    !(8 * |bits| >= n && (bits != [] ==> 8 * (|bits| - 1) < n))
  }

  /** The block is for the piece in work, and misplaced or too long for it. */
  predicate Misplaced(x: Session, b: W.Block) {
    && x.current.Some? && b.index == x.current.value.index
    && (b.begin % 16384 != 0 || b.begin + |b.data| > x.current.value.length)
  }

  /** The event makes the session leave for this reason. */
  predicate Leaves(c: Config, sh: Shared, x: Session, e: Event, why: Exit) {
    match why
    case WasCancelled => e.ReadControl? && sh.control.Cancelled?
    case PeerClosed => e.Closed?
    case Orphaned => e.CoordinatorDropped?
    case SiblingDone => e.DoneChanged?
    case TorrentDone => e.Announce?
    case Failed =>
      || e.SendFails? || e.ReceiveFails?
      || (e.Receive? && e.message.Bitfield? && WrongLength(e.message.bits, c.Count()))
      || (e.Receive? && e.message.Piece? && Misplaced(x, e.message.block))
    case _ => false
  }

  lemma MessageLeavesIff(c: Config, sh: Shared, x: Session, m: W.Message, why: Exit)
    requires SessionInv(c, sh, x) && x.phase.Waiting?
    requires m.Piece? ==> |m.block.data| < U32_LIMIT
    ensures OnMessage(c, sh, x, m).1.phase == Leaving(why) <==> Leaves(c, sh, x, Receive(m), why)
  {
    hide Below, RequestsInOrder, Bitfields.FromWire, OnWholePiece, Relinquish;
    match m
    case Piece(b) =>
      Theorems.MessageIsBlock(c, sh, x, b);
      if x.current.Some? {
        AddBlockOutcome(x.current.value, b.begin, b.data);
        var y := x.(inFlight := if x.inFlight > 0 then x.inFlight - 1 else 0, current := None);
        WholePieceStays(c, sh.(wire := sh.wire + |b.data|), y, x.current.value.AddBlock(b.begin, b.data).1);
      }
      hide OnMessage, Assembly.AddBlock, Assembly.Valid, Assembly.IsComplete;
    case Bitfield(bits) =>
      Bitfields.WireMeansMarked(bits, c.Count());
      hide OnBlock, Assembly.Valid;
    case _ =>
      hide OnBlock, Assembly.Valid;
  }

  lemma WholePieceStays(c: Config, sh: Shared, x: Session, a: Assembly)
    ensures !OnWholePiece(c, sh, x, a).1.phase.Leaving? && !OnWholePiece(c, sh, x, a).1.phase.Gone?
  {
    hide Tracking.Tracker.IsComplete, Config.Verifies;
  }

  /** A step leaves the loop exactly for these reasons: a bad piece, a block for some
      other piece, an unknown index and a time-out are none of them. */
  lemma LeavesIff(c: Config, sh: Shared, x: Session, e: Event, why: Exit)
    requires SessionInv(c, sh, x) && Enabled(c, sh, x, e)
    requires e.Receive? && e.message.Piece? ==> |e.message.block.data| < U32_LIMIT
    ensures Step(c, sh, x, e).1.phase == Leaving(why) <==> Leaves(c, sh, x, e, why)
  {
    hide CanRequest, OnMessage, OnReserve, Relinquish, Tracking.Tracker.RemoveBitfield, Window;
    match e
    case Receive(m) =>
      MessageLeavesIff(c, sh, x, m, why);
      hide Leaves, SessionInv;
    case Reserve =>
      ReserveFrame(c, sh, x);
    case _ =>
  }

  /** What becomes of a piece when its last block comes: owned already, it is
      dropped; with the right hash it is owned and goes to the channel next; with a
      wrong one it is given back, and the session goes on. */
  lemma WholePieceOutcome(c: Config, sh: Shared, x: Session, b: W.Block)
    requires SharedInv(c, sh) && SessionInv(c, sh, x) && x.phase.Waiting? && x.current.Some?
    requires GivesUp(sh, x, Receive(W.Piece(b)))
    ensures var (sh', x') := Step(c, sh, x, Receive(W.Piece(b)));
      var i, data := x.current.value.index, x.current.value.AddBlock(b.begin, b.data).1.buf;
      && x'.current.None? && sh'.sent == sh.sent && sh'.lost == sh.lost
      && (if i in sh.tracker.have then
            && sh'.tracker == sh.tracker
            && x'.phase == if sh.tracker.IsComplete() then Announcing else LoopHead
          else if i < |c.hashes| && c.sha1(data) == c.hashes[i] then
            && sh'.tracker.have == sh.tracker.have + {i} && sh'.tracker.claimed == sh.tracker.claimed - {i}
            && x'.phase == Emitting(VerifiedPiece(i, data), sh'.tracker.IsComplete())
          else
            && sh'.tracker.have == sh.tracker.have && sh'.tracker.claimed == sh.tracker.claimed - {i}
            && x'.phase == LoopHead)
  {
    AddBlockKeepsIndex(x.current.value, b.begin, b.data);
    assert x.current.value.index < c.Count();
    Theorems.MessageIsBlock(c, sh, x, b);
    hide OnMessage, Below, Assembly.AddBlock, Assembly.Valid, Assembly.IsComplete, Tracking.Tracker.IsComplete,
      PhaseHolds, RequestsInOrder;
  }

  // ----- what is possible at the wait point

  /** At the wait point a session can hear any message, a close and a failure; a
      control change if there is one it has not seen, or the coordinator is gone;
      the news of completion if it has been announced; the time-out if it works on
      a piece for which it made more requests than it took in blocks; and nothing
      else. */
  lemma PossibleAtWait(c: Config, sh: Shared, x: Session, e: Event)
    requires SessionInv(c, sh, x) && Pipeline.Counted(c, x) && x.phase.Waiting?
    ensures Enabled(c, sh, x, e) <==>
      match e
      case Receive(_) => true
      case Closed => true
      case ReceiveFails => true
      case ControlChanged => x.seen != sh.version || !sh.coordinatorAlive
      case DoneChanged => sh.done
      case TimedOut => x.current.Some? && |x.answers| < |x.requests|
      case _ => false
  {
    hide Assembly.Valid, PhaseHolds, Below;
  }

  /** A session waits with a piece only when five requests are in flight or every
      block has been requested. */
  lemma WaitsWithFullWindow(
    c: Config, peers: nat, states: seq<State>, actions: seq<Action>, n: nat, k: nat)
    requires c.WellFormed() && IsRun(c, peers, states, actions) && n < |states| && k < |states[n].sessions|
    requires states[n].sessions[k].phase.Waiting? && states[n].sessions[k].current.Some?
    ensures var x := states[n].sessions[k];
      && x.inFlight <= 5
      && (x.inFlight == 5 || |x.requests| == c.geometry.NumBlocks(x.current.value.index))
  {
    hide CanAct, Act, Init, SharedInv, AvailabilityExact, ClaimsExact, ExactlyOnce, PhaseHolds, Assembly.Valid;
    RunHolds(c, peers, states, actions, n);
    Pipeline.RunStaysCounted(c, peers, states, actions, n, k);
    assert SessionInv(c, states[n].shared, states[n].sessions[k]);
  }
}
