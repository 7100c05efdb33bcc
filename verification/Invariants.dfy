/** What every step of the protocol keeps. */
module Invariants {
  import opened Common
  import opened Piece
  import opened Assembler
  import opened Swarm
  import Tracking
  import Bitfields
  import W = Wire

  // ----- one session

  /** The requests made since the reservation: blocks `0..count`, each once. */
  ghost predicate RequestsInOrder(c: Config, index: nat, count: nat, requests: seq<W.BlockInfo>) {
    && |requests| == count
    && forall k :: 0 <= k < count ==> requests[k] == c.geometry.BlockInfoAt(index, k)
  }

  /** What holding a piece means. */
  ghost predicate Window(c: Config, x: Session) {
    x.current.Some? ==>
      var a := x.current.value;
      && !x.choked
      && a.index < c.Count()
      && a.length == c.geometry.PieceLength(a.index)
      && a.Valid() && !a.IsComplete()
      && x.inFlight <= MAX_PIPELINED_REQUESTS && x.inFlight <= x.nextBlock
      && x.nextBlock <= c.geometry.NumBlocks(a.index)
      && RequestsInOrder(c, a.index, x.nextBlock, x.requests)
  }

  /** A piece fit for the disk: right length, right hash. */
  predicate Sound(c: Config, p: VerifiedPiece) {
    && p.index < c.Count()
    && |p.data| == c.geometry.PieceLength(p.index)
    && c.Verifies(p.index, p.data)
  }

  /** The stated reason for leaving is the true one. */
  predicate ReasonHolds(sh: Shared, why: Exit) {
    match why
    case TorrentDone => sh.done
    case SiblingDone => sh.done
    case WasCancelled => sh.everCancelled
    case Orphaned => !sh.coordinatorAlive
    case _ => true
  }

  ghost predicate PhaseHolds(c: Config, sh: Shared, x: Session) {
    match x.phase
    case Dialing => x.peerHas == {} && x.current.None?
    case LoopHead => true
    case Reserving => true
    case Filling => !x.choked && x.current.None? ==> x.peerHas <= sh.tracker.have
    case Waiting => !x.choked && x.current.None? ==> x.peerHas <= sh.tracker.have
    case Idling => x.current.None?
    case Emitting(p, complete) =>
      && x.current.None? && Sound(c, p) && p.index in sh.tracker.have
      && (complete ==> sh.tracker.IsComplete())
    case Announcing => x.current.None? && sh.tracker.IsComplete()
    case Leaving(why) => ReasonHolds(sh, why) && !why.Refused? && !why.Panicked?
    case Gone(why) => ReasonHolds(sh, why) && (why.Refused? ==> x.peerHas == {})
  }

  ghost predicate SessionInv(c: Config, sh: Shared, x: Session) {
    && x.peerHas <= Below(c.Count())
    && Window(c, x)
    && PhaseHolds(c, sh, x)
  }

  // ----- the shared state

  ghost predicate SharedInv(c: Config, sh: Shared) {
    && Tracking.Good(sh.tracker, c.Count())
    && (sh.done ==> sh.tracker.IsComplete())
    && (sh.control.Cancelled? ==> sh.everCancelled)
    && forall p :: p in sh.sent || p in sh.lost ==> Sound(c, p)
  }

  /** What one session's step may do to the shared state the others rely on. */
  ghost predicate Evolves(sh: Shared, sh': Shared) {
    && Tracking.Grows(sh.tracker, sh'.tracker)
    && (sh.done ==> sh'.done)
    && (sh.everCancelled ==> sh'.everCancelled)
    && (sh.endgame ==> sh'.endgame)
    && (sh'.coordinatorAlive ==> sh.coordinatorAlive)
    && sh.sent <= sh'.sent && sh.lost <= sh'.lost
    && sh.wire <= sh'.wire
  }

  lemma EvolvesKeepsOthers(c: Config, sh: Shared, sh': Shared, x: Session)
    requires SessionInv(c, sh, x) && Evolves(sh, sh')
    ensures SessionInv(c, sh', x)
  {
    hide Assembly.Valid, Below, RequestsInOrder, Tracking.Tracker.IsComplete;
  }

  lemma EvolvesChain(a: Shared, b: Shared, d: Shared)
    requires Evolves(a, b) && Evolves(b, d)
    ensures Evolves(a, d)
  {
    hide Tracking.Tracker.IsComplete;
  }

  /** A step that touches only the tracker, and gently. */
  lemma TrackerStep(c: Config, sh: Shared, t: Tracking.Tracker)
    requires SharedInv(c, sh) && Tracking.Good(t, c.Count()) && Tracking.Grows(sh.tracker, t)
    ensures SharedInv(c, sh.(tracker := t)) && Evolves(sh, sh.(tracker := t))
  {
    hide Tracking.Good, Tracking.Tracker.IsComplete;
  }

  lemma NoStep(c: Config, sh: Shared)
    ensures Evolves(sh, sh)
  {
  }

  lemma RelinquishStep(c: Config, sh: Shared, x: Session)
    requires SharedInv(c, sh)
    ensures var sh' := sh.(tracker := Relinquish(sh.tracker, x));
      SharedInv(c, sh') && Evolves(sh, sh')
  {
    if x.current.Some? {
      Tracking.ReleaseKeeps(sh.tracker, c.Count(), x.current.value.index);
      TrackerStep(c, sh, sh.tracker.Release(x.current.value.index));
    } else {
      NoStep(c, sh);
    }
  }

  // ----- step by step

  lemma FreshWindow(c: Config, x: Session, index: nat)
    requires c.WellFormed() && index < c.Count() && !x.choked
    ensures Window(c, StartPiece(c, x, index))
  {
    FreshIsValid(index, c.geometry.PieceLength(index));
    PiecesTile(c.geometry, index);
    hide Assembly.Valid;
  }

  lemma ReserveKeeps(c: Config, sh: Shared, x: Session)
    requires c.WellFormed() && SharedInv(c, sh) && SessionInv(c, sh, x) && x.phase.Reserving?
    ensures var (sh', x') := OnReserve(c, sh, x);
      SharedInv(c, sh') && Evolves(sh, sh') && SessionInv(c, sh', x')
  {
    hide Assembly.Valid, Below, RequestsInOrder, Tracking.Tracker.IsComplete;
    NoStep(c, sh);
    if x.current.None? && !x.choked {
      var (reserved, t) := sh.tracker.Reserve(x.peerHas);
      Tracking.ReserveKeeps(sh.tracker, c.Count(), x.peerHas);
      if reserved.Some? {
        TrackerStep(c, sh, t);
        FreshWindow(c, x, reserved.value);
      } else if !sh.tracker.IsComplete() {
        Tracking.EndgameStrandsNothing(sh.tracker, x.peerHas);
        var shared := sh.tracker.ReserveEndgame(x.peerHas);
        if shared.Some? {
          FreshWindow(c, x, shared.value);
        }
      }
    }
  }

  lemma SendKeeps(c: Config, sh: Shared, x: Session)
    requires SessionInv(c, sh, x) && x.phase.Filling? && CanRequest(c, x)
    ensures SessionInv(c, sh, OnSend(c, x))
  {
    hide Assembly.Valid, Below;
  }

  lemma WholePieceKeeps(c: Config, sh: Shared, x: Session, a: Assembly)
    requires c.WellFormed() && SharedInv(c, sh)
    requires x.peerHas <= Below(c.Count()) && x.current.None?
    requires a.index < c.Count() && a.Valid() && a.length == c.geometry.PieceLength(a.index)
    ensures var (sh', x') := OnWholePiece(c, sh, x, a);
      SharedInv(c, sh') && Evolves(sh, sh') && SessionInv(c, sh', x')
  {
    assert |a.buf| == a.length;
    NoStep(c, sh);
    Tracking.MarkHaveKeeps(sh.tracker, c.Count(), a.index);
    Tracking.ReleaseKeeps(sh.tracker, c.Count(), a.index);
    TrackerStep(c, sh, sh.tracker.MarkHave(a.index));
    TrackerStep(c, sh, sh.tracker.Release(a.index));
    hide Assembly.Valid, Below, RequestsInOrder, SharedInv, Evolves,
      Tracking.Tracker.IsComplete, Tracking.Tracker.MarkHave, Tracking.Tracker.Release;
  }

  lemma BlockKeeps(c: Config, sh: Shared, x: Session, b: W.Block)
    requires c.WellFormed() && SharedInv(c, sh) && SessionInv(c, sh, x) && x.phase.Waiting?
    ensures var (sh', x') := OnBlock(c, sh, x, b);
      SharedInv(c, sh') && Evolves(sh, sh') && SessionInv(c, sh', x')
  {
    NoStep(c, sh);
    if x.current.Some? && b.index == x.current.value.index {
      AddBlockKeepsValid(x.current.value, b.begin, b.data);
      hide Assembly.Valid, Assembly.AddBlock, Below, RequestsInOrder, SharedInv, Evolves, OnWholePiece;
      var (verdict, a) := x.current.value.AddBlock(b.begin, b.data);
      if verdict.Accepted? && a.IsComplete() {
        var y := x.(inFlight := if x.inFlight > 0 then x.inFlight - 1 else 0);
        WholePieceKeeps(c, sh, y.(current := None), a);
      }
    }
  }

  lemma WireStep(c: Config, sh: Shared, more: nat)
    requires SharedInv(c, sh)
    ensures SharedInv(c, sh.(wire := sh.wire + more)) && Evolves(sh, sh.(wire := sh.wire + more))
  {
    hide Tracking.Good, Tracking.Tracker.IsComplete;
  }

  lemma PieceKeeps(c: Config, sh: Shared, x: Session, block: W.Block)
    requires c.WellFormed() && SharedInv(c, sh) && SessionInv(c, sh, x) && x.phase.Waiting?
    ensures var (sh', x') := OnMessage(c, sh, x, W.Piece(block));
      SharedInv(c, sh') && Evolves(sh, sh') && SessionInv(c, sh', x')
  {
    hide SharedInv, SessionInv, Evolves, OnBlock;
    var counted := sh.(wire := sh.wire + |block.data|);
    WireStep(c, sh, |block.data|);
    EvolvesKeepsOthers(c, sh, counted, x);
    assert x.phase.Waiting?;
    BlockKeeps(c, counted, x, block);
    EvolvesChain(sh, counted, OnBlock(c, counted, x, block).0);
  }

  lemma HaveKeeps(c: Config, sh: Shared, x: Session, index: u32)
    requires SharedInv(c, sh) && SessionInv(c, sh, x) && x.phase.Waiting?
    ensures var (sh', x') := OnMessage(c, sh, x, W.Have(index));
      SharedInv(c, sh') && Evolves(sh, sh') && SessionInv(c, sh', x')
  {
    hide Below;
    assert index < c.Count() <==> index in Below(c.Count());
    var t := sh.tracker.AddAvailability(index);
    Tracking.AvailabilityKeeps(sh.tracker, c.Count(), t.availability);
    TrackerStep(c, sh, t);
    NoStep(c, sh);
    hide Assembly.Valid, Below, RequestsInOrder, SharedInv, Evolves;
  }

  lemma WireIsBelow(bits: seq<Byte>, n: nat)
    requires Bitfields.FromWire(bits, n).Ok?
    ensures Bitfields.FromWire(bits, n).value <= Below(n)
  {
  }

  lemma BitfieldKeeps(c: Config, sh: Shared, x: Session, bits: seq<Byte>)
    requires SharedInv(c, sh) && SessionInv(c, sh, x) && x.phase.Waiting?
    ensures var (sh', x') := OnMessage(c, sh, x, W.Bitfield(bits));
      SharedInv(c, sh') && Evolves(sh, sh') && SessionInv(c, sh', x')
  {
    var has := Bitfields.FromWire(bits, c.Count());
    NoStep(c, sh);
    if has.Ok? {
      WireIsBelow(bits, c.Count());
      var t := sh.tracker.RemoveBitfield(x.peerHas).AddBitfield(has.value);
      Tracking.AvailabilityKeeps(sh.tracker, c.Count(), t.availability);
      TrackerStep(c, sh, t);
    }
    hide Assembly.Valid, Below, RequestsInOrder, Bitfields.FromWire, SharedInv, Evolves;
  }

  lemma ChokeKeeps(c: Config, sh: Shared, x: Session)
    requires SharedInv(c, sh) && SessionInv(c, sh, x) && x.phase.Waiting?
    ensures var (sh', x') := OnMessage(c, sh, x, W.Choke);
      SharedInv(c, sh') && Evolves(sh, sh') && SessionInv(c, sh', x')
  {
    RelinquishStep(c, sh, x);
    hide Assembly.Valid, Below, RequestsInOrder, SharedInv, Evolves, Relinquish;
  }

  lemma MessageKeeps(c: Config, sh: Shared, x: Session, m: W.Message)
    requires c.WellFormed() && SharedInv(c, sh) && SessionInv(c, sh, x) && x.phase.Waiting?
    ensures var (sh', x') := OnMessage(c, sh, x, m);
      SharedInv(c, sh') && Evolves(sh, sh') && SessionInv(c, sh', x')
  {
    hide Assembly.Valid, Below, RequestsInOrder, SharedInv;
    match m
    case Piece(block) => PieceKeeps(c, sh, x, block);
    case Have(index) => HaveKeeps(c, sh, x, index);
    case Bitfield(bits) => BitfieldKeeps(c, sh, x, bits);
    case Choke => ChokeKeeps(c, sh, x);
    case _ => NoStep(c, sh);
  }

  lemma ControlKeeps(c: Config, sh: Shared, x: Session)
    requires SharedInv(c, sh) && SessionInv(c, sh, x) && x.phase.LoopHead?
    ensures var (sh', x') := OnControl(sh, x);
      SharedInv(c, sh') && Evolves(sh, sh') && SessionInv(c, sh', x')
  {
    RelinquishStep(c, sh, x);
    NoStep(c, sh);
    assert sh.control.Cancelled? ==> sh.everCancelled;
    hide Assembly.Valid, Below, RequestsInOrder, SharedInv, Relinquish;
  }

  lemma EmitKeeps(c: Config, sh: Shared, x: Session)
    requires SharedInv(c, sh) && SessionInv(c, sh, x) && x.phase.Emitting?
    ensures var (sh', x') := OnEmit(sh, x);
      SharedInv(c, sh') && Evolves(sh, sh') && SessionInv(c, sh', x')
  {
    hide Assembly.Valid, Below, RequestsInOrder, Tracking.Good, Tracking.Tracker.IsComplete;
  }

  /** The steps that give back the piece in work. */
  lemma RelinquishKeeps(c: Config, sh: Shared, x: Session, e: Event)
    requires SharedInv(c, sh) && SessionInv(c, sh, x) && Enabled(c, sh, x, e) && (e.TimedOut? || e.Closed?)
    ensures var (sh', x') := Step(c, sh, x, e);
      SharedInv(c, sh') && Evolves(sh, sh') && SessionInv(c, sh', x')
  {
    hide Below, Assembly.Valid, RequestsInOrder, SharedInv, Evolves, Relinquish,
      OnReserve, OnControl, OnMessage, OnEmit, OnSend, CanRequest;
    RelinquishStep(c, sh, x);
  }

  lemma WithdrawKeeps(c: Config, sh: Shared, x: Session)
    requires SharedInv(c, sh) && SessionInv(c, sh, x) && Enabled(c, sh, x, Withdraw)
    ensures var (sh', x') := Step(c, sh, x, Withdraw);
      SharedInv(c, sh') && Evolves(sh, sh') && SessionInv(c, sh', x')
  {
    hide Below, Assembly.Valid, RequestsInOrder, Tracking.Tracker.IsComplete,
      OnReserve, OnControl, OnMessage, OnEmit, OnSend, CanRequest;
    var t := sh.tracker.RemoveBitfield(x.peerHas);
    Tracking.AvailabilityKeeps(sh.tracker, c.Count(), t.availability);
    TrackerStep(c, sh, t);
    hide SharedInv, Evolves, Tracking.Tracker.RemoveBitfield;
  }

  /** The steps that leave the tracker alone. */
  lemma QuietStepKeeps(c: Config, sh: Shared, x: Session, e: Event)
    requires SharedInv(c, sh) && SessionInv(c, sh, x) && Enabled(c, sh, x, e)
    requires !e.Reserve? && !e.SendRequest? && !e.Receive? && !e.ReadControl? && !e.Emit?
    requires !e.TimedOut? && !e.Closed? && !e.Withdraw?
    ensures var (sh', x') := Step(c, sh, x, e);
      SharedInv(c, sh') && Evolves(sh, sh') && SessionInv(c, sh', x')
  {
    hide Below, Assembly.Valid, RequestsInOrder, Tracking.Good, Tracking.Tracker.IsComplete,
      OnReserve, OnControl, OnMessage, OnEmit, OnSend, CanRequest;
    NoStep(c, sh);
  }

  /** Every step keeps the invariants of the session it happens to and of the
      shared state, and changes only what the other sessions tolerate. */
  lemma StepKeeps(c: Config, sh: Shared, x: Session, e: Event)
    requires c.WellFormed() && SharedInv(c, sh) && SessionInv(c, sh, x) && Enabled(c, sh, x, e)
    ensures var (sh', x') := Step(c, sh, x, e);
      SharedInv(c, sh') && Evolves(sh, sh') && SessionInv(c, sh', x')
  {
    hide SharedInv, SessionInv, Evolves;
    match e
    case Reserve => ReserveKeeps(c, sh, x);
    case SendRequest => SendKeeps(c, sh, x); NoStep(c, sh);
    case Receive(m) => MessageKeeps(c, sh, x, m);
    case ReadControl => ControlKeeps(c, sh, x);
    case Emit => EmitKeeps(c, sh, x);
    case TimedOut => RelinquishKeeps(c, sh, x, e);
    case Closed => RelinquishKeeps(c, sh, x, e);
    case Withdraw => WithdrawKeeps(c, sh, x);
    case _ => QuietStepKeeps(c, sh, x, e);
  }
}
