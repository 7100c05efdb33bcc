/** What holds across sessions, in every state of every run. */
module Runs {
  import opened Common
  import opened Assembler
  import opened Swarm
  import opened Invariants
  import Tracking
  import Bitfields
  import W = Wire

  // ----- what the longer steps leave alone

  /** Everything but the claims, and nothing of what the peer offers. */
  ghost predicate OnlyClaims(sh: Shared, x: Session, sh': Shared, x': Session) {
    && sh'.tracker.have == sh.tracker.have
    && sh'.tracker.availability == sh.tracker.availability
    && sh'.sent == sh.sent && sh'.lost == sh.lost && sh'.wire == sh.wire
    && x'.peerHas == x.peerHas
  }

  lemma ReserveFrame(c: Config, sh: Shared, x: Session)
    requires x.phase.Reserving?
    ensures var (sh', x') := OnReserve(c, sh, x);
      OnlyClaims(sh, x, sh', x') && (x'.phase.Filling? || x'.phase.Announcing?)
  {
    hide Tracking.Tracker.IsComplete, Tracking.Tracker.Rarest, Fresh;
  }

  lemma ControlFrame(sh: Shared, x: Session)
    requires x.phase.LoopHead?
    ensures var (sh', x') := OnControl(sh, x);
      OnlyClaims(sh, x, sh', x') && !x'.phase.Emitting? && !x'.phase.Gone?
  {
  }

  lemma OfferFrame(c: Config, sh: Shared, x: Session, m: W.Message)
    requires m.Have? || m.Bitfield?
    ensures var (sh', x') := OnMessage(c, sh, x, m);
      && sh' == sh.(tracker := sh.tracker.(availability := sh'.tracker.availability))
      && (x'.phase.LoopHead? || x'.phase.Leaving?)
  {
    hide Bitfields.FromWire, OnBlock, Relinquish;
  }

  lemma MessageFrame(c: Config, sh: Shared, x: Session, m: W.Message)
    requires x.phase.Waiting? && !m.Piece?
    ensures var (sh', x') := OnMessage(c, sh, x, m);
      && sh'.tracker.have == sh.tracker.have
      && sh'.sent == sh.sent && sh'.lost == sh.lost && sh'.wire == sh.wire
      && (x'.phase.LoopHead? || x'.phase.Leaving?)
      && (!m.Have? && !m.Bitfield? ==> OnlyClaims(sh, x, sh', x'))
  {
    if m.Have? || m.Bitfield? {
      hide OnMessage;
      OfferFrame(c, sh, x, m);
    } else {
      hide Bitfields.FromWire, OnBlock;
    }
  }

  // ----- availability counts the sessions that have not withdrawn

  /** A session stands for its peer's pieces until it has withdrawn them; a task
      that ended in a panic never does. */
  predicate Counted(x: Session) {
    !x.phase.Gone? || x.phase.how.Panicked?
  }

  function Offers(x: Session, i: nat): nat {
    if Counted(x) && i in x.peerHas then 1 else 0
  }

  function OffersOf(sessions: seq<Session>, i: nat): seq<nat> {
    seq(|sessions|, k requires 0 <= k < |sessions| => Offers(sessions[k], i))
  }

  ghost predicate AvailabilityExact(c: Config, s: State) {
    && |s.shared.tracker.availability| == c.Count()
    && forall i: nat :: i < c.Count() ==>
         s.shared.tracker.availability[i] == Sum(OffersOf(s.sessions, i))
  }

  lemma AvailabilityOfBitfields(c: Config, t: Tracking.Tracker, old_: set<nat>, new_: set<nat>, i: nat)
    requires i < |t.availability|
    requires i in old_ ==> t.availability[i] > 0
    ensures t.RemoveBitfield(old_).AddBitfield(new_).availability[i] + (if i in old_ then 1 else 0) ==
            t.availability[i] + (if i in new_ then 1 else 0)
  {
  }

  /** Only `have`, `bitfield` and the final withdrawal touch what is offered. */
  predicate ChangesOffer(e: Event) {
    e.Withdraw? || e.Refuse? || (e.Receive? && (e.message.Have? || e.message.Bitfield?))
  }

  lemma BlockLeavesOffers(c: Config, sh: Shared, x: Session, b: W.Block)
    requires x.phase.Waiting?
    ensures var (sh', x') := OnBlock(c, sh, x, b);
      sh'.tracker.availability == sh.tracker.availability && x'.peerHas == x.peerHas && Counted(x')
  {
    hide Assembly.AddBlock, Assembly.IsComplete, Tracking.Tracker.IsComplete, Config.Verifies;
  }

  lemma OtherStepsLeaveOffers(c: Config, sh: Shared, x: Session, e: Event)
    requires Enabled(c, sh, x, e) && !ChangesOffer(e)
    ensures var (sh', x') := Step(c, sh, x, e);
      sh'.tracker.availability == sh.tracker.availability && x'.peerHas == x.peerHas && Counted(x') && Counted(x)
  {
    hide OnReserve, OnControl, OnBlock, CanRequest;
    if e.Receive? {
      if e.message.Piece? {
        BlockLeavesOffers(c, sh.(wire := sh.wire + |e.message.block.data|), x, e.message.block);
      } else {
        MessageFrame(c, sh, x, e.message);
        hide OnMessage;
      }
    } else if e.Reserve? {
      ReserveFrame(c, sh, x);
    } else if e.ReadControl? {
      ControlFrame(sh, x);
    } else {
      hide OnMessage;
    }
  }

  ghost predicate Moves(c: Config, sh: Shared, x: Session, sh': Shared, x': Session, i: nat) {
    && |sh'.tracker.availability| == |sh.tracker.availability| && i < |sh.tracker.availability|
    && sh'.tracker.availability[i] + Offers(x, i) == sh.tracker.availability[i] + Offers(x', i)
  }

  lemma MessageMoves(c: Config, sh: Shared, x: Session, m: W.Message, i: nat)
    requires SharedInv(c, sh) && x.phase.Waiting? && i < c.Count()
    requires (m.Have? || m.Bitfield?) && Offers(x, i) <= sh.tracker.availability[i]
    ensures var (sh', x') := OnMessage(c, sh, x, m); Moves(c, sh, x, sh', x', i)
  {
    hide Below, Bitfields.FromWire, OnBlock, Relinquish;
    if m.Bitfield? {
      var has := Bitfields.FromWire(m.bits, c.Count());
      if has.Ok? {
        AvailabilityOfBitfields(c, sh.tracker, x.peerHas, has.value, i);
      }
    }
  }

  /** A step changes the availability of a piece by exactly what it changes in
      the acting session's own contribution; no subtraction is cut off at zero. */
  lemma StepMovesAvailability(c: Config, sh: Shared, x: Session, e: Event, i: nat)
    requires SharedInv(c, sh) && SessionInv(c, sh, x) && Enabled(c, sh, x, e) && i < c.Count()
    requires Offers(x, i) <= sh.tracker.availability[i]
    ensures var (sh', x') := Step(c, sh, x, e); Moves(c, sh, x, sh', x', i)
  {
    hide Below, Window, OnMessage, OnReserve, OnControl, Relinquish, OnSend;
    if !ChangesOffer(e) {
      hide Step;
      OtherStepsLeaveOffers(c, sh, x, e);
    } else if e.Receive? {
      MessageMoves(c, sh, x, e.message, i);
    }
  }

  lemma AvailabilityKept(c: Config, s: State, peer: nat, e: Event)
    requires c.WellFormed() && SharedInv(c, s.shared)
    requires peer < |s.sessions| && SessionInv(c, s.shared, s.sessions[peer])
    requires CanAct(c, s, At(peer, e)) && AvailabilityExact(c, s)
    ensures AvailabilityExact(c, Act(c, s, At(peer, e)))
  {
    var x := s.sessions[peer];
    var (sh', x') := Step(c, s.shared, x, e);
    var after := s.sessions[peer := x'];
    StepKeeps(c, s.shared, x, e);
    assert |s.shared.tracker.availability| == |sh'.tracker.availability| == c.Count();
    hide SharedInv, SessionInv, Step, Enabled, Evolves;
    forall i: nat | i < c.Count()
      ensures sh'.tracker.availability[i] == Sum(OffersOf(after, i))
    {
      SumUpdate(OffersOf(s.sessions, i), peer, Offers(x', i));
      assert OffersOf(after, i) == OffersOf(s.sessions, i)[peer := Offers(x', i)];
      StepMovesAvailability(c, s.shared, x, e, i);
    }
  }

  // ----- claims, until the endgame begins

  /** The session left in a way that gives its piece back. */
  predicate GaveBack(x: Session) {
    || (x.phase.Leaving? && (x.phase.why.WasCancelled? || x.phase.why.PeerClosed?))
    || (x.phase.Gone? && (x.phase.how.WasCancelled? || x.phase.how.PeerClosed?))
  }

  /** One if the session works on piece `i`, or stopped working on it without
      giving it back: by an error, by the panic, or on a sibling's completion. */
  function Keeps(x: Session, i: nat): nat {
    if x.current.Some? && x.current.value.index == i && !GaveBack(x) then 1 else 0
  }

  function KeepsOf(sessions: seq<Session>, i: nat): seq<nat> {
    seq(|sessions|, k requires 0 <= k < |sessions| => Keeps(sessions[k], i))
  }

  function Claim(sh: Shared, i: nat): nat {
    if i in sh.tracker.claimed then 1 else 0
  }

  /** A claimed piece is always kept by some session; and before the endgame a
      kept piece is claimed, and kept by one session only. */
  ghost predicate ClaimsExact(s: State) {
    && (forall i: nat :: Claim(s.shared, i) <= Sum(KeepsOf(s.sessions, i)))
    && (!s.shared.endgame ==> forall i: nat :: Sum(KeepsOf(s.sessions, i)) == Claim(s.shared, i))
  }

  /** What a step does to the claim on a piece and to its session's keeping it. */
  ghost predicate MovesClaim(sh: Shared, x: Session, sh': Shared, x': Session, i: nat) {
    && (!sh'.endgame ==> Claim(sh', i) + Keeps(x, i) == Claim(sh, i) + Keeps(x', i))
    && (Claim(sh', i) == 1 ==> Keeps(x', i) == 1 || (Claim(sh, i) == 1 && Keeps(x, i) == 0))
  }

  /** Before the endgame nothing is kept without a claim. */
  ghost predicate Backed(sh: Shared, x: Session, i: nat) {
    !sh.endgame ==> Keeps(x, i) <= Claim(sh, i)
  }

  ghost predicate TakesUnclaimed(sh: Shared, sh': Shared, i: nat) {
    i !in sh.tracker.claimed && sh' == sh.(tracker := sh.tracker.(claimed := sh.tracker.claimed + {i}))
  }

  lemma ReserveTakes(c: Config, sh: Shared, x: Session)
    requires SharedInv(c, sh) && x.phase.Reserving?
    ensures var (sh', x') := OnReserve(c, sh, x);
      && !GaveBack(x')
      && (x'.current != x.current || sh' != sh ==>
            && x.current.None? && x'.current.Some?
            && (sh' == sh.(endgame := true) || TakesUnclaimed(sh, sh', x'.current.value.index)))
  {
    Tracking.RarestBelowIsRarest(sh.tracker, x.peerHas, true, c.Count());
    hide Below, Tracking.Tracker.IsComplete, Tracking.Tracker.RarestBelow;
  }

  lemma ReserveMovesClaim(c: Config, sh: Shared, x: Session, i: nat)
    requires SharedInv(c, sh) && x.phase.Reserving?
    ensures var (sh', x') := OnReserve(c, sh, x); MovesClaim(sh, x, sh', x', i)
  {
    ReserveTakes(c, sh, x);
    hide OnReserve, SharedInv;
  }

  lemma WholePieceMovesClaim(c: Config, sh: Shared, x: Session, a: Assembly, i: nat)
    requires Tracking.Good(sh.tracker, c.Count()) && x.current.None?
    ensures var (sh', x') := OnWholePiece(c, sh, x, a);
      && Keeps(x', i) == 0 && x'.current.None? && sh'.endgame == sh.endgame
      && Claim(sh', i) == if i == a.index then 0 else Claim(sh, i)
  {
    hide Below, Tracking.Tracker.IsComplete, Config.Verifies;
  }

  lemma BlockMovesClaim(c: Config, sh: Shared, x: Session, b: W.Block, i: nat)
    requires SharedInv(c, sh) && x.phase.Waiting? && Backed(sh, x, i)
    ensures var (sh', x') := OnBlock(c, sh, x, b); MovesClaim(sh, x, sh', x', i)
  {
    hide OnWholePiece, Tracking.Good;
    if x.current.Some? {
      AddBlockKeepsIndex(x.current.value, b.begin, b.data);
      var y := x.(inFlight := if x.inFlight > 0 then x.inFlight - 1 else 0, current := None);
      WholePieceMovesClaim(c, sh, y, x.current.value.AddBlock(b.begin, b.data).1, i);
    }
    hide Assembly.AddBlock, Assembly.IsComplete;
  }

  lemma AddBlockKeepsIndex(a: Assembly, begin: u32, data: seq<Byte>)
    ensures a.AddBlock(begin, data).1.index == a.index
  {
  }

  lemma PieceMovesClaim(c: Config, sh: Shared, x: Session, b: W.Block, i: nat)
    requires SharedInv(c, sh) && x.phase.Waiting? && Backed(sh, x, i)
    ensures var (sh', x') := OnMessage(c, sh, x, W.Piece(b)); MovesClaim(sh, x, sh', x', i)
  {
    hide OnBlock, Keeps, SharedInv;
    WireStep(c, sh, |b.data|);
    BlockMovesClaim(c, sh.(wire := sh.wire + |b.data|), x, b, i);
  }

  lemma MessageMovesClaim(c: Config, sh: Shared, x: Session, m: W.Message, i: nat)
    requires x.phase.Waiting? && Backed(sh, x, i) && !m.Piece?
    ensures var (sh', x') := OnMessage(c, sh, x, m); MovesClaim(sh, x, sh', x', i)
  {
    hide OnBlock, Bitfields.FromWire;
    if m.Have? || m.Bitfield? {
      hide OnMessage;
      OfferFrame(c, sh, x, m);
      OfferKeepsPiece(c, sh, x, m);
    }
  }

  lemma OfferKeepsPiece(c: Config, sh: Shared, x: Session, m: W.Message)
    requires x.phase.Waiting? && (m.Have? || m.Bitfield?)
    ensures var x' := OnMessage(c, sh, x, m).1;
      x'.current == x.current && !GaveBack(x')
  {
    hide OnBlock, Bitfields.FromWire;
  }

  lemma ReleaseMovesClaim(c: Config, sh: Shared, x: Session, e: Event, i: nat)
    requires Enabled(c, sh, x, e) && Backed(sh, x, i)
    requires e.ReadControl? || e.TimedOut? || e.Closed?
    ensures var (sh', x') := Step(c, sh, x, e); MovesClaim(sh, x, sh', x', i)
  {
    hide OnMessage, OnReserve, OnEmit, CanRequest;
  }

  /** Before any endgame reservation a step takes and gives back claims exactly
      as its session takes up and gives back pieces; after it, a claim still
      outlives a step only if some session keeps the piece. */
  lemma StepMovesClaim(c: Config, sh: Shared, x: Session, e: Event, i: nat)
    requires SharedInv(c, sh) && Enabled(c, sh, x, e) && Backed(sh, x, i)
    ensures var (sh', x') := Step(c, sh, x, e); MovesClaim(sh, x, sh', x', i)
  {
    hide SharedInv, OnMessage, OnReserve, OnControl, CanRequest, Relinquish;
    match e
    case Receive(m) =>
      if m.Piece? {
        PieceMovesClaim(c, sh, x, m.block, i);
      } else {
        MessageMovesClaim(c, sh, x, m, i);
      }
    case Reserve => ReserveMovesClaim(c, sh, x, i);
    case ReadControl => ReleaseMovesClaim(c, sh, x, e, i);
    case TimedOut => ReleaseMovesClaim(c, sh, x, e, i);
    case Closed => ReleaseMovesClaim(c, sh, x, e, i);
    case _ =>
  }

  lemma ClaimsKept(c: Config, s: State, peer: nat, e: Event)
    requires c.WellFormed() && SharedInv(c, s.shared) && CanAct(c, s, At(peer, e))
    requires SessionInv(c, s.shared, s.sessions[peer]) && ClaimsExact(s)
    ensures ClaimsExact(Act(c, s, At(peer, e)))
  {
    var x := s.sessions[peer];
    var (sh', x') := Step(c, s.shared, x, e);
    StepKeeps(c, s.shared, x, e);
    assert s.shared.endgame ==> sh'.endgame;
    hide SharedInv, SessionInv, Evolves, Step, Enabled, Keeps;
    var after := s.sessions[peer := x'];
    forall i: nat
      ensures Claim(sh', i) <= Sum(KeepsOf(after, i))
      ensures !sh'.endgame ==> Sum(KeepsOf(after, i)) == Claim(sh', i)
    {
      SumUpdate(KeepsOf(s.sessions, i), peer, Keeps(x', i));
      assert KeepsOf(after, i) == KeepsOf(s.sessions, i)[peer := Keeps(x', i)];
      SumUpdate(KeepsOf(after, i), peer, 0);
      StepMovesClaim(c, s.shared, x, e, i);
    }
  }

  // ----- how a claim comes and goes

  /** The event makes the session give up the piece it works on: cancelled or
      paused, timed out, closed, choked, or whole, whether good or bad. */
  predicate GivesUp(sh: Shared, x: Session, e: Event) {
    x.current.Some? &&
    match e
    case ReadControl => !sh.control.Running?
    case TimedOut => true
    case Closed => true
    case Receive(Choke) => true
    case Receive(Piece(b)) =>
      var (verdict, a) := x.current.value.AddBlock(b.begin, b.data);
      b.index == x.current.value.index && verdict.Accepted? && a.IsComplete()
    case _ => false
  }

  /** The event reserves piece `i` for the session alone. */
  predicate Reserves(sh: Shared, x: Session, e: Event, i: nat) {
    e.Reserve? && x.current.None? && !x.choked && sh.tracker.Rarest(x.peerHas, true) == Some(i)
  }

  lemma WholePieceLeaves(c: Config, sh: Shared, x: Session, a: Assembly, i: nat)
    requires Tracking.Good(sh.tracker, c.Count()) && x.current.None?
    ensures var (sh', x') := OnWholePiece(c, sh, x, a);
      i in sh'.tracker.claimed <==> i in sh.tracker.claimed && i != a.index
  {
    WholePieceMovesClaim(c, sh, x, a, i);
    hide OnWholePiece;
  }

  lemma BlockLeaves(c: Config, sh: Shared, x: Session, b: W.Block, i: nat)
    requires SharedInv(c, sh) && x.phase.Waiting?
    ensures var (sh', x') := OnBlock(c, sh, x, b);
      i in sh'.tracker.claimed <==>
        && i in sh.tracker.claimed
        && !(x.current.Some? && x.current.value.index == i && GivesUp(sh, x, Receive(W.Piece(b))))
  {
    hide OnWholePiece, Tracking.Good;
    if x.current.Some? {
      AddBlockKeepsIndex(x.current.value, b.begin, b.data);
      var y := x.(inFlight := if x.inFlight > 0 then x.inFlight - 1 else 0, current := None);
      WholePieceLeaves(c, sh, y, x.current.value.AddBlock(b.begin, b.data).1, i);
    }
    hide Assembly.AddBlock, Assembly.IsComplete;
  }

  lemma MessageLeaves(c: Config, sh: Shared, x: Session, m: W.Message, i: nat)
    requires SharedInv(c, sh) && x.phase.Waiting?
    ensures var (sh', x') := OnMessage(c, sh, x, m);
      i in sh'.tracker.claimed <==>
        i in sh.tracker.claimed && !(x.current.Some? && x.current.value.index == i && GivesUp(sh, x, Receive(m)))
  {
    hide SharedInv, OnBlock, Bitfields.FromWire, Assembly.AddBlock, Assembly.IsComplete;
    if m.Piece? {
      WireStep(c, sh, |m.block.data|);
      BlockLeaves(c, sh.(wire := sh.wire + |m.block.data|), x, m.block, i);
    } else if m.Have? || m.Bitfield? {
      hide OnMessage;
      OfferFrame(c, sh, x, m);
    }
  }

  lemma ReserveClaims(c: Config, sh: Shared, x: Session, i: nat)
    requires x.phase.Reserving?
    ensures i in OnReserve(c, sh, x).0.tracker.claimed <==> Reserves(sh, x, Reserve, i) || i in sh.tracker.claimed
  {
    hide Tracking.Tracker.IsComplete, Tracking.Tracker.Rarest, Fresh;
  }

  lemma ReleaseLeaves(c: Config, sh: Shared, x: Session, e: Event, i: nat)
    requires Enabled(c, sh, x, e) && (e.ReadControl? || e.TimedOut? || e.Closed?)
    ensures i in Step(c, sh, x, e).0.tracker.claimed <==>
      i in sh.tracker.claimed && !(x.current.Some? && x.current.value.index == i && GivesUp(sh, x, e))
  {
    hide OnMessage, OnReserve, OnEmit, CanRequest;
  }

  /** After any step a piece is claimed exactly when the step reserved it
      exclusively, or it was claimed and the step's session did not give it up:
      endgame or not, a session that gives up a piece takes the claim with it,
      whoever set it, and nothing else does. */
  lemma ClaimAfterStep(c: Config, sh: Shared, x: Session, e: Event, i: nat)
    requires SharedInv(c, sh) && Enabled(c, sh, x, e)
    ensures i in Step(c, sh, x, e).0.tracker.claimed <==>
      || Reserves(sh, x, e, i)
      || (i in sh.tracker.claimed && !(x.current.Some? && x.current.value.index == i && GivesUp(sh, x, e)))
  {
    hide SharedInv, OnMessage, OnReserve, OnControl, CanRequest, Relinquish, Tracking.Tracker.Rarest,
      Assembly.AddBlock, Assembly.IsComplete;
    match e
    case Receive(m) => MessageLeaves(c, sh, x, m, i);
    case Reserve => ReserveClaims(c, sh, x, i);
    case ReadControl => ReleaseLeaves(c, sh, x, e, i);
    case TimedOut => ReleaseLeaves(c, sh, x, e, i);
    case Closed => ReleaseLeaves(c, sh, x, e, i);
    case _ =>
  }

  // ----- every owned piece is emitted once

  function Copies(ps: seq<VerifiedPiece>, i: nat): nat {
    if ps == [] then 0
    else Copies(ps[..|ps| - 1], i) + (if ps[|ps| - 1].index == i then 1 else 0)
  }

  lemma CopiesSnoc(ps: seq<VerifiedPiece>, p: VerifiedPiece, i: nat)
    ensures Copies(ps + [p], i) == Copies(ps, i) + (if p.index == i then 1 else 0)
  {
    assert (ps + [p])[..|ps|] == ps;
  }

  function Pending(x: Session, i: nat): nat {
    if x.phase.Emitting? && x.phase.piece.index == i then 1 else 0
  }

  function PendingOf(sessions: seq<Session>, i: nat): seq<nat> {
    seq(|sessions|, k requires 0 <= k < |sessions| => Pending(sessions[k], i))
  }

  function Owned(sh: Shared, i: nat): nat {
    if i in sh.tracker.have then 1 else 0
  }

  /** A piece is owned exactly when one copy of it was sent, lost or is pending. */
  ghost predicate ExactlyOnce(s: State) {
    forall i: nat ::
      Copies(s.shared.sent, i) + Copies(s.shared.lost, i) + Sum(PendingOf(s.sessions, i)) == Owned(s.shared, i)
  }

  ghost predicate MovesPiece(sh: Shared, x: Session, sh': Shared, x': Session, i: nat) {
    Copies(sh'.sent, i) + Copies(sh'.lost, i) + Pending(x', i) + Owned(sh, i) ==
    Copies(sh.sent, i) + Copies(sh.lost, i) + Pending(x, i) + Owned(sh', i)
  }

  lemma WholePieceMoves(c: Config, sh: Shared, x: Session, a: Assembly, i: nat)
    requires Tracking.Good(sh.tracker, c.Count()) && a.index < c.Count() && !x.phase.Emitting?
    ensures var (sh', x') := OnWholePiece(c, sh, x, a); MovesPiece(sh, x, sh', x', i)
  {
    hide Below, Tracking.Tracker.IsComplete, Config.Verifies, Copies;
  }

  lemma BlockMovesPieces(c: Config, sh: Shared, x: Session, b: W.Block, i: nat)
    requires c.WellFormed() && SharedInv(c, sh) && SessionInv(c, sh, x) && x.phase.Waiting?
    ensures var (sh', x') := OnBlock(c, sh, x, b); MovesPiece(sh, x, sh', x', i)
  {
    hide Below, PhaseHolds, Copies, Assembly.Valid, RequestsInOrder, OnWholePiece, Tracking.Good;
    if x.current.Some? {
      AddBlockKeepsIndex(x.current.value, b.begin, b.data);
      var y := x.(inFlight := if x.inFlight > 0 then x.inFlight - 1 else 0, current := None);
      WholePieceMoves(c, sh, y, x.current.value.AddBlock(b.begin, b.data).1, i);
    }
    hide Assembly.AddBlock, Assembly.IsComplete;
  }

  /** Nothing but a block and an emission touches what is owned and sent. */
  lemma OtherStepsMoveNothing(c: Config, sh: Shared, x: Session, e: Event)
    requires Enabled(c, sh, x, e) && !e.Emit? && !(e.Receive? && e.message.Piece?)
    ensures var (sh', x') := Step(c, sh, x, e);
      && sh'.tracker.have == sh.tracker.have && sh'.sent == sh.sent && sh'.lost == sh.lost
      && !x.phase.Emitting? && !x'.phase.Emitting?
  {
    hide OnReserve, OnControl, OnMessage, OnEmit, CanRequest;
    match e
    case Receive(m) => MessageFrame(c, sh, x, m);
    case Reserve => ReserveFrame(c, sh, x);
    case ReadControl => ControlFrame(sh, x);
    case _ =>
  }

  lemma PieceMovesPieces(c: Config, sh: Shared, x: Session, b: W.Block, i: nat)
    requires c.WellFormed() && SharedInv(c, sh) && SessionInv(c, sh, x) && x.phase.Waiting?
    ensures var (sh', x') := OnMessage(c, sh, x, W.Piece(b)); MovesPiece(sh, x, sh', x', i)
  {
    hide SharedInv, SessionInv, Evolves, OnBlock, Copies;
    var counted := sh.(wire := sh.wire + |b.data|);
    WireStep(c, sh, |b.data|);
    EvolvesKeepsOthers(c, sh, counted, x);
    BlockMovesPieces(c, counted, x, b, i);
  }

  lemma EmitMovesPieces(sh: Shared, x: Session, i: nat)
    requires x.phase.Emitting?
    ensures var (sh', x') := OnEmit(sh, x); MovesPiece(sh, x, sh', x', i)
  {
    hide Copies;
    CopiesSnoc(sh.sent, x.phase.piece, i);
    CopiesSnoc(sh.lost, x.phase.piece, i);
  }

  /** A step moves pieces between peer, channel and owned set without making or
      losing a copy. */
  lemma StepMovesPieces(c: Config, sh: Shared, x: Session, e: Event, i: nat)
    requires c.WellFormed() && SharedInv(c, sh) && SessionInv(c, sh, x) && Enabled(c, sh, x, e)
    ensures var (sh', x') := Step(c, sh, x, e); MovesPiece(sh, x, sh', x', i)
  {
    hide SharedInv, SessionInv, Copies, OnMessage, OnEmit;
    if e.Receive? && e.message.Piece? {
      PieceMovesPieces(c, sh, x, e.message.block, i);
    } else if e.Emit? {
      EmitMovesPieces(sh, x, i);
    } else {
      OtherStepsMoveNothing(c, sh, x, e);
      hide Step, Enabled;
    }
  }

  lemma ExactlyOnceKept(c: Config, s: State, peer: nat, e: Event)
    requires c.WellFormed() && SharedInv(c, s.shared) && CanAct(c, s, At(peer, e))
    requires SessionInv(c, s.shared, s.sessions[peer]) && ExactlyOnce(s)
    ensures ExactlyOnce(Act(c, s, At(peer, e)))
  {
    var x := s.sessions[peer];
    var (sh', x') := Step(c, s.shared, x, e);
    var after := s.sessions[peer := x'];
    hide SharedInv, SessionInv, Step, Enabled, Copies;
    forall i: nat
      ensures Copies(sh'.sent, i) + Copies(sh'.lost, i) + Sum(PendingOf(after, i)) == Owned(sh', i)
    {
      StepMovesPieces(c, s.shared, x, e, i);
      SumUpdate(PendingOf(s.sessions, i), peer, Pending(x', i));
      assert PendingOf(after, i) == PendingOf(s.sessions, i)[peer := Pending(x', i)];
    }
  }

  // ----- all of it, in every state of every run

  ghost predicate Inv(c: Config, s: State) {
    && SharedInv(c, s.shared)
    && (forall k :: 0 <= k < |s.sessions| ==> SessionInv(c, s.shared, s.sessions[k]))
    && AvailabilityExact(c, s)
    && ClaimsExact(s)
    && ExactlyOnce(s)
  }

  lemma {:induction false} NothingAtFirst(xs: seq<nat>)
    requires forall k :: 0 <= k < |xs| ==> xs[k] == 0
    ensures Sum(xs) == 0
  {
    SumZero(xs);
  }

  lemma InitHolds(c: Config, peers: nat)
    requires c.WellFormed()
    ensures Inv(c, Init(c, peers))
  {
    var s := Init(c, peers);
    forall i: nat
      ensures Sum(OffersOf(s.sessions, i)) == 0 && Sum(PendingOf(s.sessions, i)) == 0
      ensures Sum(KeepsOf(s.sessions, i)) == 0
    {
      NothingAtFirst(OffersOf(s.sessions, i));
      NothingAtFirst(KeepsOf(s.sessions, i));
      NothingAtFirst(PendingOf(s.sessions, i));
    }
    assert s.shared.tracker.have == {};
    assert !s.shared.tracker.IsComplete() by { assert 0 in Below(c.Count()); }
  }

  lemma PeerActKeeps(c: Config, s: State, peer: nat, e: Event)
    requires c.WellFormed() && Inv(c, s) && CanAct(c, s, At(peer, e))
    ensures Inv(c, Act(c, s, At(peer, e)))
    ensures Evolves(s.shared, Act(c, s, At(peer, e)).shared)
  {
    hide SharedInv, SessionInv, Evolves, AvailabilityExact, ClaimsExact, ExactlyOnce, Step, Enabled;
    var s' := Act(c, s, At(peer, e));
    StepKeeps(c, s.shared, s.sessions[peer], e);
    AvailabilityKept(c, s, peer, e);
    ClaimsKept(c, s, peer, e);
    ExactlyOnceKept(c, s, peer, e);
    forall k | 0 <= k < |s'.sessions| ensures SessionInv(c, s'.shared, s'.sessions[k]) {
      if k != peer {
        EvolvesKeepsOthers(c, s.shared, s'.shared, s.sessions[k]);
      }
    }
  }

  lemma OutsideActKeeps(c: Config, s: State, a: Action)
    requires c.WellFormed() && Inv(c, s) && CanAct(c, s, a) && !a.At?
    ensures Inv(c, Act(c, s, a)) && Evolves(s.shared, Act(c, s, a).shared)
  {
    hide Tracking.Good, Tracking.Tracker.IsComplete, SessionInv, Copies, OffersOf, PendingOf, KeepsOf;
    var s' := Act(c, s, a);
    assert Evolves(s.shared, s'.shared);
    forall k | 0 <= k < |s'.sessions| ensures SessionInv(c, s'.shared, s'.sessions[k]) {
      EvolvesKeepsOthers(c, s.shared, s'.shared, s.sessions[k]);
    }
  }

  lemma ActKeeps(c: Config, s: State, a: Action)
    requires c.WellFormed() && Inv(c, s) && CanAct(c, s, a)
    ensures Inv(c, Act(c, s, a)) && Evolves(s.shared, Act(c, s, a).shared)
  {
    hide Inv, Evolves, Act, Enabled;
    if a.At? {
      PeerActKeeps(c, s, a.peer, a.event);
    } else {
      OutsideActKeeps(c, s, a);
    }
  }

  /** Every state of every run satisfies the invariant. */
  lemma {:induction false} RunHolds(c: Config, peers: nat, states: seq<State>, actions: seq<Action>, k: nat)
    requires c.WellFormed() && IsRun(c, peers, states, actions) && k < |states|
    ensures Inv(c, states[k])
  {
    hide Inv, CanAct, Act, Init;
    if k == 0 {
      InitHolds(c, peers);
    } else {
      RunHolds(c, peers, states, actions, k - 1);
      ActKeeps(c, states[k - 1], actions[k - 1]);
    }
  }

  /** Progress is never undone: pieces, announcements and emissions only grow. */
  lemma {:induction false} RunEvolves(
    c: Config, peers: nat, states: seq<State>, actions: seq<Action>, j: nat, k: nat)
    requires c.WellFormed() && IsRun(c, peers, states, actions) && j <= k < |states|
    ensures Evolves(states[j].shared, states[k].shared)
    decreases k - j
  {
    hide Inv, CanAct, Act, Init, Evolves;
    if j == k {
      NoStep(c, states[j].shared);
    } else {
      RunEvolves(c, peers, states, actions, j, k - 1);
      RunHolds(c, peers, states, actions, k - 1);
      ActKeeps(c, states[k - 1], actions[k - 1]);
      EvolvesChain(states[j].shared, states[k - 1].shared, states[k].shared);
    }
  }
}
