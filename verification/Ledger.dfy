/** Bytes received against bytes accounted for: `wire_bytes` and `bytes_done` in
    `src/download/mod.rs` and `src/download/stats.rs`. */
module Ledger {
  import opened Common
  import opened Piece
  import opened Assembler
  import opened Swarm
  import opened Invariants
  import opened Runs
  import opened Theorems
  import Tracking
  import Bitfields
  import W = Wire

  // ----- one assembler

  /** The length that block `k` of a piece should have. */
  function Nominal(length: nat, k: nat): nat {
    if k * BLOCK_SIZE < length then Min(BLOCK_SIZE, length - k * BLOCK_SIZE) else 0
  }

  function Earned(length: nat, received: seq<bool>): seq<nat> {
    seq(|received|, k requires 0 <= k < |received| => if received[k] then Nominal(length, k) else 0)
  }

  /** The nominal bytes of the blocks an assembler has marked. */
  function AssembledBytes(a: Assembly): nat {
    Sum(Earned(a.length, a.received))
  }

  lemma {:induction false} NominalsSum(length: nat, received: seq<bool>)
    requires forall k :: 0 <= k < |received| ==> received[k]
    ensures Sum(Earned(length, received)) == Min(|received| * BLOCK_SIZE, length)
  {
    if received != [] {
      var n := |received| - 1;
      NominalsSum(length, received[..n]);
      assert Earned(length, received) == Earned(length, received[..n]) + [Nominal(length, n)];
      SumSnoc(Earned(length, received[..n]), Nominal(length, n));
    }
  }

  lemma CompleteIsWhole(a: Assembly)
    requires a.Valid() && a.IsComplete()
    ensures AssembledBytes(a) == a.length
  {
    CompleteIff(a);
    NominalsSum(a.length, a.received);
    DivCeilBounds(a.length, BLOCK_SIZE);
  }

  lemma FreshIsEmpty(index: nat, length: u32)
    ensures AssembledBytes(Fresh(index, length)) == 0
  {
    SumZero(Earned(length, Fresh(index, length).received));
  }

  /** What an accepted block at `begin` adds to the bytes accounted for. */
  function Credit(a: Assembly, begin: u32): nat {
    var k := begin / BLOCK_SIZE;
    if k < |a.received| && !a.received[k] then Nominal(a.length, k) else 0
  }

  lemma CreditIsExact(a: Assembly, begin: u32, data: seq<Byte>)
    requires a.Valid() && a.AddBlock(begin, data).0.Accepted?
    ensures AssembledBytes(a.AddBlock(begin, data).1) == AssembledBytes(a) + Credit(a, begin)
  {
    var k := begin / BLOCK_SIZE;
    var b := a.AddBlock(begin, data).1;
    SumUpdate(Earned(a.length, a.received), k, Nominal(a.length, k));
    assert Earned(b.length, b.received) == Earned(a.length, a.received)[k := Nominal(a.length, k)];
  }

  /** An accepted block is credited with no more bytes than it carries exactly
      when it repeats a block or is at least as long as the block should be. */
  lemma CreditCoveredIff(a: Assembly, begin: u32, data: seq<Byte>)
    requires a.Valid() && a.AddBlock(begin, data).0.Accepted?
    ensures AssembledBytes(a.AddBlock(begin, data).1) <= AssembledBytes(a) + |data| <==>
      a.received[begin / BLOCK_SIZE] || |data| >= Nominal(a.length, begin / BLOCK_SIZE)
  {
    CreditIsExact(a, begin, data);
    hide AssembledBytes;
  }

  // ----- the pieces owned

  function OwnedLengths(c: Config, have: set<nat>): seq<nat> {
    seq(c.Count(), i requires 0 <= i < c.Count() => if i in have then c.geometry.PieceLength(i) as nat else 0)
  }

  function BytesDone(c: Config, have: set<nat>): nat {
    Sum(OwnedLengths(c, have))
  }

  lemma GainPiece(c: Config, have: set<nat>, i: nat)
    requires i < c.Count() && i !in have
    ensures BytesDone(c, have + {i}) == BytesDone(c, have) + c.geometry.PieceLength(i)
  {
    SumUpdate(OwnedLengths(c, have), i, c.geometry.PieceLength(i));
    assert OwnedLengths(c, have + {i}) == OwnedLengths(c, have)[i := c.geometry.PieceLength(i)];
  }

  lemma {:induction false} PieceLengthsSum(c: Config, n: nat)
    requires c.WellFormed() && n <= c.Count()
    ensures Sum(OwnedLengths(c, Below(c.Count()))[..n]) ==
      if n == c.Count() then c.geometry.totalLength else c.geometry.PieceOffset(n)
  {
    var all := OwnedLengths(c, Below(c.Count()));
    if n > 0 {
      PieceLengthsSum(c, n - 1);
      assert all[..n] == all[..n - 1] + [all[n - 1]];
      SumSnoc(all[..n - 1], all[n - 1]);
      PiecesTile(c.geometry, n - 1);
      assert n - 1 in Below(c.Count());
    }
  }

  /** What is done never exceeds the total, and reaches it exactly on completion. */
  lemma ProgressIsExact(c: Config, t: Tracking.Tracker)
    requires c.WellFormed() && Tracking.Good(t, c.Count())
    ensures BytesDone(c, t.have) <= c.geometry.totalLength
    ensures BytesDone(c, t.have) == c.geometry.totalLength <==> t.IsComplete()
  {
    var all := OwnedLengths(c, Below(c.Count()));
    PieceLengthsSum(c, c.Count());
    assert all[..c.Count()] == all;
    forall i | 0 <= i < c.Count()
      ensures OwnedLengths(c, t.have)[i] <= all[i]
      ensures OwnedLengths(c, t.have)[i] == all[i] ==> i in t.have
    {
      assert i in Below(c.Count());
      PiecesTile(c.geometry, i);
    }
    SumMonotone(OwnedLengths(c, t.have), all);
    if BytesDone(c, t.have) == c.geometry.totalLength {
      forall i: nat | i in Below(c.Count()) ensures i in t.have {
        assert OwnedLengths(c, t.have)[i] == all[i];
      }
    }
  }

  // ----- the whole swarm

  function Partial(x: Session): nat {
    if x.current.Some? then AssembledBytes(x.current.value) else 0
  }

  function PartialOf(sessions: seq<Session>): seq<nat> {
    seq(|sessions|, k requires 0 <= k < |sessions| => Partial(sessions[k]))
  }

  /** Owned pieces and partial pieces are paid for by received bytes. */
  ghost predicate Balanced(c: Config, s: State) {
    s.shared.wire >= BytesDone(c, s.shared.tracker.have) + Sum(PartialOf(s.sessions))
  }

  /** A block at a block boundary of a real piece has at least the length that a
      request for it would name. */
  predicate NotShort(c: Config, b: W.Block) {
    b.index < c.Count() && b.begin < c.geometry.PieceLength(b.index) && b.begin % BLOCK_SIZE == 0 ==>
      |b.data| >= Nominal(c.geometry.PieceLength(b.index), b.begin / BLOCK_SIZE)
  }

  predicate Honest(c: Config, e: Event) {
    e.Receive? && e.message.Piece? ==> NotShort(c, e.message.block)
  }

  /** A block whose length is the one requested is not short. */
  lemma RequestedLengthIsNotShort(c: Config, index: nat, k: nat, data: seq<Byte>)
    requires c.WellFormed() && index < c.Count() && k < c.geometry.NumBlocks(index)
    requires |data| == c.geometry.BlockInfoAt(index, k).length
    ensures NotShort(c, W.Block(c.geometry.BlockInfoAt(index, k).index, c.geometry.BlockInfoAt(index, k).begin, data))
  {
    RequestIsExact(c.geometry, index, k);
  }

  // ----- step by step

  /** The step neither accounts for bytes that were not received nor for bytes
      that were received before. */
  ghost predicate Pays(c: Config, sh: Shared, x: Session, sh': Shared, x': Session) {
    sh'.wire + BytesDone(c, sh.tracker.have) + Partial(x) >=
    sh.wire + BytesDone(c, sh'.tracker.have) + Partial(x')
  }

  /** The assembler takes the block in. */
  predicate Takes(x: Session, b: W.Block) {
    x.current.Some? && b.index == x.current.value.index && x.current.value.AddBlock(b.begin, b.data).0.Accepted?
  }

  /** The block makes the piece whole, and the piece is not kept. */
  predicate Wastes(c: Config, sh: Shared, x: Session, b: W.Block)
    requires Takes(x, b)
  {
    var a := x.current.value.AddBlock(b.begin, b.data).1;
    a.IsComplete() && (a.index in sh.tracker.have || !c.Verifies(a.index, a.buf))
  }

  /** By how much an event raises the bytes received above those accounted for:
      what a block carries less its credit, and whatever is thrown away. */
  function Gain(c: Config, sh: Shared, x: Session, e: Event): int {
    match e
    case Receive(Piece(b)) =>
      if !Takes(x, b) then |b.data|
      else if Wastes(c, sh, x, b) then |b.data| + Partial(x)
      else |b.data| - Credit(x.current.value, b.begin)
    case Receive(Choke) => Partial(x)
    case TimedOut => Partial(x)
    case ReadControl => if sh.control.Suspended? then Partial(x) else 0
    case _ => 0
  }

  /** A new block, shorter than the block it stands for, enters the account. */
  predicate ShortCredit(c: Config, sh: Shared, x: Session, e: Event) {
    && e.Receive? && e.message.Piece? && Takes(x, e.message.block)
    && !Wastes(c, sh, x, e.message.block)
    && |e.message.block.data| < Credit(x.current.value, e.message.block.begin)
  }

  lemma WholePieceGains(c: Config, sh: Shared, x: Session, a: Assembly)
    requires a.Valid() && a.IsComplete() && a.index < c.Count() && a.length == c.geometry.PieceLength(a.index)
    requires x.current.None? && |sh.tracker.availability| == c.Count()
    ensures var (sh', x') := OnWholePiece(c, sh, x, a);
      && x'.current.None? && sh'.wire == sh.wire
      && BytesDone(c, sh'.tracker.have) == BytesDone(c, sh.tracker.have)
         + (if a.index in sh.tracker.have || !c.Verifies(a.index, a.buf) then 0 else AssembledBytes(a))
  {
    CompleteIsWhole(a);
    if a.index !in sh.tracker.have {
      GainPiece(c, sh.tracker.have, a.index);
    }
    hide BytesDone, AssembledBytes, Assembly.Valid, Tracking.Tracker.IsComplete;
  }

  lemma BlockGains(c: Config, sh: Shared, x: Session, b: W.Block)
    requires c.WellFormed() && SharedInv(c, sh) && SessionInv(c, sh, x) && x.phase.Waiting?
    ensures var (sh', x') := OnBlock(c, sh, x, b);
      && sh'.wire == sh.wire
      && |b.data| + BytesDone(c, sh.tracker.have) + Partial(x) ==
         Gain(c, sh, x, Receive(W.Piece(b))) + BytesDone(c, sh'.tracker.have) + Partial(x')
  {
    hide PhaseHolds, BytesDone, AssembledBytes, OnWholePiece, RequestsInOrder, Below, Credit, Assembly.IsComplete;
    if Takes(x, b) {
      var a := x.current.value;
      AddBlockKeepsValid(a, b.begin, b.data);
      CreditIsExact(a, b.begin, b.data);
      var a' := a.AddBlock(b.begin, b.data).1;
      hide Assembly.AddBlock, Assembly.Valid;
      var y := x.(inFlight := if x.inFlight > 0 then x.inFlight - 1 else 0);
      if a'.IsComplete() {
        WholePieceGains(c, sh, y.(current := None), a');
      }
    }
  }

  lemma OtherStepsGain(c: Config, sh: Shared, x: Session, e: Event)
    requires SessionInv(c, sh, x) && Enabled(c, sh, x, e) && !(e.Receive? && e.message.Piece?)
    ensures var (sh', x') := Step(c, sh, x, e);
      sh'.wire == sh.wire && Partial(x) == Gain(c, sh, x, e) + Partial(x')
  {
    hide AssembledBytes, OnBlock, Bitfields.FromWire, CanRequest, Window, Below;
    match e
    case Receive(m) =>
      MessageFrame(c, sh, x, m);
      OthersKeepPiece(c, sh, x, m);
      hide OnMessage;
    case Reserve =>
      hide OnMessage;
      ReserveFrame(c, sh, x);
      ReserveGains(c, sh, x);
      hide OnReserve;
    case _ =>
      hide OnMessage, OnReserve;
  }

  lemma OthersKeepPiece(c: Config, sh: Shared, x: Session, m: W.Message)
    requires !m.Piece?
    ensures OnMessage(c, sh, x, m).1.current == if m.Choke? then None else x.current
  {
    hide OnBlock, Bitfields.FromWire;
  }

  lemma ReserveGains(c: Config, sh: Shared, x: Session)
    ensures Partial(OnReserve(c, sh, x).1) == Partial(x)
  {
    forall index: nat ensures AssembledBytes(Fresh(index, c.geometry.PieceLength(index))) == 0 {
      FreshIsEmpty(index, c.geometry.PieceLength(index));
    }
    hide AssembledBytes, Fresh, Tracking.Tracker.Rarest, Tracking.Tracker.IsComplete;
  }

  /** Every step moves the account by exactly its gain. */
  lemma StepGains(c: Config, sh: Shared, x: Session, e: Event)
    requires c.WellFormed() && SharedInv(c, sh) && SessionInv(c, sh, x) && Enabled(c, sh, x, e)
    ensures var (sh', x') := Step(c, sh, x, e);
      sh'.wire + BytesDone(c, sh.tracker.have) + Partial(x) ==
      sh.wire + BytesDone(c, sh'.tracker.have) + Partial(x') + Gain(c, sh, x, e)
  {
    hide SharedInv, SessionInv, OnMessage, OnBlock, BytesDone, Partial, Copies, Gain;
    if e.Receive? && e.message.Piece? {
      var b := e.message.block;
      MessageIsBlock(c, sh, x, b);
      BlockIgnoresWire(c, sh, x, b, sh.wire + |b.data|);
      assert x.phase.Waiting?;
      BlockGains(c, sh, x, b);
    } else {
      OtherStepsGain(c, sh, x, e);
      StepMovesNothing(c, sh, x, e);
      hide Step, Enabled;
    }
  }

  /** A step accounts for no bytes that were not received exactly when it does not
      credit a short block. */
  lemma StepPaysIff(c: Config, sh: Shared, x: Session, e: Event)
    requires c.WellFormed() && SharedInv(c, sh) && SessionInv(c, sh, x) && Enabled(c, sh, x, e)
    ensures var (sh', x') := Step(c, sh, x, e);
      Pays(c, sh, x, sh', x') <==> !ShortCredit(c, sh, x, e)
  {
    StepGains(c, sh, x, e);
    hide Step, Enabled, SharedInv, SessionInv, BytesDone, Partial, Takes, Wastes, Credit;
  }

  /** A block of at least the length that a request for it would name is not
      credited short. */
  lemma FullBlocksPay(c: Config, sh: Shared, x: Session, e: Event)
    requires c.WellFormed() && SessionInv(c, sh, x) && Honest(c, e)
    ensures !ShortCredit(c, sh, x, e)
  {
    hide PhaseHolds, Below, RequestsInOrder, Wastes;
    if e.Receive? && e.message.Piece? && Takes(x, e.message.block) {
      DivCeilBounds(x.current.value.length, BLOCK_SIZE);
    }
  }

  lemma StepMovesNothing(c: Config, sh: Shared, x: Session, e: Event)
    requires Enabled(c, sh, x, e) && !(e.Receive? && e.message.Piece?)
    ensures Step(c, sh, x, e).0.tracker.have == sh.tracker.have
  {
    hide OnMessage, OnReserve, OnControl, OnBlock;
    if !e.Emit? {
      OtherStepsMoveNothing(c, sh, x, e);
      hide Step, Enabled;
    }
  }

  lemma WholePieceIgnoresWire(c: Config, sh: Shared, x: Session, a: Assembly, wire: nat)
    ensures OnWholePiece(c, sh.(wire := wire), x, a) ==
      (OnWholePiece(c, sh, x, a).0.(wire := wire), OnWholePiece(c, sh, x, a).1)
    ensures OnWholePiece(c, sh, x, a).0.wire == sh.wire
  {
    hide Tracking.Tracker.IsComplete, Config.Verifies, Tracking.Tracker.MarkHave, Tracking.Tracker.Release;
  }

  lemma BlockIgnoresWire(c: Config, sh: Shared, x: Session, b: W.Block, wire: nat)
    ensures OnBlock(c, sh.(wire := wire), x, b) == (OnBlock(c, sh, x, b).0.(wire := wire), OnBlock(c, sh, x, b).1)
    ensures OnBlock(c, sh, x, b).0.wire == sh.wire
  {
    hide Assembly.AddBlock, Assembly.IsComplete, OnWholePiece;
    if x.current.Some? {
      var y := x.(inFlight := if x.inFlight > 0 then x.inFlight - 1 else 0);
      WholePieceIgnoresWire(c, sh, y.(current := None), x.current.value.AddBlock(b.begin, b.data).1, wire);
    }
  }

  // ----- the account of a run

  /** The bytes received less the bytes accounted for. */
  function Surplus(c: Config, s: State): int {
    s.shared.wire - BytesDone(c, s.shared.tracker.have) - Sum(PartialOf(s.sessions))
  }

  function ActGain(c: Config, s: State, a: Action): int
    requires CanAct(c, s, a)
  {
    if a.At? then Gain(c, s.shared, s.sessions[a.peer], a.event) else 0
  }

  /** What the first `n` actions of a run gained together. */
  ghost function TotalGain(c: Config, peers: nat, states: seq<State>, actions: seq<Action>, n: nat): int
    requires IsRun(c, peers, states, actions) && n <= |actions|
  {
    if n == 0 then 0
    else TotalGain(c, peers, states, actions, n - 1) + ActGain(c, states[n - 1], actions[n - 1])
  }

  lemma ActGains(c: Config, s: State, a: Action)
    requires c.WellFormed() && Inv(c, s) && CanAct(c, s, a)
    ensures Surplus(c, Act(c, s, a)) == Surplus(c, s) + ActGain(c, s, a)
  {
    hide SharedInv, SessionInv, AvailabilityExact, ClaimsExact, ExactlyOnce, BytesDone, Partial, Gain;
    if a.At? {
      var x := s.sessions[a.peer];
      StepGains(c, s.shared, x, a.event);
      hide Step, Enabled;
      var s' := Act(c, s, a);
      SumUpdate(PartialOf(s.sessions), a.peer, Partial(s'.sessions[a.peer]));
      assert PartialOf(s'.sessions) == PartialOf(s.sessions)[a.peer := Partial(s'.sessions[a.peer])];
    }
  }

  /** The exact account of any run: what was received exceeds what is owned and
      assembled by what the steps gained. */
  lemma {:induction false} RunAccount(
    c: Config, peers: nat, states: seq<State>, actions: seq<Action>, n: nat)
    requires c.WellFormed() && IsRun(c, peers, states, actions) && n <= |actions|
    ensures Surplus(c, states[n]) == TotalGain(c, peers, states, actions, n)
    ensures Balanced(c, states[n]) <==> TotalGain(c, peers, states, actions, n) >= 0
    ensures states[n].shared.wire >= BytesDone(c, states[n].shared.tracker.have) <==>
      TotalGain(c, peers, states, actions, n) + Sum(PartialOf(states[n].sessions)) >= 0
  {
    hide CanAct, Act, Inv, ActGain, BytesDone;
    if n == 0 {
      InitiallyBalanced(c, peers);
    } else {
      RunAccount(c, peers, states, actions, n - 1);
      RunHolds(c, peers, states, actions, n - 1);
      ActGains(c, states[n - 1], actions[n - 1]);
    }
  }

  /** Action `k` credits no short block. */
  ghost predicate PaysItsWay(c: Config, s: State, a: Action)
    requires CanAct(c, s, a)
  {
    a.At? ==> !ShortCredit(c, s.shared, s.sessions[a.peer], a.event)
  }

  /** If no step credits a short block, then in every state the bytes received
      cover the owned pieces and everything that sits in assemblers. */
  lemma {:induction false} BytesAreConserved(
    c: Config, peers: nat, states: seq<State>, actions: seq<Action>, n: nat)
    requires c.WellFormed() && IsRun(c, peers, states, actions) && n <= |actions|
    requires forall k :: 0 <= k < n ==> PaysItsWay(c, states[k], actions[k])
    ensures Balanced(c, states[n])
  {
    hide CanAct, Act, Inv, ActGain, BytesDone, PaysItsWay;
    if n == 0 {
      InitiallyBalanced(c, peers);
    } else {
      BytesAreConserved(c, peers, states, actions, n - 1);
      RunHolds(c, peers, states, actions, n - 1);
      ActGains(c, states[n - 1], actions[n - 1]);
      PaidActGains(c, states[n - 1], actions[n - 1]);
    }
  }

  /** In particular if every block delivered is as long as a request for it would
      name: then `wire_bytes` is at least `bytes_done` in every state. */
  lemma FullRunIsConserved(
    c: Config, peers: nat, states: seq<State>, actions: seq<Action>, n: nat)
    requires c.WellFormed() && IsRun(c, peers, states, actions) && n <= |actions|
    requires forall k :: 0 <= k < n && actions[k].At? ==> Honest(c, actions[k].event)
    ensures Balanced(c, states[n])
    ensures states[n].shared.wire >= BytesDone(c, states[n].shared.tracker.have)
  {
    hide CanAct, Act, Inv, Honest, BytesDone, PaysItsWay;
    forall k | 0 <= k < n ensures PaysItsWay(c, states[k], actions[k]) {
      RunHolds(c, peers, states, actions, k);
      HonestActPays(c, states[k], actions[k]);
    }
    BytesAreConserved(c, peers, states, actions, n);
  }

  lemma HonestActPays(c: Config, s: State, a: Action)
    requires c.WellFormed() && Inv(c, s) && CanAct(c, s, a) && (a.At? ==> Honest(c, a.event))
    ensures PaysItsWay(c, s, a)
  {
    hide SharedInv, AvailabilityExact, ClaimsExact, ExactlyOnce, ShortCredit, Honest, Enabled;
    if a.At? {
      assert SessionInv(c, s.shared, s.sessions[a.peer]);
      FullBlocksPay(c, s.shared, s.sessions[a.peer], a.event);
    }
  }

  lemma PaidActGains(c: Config, s: State, a: Action)
    requires CanAct(c, s, a)
    ensures PaysItsWay(c, s, a) <==> ActGain(c, s, a) >= 0
  {
    hide Gain, ShortCredit, Enabled;
    if a.At? {
      GainIsNatural(c, s.shared, s.sessions[a.peer], a.event);
    }
  }

  lemma GainIsNatural(c: Config, sh: Shared, x: Session, e: Event)
    ensures Gain(c, sh, x, e) >= 0 <==> !ShortCredit(c, sh, x, e)
  {
    hide Partial, Takes, Wastes, Credit;
  }

  lemma InitiallyBalanced(c: Config, peers: nat)
    ensures Balanced(c, Init(c, peers)) && Surplus(c, Init(c, peers)) == 0
  {
    SumZero(OwnedLengths(c, {}));
    NothingAtFirst(PartialOf(Init(c, peers).sessions));
  }
}
