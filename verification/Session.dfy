/** The coordinator and the per-peer session over their mutable parts: `Coordinator`,
    `run_session` and `handle_block` in `src/download/mod.rs`. Each method is one
    atomic step and does to the objects what `Swarm.Step` does to their values. */
module Sessions {
  import opened Common
  import opened Piece
  import opened Assembler
  import opened Bitfields
  import opened Tracking
  import opened Stats
  import opened Swarm
  import Ledger
  import Theorems
  import W = Wire

  class Coordinator {
    const config: Config
    const tracker: PieceTracker
    const stats: SwarmStats
    var done: bool
    var control: ControlState
    var version: nat
    var alive: bool
    var receiverOpen: bool
    var sent: seq<VerifiedPiece>
    var lost: seq<VerifiedPiece>
    ghost var endgame: bool
    ghost var everCancelled: bool

    ghost predicate Valid()
      reads this, tracker, tracker.have, stats
    {
      && tracker.Valid() && stats.Valid()
      && tracker.pieceHashes == config.hashes && tracker.sha1 == config.sha1
    }

    ghost function Value(): Shared
      reads this, tracker, tracker.have, stats
      requires Valid()
    {
      Shared(tracker.Value(), done, control, version, alive, receiverOpen, sent, lost, stats.received,
             endgame, everCancelled)
    }

    constructor (config: Config)
      ensures Valid() && this.config == config && Value() == InitShared(config)
      ensures fresh(tracker) && fresh(tracker.have) && fresh(stats)
    {
      this.config := config;
      tracker := new PieceTracker(config.hashes, config.sha1);
      stats := new SwarmStats();
      done, control, version := false, Running, 0;
      alive, receiverOpen := true, true;
      sent, lost := [], [];
      endgame, everCancelled := false, false;
    }

    method SetControl(state: ControlState)
      requires Valid()
      modifies this`control, this`version, this`everCancelled
      ensures Valid()
      ensures Value() == old(Value()).(control := state, version := old(version) + 1,
                                       everCancelled := old(everCancelled) || state.Cancelled?)
      ensures old(alive) ==> forall sessions: seq<Session> ::
                Act(config, State(old(Value()), sessions), Swarm.SetControl(state)) == State(Value(), sessions)
    {
      control := state;
      version := version + 1;
      everCancelled := everCancelled || state.Cancelled?;
    }

    /** Hands a piece to the channel, or loses it if nobody listens any more. */
    method Offer(piece: VerifiedPiece)
      requires Valid()
      modifies this`sent, this`lost
      ensures Valid()
      ensures Value() == if receiverOpen then old(Value()).(sent := old(sent) + [piece])
                         else old(Value()).(lost := old(lost) + [piece])
    {
      if receiverOpen {
        sent := sent + [piece];
      } else {
        lost := lost + [piece];
      }
    }

    /** Progress at one instant. Pieces and bytes done are counted over the owned
        pieces; all bytes are done exactly when the torrent is complete. */
    method Snapshot() returns (
      piecesDone: nat, bytesDone: nat, totalBytes: u64, wireBytes: u64, connected: nat, complete: bool, paused: bool)
      requires Valid() && config.WellFormed() && Good(tracker.Value(), config.Count())
      ensures piecesDone == |tracker.Value().have|
      ensures bytesDone == Ledger.BytesDone(config, tracker.Value().have)
      ensures bytesDone <= totalBytes == config.geometry.totalLength
      ensures complete <==> tracker.Value().IsComplete()
      ensures complete <==> bytesDone == totalBytes
      ensures complete <==> piecesDone == config.Count()
      ensures stats.received < U64_LIMIT ==> wireBytes == stats.received
      ensures connected == |stats.peers| && (paused <==> control == Suspended)
    {
      hide HasBit, Indices, Below;
      ghost var t := tracker.Value();
      FullSubset(t.have, config.Count());
      Ledger.ProgressIsExact(config, t);
      piecesDone, bytesDone := CountOwned();
      totalBytes := config.geometry.totalLength;
      wireBytes := stats.totalDownloaded;
      connected := |stats.peers|;
      complete := tracker.IsComplete();
      paused := control == Suspended;
    }

    method CountOwned() returns (pieces: nat, bytes: nat)
      requires Valid()
      ensures pieces == |tracker.Value().have|
      ensures bytes == Ledger.BytesDone(config, tracker.Value().have)
    {
      hide HasBit, Indices, Below, PieceTracker.Claims, Geometry.PieceLength;
      ghost var have := tracker.have.Value();
      pieces, bytes := 0, 0;
      NothingCounted(config, have);
      for i := 0 to |config.hashes|
        invariant pieces == |OwnedBelow(have, i)|
        invariant bytes == BytesBelow(config, have, i)
      {
        CountNext(config, have, i);
        if tracker.have.Has(i) {
          pieces := pieces + 1;
          bytes := bytes + config.geometry.PieceLength(i);
        }
      }
      AllCounted(config, have);
    }
  }

  ghost function OwnedBelow(have: set<nat>, k: nat): set<nat> {
    set i: nat | i in have && i < k
  }

  ghost function BytesBelow(c: Config, have: set<nat>, k: nat): nat
    requires k <= c.Count()
  {
    Sum(Ledger.OwnedLengths(c, have)[..k])
  }

  lemma NothingCounted(c: Config, have: set<nat>)
    ensures OwnedBelow(have, 0) == {} && BytesBelow(c, have, 0) == 0
  {
    assert Ledger.OwnedLengths(c, have)[..0] == [];
  }

  lemma CountNext(c: Config, have: set<nat>, i: nat)
    requires i < c.Count()
    ensures |OwnedBelow(have, i + 1)| == |OwnedBelow(have, i)| + (if i in have then 1 else 0)
    ensures BytesBelow(c, have, i + 1) == BytesBelow(c, have, i) + (if i in have then c.geometry.PieceLength(i) else 0)
  {
    var lengths := Ledger.OwnedLengths(c, have);
    assert lengths[..i + 1] == lengths[..i] + [lengths[i]];
    SumSnoc(lengths[..i], lengths[i]);
    assert OwnedBelow(have, i + 1) == OwnedBelow(have, i) + (if i in have then {i} else {});
  }

  lemma AllCounted(c: Config, have: set<nat>)
    requires have <= Below(c.Count())
    ensures OwnedBelow(have, c.Count()) == have
    ensures BytesBelow(c, have, c.Count()) == Ledger.BytesDone(c, have)
  {
    var lengths := Ledger.OwnedLengths(c, have);
    assert lengths[..c.Count()] == lengths;
    assert forall i: nat :: i in have ==> i in Below(c.Count());
  }

  lemma HaveMessage(c: Config, sh: Shared, x: Session, index: u32)
    ensures OnMessage(c, sh, x, W.Have(index)) ==
      if index in x.peerHas then (sh, x.(phase := LoopHead))
      else (sh.(tracker := sh.tracker.AddAvailability(index)),
            x.(phase := LoopHead, peerHas := x.peerHas + (if index < c.Count() then {index} else {})))
  {
    hide OnBlock, FromWire, Relinquish, Tracker.AddAvailability;
    assert x.peerHas + {} == x.peerHas;
  }

  lemma BitfieldMessage(c: Config, sh: Shared, x: Session, bits: seq<Byte>)
    ensures OnMessage(c, sh, x, W.Bitfield(bits)) ==
      match FromWire(bits, c.Count())
      case Err(_) => (sh, x.(phase := Leaving(Failed)))
      case Ok(has) =>
        (sh.(tracker := sh.tracker.RemoveBitfield(x.peerHas).AddBitfield(has)), x.(phase := LoopHead, peerHas := has))
  {
    hide OnBlock, FromWire, Relinquish, Tracker.RemoveBitfield, Tracker.AddBitfield;
  }

  /** What happens once a block is stored. */
  function Settled(c: Config, sh: Shared, x: Session, k: nat): (Shared, Session)
    requires x.current.Some?
  {
    var y := x.(inFlight := if x.inFlight > 0 then x.inFlight - 1 else 0);
    if !x.current.value.IsComplete() then
      (sh, y.(phase := LoopHead, answers := x.answers + [k]))
    else
      OnWholePiece(c, sh, y.(current := None), x.current.value)
  }

  lemma OnlyAcceptedIsStored(a: Assembly, begin: u32, data: seq<Byte>)
    ensures !a.AddBlock(begin, data).0.Accepted? ==> a.AddBlock(begin, data).1 == a
  {
  }

  lemma BlockIsSettled(c: Config, sh: Shared, x: Session, b: W.Block)
    ensures OnBlock(c, sh, x, b) ==
      if x.current.None? || b.index != x.current.value.index then (sh, x.(phase := LoopHead))
      else
        var (verdict, a) := x.current.value.AddBlock(b.begin, b.data);
        match verdict
        case Rejected => (sh, x.(phase := Leaving(Failed)))
        case Crashed => (sh, x.(phase := Gone(Panicked)))
        case Accepted => Settled(c, sh, x.(current := Some(a)), b.begin / BLOCK_SIZE)
  {
    hide Assembly.AddBlock, Assembly.IsComplete, OnWholePiece;
    if x.current.Some? {
      var a := x.current.value.AddBlock(b.begin, b.data).1;
      var y := x.(inFlight := if x.inFlight > 0 then x.inFlight - 1 else 0);
      assert y.(current := None) == x.(current := Some(a)).(inFlight := y.inFlight).(current := None);
    }
  }

  class PeerSession {
    const addr: nat
    var phase: Phase
    var peerHas: Bitfield
    var choked: bool
    var current: PieceAssembler?
    var nextBlock: nat
    var inFlight: nat
    var seen: nat
    ghost var requests: seq<W.BlockInfo>
    ghost var answers: seq<nat>

    /** The objects that belong to this session alone. */
    ghost function Repr(): (objects: set<object>)
      reads this
      ensures this in objects
    {
      {this, peerHas} + (if current == null then {} else {current as object, current.buf, current.received})
    }

    ghost predicate Valid(co: Coordinator)
      reads this, Repr()
      ensures Valid(co) ==> peerHas.Valid()
    {
      && peerHas.Valid() && peerHas.numPieces == co.config.Count()
      && peerHas != co.tracker.have
      && (current != null ==> current.Valid())
    }

    ghost function Value(): Session
      reads this, peerHas, Repr()
      requires peerHas.Valid()
    {
      Session(phase, peerHas.Value(), choked,
              if current == null then None else Some(current.Value()),
              nextBlock, inFlight, seen, requests, answers)
    }

    constructor (co: Coordinator, addr: nat)
      ensures Valid(co) && Value() == InitSession() && fresh(Repr())
    {
      this.addr := addr;
      phase := Dialing;
      peerHas := new Bitfield(co.config.Count());
      choked := true;
      current := null;
      nextBlock, inFlight, seen := 0, 0, 0;
      requests := [];
      answers := [];
    }

    /** Gives the current piece, if any, back to the swarm. */
    method Release(co: Coordinator)
      requires co.Valid() && Valid(co)
      modifies co.tracker`claimed
      ensures co.Valid() && Valid(co) && Value() == old(Value())
      ensures co.Value() == old(co.Value()).(tracker := Relinquish(old(co.Value()).tracker, Value()))
    {
      if current != null {
        co.tracker.ReleasePiece(current.index);
      }
    }

    method DropCurrent()
      requires peerHas.Valid()
      modifies this`current, this`nextBlock, this`inFlight
      ensures current == null && Value() == Dropped(old(Value())) && Repr() <= old(Repr())
    {
      current := null;
      nextBlock := 0;
      inFlight := 0;
    }

    method ReadControl(co: Coordinator)
      requires co.Valid() && Valid(co) && phase.LoopHead?
      modifies this, co.tracker`claimed
      ensures co.Valid() && Valid(co)
      ensures Repr() <= old(Repr())
      ensures (co.Value(), Value()) == OnControl(old(co.Value()), old(Value()))
    {
      hide HasBit, Indices, Below, Assembly.Valid, Tracker.Release;
      seen := co.version;
      match co.control
      case Running =>
        phase := Reserving;
      case Cancelled =>
        Release(co);
        phase := Leaving(WasCancelled);
      case Suspended =>
        Release(co);
        if current != null {
          DropCurrent();
        }
        phase := Idling;
    }

    /** The critical section of a reservation: an exclusive piece, else the news
        that the torrent is complete, else a piece shared in the endgame. */
    method ChoosePiece(co: Coordinator) returns (piece: Option<nat>, complete: bool)
      requires co.Valid() && Valid(co)
      modifies co.tracker`claimed, co`endgame
      ensures co.Valid() && Valid(co) && Value() == old(Value())
      ensures var (reserved, t) := old(co.Value()).tracker.Reserve(Value().peerHas);
        if reserved.Some? then
          piece == reserved && !complete && co.Value() == old(co.Value()).(tracker := t)
        else if old(co.Value()).tracker.IsComplete() then
          piece == None && complete && co.Value() == old(co.Value())
        else
          && piece == old(co.Value()).tracker.ReserveEndgame(Value().peerHas) && !complete
          && co.Value() == old(co.Value()).(endgame := old(co.endgame) || piece.Some?)
    {
      hide HasBit, Indices, Below, Tracker.IsComplete, Tracker.Rarest, Assembly.Valid;
      complete := false;
      piece := co.tracker.ReservePiece(peerHas);
      if piece.None? {
        complete := co.tracker.IsComplete();
        if !complete {
          piece := co.tracker.ReservePieceEndgame(peerHas);
          if piece.Some? {
            co.endgame := true;
          }
        }
      }
    }

    method Begin(co: Coordinator, index: nat)
      requires Valid(co)
      modifies this
      ensures Valid(co) && Value() == StartPiece(co.config, old(Value()), index)
      ensures peerHas == old(peerHas) && fresh(Repr() - old(Repr()))
    {
      hide Fresh, Assembly.Valid, HasBit, Indices;
      current := new PieceAssembler(index, co.config.geometry.PieceLength(index));
      nextBlock := 0;
      inFlight := 0;
      requests := [];
      answers := [];
      phase := Filling;
    }

    method Reserve(co: Coordinator)
      requires co.Valid() && Valid(co) && phase.Reserving?
      modifies this, co.tracker`claimed, co`endgame
      ensures co.Valid() && Valid(co)
      ensures (co.Value(), Value()) == OnReserve(co.config, old(co.Value()), old(Value()))
      ensures fresh(Repr() - old(Repr()))
    {
      hide HasBit, Indices, Below, Tracker.IsComplete, Tracker.Reserve, Tracker.ReserveEndgame, Assembly.Valid,
        StartPiece;
      if current != null || choked {
        phase := Filling;
        return;
      }
      var piece, complete := ChoosePiece(co);
      if piece.Some? {
        Begin(co, piece.value);
      } else {
        phase := if complete then Announcing else Filling;
      }
    }

    /** Sends the next request of the window. */
    method SendRequest(co: Coordinator) returns (request: W.BlockInfo)
      requires Valid(co) && CanRequest(co.config, Value())
      modifies this`nextBlock, this`inFlight, this`requests
      ensures Valid(co) && Value() == OnSend(co.config, old(Value()))
      ensures current != null && request == co.config.geometry.BlockInfoAt(current.index, old(nextBlock))
    {
      request := co.config.geometry.BlockInfoAt(current.index, nextBlock);
      nextBlock := nextBlock + 1;
      inFlight := inFlight + 1;
      requests := requests + [request];
    }

    /** Refills the request pipeline: the next blocks of the piece, in order, until
        the counter is at five or none is left. */
    method FillPipeline(co: Coordinator) returns (sent: seq<W.BlockInfo>)
      requires Valid(co)
      modifies this`nextBlock, this`inFlight, this`requests
      ensures Valid(co) && !CanRequest(co.config, Value())
      ensures Value() == old(Value()).(nextBlock := old(nextBlock) + |sent|, inFlight := old(inFlight) + |sent|,
                                       requests := old(requests) + sent)
      ensures sent != [] ==> old(CanRequest(co.config, Value()))
      ensures old(CanRequest(co.config, Value())) ==>
        && |sent| == Min(MAX_PIPELINED_REQUESTS - old(inFlight),
                         co.config.geometry.NumBlocks(current.index) - old(nextBlock))
        && forall j :: 0 <= j < |sent| ==> sent[j] == co.config.geometry.BlockInfoAt(current.index, old(nextBlock) + j)
    {
      hide Geometry.NumBlocks, Geometry.BlockInfoAt, Assembly.Valid, HasBit, Indices, Below;
      sent := [];
      if choked || current == null {
        return;
      }
      var total := co.config.geometry.NumBlocks(current.index);
      while inFlight < MAX_PIPELINED_REQUESTS && nextBlock < total
        invariant Valid(co) && current == old(current)
        invariant Value() == old(Value()).(nextBlock := old(nextBlock) + |sent|, inFlight := old(inFlight) + |sent|,
                                           requests := old(requests) + sent)
        invariant sent != [] ==> old(CanRequest(co.config, Value()))
        invariant old(CanRequest(co.config, Value())) ==> inFlight <= MAX_PIPELINED_REQUESTS && nextBlock <= total
        invariant forall j :: 0 <= j < |sent| ==>
          sent[j] == co.config.geometry.BlockInfoAt(current.index, old(nextBlock) + j)
      {
        var request := SendRequest(co);
        sent := sent + [request];
      }
    }

    method HandleBlock(co: Coordinator, block: W.Block)
      requires co.Valid() && Valid(co) && phase.Waiting?
      modifies Repr(), co.tracker`claimed, co.tracker.have
      ensures co.Valid() && Valid(co)
      ensures Repr() <= old(Repr())
      ensures (co.Value(), Value()) == OnBlock(co.config, old(co.Value()), old(Value()), block)
    {
      hide HasBit, Indices, Below, OnBlock, Settled, Assembly.AddBlock, Assembly.Valid;
      BlockIsSettled(co.config, co.Value(), Value(), block);
      if current == null || block.index != current.index {
        phase := LoopHead;
        return;
      }
      OnlyAcceptedIsStored(current.Value(), block.begin, block.data);
      var verdict := current.AddBlock(block.begin, block.data);
      match verdict
      case Rejected =>
        phase := Leaving(Failed);
      case Crashed =>
        phase := Gone(Panicked);
      case Accepted =>
        Settle(co, block.begin / BLOCK_SIZE);
    }

    /** A block has been stored: one request less is in flight, and the piece may be
        whole. */
    method Settle(co: Coordinator, k: nat)
      requires co.Valid() && Valid(co) && current != null
      modifies this, co.tracker`claimed, co.tracker.have
      ensures co.Valid() && Valid(co)
      ensures Repr() <= old(Repr())
      ensures (co.Value(), Value()) == Settled(co.config, old(co.Value()), old(Value()), k)
    {
      hide HasBit, Indices, Below, OnWholePiece, Assembly.Valid, SwarmStats.Valid, PieceTracker.Valid;
      inFlight := if inFlight > 0 then inFlight - 1 else 0;
      var whole := current.IsComplete();
      if !whole {
        answers := answers + [k];
        phase := LoopHead;
        return;
      }
      var index := current.index;
      var data := current.IntoBytes();
      current := null;
      FinishPiece(co, index, data);
    }

    /** A whole piece is verified, and kept or given back. */
    method FinishPiece(co: Coordinator, index: nat, data: seq<Byte>)
      requires co.Valid() && Valid(co)
      modifies this`phase, co.tracker`claimed, co.tracker.have
      ensures co.Valid() && Valid(co)
      ensures forall a: Assembly :: a.index == index && a.buf == data ==>
        (co.Value(), Value()) == OnWholePiece(co.config, old(co.Value()), old(Value()), a)
    {
      hide HasBit, Indices, Below, Tracker.IsComplete, Assembly.Valid;
      var complete := co.tracker.IsComplete();
      var owned := co.tracker.Has(index);
      if owned {
        phase := if complete then Announcing else LoopHead;
        return;
      }
      var good := co.tracker.Verify(index, data);
      if good {
        co.tracker.MarkHave(index);
        complete := co.tracker.IsComplete();
        phase := Emitting(VerifiedPiece(index, data), complete);
        return;
      }
      co.tracker.ReleasePiece(index);
      phase := LoopHead;
    }

    /** A newly learned piece enters the session's view and the shared count. */
    method LearnPiece(co: Coordinator, index: u32)
      requires co.Valid() && Valid(co) && index !in peerHas.Value()
      modifies peerHas, co.tracker`availability
      ensures co.Valid() && Valid(co)
      ensures peerHas.Value() == old(peerHas.Value()) + (if index < co.config.Count() then {index} else {})
      ensures co.Value() == old(co.Value()).(tracker := old(co.tracker.Value()).AddAvailability(index))
    {
      hide HasBit, Indices, Below, Tracker.AddAvailability;
      peerHas.Set(index);
      co.tracker.AddAvailability(index);
    }

    method HandleHave(co: Coordinator, index: u32)
      requires co.Valid() && Valid(co) && phase.Waiting?
      modifies this`phase, peerHas, co.tracker`availability, co.stats`peers
      ensures co.Valid() && Valid(co)
      ensures (co.Value(), Value()) == OnMessage(co.config, old(co.Value()), old(Value()), W.Have(index))
    {
      hide HasBit, Indices, Below, Assembly.Valid, Tracker.AddAvailability, OnMessage;
      HaveMessage(co.config, co.Value(), Value(), index);
      if !peerHas.Has(index) {
        LearnPiece(co, index);
      }
      var count := peerHas.Count();
      co.stats.SetHaveCount(addr, count);
      phase := LoopHead;
    }

    /** Replaces what the peer offers and its contribution to the availability. */
    method ReplaceOffer(co: Coordinator, newHas: Bitfield)
      requires co.Valid() && Valid(co) && newHas.Valid() && newHas.numPieces == co.config.Count()
      requires newHas != co.tracker.have
      modifies this`phase, this`peerHas, co.tracker`availability, co.stats`peers
      ensures co.Valid() && Valid(co) && peerHas == newHas
      ensures Value() == old(Value()).(phase := LoopHead, peerHas := newHas.Value())
      ensures co.Value() == old(co.Value()).(tracker :=
        old(co.tracker.Value()).RemoveBitfield(old(peerHas.Value())).AddBitfield(newHas.Value()))
    {
      hide HasBit, Indices, Below, Assembly.Valid, Tracker.AddBitfield, Tracker.RemoveBitfield;
      co.tracker.RemoveBitfieldAvailability(peerHas);
      co.tracker.AddBitfieldAvailability(newHas);
      peerHas := newHas;
      var count := peerHas.Count();
      co.stats.SetHaveCount(addr, count);
      phase := LoopHead;
    }

    method HandleBitfield(co: Coordinator, bits: seq<Byte>)
      requires co.Valid() && Valid(co) && phase.Waiting?
      modifies this`phase, this`peerHas, co.tracker`availability, co.stats`peers
      ensures co.Valid() && Valid(co) && fresh(Repr() - old(Repr()))
      ensures (co.Value(), Value()) == OnMessage(co.config, old(co.Value()), old(Value()), W.Bitfield(bits))
    {
      hide HasBit, Indices, Below, Assembly.Valid, FromWire, Tracker.AddBitfield, Tracker.RemoveBitfield, OnMessage;
      BitfieldMessage(co.config, co.Value(), Value(), bits);
      var parsed := Bitfield.FromBytes(bits, co.config.Count());
      if parsed.Err? {
        phase := Leaving(Failed);
        return;
      }
      ReplaceOffer(co, parsed.value);
    }

    method HandleChoke(co: Coordinator)
      requires co.Valid() && Valid(co) && phase.Waiting?
      modifies this, co.tracker`claimed, co.stats`peers
      ensures co.Valid() && Valid(co)
      ensures Repr() <= old(Repr())
      ensures (co.Value(), Value()) == OnMessage(co.config, old(co.Value()), old(Value()), W.Choke)
    {
      hide HasBit, Indices, Below, Assembly.Valid, Tracker.Release;
      co.stats.SetChoked(addr, true);
      Release(co);
      if current != null {
        DropCurrent();
      }
      choked := true;
      phase := LoopHead;
    }

    method HandlePiece(co: Coordinator, block: W.Block)
      requires co.Valid() && Valid(co) && phase.Waiting?
      modifies Repr(), co.tracker`claimed, co.tracker.have, co.stats
      ensures co.Valid() && Valid(co)
      ensures Repr() <= old(Repr())
      ensures (co.Value(), Value()) == OnMessage(co.config, old(co.Value()), old(Value()), W.Piece(block))
    {
      hide HasBit, Indices, Below, OnBlock, OnMessage, Assembly.Valid, Relinquish, Tracker.Release, Repr;
      Theorems.MessageIsBlock(co.config, co.Value(), Value(), block);
      co.stats.RecordBlock(addr, |block.data|);
      assert Value() == old(Value());
      assert co.Value() == old(co.Value()).(wire := old(co.Value()).wire + |block.data|);
      HandleBlock(co, block);
    }

    /** Whatever a peer sends, the session does what the protocol says. */
    method HandleMessage(co: Coordinator, m: W.Message)
      requires co.Valid() && Valid(co) && phase.Waiting?
      modifies this, Repr(), co.tracker`claimed, co.tracker`availability, co.tracker.have, co.stats
      ensures co.Valid() && Valid(co)
      ensures (co.Value(), Value()) == OnMessage(co.config, old(co.Value()), old(Value()), m)
      ensures fresh(Repr() - old(Repr()))
    {
      hide HasBit, Indices, Below, Assembly.Valid, OnBlock, Relinquish, FromWire;
      match m
      case Choke => HandleChoke(co);
      case Have(index) => HandleHave(co, index);
      case Bitfield(bits) => HandleBitfield(co, bits);
      case Piece(block) => HandlePiece(co, block);
      case Unchoke =>
        hide HasBit, Indices, Below, Assembly.Valid;
        co.stats.SetChoked(addr, false);
        choked := false;
        phase := LoopHead;
      case _ =>
        phase := LoopHead;
    }

    method Emit(co: Coordinator)
      requires co.Valid() && Valid(co) && phase.Emitting?
      modifies this`phase, co`sent, co`lost
      ensures co.Valid() && Valid(co)
      ensures (co.Value(), Value()) == OnEmit(old(co.Value()), old(Value()))
    {
      co.Offer(phase.piece);
      phase := if phase.complete then Announcing else LoopHead;
    }

    /** The connection is up: the peer is registered and the loop begins. */
    method Connected(co: Coordinator)
      requires co.Valid() && Valid(co) && phase.Dialing?
      modifies this`phase, co.stats`peers
      ensures co.Valid() && Valid(co)
      ensures co.stats.peers == old(co.stats.peers)[addr := PeerEntry(true, 0, 0)]
      ensures (co.Value(), Value()) == Step(co.config, old(co.Value()), old(Value()), Connect)
    {
      hide Assembly.Valid, HasBit, Indices, OnReserve, OnMessage, OnControl;
      co.stats.PeerConnected(addr);
      phase := LoopHead;
    }

    /** Takes the session's own contribution out of the availability counts. */
    method Withdraw(co: Coordinator)
      requires co.Valid() && Valid(co) && phase.Leaving?
      modifies this`phase, co.tracker`availability, co.stats`peers
      ensures co.Valid() && Valid(co) && co.stats.peers == old(co.stats.peers) - {addr}
      ensures (co.Value(), Value()) == Step(co.config, old(co.Value()), old(Value()), Event.Withdraw)
    {
      hide Tracker.RemoveBitfield, Assembly.Valid, HasBit, Indices;
      co.tracker.RemoveBitfieldAvailability(peerHas);
      co.stats.PeerDisconnected(addr);
      phase := Gone(phase.why);
    }

    method TimeOut(co: Coordinator)
      requires co.Valid() && Valid(co) && Enabled(co.config, co.Value(), Value(), TimedOut)
      modifies this, co.tracker`claimed
      ensures co.Valid() && Valid(co)
      ensures Repr() <= old(Repr())
      ensures (co.Value(), Value()) == Step(co.config, old(co.Value()), old(Value()), TimedOut)
    {
      hide Assembly.Valid, HasBit, Indices, Below, Relinquish, Dropped, Tracker.Release,
        SwarmStats.Valid, PieceTracker.Valid, Bitfield.Valid,
        CanRequest, OnReserve, OnControl, OnMessage, OnEmit, OnSend;
      Release(co);
      DropCurrent();
      phase := LoopHead;
    }

    method Close(co: Coordinator)
      requires co.Valid() && Valid(co) && Enabled(co.config, co.Value(), Value(), Closed)
      modifies this`phase, co.tracker`claimed
      ensures co.Valid() && Valid(co)
      ensures (co.Value(), Value()) == Step(co.config, old(co.Value()), old(Value()), Closed)
    {
      hide Assembly.Valid, HasBit, Indices;
      Release(co);
      phase := Leaving(PeerClosed);
    }

    static predicate IsLocal(e: Event) {
      e in {Refuse, ControlChanged, CoordinatorDropped, SendFails, PipelineReady, DoneChanged,
            ReceiveFails, Announce}
    }

    /** The steps that touch only the session's position and the `done` flag. */
    method PerformLocal(co: Coordinator, e: Event)
      requires co.Valid() && Valid(co) && IsLocal(e) && Enabled(co.config, co.Value(), Value(), e)
      modifies this`phase, this`seen, co`done
      ensures co.Valid() && Valid(co)
      ensures (co.Value(), Value()) == Step(co.config, old(co.Value()), old(Value()), e)
    {
      hide OnReserve, OnMessage, OnControl, Assembly.Valid, HasBit, Indices, Below, CanRequest;
      match e
      case Refuse => phase := Gone(Refused);
      case ControlChanged =>
        seen := co.version;
        phase := LoopHead;
      case CoordinatorDropped => phase := Leaving(Orphaned);
      case SendFails => phase := Leaving(Failed);
      case PipelineReady => phase := Waiting;
      case DoneChanged => phase := Leaving(SiblingDone);
      case ReceiveFails => phase := Leaving(Failed);
      case Announce =>
        co.done := true;
        phase := Leaving(TorrentDone);
    }

    /** One atomic step of a session over the shared objects is one step of the
        protocol over their values. */
    method Perform(co: Coordinator, e: Event)
      requires co.Valid() && Valid(co) && Enabled(co.config, co.Value(), Value(), e)
      modifies this, Repr(), co, co.tracker, co.tracker.have, co.stats
      ensures co.Valid() && Valid(co) && fresh(Repr() - old(Repr()))
      ensures (co.Value(), Value()) == Step(co.config, old(co.Value()), old(Value()), e)
    {
      hide OnReserve, OnMessage, OnControl, OnEmit, Assembly.Valid, HasBit, Indices, Below, Relinquish;
      match e
      case Connect => Connected(co);
      case ReadControl => ReadControl(co);
      case Reserve => Reserve(co);
      case SendRequest =>
        var request := SendRequest(co);
      case TimedOut => TimeOut(co);
      case Closed => Close(co);
      case Receive(m) => HandleMessage(co, m);
      case Emit => Emit(co);
      case Withdraw => Withdraw(co);
      case _ => PerformLocal(co, e);
    }
  }
}
