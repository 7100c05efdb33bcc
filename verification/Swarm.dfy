/** The download protocol as interleaved atomic steps: `src/download/mod.rs`.
    A step is one critical section of the shared tracker, or one await point. */
module Swarm {
  import opened Common
  import opened Piece
  import opened Assembler
  import Tracking
  import Bitfields
  import Metainfo
  import W = Wire

  const MAX_PIPELINED_REQUESTS: nat := 5

  /** What every session of one torrent agrees on; the hash is a parameter. */
  datatype Config = Config(geometry: Geometry, hashes: seq<Digest>, sha1: seq<Byte> -> Digest) {
    predicate WellFormed() {
      geometry.Consistent() && |hashes| == geometry.numPieces
    }

    function Count(): nat { |hashes| }

    predicate Verifies(index: nat, data: seq<Byte>) {
      index < |hashes| && sha1(data) == hashes[index]
    }
  }

  /** `Coordinator::new`: the torrent must be consistent and its hashes whole. */
  function Configure(info: Metainfo.Info, sha1: seq<Byte> -> Digest): Result<Config> {
    var geometry :- FromInfo(info);
    var hashes :- Metainfo.PieceHashes(info);
    Ok(Config(geometry, hashes, sha1))
  }

  /** A torrent is accepted exactly when its geometry and its hashes are; and the
      configuration holds that geometry, the given hash, and for each piece the
      twenty bytes that stand at its place. */
  lemma ConfigureIs(info: Metainfo.Info, sha1: seq<Byte> -> Digest)
    ensures Configure(info, sha1).Ok? <==> FromInfo(info).Ok? && |info.pieces| % 20 == 0
    ensures Configure(info, sha1).Ok? ==>
      var c := Configure(info, sha1).value;
      && c.geometry == FromInfo(info).value && c.sha1 == sha1 && |c.hashes| == |info.pieces| / 20
      && (forall i: nat :: i < |c.hashes| ==> c.hashes[i] == info.pieces[20 * i..20 * i + 20])
      && (forall i: nat, data: seq<Byte> ::
            c.Verifies(i, data) <==> i < |info.pieces| / 20 && sha1(data) == info.pieces[20 * i..20 * i + 20])
  {
    forall i: nat ensures Metainfo.PieceHashes(info).Ok? && i < |info.pieces| / 20 ==>
      Metainfo.PieceHashes(info).value[i] == info.pieces[20 * i..20 * i + 20]
    {
      Metainfo.HashAt(info, i);
    }
    Metainfo.HashAt(info, 0);
    hide FromInfo, Metainfo.PieceHashes;
  }

  /** The geometry and the tracker of an accepted torrent agree on the number of
      pieces exactly when it survives the cut to 32 bits. */
  lemma ConfigureIsWellFormed(info: Metainfo.Info, sha1: seq<Byte> -> Digest)
    requires Configure(info, sha1).Ok?
    ensures Configure(info, sha1).value.WellFormed() <==> Metainfo.NumPieces(info) < U32_LIMIT
  {
    FromInfoShape(info);
  }

  /** One byte of content with 2^32 + 1 hashes is accepted: the geometry sees one
      piece, the tracker all of them. */
  lemma PieceCountWraps(sha1: seq<Byte> -> Digest) returns (info: Metainfo.Info)
    ensures Configure(info, sha1).Ok? && Configure(info, sha1).value.geometry.numPieces == 1
    ensures Configure(info, sha1).value.Count() == U32_LIMIT + 1
  {
    info := Metainfo.Info(1, seq(Metainfo.SHA1_LEN * (U32_LIMIT + 1), _ => 0 as Byte), Some(1), None);
    assert Metainfo.NumPieces(info) == U32_LIMIT + 1;
    assert Metainfo.TotalLength(info) == Ok(1) by { assert [1][1..] == []; }
  }

  datatype ControlState = Running | Suspended | Cancelled

  datatype VerifiedPiece = VerifiedPiece(index: nat, data: seq<Byte>)

  /** Why a session left its loop. */
  datatype Exit =
    | Refused        // never connected
    | Failed         // an error was propagated
    | Panicked       // an index panic ended the session on the spot
    | PeerClosed
    | Orphaned       // the coordinator was dropped while paused
    | WasCancelled
    | SiblingDone    // another session announced completion
    | TorrentDone

  /** Where a session stands between two atomic steps. */
  datatype Phase =
    | Dialing
    | LoopHead
    | Reserving
    | Filling
    | Waiting
    | Idling         // paused: only a control change wakes it
    | Emitting(piece: VerifiedPiece, complete: bool)
    | Announcing
    | Leaving(why: Exit)
    | Gone(how: Exit)

  /** The local variables of one session, and two records kept since the current
      piece was reserved: what was asked for, and which blocks were taken in. */
  datatype Session = Session(
    phase: Phase,
    peerHas: set<nat>,
    choked: bool,
    current: Option<Assembly>,
    nextBlock: nat,
    inFlight: nat,
    seen: nat,
    requests: seq<W.BlockInfo>,
    answers: seq<nat>)

  /** What the sessions share. `sent` went into the channel, `lost` was offered
      after the receiver had gone; `endgame` and `everCancelled` are history. */
  datatype Shared = Shared(
    tracker: Tracking.Tracker,
    done: bool,
    control: ControlState,
    version: nat,
    coordinatorAlive: bool,
    receiverOpen: bool,
    sent: seq<VerifiedPiece>,
    lost: seq<VerifiedPiece>,
    wire: nat,
    endgame: bool,
    everCancelled: bool)

  /** What can happen to one session next. */
  datatype Event =
    | Connect
    | Refuse
    | ReadControl
    | ControlChanged
    | CoordinatorDropped
    | Reserve
    | SendRequest
    | SendFails
    | PipelineReady
    | DoneChanged
    | TimedOut
    | Closed
    | ReceiveFails
    | Receive(message: W.Message)
    | Emit
    | Announce
    | Withdraw

  /** A piece is being worked on, the peer is willing, and the window is open. */
  predicate CanRequest(c: Config, x: Session) {
    && !x.choked && x.current.Some?
    && x.inFlight < MAX_PIPELINED_REQUESTS
    && x.nextBlock < c.geometry.NumBlocks(x.current.value.index)
  }

  predicate Enabled(c: Config, sh: Shared, x: Session, e: Event) {
    match e
    case Connect => x.phase.Dialing?
    case Refuse => x.phase.Dialing?
    case ReadControl => x.phase.LoopHead?
    case ControlChanged =>
      || ((x.phase.Waiting? || x.phase.Idling?) && x.seen != sh.version)
      || (x.phase.Waiting? && !sh.coordinatorAlive)
    case CoordinatorDropped => x.phase.Idling? && x.seen == sh.version && !sh.coordinatorAlive
    case Reserve => x.phase.Reserving?
    case SendRequest => x.phase.Filling? && CanRequest(c, x)
    case SendFails => x.phase.Filling? && CanRequest(c, x)
    case PipelineReady => x.phase.Filling? && !CanRequest(c, x)
    case DoneChanged => x.phase.Waiting? && sh.done
    case TimedOut => x.phase.Waiting? && x.current.Some? && x.inFlight > 0
    case Closed => x.phase.Waiting?
    case ReceiveFails => x.phase.Waiting?
    case Receive(_) => x.phase.Waiting?
    case Emit => x.phase.Emitting?
    case Announce => x.phase.Announcing?
    case Withdraw => x.phase.Leaving?
  }

  // ----- the body of each step

  /** The tracker after the session's piece, if any, is released. */
  function Relinquish(t: Tracking.Tracker, x: Session): Tracking.Tracker {
    if x.current.Some? then t.Release(x.current.value.index) else t
  }

  function Dropped(x: Session): Session {
    x.(current := None, nextBlock := 0, inFlight := 0)
  }

  function OnControl(sh: Shared, x: Session): (Shared, Session) {
    var y := x.(seen := sh.version);
    match sh.control
    case Running => (sh, y.(phase := Reserving))
    case Cancelled => (sh.(tracker := Relinquish(sh.tracker, x)), y.(phase := Leaving(WasCancelled)))
    case Suspended =>
      (sh.(tracker := Relinquish(sh.tracker, x)),
       (if y.current.Some? then Dropped(y) else y).(phase := Idling))
  }

  function StartPiece(c: Config, x: Session, index: nat): Session {
    x.(phase := Filling,
       current := Some(Fresh(index, c.geometry.PieceLength(index))),
       nextBlock := 0, inFlight := 0, requests := [], answers := [])
  }

  function OnReserve(c: Config, sh: Shared, x: Session): (Shared, Session) {
    if x.current.Some? || x.choked then (sh, x.(phase := Filling))
    else
      var (reserved, t) := sh.tracker.Reserve(x.peerHas);
      if reserved.Some? then
        (sh.(tracker := t), StartPiece(c, x, reserved.value))
      else if sh.tracker.IsComplete() then
        (sh, x.(phase := Announcing))
      else
        var shared := sh.tracker.ReserveEndgame(x.peerHas);
        if shared.Some? then
          (sh.(endgame := true), StartPiece(c, x, shared.value))
        else
          (sh, x.(phase := Filling))
  }

  function OnSend(c: Config, x: Session): Session
    requires CanRequest(c, x)
  {
    x.(nextBlock := x.nextBlock + 1, inFlight := x.inFlight + 1,
       requests := x.requests + [c.geometry.BlockInfoAt(x.current.value.index, x.nextBlock)])
  }

  /** The whole piece is checked and either kept, retried or found superfluous. */
  function OnWholePiece(c: Config, sh: Shared, x: Session, a: Assembly): (Shared, Session) {
    if a.index in sh.tracker.have then
      (sh, x.(phase := if sh.tracker.IsComplete() then Announcing else LoopHead))
    else if c.Verifies(a.index, a.buf) then
      var t := sh.tracker.MarkHave(a.index);
      (sh.(tracker := t), x.(phase := Emitting(VerifiedPiece(a.index, a.buf), t.IsComplete())))
    else
      (sh.(tracker := sh.tracker.Release(a.index)), x.(phase := LoopHead))
  }

  function OnBlock(c: Config, sh: Shared, x: Session, b: W.Block): (Shared, Session) {
    if x.current.None? || b.index != x.current.value.index then
      (sh, x.(phase := LoopHead))
    else
      var (verdict, a) := x.current.value.AddBlock(b.begin, b.data);
      match verdict
      case Rejected => (sh, x.(phase := Leaving(Failed)))
      case Crashed => (sh, x.(phase := Gone(Panicked)))
      case Accepted =>
        var y := x.(inFlight := if x.inFlight > 0 then x.inFlight - 1 else 0);
        if !a.IsComplete() then
          (sh, y.(phase := LoopHead, current := Some(a), answers := x.answers + [b.begin / BLOCK_SIZE]))
        else
          OnWholePiece(c, sh, y.(current := None), a)
  }

  function OnMessage(c: Config, sh: Shared, x: Session, m: W.Message): (Shared, Session) {
    var y := x.(phase := LoopHead);
    match m
    case Choke =>
      (sh.(tracker := Relinquish(sh.tracker, x)),
       (if y.current.Some? then Dropped(y) else y).(choked := true))
    case Unchoke => (sh, y.(choked := false))
    case Have(index) =>
      if index in x.peerHas then (sh, y)
      else
        (sh.(tracker := sh.tracker.AddAvailability(index)),
         y.(peerHas := if index < c.Count() then x.peerHas + {index} else x.peerHas))
    case Bitfield(bits) =>
      (match Bitfields.FromWire(bits, c.Count())
       case Err(_) => (sh, x.(phase := Leaving(Failed)))
       case Ok(has) =>
         (sh.(tracker := sh.tracker.RemoveBitfield(x.peerHas).AddBitfield(has)), y.(peerHas := has)))
    case Piece(block) =>
      OnBlock(c, sh.(wire := sh.wire + |block.data|), x, block)
    case _ => (sh, y)
  }

  function OnEmit(sh: Shared, x: Session): (Shared, Session)
    requires x.phase.Emitting?
  {
    ((if sh.receiverOpen then sh.(sent := sh.sent + [x.phase.piece]) else sh.(lost := sh.lost + [x.phase.piece])),
     x.(phase := if x.phase.complete then Announcing else LoopHead))
  }

  /** What one event does to the shared state and to the session it happens to. */
  function Step(c: Config, sh: Shared, x: Session, e: Event): (Shared, Session)
    requires Enabled(c, sh, x, e)
  {
    match e
    case Connect => (sh, x.(phase := LoopHead))
    case Refuse => (sh, x.(phase := Gone(Refused)))
    case ReadControl => OnControl(sh, x)
    case ControlChanged => (sh, x.(phase := LoopHead, seen := sh.version))
    case CoordinatorDropped => (sh, x.(phase := Leaving(Orphaned)))
    case Reserve => OnReserve(c, sh, x)
    case SendRequest => (sh, OnSend(c, x))
    case SendFails => (sh, x.(phase := Leaving(Failed)))
    case PipelineReady => (sh, x.(phase := Waiting))
    case DoneChanged => (sh, x.(phase := Leaving(SiblingDone)))
    case TimedOut => (sh.(tracker := Relinquish(sh.tracker, x)), Dropped(x).(phase := LoopHead))
    case Closed => (sh.(tracker := Relinquish(sh.tracker, x)), x.(phase := Leaving(PeerClosed)))
    case ReceiveFails => (sh, x.(phase := Leaving(Failed)))
    case Receive(m) => OnMessage(c, sh, x, m)
    case Emit => OnEmit(sh, x)
    case Announce => (sh.(done := true), x.(phase := Leaving(TorrentDone)))
    case Withdraw => (sh.(tracker := sh.tracker.RemoveBitfield(x.peerHas)), x.(phase := Gone(x.phase.why)))
  }

  // ----- the whole swarm

  datatype State = State(shared: Shared, sessions: seq<Session>)

  datatype Action =
    | At(peer: nat, event: Event)
    | SetControl(control: ControlState)
    | DropCoordinator
    | DropReceiver

  function InitSession(): Session {
    Session(Dialing, {}, true, None, 0, 0, 0, [], [])
  }

  function InitShared(c: Config): Shared {
    Shared(Tracking.Tracker({}, seq(c.Count(), _ => 0), {}),
           false, Running, 0, true, true, [], [], 0, false, false)
  }

  function Init(c: Config, peers: nat): State {
    State(InitShared(c), seq(peers, _ => InitSession()))
  }

  predicate CanAct(c: Config, s: State, a: Action) {
    match a
    case At(peer, e) => peer < |s.sessions| && Enabled(c, s.shared, s.sessions[peer], e)
    case SetControl(_) => s.shared.coordinatorAlive
    case DropCoordinator => s.shared.coordinatorAlive
    case DropReceiver => s.shared.receiverOpen
  }

  function Act(c: Config, s: State, a: Action): State
    requires CanAct(c, s, a)
  {
    match a
    case At(peer, e) =>
      var (shared, x) := Step(c, s.shared, s.sessions[peer], e);
      State(shared, s.sessions[peer := x])
    case SetControl(control) =>
      s.(shared := s.shared.(control := control, version := s.shared.version + 1,
                             everCancelled := s.shared.everCancelled || control.Cancelled?))
    case DropCoordinator => s.(shared := s.shared.(coordinatorAlive := false))
    case DropReceiver => s.(shared := s.shared.(receiverOpen := false))
  }

  /** A run: any interleaving of enabled actions from the start. */
  ghost predicate IsRun(c: Config, peers: nat, states: seq<State>, actions: seq<Action>) {
    && |states| == |actions| + 1
    && states[0] == Init(c, peers)
    && forall k :: 0 <= k < |actions| ==>
         CanAct(c, states[k], actions[k]) && states[k + 1] == Act(c, states[k], actions[k])
  }

  /** `Coordinator::run` has returned: every session task has ended. */
  ghost predicate HasReturned(s: State) {
    forall i :: 0 <= i < |s.sessions| ==> s.sessions[i].phase.Gone?
  }
}
