/** Runs that show what can happen: claims that stop meaning what they say, the
    panic, and bytes done that were never received. */
module Scenarios {
  import opened Common
  import opened Piece
  import opened Assembler
  import opened Swarm
  import opened Runs
  import opened Theorems
  import opened Ledger
  import Pipeline
  import Tracking
  import Bitfields
  import W = Wire

  /** A run so far. */
  datatype Trace = Trace(states: seq<State>, actions: seq<Action>)

  /** The trace is a run of `peers` sessions that ends in `s`. */
  ghost predicate Reaches(c: Config, peers: nat, t: Trace, s: State) {
    && |t.states| == |t.actions| + 1
    && IsRun(c, peers, t.states, t.actions)
    && t.states[|t.actions|] == s
  }

  lemma AtStart(c: Config, peers: nat)
    ensures Reaches(c, peers, Trace([Init(c, peers)], []), Init(c, peers))
  {
    hide Init;
  }

  /** The run goes on with one step of session `k`, the others being those of `xs`. */
  lemma Go(
    c: Config, peers: nat, t: Trace, xs: seq<Session>, k: nat, sh: Shared, x: Session,
    e: Event, sh': Shared, x': Session) returns (u: Trace)
    requires k < |xs| && Reaches(c, peers, t, State(sh, xs[k := x]))
    requires Enabled(c, sh, x, e) && Step(c, sh, x, e) == (sh', x')
    ensures Reaches(c, peers, u, State(sh', xs[k := x'])) && t.states <= u.states
  {
    hide Enabled, Step, Init;
    var s, next := State(sh, xs[k := x]), State(sh', xs[k := x']);
    u := Trace(t.states + [next], t.actions + [At(k, e)]);
    assert xs[k := x][k := x'] == xs[k := x'];
    assert Act(c, s, At(k, e)) == next;
  }

  /** A torrent of one piece of one block. */
  predicate OneBlock(c: Config) {
    c.WellFormed() && c.Count() == 1 && c.geometry.NumBlocks(0) == 1
  }

  /** A choked session without a piece goes round to its wait point. */
  lemma Lap(c: Config, peers: nat, t: Trace, xs: seq<Session>, k: nat, sh: Shared, x: Session) returns (u: Trace)
    requires k < |xs| && Reaches(c, peers, t, State(sh, xs[k := x])) && sh.control.Running?
    requires x.phase.LoopHead? && x.choked && x.current.None? && x.seen == sh.version
    ensures Reaches(c, peers, u, State(sh, xs[k := x.(phase := Waiting)])) && t.states <= u.states
  {
    hide Reaches, OnMessage, OnEmit;
    var y, z := x.(phase := Reserving), x.(phase := Filling);
    u := Go(c, peers, t, xs, k, sh, x, ReadControl, sh, y);
    u := Go(c, peers, u, xs, k, sh, y, Reserve, sh, z);
    u := Go(c, peers, u, xs, k, sh, z, PipelineReady, sh, x.(phase := Waiting));
  }

  /** A session whose peer offers the only piece and has been asked for it. */
  function Working(c: Config): Session {
    Session(Waiting, {0}, false, Some(Fresh(0, c.geometry.PieceLength(0))), 1, 1, 0,
            [c.geometry.BlockInfoAt(0, 0)], [])
  }

  /** The shared state after one more session has begun to work on the only piece. */
  function Begun(sh: Shared): Shared
    requires |sh.tracker.availability| == 1
  {
    sh.(tracker := Tracking.Tracker(sh.tracker.have, [sh.tracker.availability[0] + 1], {0}),
        endgame := sh.endgame || 0 in sh.tracker.claimed)
  }

  /** Nothing is owned and nobody has touched the controls. */
  predicate Untouched(sh: Shared) {
    && sh.control.Running? && sh.version == 0
    && sh.tracker.have == {} && |sh.tracker.availability| == 1 && sh.tracker.claimed <= {0}
  }

  /** A session connects, learns what its peer has and is unchoked. */
  lemma Greet(c: Config, peers: nat, t: Trace, xs: seq<Session>, k: nat, sh: Shared) returns (u: Trace)
    requires c.WellFormed() && c.Count() == 1 && Untouched(sh)
    requires k < |xs| && Reaches(c, peers, t, State(sh, xs[k := InitSession()]))
    ensures t.states <= u.states
    ensures Reaches(c, peers, u, State(
      sh.(tracker := sh.tracker.(availability := [sh.tracker.availability[0] + 1])),
      xs[k := InitSession().(phase := Reserving, peerHas := {0}, choked := false)]))
  {
    hide Reaches, Bitfields.FromWire, OnBlock, OnEmit, Below, OnReserve;
    var x := InitSession();
    var y := x.(phase := LoopHead);
    u := Go(c, peers, t, xs, k, sh, x, Connect, sh, y);
    u := Lap(c, peers, u, xs, k, sh, y);
    var offered := sh.(tracker := sh.tracker.AddAvailability(0));
    assert offered.tracker.availability == [sh.tracker.availability[0] + 1];
    assert y.peerHas + {0} == {0};
    var z := y.(peerHas := {0});
    u := Go(c, peers, u, xs, k, sh, y.(phase := Waiting), Receive(W.Have(0)), offered, z);
    u := Lap(c, peers, u, xs, k, offered, z);
    var w := z.(choked := false);
    u := Go(c, peers, u, xs, k, offered, z.(phase := Waiting), Receive(W.Unchoke), offered, w);
    u := Go(c, peers, u, xs, k, offered, w, ReadControl, offered, w.(phase := Reserving));
  }

  /** It then takes the piece up, exclusively if it can and in the endgame
      otherwise, and asks for its block. */
  lemma TakeUp(c: Config, peers: nat, t: Trace, xs: seq<Session>, k: nat, sh: Shared) returns (u: Trace)
    requires OneBlock(c) && Untouched(sh)
    requires k < |xs| && Reaches(c, peers, t, State(sh, xs[k := InitSession()]))
    ensures Reaches(c, peers, u, State(Begun(sh), xs[k := Working(c)])) && t.states <= u.states
  {
    hide Reaches, OnMessage, OnEmit, Geometry.NumBlocks, Geometry.BlockInfoAt, Geometry.PieceLength;
    u := Greet(c, peers, t, xs, k, sh);
    var offered := sh.(tracker := sh.tracker.(availability := [sh.tracker.availability[0] + 1]));
    var x := InitSession().(phase := Reserving, peerHas := {0}, choked := false);
    var y := StartPiece(c, x, 0);
    ReservesOnly(c, offered, x);
    u := Go(c, peers, u, xs, k, offered, x, Reserve, Begun(sh), y);
    var z := OnSend(c, y);
    u := Go(c, peers, u, xs, k, Begun(sh), y, SendRequest, Begun(sh), z);
    u := Go(c, peers, u, xs, k, Begun(sh), z, PipelineReady, Begun(sh), z.(phase := Waiting));
    assert z.(phase := Waiting) == Working(c);
  }

  lemma ReservesOnly(c: Config, sh: Shared, x: Session)
    requires sh.tracker.have == {} && |sh.tracker.availability| == 1 && sh.tracker.claimed <= {0}
    requires x.phase.Reserving? && x.peerHas == {0} && !x.choked && x.current.None?
    ensures OnReserve(c, sh, x) ==
      (sh.(tracker := sh.tracker.(claimed := {0}), endgame := sh.endgame || 0 in sh.tracker.claimed),
       StartPiece(c, x, 0))
  {
    var t := sh.tracker;
    assert 0 in Below(1);
    assert t.RarestBelow(x.peerHas, true, 0) == None && t.RarestBelow(x.peerHas, false, 0) == None;
    if 0 in t.claimed {
      assert t.Rarest(x.peerHas, true) == None && t.Rarest(x.peerHas, false) == Some(0);
      assert t.claimed == {0};
    } else {
      assert t.Rarest(x.peerHas, true) == Some(0);
      assert t.claimed + {0} == {0};
    }
  }

  /** The session is working on a piece. */
  predicate Holding(x: Session) {
    x.current.Some? && !x.phase.Leaving? && !x.phase.Gone?
  }

  /** A piece that is worked on and not claimed: two sessions share it in the
      endgame, and the time-out of the first takes the claim of both. */
  lemma SharedClaimIsLost(c: Config) returns (t: Trace, s: State)
    requires OneBlock(c)
    ensures Reaches(c, 2, t, s)
    ensures |s.sessions| == 2 && Holding(s.sessions[1]) && s.sessions[1].current.value.index == 0
    ensures 0 !in s.shared.tracker.claimed
  {
    hide Reaches, Working, OnMessage, OnReserve, OnControl, OnEmit;
    var sh, start := InitShared(c), [InitSession(), InitSession()];
    t := BothStart(c);
    assert start[0 := InitSession()] == start;
    t := TakeUp(c, 2, t, start, 0, sh);
    var one := start[0 := Working(c)];
    assert one[1 := InitSession()] == one;
    t := TakeUp(c, 2, t, one, 1, Begun(sh));
    var both, shared := one[1 := Working(c)], Begun(Begun(sh));
    assert both[0 := Working(c)] == both;
    WorkingShape(c);
    var (freed, x) := Step(c, shared, Working(c), TimedOut);
    t := Go(c, 2, t, both, 0, shared, Working(c), TimedOut, freed, x);
    s := State(freed, both[0 := x]);
  }

  lemma WorkingShape(c: Config)
    ensures var x := Working(c);
      x.phase.Waiting? && x.inFlight == 1 && x.current == Some(Fresh(0, c.geometry.PieceLength(0)))
      && x.current.value.index == 0 && x.peerHas == {0}
  {
  }

  lemma BothStart(c: Config) returns (t: Trace)
    requires OneBlock(c)
    ensures Reaches(c, 2, t, State(InitShared(c), [InitSession(), InitSession()])) && Untouched(InitShared(c))
  {
    AtStart(c, 2);
    t := Trace([Init(c, 2)], []);
    assert Init(c, 2).sessions == [InitSession(), InitSession()];
  }

  /** A piece that is claimed and worked on by nobody: the session that reserved
      it failed, and ended without giving it back. The claim is not for ever: in
      the endgame another session takes the piece up, and when that one gives it
      up the old claim goes with it. */
  lemma FailureLeaksClaim(c: Config) returns (t: Trace, leaked: State, u: Trace, freed: State)
    requires OneBlock(c)
    ensures Reaches(c, 2, t, leaked) && Reaches(c, 2, u, freed) && t.states <= u.states
    ensures 0 in leaked.shared.tracker.claimed
    ensures forall k :: 0 <= k < |leaked.sessions| ==> !Holding(leaked.sessions[k])
    ensures |leaked.sessions| == 2 && leaked.sessions[0].phase == Gone(Failed)
    ensures 0 !in freed.shared.tracker.claimed && freed.shared.tracker.have == {}
    ensures |freed.sessions| == 2 && freed.sessions[0] == leaked.sessions[0]
  {
    hide Reaches, Working, OnMessage, OnReserve, OnControl, OnEmit;
    var sh, start := InitShared(c), [InitSession(), InitSession()];
    t := BothStart(c);
    assert start[0 := InitSession()] == start;
    t := TakeUp(c, 2, t, start, 0, sh);
    WorkingShape(c);
    var x := Working(c);
    var y := x.(phase := Leaving(Failed));
    t := Go(c, 2, t, start, 0, Begun(sh), x, ReceiveFails, Begun(sh), y);
    var left := Begun(sh).(tracker := Begun(sh).tracker.RemoveBitfield({0}));
    t := Go(c, 2, t, start, 0, Begun(sh), y, Event.Withdraw, left, y.(phase := Gone(Failed)));
    leaked := State(left, start[0 := y.(phase := Gone(Failed))]);
    assert leaked.sessions[1 := InitSession()] == leaked.sessions;
    u := TakeUp(c, 2, t, leaked.sessions, 1, left);
    var (after, z) := Step(c, Begun(left), x, TimedOut);
    u := Go(c, 2, u, leaked.sessions, 1, Begun(left), x, TimedOut, after, z);
    freed := State(after, leaked.sessions[1 := z]);
  }

  /** One session works on the only piece and receives a block. */
  lemma OneBlockArrives(c: Config, b: W.Block) returns (t: Trace, s: State)
    requires OneBlock(c)
    ensures Reaches(c, 1, t, s)
    ensures var counted := Begun(InitShared(c)).(wire := |b.data|);
      s == State(OnBlock(c, counted, Working(c), b).0, [OnBlock(c, counted, Working(c), b).1])
  {
    hide Reaches, Working, OnMessage, OnReserve, OnControl, OnEmit, OnBlock;
    var sh := InitShared(c);
    t := OneStarts(c);
    assert [InitSession()][0 := InitSession()] == [InitSession()];
    t := TakeUp(c, 1, t, [InitSession()], 0, sh);
    WorkingShape(c);
    MessageIsBlock(c, Begun(sh), Working(c), b);
    assert Begun(sh).wire == 0;
    var (after, x) := OnBlock(c, Begun(sh).(wire := |b.data|), Working(c), b);
    t := Go(c, 1, t, [InitSession()], 0, Begun(sh), Working(c), Receive(W.Piece(b)), after, x);
    s := State(after, [InitSession()][0 := x]);
    assert [InitSession()][0 := x] == [x];
  }

  /** An availability that counts a peer that is gone: a piece of one whole block,
      and an empty block at its end. */
  lemma PanicDistortsAvailability(c: Config) returns (t: Trace, s: State)
    requires OneBlock(c) && c.geometry.PieceLength(0) == 16384
    ensures |s.sessions| == 1 && s.sessions[0].phase == Gone(Exit.Panicked) && s.sessions[0].peerHas == {0}
    ensures s.shared.tracker.availability == [1] && LiveOffersOf(s.sessions, 0) == [0]
    ensures Reaches(c, 1, t, s)
  {
    hide Reaches;
    var b := W.Block(0, 16384, []);
    t, s := OneBlockArrives(c, b);
    EmptyBlockPanics(c, Begun(InitShared(c)).(wire := |b.data|));
    hide OnBlock;
  }

  lemma EmptyBlockPanics(c: Config, sh: Shared)
    requires c.geometry.PieceLength(0) == 16384
    ensures OnBlock(c, sh, Working(c), W.Block(0, 16384, [])) == (sh, Working(c).(phase := Gone(Exit.Panicked)))
  {
    hide OnWholePiece;
  }

  lemma OneStarts(c: Config) returns (t: Trace)
    requires c.WellFormed() && c.Count() == 1
    ensures Reaches(c, 1, t, State(InitShared(c), [InitSession()])) && Untouched(InitShared(c))
  {
    AtStart(c, 1);
    t := Trace([Init(c, 1)], []);
    assert Init(c, 1).sessions == [InitSession()];
  }

  // ----- a repeated block

  /** A session that holds a piece and can request no more goes round to its wait
      point. */
  lemma Round(c: Config, peers: nat, t: Trace, xs: seq<Session>, k: nat, sh: Shared, x: Session) returns (u: Trace)
    requires k < |xs| && Reaches(c, peers, t, State(sh, xs[k := x])) && sh.control.Running?
    requires x.phase.LoopHead? && x.current.Some? && !CanRequest(c, x) && x.seen == sh.version
    ensures Reaches(c, peers, u, State(sh, xs[k := x.(phase := Waiting)])) && t.states <= u.states
  {
    hide Reaches, OnMessage, OnEmit;
    var y, z := x.(phase := Reserving), x.(phase := Filling);
    u := Go(c, peers, t, xs, k, sh, x, ReadControl, sh, y);
    u := Go(c, peers, u, xs, k, sh, y, Reserve, sh, z);
    u := Go(c, peers, u, xs, k, sh, z, PipelineReady, sh, x.(phase := Waiting));
  }

  /** The session after both blocks were requested, and the first has come
      `count` times. */
  function Repeating(c: Config, a: Assembly, count: nat): Session {
    Session(Waiting, {0}, false, Some(a), 2, Max(0, 2 - count), 0,
            [c.geometry.BlockInfoAt(0, 0), c.geometry.BlockInfoAt(0, 1)], seq(count, _ => 0))
  }

  /** The first block comes once more, and the session waits again. */
  lemma ComesAgain(c: Config, t: Trace, sh: Shared, a: Assembly, count: nat, data: seq<Byte>) returns (u: Trace)
    requires c.geometry.NumBlocks(0) == 2 && sh.control.Running? && sh.version == 0
    requires Reaches(c, 1, t, State(sh, [Repeating(c, a, count)]))
    requires a.index == 0 && a.AddBlock(0, data).0.Accepted? && !a.AddBlock(0, data).1.IsComplete()
    ensures Reaches(c, 1, u, State(sh.(wire := sh.wire + |data|), [Repeating(c, a.AddBlock(0, data).1, count + 1)]))
  {
    hide Reaches, OnMessage, OnReserve, OnControl, OnEmit, Assembly.AddBlock, Assembly.IsComplete, Geometry.NumBlocks,
      Geometry.BlockInfoAt;
    var x, b := Repeating(c, a, count), W.Block(0, 0, data);
    var counted := sh.(wire := sh.wire + |data|);
    var y := Repeating(c, a.AddBlock(0, data).1, count + 1).(phase := LoopHead);
    MessageIsBlock(c, sh, x, b);
    AddBlockKeepsIndex(a, 0, data);
    assert x.answers + [0] == y.answers;
    assert OnBlock(c, counted, x, b) == (counted, y);
    hide OnBlock;
    assert [x][0 := x] == [x];
    u := Go(c, 1, t, [x], 0, sh, x, Receive(W.Piece(b)), counted, y);
    u := Round(c, 1, u, [x], 0, counted, y);
    assert [x][0 := y.(phase := Waiting)] == [y.(phase := Waiting)];
  }

  /** A piece that nothing but the peer can free: of its two blocks, both requested,
      the first came twice. The second is outstanding, the counter is zero, and the
      time-out that should give the piece back is not possible. */
  lemma RepeatedBlockStalls(c: Config, data: seq<Byte>) returns (t: Trace, s: State)
    requires c.WellFormed() && c.Count() == 1 && c.geometry.NumBlocks(0) == 2 && |data| <= BLOCK_SIZE
    ensures |s.sessions| == 1
    ensures var x := s.sessions[0];
      && x.phase.Waiting? && x.current.Some? && x.current.value.received == [true, false]
      && |x.requests| == 2 && x.inFlight == 0
      && forall e: Event :: Enabled(c, s.shared, x, e) ==> Pipeline.FromPeer(e)
    ensures Reaches(c, 1, t, s)
  {
    hide Reaches, OnMessage, OnReserve, OnControl, OnEmit, OnBlock, Repeating;
    var shared;
    t, shared := BothRequested(c);
    var a := Fresh(0, c.geometry.PieceLength(0));
    FirstBlockTwice(c, data);
    t := ComesAgain(c, t, shared, a, 0, data);
    t := ComesAgain(c, t, shared.(wire := shared.wire + |data|), a.AddBlock(0, data).1, 1, data);
    var b := a.AddBlock(0, data).1.AddBlock(0, data).1;
    s := State(shared.(wire := shared.wire + |data| + |data|), [Repeating(c, b, 2)]);
    RepeatingShape(c, b);
    hide Geometry.BlockInfoAt;
  }

  lemma RepeatingShape(c: Config, a: Assembly)
    ensures var x := Repeating(c, a, 2);
      x.phase.Waiting? && x.current == Some(a) && |x.requests| == 2 && x.inFlight == 0 && x.seen == 0
  {
  }

  lemma FirstBlockTwice(c: Config, data: seq<Byte>)
    requires c.WellFormed() && c.Count() == 1 && c.geometry.NumBlocks(0) == 2 && |data| <= BLOCK_SIZE
    ensures var a := Fresh(0, c.geometry.PieceLength(0));
      var (v1, b1) := a.AddBlock(0, data); var (v2, b2) := b1.AddBlock(0, data);
      && a.index == 0 && b1.index == 0 && v1.Accepted? && v2.Accepted?
      && !b1.IsComplete() && !b2.IsComplete() && b2.received == [true, false]
  {
    hide Below;
  }

  /** The session holds the piece and waits, with both blocks requested. */
  lemma BothRequested(c: Config) returns (t: Trace, sh: Shared)
    requires c.WellFormed() && c.Count() == 1 && c.geometry.NumBlocks(0) == 2
    ensures sh.control.Running? && sh.version == 0 && sh.coordinatorAlive && !sh.done
    ensures Reaches(c, 1, t, State(sh, [Repeating(c, Fresh(0, c.geometry.PieceLength(0)), 0)]))
  {
    hide Reaches, OnMessage, OnEmit, Geometry.NumBlocks, Geometry.BlockInfoAt, Geometry.PieceLength;
    var first := InitShared(c);
    t := OneStarts(c);
    var xs := [InitSession()];
    assert xs[0 := InitSession()] == xs;
    t := Greet(c, 1, t, xs, 0, first);
    var offered := first.(tracker := first.tracker.(availability := [first.tracker.availability[0] + 1]));
    var x := InitSession().(phase := Reserving, peerHas := {0}, choked := false);
    ReservesOnly(c, offered, x);
    sh := Begun(first);
    var y := StartPiece(c, x, 0);
    t := Go(c, 1, t, xs, 0, offered, x, Reserve, sh, y);
    var z := OnSend(c, y);
    t := Go(c, 1, t, xs, 0, sh, y, SendRequest, sh, z);
    var w := OnSend(c, z);
    t := Go(c, 1, t, xs, 0, sh, z, SendRequest, sh, w);
    t := Go(c, 1, t, xs, 0, sh, w, PipelineReady, sh, w.(phase := Waiting));
    assert w.(phase := Waiting) == Repeating(c, Fresh(0, c.geometry.PieceLength(0)), 0);
    assert xs[0 := w.(phase := Waiting)] == [w.(phase := Waiting)];
  }

  /** The claim that received bytes always cover the bytes done is false, whatever
      the hash: a peer that answers with an empty block completes a torrent whose
      content is one zero byte, and one byte is reported as done with none
      received. */
  lemma ShortBlockIsNotPaid(c: Config) returns (t: Trace, s: State)
    requires OneBlock(c) && c.geometry.PieceLength(0) == 1 && c.hashes == [c.sha1([0])]
    ensures s.shared.wire == 0 && BytesDone(c, s.shared.tracker.have) == 1 && Surplus(c, s) < 0
    ensures Reaches(c, 1, t, s)
  {
    hide Reaches, OneBlock, BytesDone;
    var b := W.Block(0, 0, []);
    t, s := OneBlockArrives(c, b);
    EmptyBlockCompletes(c, Begun(InitShared(c)).(wire := |b.data|), Working(c));
    hide OnBlock;
  }

  lemma EmptyBlockCompletes(c: Config, sh: Shared, x: Session)
    requires c.hashes == [c.sha1([0])] && c.geometry.PieceLength(0) == 1
    requires sh.tracker.have == {} && |sh.tracker.availability| == 1
    requires x.phase.Waiting? && x.current == Some(Fresh(0, 1))
    ensures var (sh', x') := OnBlock(c, sh, x, W.Block(0, 0, []));
      sh'.wire == sh.wire && BytesDone(c, sh'.tracker.have) == 1
  {
    hide BytesDone, Tracking.Tracker.IsComplete;
    CompleteWithoutData(0);
    assert Fresh(0, 1).AddBlock(0, []).1.buf == [0];
    GainPiece(c, {}, 0);
    NothingOwned(c);
  }

  lemma NothingOwned(c: Config)
    ensures BytesDone(c, {}) == 0
  {
    SumZero(OwnedLengths(c, {}));
  }

  /** Such torrents exist for every hash. */
  lemma OneBlockExists(sha1: seq<Byte> -> Digest, length: u32) returns (c: Config)
    requires 0 < length <= BLOCK_SIZE
    ensures OneBlock(c) && c.geometry.PieceLength(0) == length && c.sha1 == sha1
    ensures length == 1 ==> c.hashes == [sha1([0])]
  {
    c := Config(Geometry(length, length, 1, length), [sha1([0])], sha1);
  }
}
