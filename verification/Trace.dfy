/** What each session did, in order, to be where it is: the rounds of its loop, and
    the blocks that made the piece it holds or hands over. */
module Trace {
  import opened Common
  import opened Piece
  import opened Assembler
  import opened Swarm
  import Runs
  import Tracking
  import Bitfields
  import W = Wire

  // ----- rounds

  /** Session `k` does nothing between actions `a` and `b`. */
  ghost predicate Quiet(actions: seq<Action>, k: nat, a: nat, b: nat)
    requires b <= |actions|
  {
    forall m :: a < m < b ==> !(actions[m].At? && actions[m].peer == k)
  }

  /** All it does between them is to send requests. */
  ghost predicate OnlySends(actions: seq<Action>, k: nat, a: nat, b: nat)
    requires b <= |actions|
  {
    forall m :: a < m < b && actions[m].At? && actions[m].peer == k ==> actions[m].event.SendRequest?
  }

  /** Action `j` reads the control, and it says to run. */
  ghost predicate ReadsRunning(states: seq<State>, actions: seq<Action>, k: nat, j: nat) {
    j < |actions| < |states| && actions[j] == At(k, ReadControl) && states[j].shared.control.Running?
  }

  /** Action `p` looks for a piece, right after that. */
  ghost predicate LooksForPiece(states: seq<State>, actions: seq<Action>, k: nat, p: nat) {
    && p < |actions| && actions[p] == At(k, Reserve)
    && exists j: nat :: j < p && ReadsRunning(states, actions, k, j) && Quiet(actions, k, j, p)
  }

  /** Action `q` finds the window full, right after the requests that follow that. */
  ghost predicate FindsFull(states: seq<State>, actions: seq<Action>, k: nat, q: nat) {
    && q < |actions| && actions[q] == At(k, PipelineReady)
    && exists p: nat :: p < q && LooksForPiece(states, actions, k, p) && OnlySends(actions, k, p, q)
  }

  /** How a session came to where it stands. */
  ghost predicate CameBy(states: seq<State>, actions: seq<Action>, k: nat, n: nat, phase: Phase)
    requires n <= |actions|
  {
    match phase
    case Reserving => exists j: nat :: j < n && ReadsRunning(states, actions, k, j) && Quiet(actions, k, j, n)
    case Filling => exists p: nat :: p < n && LooksForPiece(states, actions, k, p) && OnlySends(actions, k, p, n)
    case Waiting => exists q: nat :: q < n && FindsFull(states, actions, k, q) && Quiet(actions, k, q, n)
    case _ => true
  }

  lemma StepPhase(c: Config, sh: Shared, x: Session, e: Event)
    requires Enabled(c, sh, x, e)
    ensures var after := Step(c, sh, x, e).1.phase;
      && (after.Reserving? ==> e.ReadControl? && sh.control.Running?)
      && (after.Filling? ==> e.Reserve? || (e.SendRequest? && x.phase.Filling?))
      && (after.Waiting? ==> e.PipelineReady? && x.phase.Filling?)
      && (e.Reserve? ==> x.phase.Reserving?)
  {
    hide CanRequest, OnMessage, OnReserve, Relinquish, Tracking.Tracker.RemoveBitfield;
    match e
    case Receive(m) => MessagePhase(c, sh, x, m);
    case Reserve => ReservePhase(c, sh, x);
    case _ =>
  }

  lemma MessagePhase(c: Config, sh: Shared, x: Session, m: W.Message)
    ensures var after := OnMessage(c, sh, x, m).1.phase;
      !after.Reserving? && !after.Filling? && !after.Waiting?
  {
    hide Bitfields.FromWire, Relinquish, OnBlock;
    if m.Piece? {
      BlockPhase(c, sh.(wire := sh.wire + |m.block.data|), x, m.block);
    }
  }

  lemma BlockPhase(c: Config, sh: Shared, x: Session, b: W.Block)
    ensures var after := OnBlock(c, sh, x, b).1.phase;
      !after.Reserving? && !after.Filling? && !after.Waiting?
  {
    hide Assembly.AddBlock, Assembly.IsComplete, Config.Verifies, Tracking.Tracker.IsComplete;
  }

  lemma ReservePhase(c: Config, sh: Shared, x: Session)
    ensures var after := OnReserve(c, sh, x).1.phase; after.Filling? || after.Announcing?
  {
    hide Tracking.Tracker.Rarest, Tracking.Tracker.IsComplete, Fresh;
  }

  lemma NextPhase(
    c: Config, states: seq<State>, actions: seq<Action>, k: nat, n: nat, before: Phase, after: Phase)
    requires 0 < n <= |actions| < |states|
    requires CameBy(states, actions, k, n - 1, before)
    requires var a := actions[n - 1];
      if a.At? && a.peer == k then
        && (after.Reserving? ==> a.event.ReadControl? && states[n - 1].shared.control.Running?)
        && (after.Filling? ==> a.event.Reserve? || (a.event.SendRequest? && before.Filling?))
        && (after.Waiting? ==> a.event.PipelineReady? && before.Filling?)
        && (a.event.Reserve? ==> before.Reserving?)
      else after == before
    ensures CameBy(states, actions, k, n, after)
  {
    var a := actions[n - 1];
    if a.At? && a.peer == k {
      if after.Reserving? {
        assert ReadsRunning(states, actions, k, n - 1) && Quiet(actions, k, n - 1, n);
      } else if after.Filling? && a.event.Reserve? {
        assert LooksForPiece(states, actions, k, n - 1) && OnlySends(actions, k, n - 1, n);
      } else if after.Filling? {
        var p: nat :| p < n - 1 && LooksForPiece(states, actions, k, p) && OnlySends(actions, k, p, n - 1);
        assert OnlySends(actions, k, p, n);
      } else if after.Waiting? {
        assert FindsFull(states, actions, k, n - 1) && Quiet(actions, k, n - 1, n);
      }
    } else if after.Reserving? {
      var j: nat :| j < n - 1 && ReadsRunning(states, actions, k, j) && Quiet(actions, k, j, n - 1);
      assert Quiet(actions, k, j, n);
    } else if after.Filling? {
      var p: nat :| p < n - 1 && LooksForPiece(states, actions, k, p) && OnlySends(actions, k, p, n - 1);
      assert OnlySends(actions, k, p, n);
    } else if after.Waiting? {
      var q: nat :| q < n - 1 && FindsFull(states, actions, k, q) && Quiet(actions, k, q, n - 1);
      assert Quiet(actions, k, q, n);
    }
  }

  /** In every run: a session looks for a piece only in a round that began with
      reading a control that said to run; it looks once, then sends its requests,
      then waits, and it does nothing else in between. */
  lemma {:induction false} RoundsInOrder(
    c: Config, peers: nat, states: seq<State>, actions: seq<Action>, n: nat, k: nat)
    requires IsRun(c, peers, states, actions) && n < |states| && k < peers
    ensures |states[n].sessions| == peers
    ensures CameBy(states, actions, k, n, states[n].sessions[k].phase)
  {
    hide Enabled, Step;
    if n > 0 {
      RoundsInOrder(c, peers, states, actions, n - 1, k);
      var s, a := states[n - 1], actions[n - 1];
      assert CanAct(c, s, a) && states[n] == Act(c, s, a);
      hide IsRun, CameBy;
      if a.At? && a.peer == k {
        StepPhase(c, s.shared, s.sessions[k], a.event);
      }
      NextPhase(c, states, actions, k, n, s.sessions[k].phase, states[n].sessions[k].phase);
    }
  }

  /** Between any two messages, the session reads a control that says to run. */
  lemma ControlIsReadBetween(
    c: Config, peers: nat, states: seq<State>, actions: seq<Action>, i: nat, n: nat, k: nat,
    first: W.Message, second: W.Message) returns (j: nat)
    requires IsRun(c, peers, states, actions) && i < n < |actions|
    requires actions[i] == At(k, Receive(first)) && actions[n] == At(k, Receive(second))
    ensures i < j < n && actions[j] == At(k, ReadControl) && states[j].shared.control.Running?
  {
    assert CanAct(c, states[n], actions[n]);
    RoundsInOrder(c, peers, states, actions, n, k) by {
      SessionCount(c, peers, states, actions, n);
    }
    hide IsRun, Act, CameBy, CanAct;
    j := ReadSince(states, actions, i, n, k);
  }

  lemma ReadSince(states: seq<State>, actions: seq<Action>, i: nat, n: nat, k: nat) returns (j: nat)
    requires i < n <= |actions| && CameBy(states, actions, k, n, Waiting)
    requires actions[i].At? && actions[i].peer == k && actions[i].event.Receive?
    ensures i < j < n && ReadsRunning(states, actions, k, j)
  {
    var q: nat :| q < n && FindsFull(states, actions, k, q) && Quiet(actions, k, q, n);
    var p: nat :| p < q && LooksForPiece(states, actions, k, p) && OnlySends(actions, k, p, q);
    j :| 0 <= j < p && ReadsRunning(states, actions, k, j) && Quiet(actions, k, j, p);
  }

  lemma {:induction false} SessionCount(c: Config, peers: nat, states: seq<State>, actions: seq<Action>, n: nat)
    requires IsRun(c, peers, states, actions) && n < |states|
    ensures |states[n].sessions| == peers
  {
    hide Enabled, Step;
    if n > 0 {
      SessionCount(c, peers, states, actions, n - 1);
    }
  }

  // ----- what was gathered

  /** The session takes in this block for the piece it works on. */
  predicate TakesIn(x: Session, e: Event) {
    && e.Receive? && e.message.Piece? && x.current.Some?
    && e.message.block.index == x.current.value.index
    && x.current.value.AddBlock(e.message.block.begin, e.message.block.data).0.Accepted?
  }

  /** The blocks that session `k` has taken in since it last took up a piece. */
  function Gathered(states: seq<State>, actions: seq<Action>, k: nat, n: nat): seq<Delivery>
    requires n <= |actions| < |states|
  {
    if n == 0 then []
    else
      var s, a := states[n - 1], actions[n - 1];
      var before := Gathered(states, actions, k, n - 1);
      if a.At? && a.peer == k && k < |s.sessions| then GatheredAfter(s.sessions[k], a.event, before) else before
  }

  /** A piece taken up starts with nothing; each block taken in is added. */
  function GatheredAfter(x: Session, e: Event, ds: seq<Delivery>): seq<Delivery> {
    if e.Reserve? && x.current.None? then []
    else if TakesIn(x, e) then ds + [Delivery(e.message.block.begin, e.message.block.data)]
    else ds
  }

  /** The piece in work is what was gathered for it; so is one on its way out, and
      that one is whole and has its hash. */
  ghost predicate MadeOf(c: Config, x: Session, ds: seq<Delivery>) {
    && (x.current.Some? ==> Made(c, x.current.value.index, ds) == Some(x.current.value))
    && (x.phase.Emitting? ==>
          var VerifiedPiece(i, data) := x.phase.piece;
          && i < |c.hashes| && c.sha1(data) == c.hashes[i]
          && Made(c, i, ds).Some? && Made(c, i, ds).value.IsComplete() && Made(c, i, ds).value.buf == data)
  }

  ghost function Made(c: Config, index: nat, ds: seq<Delivery>): Option<Assembly> {
    Assembler.Receive(Fresh(index, c.geometry.PieceLength(index)), ds)
  }

  lemma StepGathers(c: Config, sh: Shared, x: Session, e: Event, ds: seq<Delivery>)
    requires Enabled(c, sh, x, e) && MadeOf(c, x, ds)
    ensures MadeOf(c, Step(c, sh, x, e).1, GatheredAfter(x, e, ds))
  {
    hide CanRequest, OnMessage, OnReserve, Relinquish, Tracking.Tracker.RemoveBitfield, Made;
    match e
    case Receive(m) =>
      MessageGathers(c, sh, x, m, ds);
      hide MadeOf, GatheredAfter;
    case Reserve =>
      ReserveGathers(c, sh, x, ds);
      hide MadeOf, GatheredAfter;
    case _ =>
  }

  lemma MessageGathers(c: Config, sh: Shared, x: Session, m: W.Message, ds: seq<Delivery>)
    requires x.phase.Waiting? && MadeOf(c, x, ds)
    ensures MadeOf(c, OnMessage(c, sh, x, m).1, GatheredAfter(x, Receive(m), ds))
  {
    hide Bitfields.FromWire, Relinquish, OnBlock, Made, Assembly.AddBlock;
    if m.Piece? {
      BlockGathers(c, sh.(wire := sh.wire + |m.block.data|), x, m.block, ds);
      hide MadeOf, GatheredAfter;
    }
  }

  lemma BlockGathers(c: Config, sh: Shared, x: Session, b: W.Block, ds: seq<Delivery>)
    requires x.phase.Waiting? && MadeOf(c, x, ds)
    ensures MadeOf(c, OnBlock(c, sh, x, b).1, GatheredAfter(x, Receive(W.Piece(b)), ds))
  {
    var more := ds + [Delivery(b.begin, b.data)];
    assert more[..|ds|] == ds;
    if x.current.Some? {
      Runs.AddBlockKeepsIndex(x.current.value, b.begin, b.data);
    }
    hide Assembly.AddBlock, Assembly.IsComplete, Tracking.Tracker.IsComplete;
  }

  lemma ReserveGathers(c: Config, sh: Shared, x: Session, ds: seq<Delivery>)
    requires x.phase.Reserving? && MadeOf(c, x, ds)
    ensures MadeOf(c, OnReserve(c, sh, x).1, GatheredAfter(x, Reserve, ds))
  {
    hide Tracking.Tracker.Rarest, Tracking.Tracker.IsComplete;
    assert forall index, length :: Fresh(index, length).index == index;
    hide Fresh;
  }

  /** In every state of every run: a piece in work holds what the session has taken
      in since it took the piece up, in that order, and nothing else; and a piece on
      its way to the channel was made so, is whole, and has its hash. */
  lemma {:induction false} PiecesAreGathered(
    c: Config, peers: nat, states: seq<State>, actions: seq<Action>, n: nat, k: nat)
    requires IsRun(c, peers, states, actions) && n < |states| && k < peers
    ensures |states[n].sessions| == peers
    ensures MadeOf(c, states[n].sessions[k], Gathered(states, actions, k, n))
  {
    hide Enabled, Step, Made;
    if n > 0 {
      PiecesAreGathered(c, peers, states, actions, n - 1, k);
      var s, a := states[n - 1], actions[n - 1];
      assert CanAct(c, s, a) && states[n] == Act(c, s, a);
      hide IsRun, MadeOf;
      if a.At? && a.peer == k {
        StepGathers(c, s.shared, s.sessions[k], a.event, Gathered(states, actions, k, n - 1));
      }
    }
  }

  /** So every byte of a piece on its way out is the last one that came over the wire
      for its place, zero where none came, and every block of it was begun. */
  lemma EmittedBytes(
    c: Config, peers: nat, states: seq<State>, actions: seq<Action>, n: nat, k: nat)
    requires IsRun(c, peers, states, actions) && n < |states| && k < |states[n].sessions|
    requires states[n].sessions[k].phase.Emitting?
    ensures var VerifiedPiece(i, data) := states[n].sessions[k].phase.piece;
      var ds := Gathered(states, actions, k, n);
      && |data| == c.geometry.PieceLength(i)
      && (forall p :: 0 <= p < |data| ==>
            data[p] == match LastCovering(ds, p) case Some(b) => b case None => 0)
      && forall j: nat :: j * 16384 < |data| ==> HasStart(ds, j)
  {
    SessionCount(c, peers, states, actions, n);
    PiecesAreGathered(c, peers, states, actions, n, k);
    var i, ds := states[n].sessions[k].phase.piece.index, Gathered(states, actions, k, n);
    hide IsRun, Gathered;
    DeliveriesHold(i, c.geometry.PieceLength(i), ds);
    CompleteAndArrivedIff(i, c.geometry.PieceLength(i), ds);
    hide Assembly.IsComplete, Fresh, HasStart, LastCovering, Geometry.PieceLength;
  }
}
