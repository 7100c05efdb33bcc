/** A swarm of one session whose peer is a faithful seeder: the download ends
    complete exactly when the greeting passes the wire. */
module Alone {
  import opened Common
  import opened Piece
  import opened Assembler
  import opened Swarm
  import opened Runs
  import opened Theorems
  import opened Delivery
  import opened Disk
  import opened Greetings
  import opened Seeder
  import opened Completion
  import Framing
  import Returning
  import Invariants
  import Tracking
  import W = Wire

  // ----- what is owned and sent

  /** Until the peer unchokes nothing happens to the torrent. */
  predicate Untouched(sh: Shared, x: Session) {
    && sh.tracker.have == {} && sh.sent == [] && !sh.done
    && !x.phase.Emitting? && !x.phase.Announcing?
  }

  ghost predicate Solo(t: Setting, sh: Shared, x: Session)
    requires t.Fair()
  {
    && sh.receiverOpen && sh.lost == []
    && (forall p :: p in sh.sent ==> TruePiece(t, p))
    && (x.choked ==> Untouched(sh, x))
  }

  lemma BlockSendsNothing(c: Config, sh: Shared, x: Session, b: W.Block)
    requires x.phase.Waiting?
    ensures var (sh', x') := OnBlock(c, sh, x, b);
      sh'.sent == sh.sent && sh'.lost == sh.lost && x'.choked == x.choked
  {
    hide Assembly.AddBlock, Assembly.IsComplete, Tracking.Tracker.IsComplete, Config.Verifies;
  }

  /** Only a piece and an emission touch what is sent. */
  lemma StepSends(c: Config, sh: Shared, x: Session, e: Event)
    requires Enabled(c, sh, x, e)
    ensures var (sh', x') := Step(c, sh, x, e);
      && (!e.Emit? ==> sh'.sent == sh.sent && sh'.lost == sh.lost)
      && (e.Emit? && sh.receiverOpen ==> sh'.sent == sh.sent + [x.phase.piece] && sh'.lost == sh.lost)
  {
    hide OnMessage, OnBlock;
    if e.Receive? && e.message.Piece? {
      MessageIsBlock(c, sh, x, e.message.block);
      BlockSendsNothing(c, sh.(wire := sh.wire + |e.message.block.data|), x, e.message.block);
    } else if !e.Emit? {
      OtherStepsMoveNothing(c, sh, x, e);
      hide Step, Enabled;
    }
  }

  /** While it stays choked and hears no block, nothing happens to the torrent. */
  lemma ChokedStaysUntouched(c: Config, sh: Shared, x: Session, e: Event)
    requires Enabled(c, sh, x, e) && x.choked && Untouched(sh, x) && !(e.Receive? && e.message.Piece?)
    ensures var (sh', x') := Step(c, sh, x, e); Untouched(sh', x')
  {
    Returning.StepLeavesControl(c, sh, x, e);
    OtherStepsMoveNothing(c, sh, x, e);
    ChokedNeverAnnounces(c, sh, x, e);
    hide Step, Enabled;
  }

  lemma ChokedNeverAnnounces(c: Config, sh: Shared, x: Session, e: Event)
    requires Enabled(c, sh, x, e) && x.choked && !x.phase.Emitting? && !(e.Receive? && e.message.Piece?)
    ensures !Step(c, sh, x, e).1.phase.Announcing?
  {
    hide OnMessage, CanRequest, Tracking.Tracker.RemoveBitfield, Relinquish;
    if e.Receive? {
      MessageFrame(c, sh, x, e.message);
    }
  }

  lemma SoloTurn(t: Setting, sh: Shared, x: Session, g: nat, fifo: seq<W.BlockInfo>, e: Event)
    requires LocalInv(t, sh, x, g, fifo) && Follows(t, sh, x, g, fifo, e) && Enabled(t.c, sh, x, e) && Solo(t, sh, x)
    ensures var (sh', x') := Step(t.c, sh, x, e); Solo(t, sh', x')
  {
    assert t.Fair();
    SeatTurn(t, sh, x, g, fifo, e);
    Returning.StepLeavesControl(t.c, sh, x, e);
    StepSends(t.c, sh, x, e);
    assert e.Emit? ==> TruePiece(t, x.phase.piece) by { EmitsTruth(t, sh, x, g, fifo); }
    var (sh', x') := Step(t.c, sh, x, e);
    assert x'.choked ==> x.choked && !(e.Receive? && e.message.Piece?) by {
      StaysChoked(t, sh, x, g, fifo, e);
    }
    if x'.choked {
      ChokedStaysUntouched(t.c, sh, x, e);
    }
    hide Step, Setting.Fair, LocalInv, Stays, Nearer, Follows, Untouched, TruePiece;
  }

  lemma EmitsTruth(t: Setting, sh: Shared, x: Session, g: nat, fifo: seq<W.BlockInfo>)
    requires LocalInv(t, sh, x, g, fifo)
    ensures x.phase.Emitting? ==> TruePiece(t, x.phase.piece)
  {
    hide Setting.Fair, Invariants.SharedInv, Invariants.SessionInv, InStep, Greeted, TruePiece;
  }

  lemma StaysChoked(t: Setting, sh: Shared, x: Session, g: nat, fifo: seq<W.BlockInfo>, e: Event)
    requires LocalInv(t, sh, x, g, fifo) && Follows(t, sh, x, g, fifo, e) && Enabled(t.c, sh, x, e)
    ensures Step(t.c, sh, x, e).1.choked ==> x.choked && !(e.Receive? && e.message.Piece?)
  {
    hide Hears, Answer, Heard, Queue;
    SeatTurn(t, sh, x, g, fifo, e);
    var x' := Step(t.c, sh, x, e).1;
    if x'.choked {
      assert Said(t, g, e) <= |t.greeting|;
      assert g < |t.greeting| ==> Introduces(t.greeting[g], t.c.Count());
      if e.Receive? {
        HearsWhat(t, sh, x, g, fifo);
      }
    }
    hide LocalInv, Step, Nearer, Enabled, InStep;
  }

  // ----- the outcome

  /** Every action is the session's own. */
  predicate OnlySeat(t: Setting, actions: seq<Action>) {
    forall k :: 0 <= k < |actions| ==> actions[k].At? && actions[k].peer == t.seat
  }

  lemma {:induction false} SoloStays(t: Setting, plays: seq<Play>, actions: seq<Action>, n: nat)
    requires t.Fair() && t.peers == 1 && IsPlay(t, plays, actions) && OnlySeat(t, actions) && n <= |actions|
    ensures PlayInv(t, plays[n]) && Solo(t, plays[n].s.shared, plays[n].s.sessions[t.seat])
  {
    hide Act, CanAct, Plays, Setting.Fair, LocalInv, Inv, Solo, Left;
    PlayStaysOnTrack(t, plays, actions, n);
    if n == 0 {
      StartsSolo(t);
    } else {
      SoloStays(t, plays, actions, n - 1);
      SoloActKeeps(t, plays[n - 1], actions[n - 1], plays[n]);
    }
  }

  lemma StartsSolo(t: Setting)
    requires t.Fair()
    ensures Solo(t, Start(t).s.shared, Start(t).s.sessions[t.seat])
  {
    hide IsGreeting, Describes;
  }

  lemma SoloActKeeps(t: Setting, p: Play, a: Action, q: Play)
    requires PlayInv(t, p) && Plays(t, p, a, q) && a.At? && a.peer == t.seat
    requires Solo(t, p.s.shared, p.s.sessions[t.seat])
    ensures |q.s.sessions| == t.peers && Solo(t, q.s.shared, q.s.sessions[t.seat])
  {
    SoloTurn(t, p.s.shared, p.s.sessions[t.seat], p.greeting, p.fifo, a.event);
    hide LocalInv, Inv, Setting.Fair, Solo, Follows, Step, Enabled;
  }

  /** Owned, announced, and emitted exactly once with the content's own bytes. */
  ghost predicate Delivered(t: Setting, s: State)
    requires t.Fair()
  {
    && HasReturned(s) && s.shared.done && s.shared.tracker.IsComplete() && s.shared.lost == []
    && (forall i: nat :: i < t.c.Count() ==> Copies(s.shared.sent, i) == 1)
    && (forall p :: p in s.shared.sent ==> TruePiece(t, p))
  }

  /** Nothing was achieved: the session ended by an error. */
  predicate FailedEmpty(s: State) {
    |s.sessions| == 1 && s.sessions[0].phase == Gone(Failed)
    && s.shared.tracker.have == {} && s.shared.sent == [] && !s.shared.done
  }

  lemma CompleteIsDelivered(t: Setting, p: Play)
    requires PlayInv(t, p) && t.peers == 1 && p.s.sessions[0].phase.Gone?
    requires Solo(t, p.s.shared, p.s.sessions[0]) && p.s.shared.done && p.s.shared.tracker.IsComplete()
    ensures Delivered(t, p.s)
  {
    hide LocalInv, Setting.Fair, AvailabilityExact, ClaimsExact, TruePiece, Copies, Untouched, Invariants.SessionInv;
    var s := p.s;
    assert |s.shared.tracker.availability| == t.c.Count();
    forall i: nat | i < t.c.Count() ensures Copies(s.shared.sent, i) == 1 {
      assert i in Below(t.c.Count());
      NothingAtFirst(PendingOf(s.sessions, i));
      assert Copies(s.shared.lost, i) == 0 by { NoCopies(i); }
    }
  }

  lemma NoCopies(i: nat)
    ensures Copies([], i) == 0
  {
  }

  lemma UnlawfulStaysChoked(t: Setting, sh: Shared, x: Session, g: nat, fifo: seq<W.BlockInfo>)
    requires LocalInv(t, sh, x, g, fifo) && !t.Lawful()
    ensures x.choked
  {
    hide Setting.Fair, Invariants.SharedInv, Invariants.SessionInv, InStep, LearnAll, W.WithinLimit;
  }

  lemma EndsByFailure(t: Setting, sh: Shared, x: Session, g: nat, fifo: seq<W.BlockInfo>)
    requires LocalInv(t, sh, x, g, fifo) && x.phase.Gone? && !sh.done
    ensures x.phase.how == Failed
  {
    hide Setting.Fair, Invariants.SharedInv, InStep, Greeted, Silenced, Invariants.Window;
  }

  /** How every play of the session alone ends, when it has ended: delivered if the
      greeting passes the wire, failed with nothing owned if it does not. */
  lemma SoloOutcome(t: Setting, plays: seq<Play>, actions: seq<Action>)
    requires t.Fair() && t.peers == 1 && IsPlay(t, plays, actions) && OnlySeat(t, actions)
    requires |plays[|actions|].s.sessions| == 1 && plays[|actions|].s.sessions[0].phase.Gone?
    ensures Delivered(t, plays[|actions|].s) <==> t.Lawful()
    ensures FailedEmpty(plays[|actions|].s) <==> !t.Lawful()
  {
    SoloStays(t, plays, actions, |actions|);
    var p := plays[|actions|];
    assert t.seat == 0;
    hide IsPlay, Setting.Fair, Setting.Lawful, LocalInv, Inv, TruePiece, Copies, Tracking.Tracker.IsComplete;
    var (sh, x) := (p.s.shared, p.s.sessions[0]);
    if t.Lawful() {
      GoneIsComplete(t, sh, x, p.greeting, p.fifo);
      CompleteIsDelivered(t, p);
    } else {
      UnlawfulStaysChoked(t, sh, x, p.greeting, p.fifo);
      EndsByFailure(t, sh, x, p.greeting, p.fifo);
    }
  }

  /** Alone with a faithful seeder the loop always terminates. It ends complete, with
      every piece emitted exactly once and the files holding the content, exactly
      when the greeting passes the wire; otherwise with an error and nothing owned.
      No property of the hash is needed beyond accepting the true pieces. */
  lemma SeederCompletesIff(t: Setting, flat: seq<Byte>)
    returns (plays: seq<Play>, actions: seq<Action>, final: State)
    requires t.Fair() && t.peers == 1 && |flat| == t.c.geometry.totalLength
    ensures IsPlay(t, plays, actions) && OnlySeat(t, actions) && final == plays[|actions|].s
    ensures IsRun(t.c, 1, StatesOf(plays), actions)
    ensures Delivered(t, final) <==> t.Lawful()
    ensures FailedEmpty(final) <==> !t.Lawful()
    ensures Delivered(t, final) ==>
      AllWellSized(t.c.geometry, final.shared.sent) && Written(t.c.geometry, flat, final.shared.sent) == t.content
  {
    PlayAlone(t);
    plays, actions := SeatFinishes(t, [Start(t)], [], Start(t));
    assert t.seat == 0;
    hide Setting.Fair, Setting.Lawful, PlayInv, StatesOf, IsRun, Delivered, FailedEmpty, Written, Start, Plays;
    PlayIsRun(t, plays, actions);
    PlayStaysOnTrack(t, plays, actions, |actions|);
    assert |plays[|actions|].s.sessions| == 1 by { OneSession(t, plays[|actions|]); }
    SoloOutcome(t, plays, actions);
    final := plays[|actions|].s;
    if Delivered(t, final) {
      DeliveredRebuilds(t, final, flat);
    }
  }

  lemma OneSession(t: Setting, p: Play)
    requires PlayInv(t, p)
    ensures |p.s.sessions| == t.peers
  {
    hide LocalInv, Inv, Setting.Fair;
  }

  lemma PlayAlone(t: Setting)
    requires t.Fair()
    ensures IsPlay(t, [Start(t)], []) && PlayInv(t, Start(t))
  {
    StartIsOnTrack(t);
    hide PlayInv, Start;
  }

  lemma DeliveredRebuilds(t: Setting, s: State, flat: seq<Byte>)
    requires t.Fair() && Delivered(t, s) && |flat| == t.c.geometry.totalLength
    ensures AllWellSized(t.c.geometry, s.shared.sent)
    ensures Written(t.c.geometry, flat, s.shared.sent) == t.content
  {
    hide IsGreeting, Written, Copies, Tracking.Tracker.IsComplete, HasReturned;
    var g, sent := t.c.geometry, s.shared.sent;
    forall k | 0 <= k < |sent| ensures WellSized(g, sent[k]) {
      assert sent[k] in sent;
      PiecesTile(g, sent[k].index);
    }
    forall i: nat | i < g.numPieces ensures PieceOf(g, Written(g, flat, sent), i) == PieceOf(g, t.content, i) {
      WrittenHolds(g, flat, sent, i);
      LastForIsMember(sent, i);
      CopiesCountsMembers(sent, i);
    }
    SameByPieces(g, Written(g, flat, sent), t.content);
  }

  // ----- on the wire

  predicate IsSeat(t: Setting, a: Action) {
    a.At? && a.peer == t.seat
  }

  /** What the seeder has said when `n` actions are done and it was heard. */
  function Spoken(t: Setting, plays: seq<Play>, actions: seq<Action>, n: nat): seq<W.Message>
    requires n <= |actions| < |plays|
  {
    if n == 0 then []
    else
      var a, p := actions[n - 1], plays[n - 1];
      Spoken(t, plays, actions, n - 1)
      + (if IsSeat(t, a) && a.event.Receive? then [NextMessage(t, p.greeting, p.fifo)] else [])
  }

  /** What the session has received by then. */
  function Received(t: Setting, actions: seq<Action>, n: nat): seq<W.Message>
    requires n <= |actions|
  {
    if n == 0 then []
    else
      var a := actions[n - 1];
      Received(t, actions, n - 1) + (if IsSeat(t, a) && a.event.Receive? then [a.event.message] else [])
  }

  lemma HeardAsSaid(t: Setting, p: Play, a: Action, q: Play)
    requires PlayInv(t, p) && Plays(t, p, a, q) && IsSeat(t, a) && a.event.Receive?
    ensures a.event.message == NextMessage(t, p.greeting, p.fifo) && W.WithinLimit(a.event.message)
  {
    var x := p.s.sessions[t.seat];
    assert x.phase.Waiting?;
    HearsWhat(t, p.s.shared, x, p.greeting, p.fifo);
    var m := NextMessage(t, p.greeting, p.fifo);
    assert Heard(m) == Ok(a.event.message);
    EncodeIsHeard(m);
    hide LocalInv, Inv, Act, CanAct, Setting.Fair, Heard, NextMessage, W.WithinLimit;
  }

  lemma EncodeIsHeard(m: W.Message)
    requires Heard(m).Ok?
    ensures W.WithinLimit(Heard(m).value)
  {
    W.EncodeInvertsDecode(W.Encode(m));
    hide W.Decode, W.Encode;
  }

  lemma {:induction false} SpokenIsReceived(t: Setting, plays: seq<Play>, actions: seq<Action>, n: nat)
    requires t.Fair() && IsPlay(t, plays, actions) && n <= |actions|
    ensures Spoken(t, plays, actions, n) == Received(t, actions, n)
    ensures Framing.AllWithinLimit(Received(t, actions, n))
  {
    hide PlayInv, Plays, Start, Left, Setting.Fair, NextMessage, W.WithinLimit;
    if n > 0 {
      SpokenIsReceived(t, plays, actions, n - 1);
      PlayStaysOnTrack(t, plays, actions, n - 1);
      if IsSeat(t, actions[n - 1]) && actions[n - 1].event.Receive? {
        HeardAsSaid(t, plays[n - 1], actions[n - 1], plays[n]);
      }
    }
  }

  /** However the bytes of what the seeder says are cut into chunks, the decoder reads
      from them exactly what the session receives in the play, and nothing more. */
  lemma OnTheWire(t: Setting, plays: seq<Play>, actions: seq<Action>, chunks: seq<seq<Byte>>)
    requires t.Fair() && IsPlay(t, plays, actions)
    requires |actions| < |plays| && Concat(chunks) == Framing.EncodeAll(Spoken(t, plays, actions, |actions|))
    ensures Framing.FeedAll(Framing.Open([]), chunks) == (Received(t, actions, |actions|), Framing.Open([]))
  {
    SpokenIsReceived(t, plays, actions, |actions|);
    Framing.FragmentationIndependence(Received(t, actions, |actions|), chunks);
    hide IsPlay, Setting.Fair, Framing.FeedAll, Received, Spoken;
  }

  /** And where the session fails to receive, the decoder fails: on the first message
      that does not pass the wire, however it is cut and whatever follows. */
  lemma CutOff(
    t: Setting, plays: seq<Play>, actions: seq<Action>, n: nat, more: seq<Byte>, chunks: seq<seq<Byte>>)
    requires t.Fair() && IsPlay(t, plays, actions)
    requires n < |actions| < |plays| && IsSeat(t, actions[n]) && actions[n].event.ReceiveFails?
    requires Concat(chunks) == Framing.EncodeAll(Spoken(t, plays, actions, n))
      + (W.Encode(NextMessage(t, plays[n].greeting, plays[n].fifo)) + more)
    ensures Framing.FeedAll(Framing.Open([]), chunks).0 == Received(t, actions, n)
    ensures Framing.FeedAll(Framing.Open([]), chunks).1.Broken?
  {
    SpokenIsReceived(t, plays, actions, n);
    PlayStaysOnTrack(t, plays, actions, n);
    assert Plays(t, plays[n], actions[n], plays[n + 1]);
    FailsOnTooLong(t, plays[n], actions[n], plays[n + 1]);
    var m := NextMessage(t, plays[n].greeting, plays[n].fifo);
    hide IsPlay, Setting.Fair, PlayInv, Plays, NextMessage, Left, Received, Spoken, Framing.FeedAll, W.Body, W.Encode;
    ReadUpToTooLong(Received(t, actions, n), m, more, chunks);
  }

  lemma FailsOnTooLong(t: Setting, p: Play, a: Action, q: Play)
    requires PlayInv(t, p) && Plays(t, p, a, q) && IsSeat(t, a) && a.event.ReceiveFails?
    ensures W.MAX_MESSAGE_LEN < |W.Body(NextMessage(t, p.greeting, p.fifo))| < U32_LIMIT
  {
    var x := p.s.sessions[t.seat];
    assert x.phase.Waiting?;
    HearsWhat(t, p.s.shared, x, p.greeting, p.fifo);
    assert Silenced(t, p.greeting);
    assert t.Fair();
    IntroductionIsCountable(t.greeting[p.greeting], t.c.Count());
    hide LocalInv, Inv, Act, CanAct, Heard, W.Body;
  }

  // ----- which torrents that covers

  /** The configuration of a torrent with this content. */
  function Torrent(g: Geometry, content: seq<Byte>, sha1: seq<Byte> -> Digest): (c: Config)
    requires g.Consistent() && |content| == g.totalLength
    ensures c.WellFormed() && c.geometry == g && c.sha1 == sha1 && Describes(c, content)
  {
    Config(g, seq(g.numPieces, i requires 0 <= i < g.numPieces => sha1(PieceOf(g, content, i))), sha1)
  }

  /** Every content of every consistent geometry has a faithful seeder whose greeting
      passes the wire: one that advertises piece by piece. */
  lemma SeederExists(g: Geometry, content: seq<Byte>, sha1: seq<Byte> -> Digest, peers: nat, seat: nat)
    returns (t: Setting)
    requires g.Consistent() && |content| == g.totalLength && seat < peers
    ensures t.Fair() && t.Lawful() && t.peers == peers && t.seat == seat
    ensures t.c == Torrent(g, content, sha1) && t.content == content
  {
    HavesGreet(g.numPieces);
    t := Setting(Torrent(g, content, sha1), peers, seat, content, Haves(g.numPieces));
    hide IsGreeting, Describes, Haves;
  }

  /** A seeder that greets with its bitfield passes the wire exactly up to 8388600
      pieces. */
  lemma BitfieldSeeder(g: Geometry, content: seq<Byte>, sha1: seq<Byte> -> Digest, peers: nat, seat: nat)
    returns (t: Setting)
    requires g.Consistent() && |content| == g.totalLength && seat < peers
    ensures t.Fair() && t.peers == peers && t.seat == seat
    ensures t.c == Torrent(g, content, sha1) && t.content == content
    ensures |t.greeting| == 1 && t.greeting[0].Bitfield?
    ensures t.Lawful() <==> g.numPieces <= BITFIELD_LIMIT == 8388600
  {
    var bits := BitfieldGreets(g.numPieces);
    BitfieldFitsIff(bits, g.numPieces);
    t := Setting(Torrent(g, content, sha1), peers, seat, content, [W.Bitfield(bits)]);
    hide IsGreeting, Describes, W.WithinLimit;
  }

  /** A torrent that the engine accepts and cannot download from such a seeder: with
      8388601 pieces of one byte, the session ends by an error, nothing owned. */
  lemma LargeTorrentFails(content: seq<Byte>, sha1: seq<Byte> -> Digest)
    returns (t: Setting, plays: seq<Play>, actions: seq<Action>, final: State)
    requires |content| == 8388601
    ensures t.Fair() && t.content == content && |t.greeting| == 1 && t.greeting[0].Bitfield?
    ensures t.c.geometry == Geometry(8388601, 1, 8388601, 1)
    ensures IsPlay(t, plays, actions) && final == plays[|actions|].s && FailedEmpty(final)
  {
    var g := Geometry(8388601, 1, 8388601, 1);
    t := BitfieldSeeder(g, content, sha1, 1, 0);
    hide Setting.Fair, Setting.Lawful, IsPlay, FailedEmpty, Delivered, Written, Torrent;
    plays, actions, final := SeederCompletesIff(t, content);
  }
}
