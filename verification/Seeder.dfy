/** One session whose peer is a faithful seeder: it advertises everything, unchokes,
    and answers each request once, in order, with the true bytes. The other
    sessions of the swarm do what they like. */
module Seeder {
  import opened Common
  import opened Piece
  import opened Assembler
  import opened Swarm
  import opened Invariants
  import opened Theorems
  import opened Delivery
  import opened Greetings
  import Tracking
  import Bitfields
  import W = Wire

  /** A swarm of `peers` sessions in which session `seat` has the seeder, what the
      seeder holds, and how it introduces itself before it unchokes. */
  datatype Setting = Setting(
    c: Config, peers: nat, seat: nat, content: seq<Byte>, greeting: seq<W.Message>)
  {
    ghost predicate Fair() {
      && c.WellFormed() && seat < peers
      && Describes(c, content)
      && IsGreeting(greeting, c.Count())
    }

    /** Every message of the greeting passes the wire. */
    predicate Lawful() {
      forall i :: 0 <= i < |greeting| ==> W.WithinLimit(greeting[i])
    }
  }

  /** The true bytes of a request. */
  function Answer(t: Setting, r: W.BlockInfo): W.Block {
    var start := t.c.geometry.PieceOffset(r.index) + r.begin;
    W.Block(r.index, r.begin, if start + r.length <= |t.content| then t.content[start..start + r.length] else [])
  }

  /** What the seeder says next, `g` messages of its greeting and unchoking being
      said and the requests of `fifo` unanswered. */
  function NextMessage(t: Setting, g: nat, fifo: seq<W.BlockInfo>): W.Message {
    if g < |t.greeting| then t.greeting[g]
    else if g == |t.greeting| then W.Unchoke
    else if fifo != [] then W.Piece(Answer(t, fifo[0]))
    else W.KeepAlive
  }

  /** How the session hears it, off the wire. */
  function Hears(t: Setting, g: nat, fifo: seq<W.BlockInfo>): Event {
    match Heard(NextMessage(t, g, fifo))
    case Ok(m) => Receive(m)
    case Err(_) => ReceiveFails
  }

  /** What may happen to the session next: its own step, the seeder's next message,
      or the news that the others have completed the torrent. */
  predicate Follows(t: Setting, sh: Shared, x: Session, g: nat, fifo: seq<W.BlockInfo>, e: Event) {
    match x.phase
    case Dialing => e == Connect
    case LoopHead => e == ReadControl
    case Reserving => e == Reserve
    case Filling => e == if CanRequest(t.c, x) then SendRequest else PipelineReady
    case Waiting => e == Hears(t, g, fifo) || (e == DoneChanged && sh.done)
    case Emitting(_, _) => e == Emit
    case Announcing => e == Announce
    case Leaving(_) => e == Withdraw
    case _ => false
  }

  /** One of them. */
  function Turn(t: Setting, sh: Shared, x: Session, g: nat, fifo: seq<W.BlockInfo>): Event {
    match x.phase
    case Dialing => Connect
    case LoopHead => ReadControl
    case Reserving => Reserve
    case Filling => if CanRequest(t.c, x) then SendRequest else PipelineReady
    case Waiting => if sh.done then DoneChanged else Hears(t, g, fifo)
    case Emitting(_, _) => Emit
    case Announcing => Announce
    case _ => Withdraw
  }

  /** How far the greeting has gone after the event. */
  function Said(t: Setting, g: nat, e: Event): nat {
    if e.Receive? && g <= |t.greeting| then g + 1 else g
  }

  /** The unanswered requests after the event. */
  function Queue(t: Setting, x: Session, g: nat, fifo: seq<W.BlockInfo>, e: Event): seq<W.BlockInfo> {
    if e.SendRequest? && x.current.Some? then fifo + [t.c.geometry.BlockInfoAt(x.current.value.index, x.nextBlock)]
    else if e.Receive? && g > |t.greeting| && fifo != [] then fifo[1..]
    else fifo
  }

  // ----- what holds for the session all along

  /** Requests made are the blocks received, in order, plus those outstanding. */
  ghost predicate InStep(t: Setting, x: Session, fifo: seq<W.BlockInfo>)
    requires t.Fair()
  {
    match x.current
    case None => fifo == []
    case Some(a) =>
      && |fifo| == x.inFlight <= x.nextBlock <= |a.received|
      && a.index < t.c.Count()
      && (forall j :: 0 <= j < |fifo| ==>
            fifo[j] == t.c.geometry.BlockInfoAt(a.index, x.nextBlock - x.inFlight + j))
      && (forall k :: 0 <= k < |a.received| ==> (a.received[k] <==> k < x.nextBlock - x.inFlight))
      && Agrees(a, PieceOf(t.c.geometry, t.content, a.index))
  }

  /** The next message of the greeting does not pass the wire. */
  predicate Silenced(t: Setting, g: nat) {
    g < |t.greeting| && !W.WithinLimit(t.greeting[g])
  }

  predicate EndsWell(t: Setting, g: nat, why: Exit) {
    why.TorrentDone? || why.SiblingDone? || (why.Failed? && Silenced(t, g))
  }

  ghost predicate TruePiece(t: Setting, p: VerifiedPiece)
    requires t.Fair()
  {
    p.index < t.c.Count() && p.data == PieceOf(t.c.geometry, t.content, p.index)
  }

  /** The greeting, as far as it has gone, has done its work. */
  ghost predicate Greeted(t: Setting, x: Session, g: nat) {
    && g <= |t.greeting| + 1 && (x.choked <==> g <= |t.greeting|)
    && (x.phase.Dialing? ==> g == 0)
    && (!x.phase.Gone? ==> x.peerHas == LearnAll(t.greeting[..Min(g, |t.greeting|)], t.c.Count()))
    && (forall i :: 0 <= i < |t.greeting| && i < g ==> W.WithinLimit(t.greeting[i]))
  }

  ghost predicate OnTrack(t: Setting, sh: Shared, x: Session, g: nat)
    requires t.Fair()
  {
    && Greeted(t, x, g)
    && sh.control.Running? && sh.version == x.seen == 0 && sh.coordinatorAlive
    && !x.phase.Idling?
    && (x.phase.Leaving? ==> EndsWell(t, g, x.phase.why))
    && (x.phase.Gone? ==> EndsWell(t, g, x.phase.how))
    && ((x.phase.Filling? || x.phase.Waiting?) && !x.choked ==> x.current.Some?)
    && (x.phase.Waiting? ==> !CanRequest(t.c, x))
    && (x.phase.Emitting? ==> TruePiece(t, x.phase.piece))
  }

  ghost predicate LocalInv(t: Setting, sh: Shared, x: Session, g: nat, fifo: seq<W.BlockInfo>) {
    && t.Fair() && SharedInv(t.c, sh) && SessionInv(t.c, sh, x)
    && OnTrack(t, sh, x, g) && InStep(t, x, fifo)
  }

  /** What a turn has to establish beyond the invariants of every run. */
  ghost predicate Stays(t: Setting, sh: Shared, x: Session, g: nat, fifo: seq<W.BlockInfo>)
    requires t.Fair()
  {
    OnTrack(t, sh, x, g) && InStep(t, x, fifo)
  }

  /** Steps of other sessions do not disturb it. */
  lemma OthersLeaveLocal(t: Setting, sh: Shared, sh': Shared, x: Session, g: nat, fifo: seq<W.BlockInfo>)
    requires LocalInv(t, sh, x, g, fifo) && SharedInv(t.c, sh') && Evolves(sh, sh')
    requires sh'.control == sh.control && sh'.version == sh.version && sh'.coordinatorAlive == sh.coordinatorAlive
    ensures LocalInv(t, sh', x, g, fifo)
  {
    EvolvesKeepsOthers(t.c, sh, sh', x);
    hide SharedInv, SessionInv, Evolves, InStep, Greeted, Setting.Fair, EndsWell, CanRequest, TruePiece;
  }

  lemma Joined(t: Setting, sh: Shared, x: Session, g: nat, fifo: seq<W.BlockInfo>)
    requires t.Fair() && SharedInv(t.c, sh) && SessionInv(t.c, sh, x) && Stays(t, sh, x, g, fifo)
    ensures LocalInv(t, sh, x, g, fifo)
  {
    hide SharedInv, SessionInv, OnTrack, InStep, Setting.Fair;
  }

  // ----- what it uses up

  /** Messages until the peer has unchoked. */
  function Unsaid(t: Setting, g: nat): int {
    |t.greeting| + 1 - g
  }

  /** Pieces not owned, and one more while the session works on one that another
      session has completed. */
  function Missing(t: Setting, sh: Shared, x: Session): int {
    t.c.Count() - |sh.tracker.have|
    + (if x.current.Some? && x.current.value.index in sh.tracker.have then 1 else 0)
  }

  /** Blocks of the current piece still to be requested or received. */
  function ToGo(t: Setting, x: Session): int {
    if x.current.None? then 2 * U32_LIMIT
    else x.current.value.remaining + t.c.geometry.NumBlocks(x.current.value.index) - x.nextBlock
  }

  function Rank(x: Session): nat {
    match x.phase
    case Dialing => 8
    case Emitting(_, _) => 7
    case LoopHead => 6
    case Reserving => 5
    case Filling => 4
    case Waiting => 3
    case Announcing => 2
    case Leaving(_) => 1
    case _ => 0
  }

  /** Greetings, then missing pieces, then blocks, then places in the loop. */
  predicate Nearer(t: Setting, sh: Shared, x: Session, g: nat, sh': Shared, x': Session, g': nat) {
    || g' > g
    || (g' == g && Missing(t, sh', x') < Missing(t, sh, x))
    || (g' == g && Missing(t, sh', x') == Missing(t, sh, x) && ToGo(t, x') < ToGo(t, x))
    || (g' == g && Missing(t, sh', x') == Missing(t, sh, x) && ToGo(t, x') == ToGo(t, x) && Rank(x') < Rank(x))
  }

  lemma MeasureIsBounded(t: Setting, sh: Shared, x: Session, g: nat, fifo: seq<W.BlockInfo>)
    requires LocalInv(t, sh, x, g, fifo)
    ensures 0 <= Unsaid(t, g) && 0 <= Missing(t, sh, x) <= t.c.Count() + 1 && 0 <= ToGo(t, x) <= 2 * U32_LIMIT
  {
    FullSubset(sh.tracker.have, t.c.Count());
    hide Below, Agrees, IsGreeting, Describes, Greeted, RequestsInOrder;
    if x.current.Some? {
      RemainingIsBounded(x.current.value);
    }
  }

  lemma RemainingIsBounded(a: Assembly)
    requires a.Valid()
    ensures a.remaining <= |a.received| <= a.length
  {
    SumBounded(Unset(a.received));
    DivCeilBounds(a.length, BLOCK_SIZE);
  }

  /** Other sessions only ever bring it nearer. */
  lemma OthersDoNotDelay(t: Setting, sh: Shared, sh': Shared, x: Session)
    requires sh.tracker.have <= sh'.tracker.have
    ensures Missing(t, sh', x) <= Missing(t, sh, x)
  {
    var gained := sh'.tracker.have - sh.tracker.have;
    assert |gained| == |sh'.tracker.have| - |sh.tracker.have|;
    if x.current.Some? && x.current.value.index in gained {
      assert gained != {};
    }
  }

  // ----- turn by turn

  /** A waiting unchoked session always has a request outstanding. */
  lemma SomethingIsOutstanding(t: Setting, sh: Shared, x: Session, g: nat, fifo: seq<W.BlockInfo>)
    requires LocalInv(t, sh, x, g, fifo) && x.phase.Waiting? && g > |t.greeting|
    ensures fifo != []
  {
    hide SharedInv, Agrees, Below, IsGreeting;
    var a := x.current.value;
    if fifo == [] {
      assert x.nextBlock == t.c.geometry.NumBlocks(a.index) == |a.received|;
      CompleteIff(a);
    }
  }

  lemma FreshStays(t: Setting, x: Session, index: nat)
    requires t.Fair() && index < t.c.Count()
    ensures InStep(t, StartPiece(t.c, x, index), [])
    ensures ToGo(t, StartPiece(t.c, x, index)) < 2 * U32_LIMIT
  {
    hide IsGreeting, Below;
    PiecesTile(t.c.geometry, index);
  }

  /** An unchoked session without a piece takes one up or finds the torrent
      complete: the seeder has whatever is still needed. */
  lemma SomethingToTakeUp(t: Setting, sh: Shared, x: Session)
    requires t.Fair() && SharedInv(t.c, sh) && x.peerHas == Below(t.c.Count())
    requires x.current.None? && !x.choked
    ensures var (sh', x') := OnReserve(t.c, sh, x);
      || (x' == x.(phase := Announcing) && sh' == sh)
      || exists i: nat :: i < t.c.Count() && i !in sh.tracker.have && x' == StartPiece(t.c, x, i)
                          && (sh' == sh.(tracker := sh'.tracker) || sh' == sh.(endgame := true))
                          && sh'.tracker.have == sh.tracker.have
  {
    hide StartPiece, Describes, IsGreeting;
    var tr := sh.tracker;
    Tracking.RarestBelowIsRarest(tr, x.peerHas, true, t.c.Count());
    Tracking.RarestBelowIsRarest(tr, x.peerHas, false, t.c.Count());
    if tr.Reserve(x.peerHas).0.None? {
      Tracking.EndgameStrandsNothing(tr, x.peerHas);
    }
  }

  lemma StartTurn(t: Setting, sh: Shared, x: Session, g: nat, fifo: seq<W.BlockInfo>, sh': Shared, i: nat)
    requires t.Fair() && Stays(t, sh, x, g, fifo) && x.phase.Reserving? && x.current.None? && !x.choked
    requires i < t.c.Count() && i !in sh.tracker.have && sh'.tracker.have == sh.tracker.have
    requires sh' == sh.(tracker := sh'.tracker) || sh' == sh.(endgame := true)
    ensures var x' := StartPiece(t.c, x, i);
      Stays(t, sh', x', g, fifo) && Nearer(t, sh, x, g, sh', x', g)
  {
    FreshStays(t, x, i);
    assert StartPiece(t.c, x, i).current.value.index == i;
    hide InStep, TruePiece, ToGo, Below, Setting.Fair, Fresh;
    assert InStep(t, x, fifo) && fifo == [] && ToGo(t, x) == 2 * U32_LIMIT by { FreeSession(t, x, fifo); }
  }

  lemma FreeSession(t: Setting, x: Session, fifo: seq<W.BlockInfo>)
    requires t.Fair() && InStep(t, x, fifo) && x.current.None?
    ensures fifo == [] && ToGo(t, x) == 2 * U32_LIMIT
  {
    hide Setting.Fair;
  }

  /** A turn that only moves the session to its next place in the loop. */
  lemma MoveTurn(t: Setting, sh: Shared, x: Session, g: nat, fifo: seq<W.BlockInfo>, phase: Phase)
    requires t.Fair() && Stays(t, sh, x, g, fifo) && Rank(x.(phase := phase)) < Rank(x) && !x.phase.Gone?
    requires phase.LoopHead? || phase.Reserving? || phase.Announcing?
      || (phase.Leaving? && EndsWell(t, g, phase.why))
      || ((phase.Filling? || phase.Waiting?) && (x.choked || x.current.Some?))
    requires phase.Waiting? ==> !CanRequest(t.c, x)
    ensures Stays(t, sh, x.(phase := phase), g, fifo) && Nearer(t, sh, x, g, sh, x.(phase := phase), g)
  {
    hide Below, Setting.Fair, TruePiece, LearnAll, W.WithinLimit, EndsWell;
  }

  lemma ReserveTurn(t: Setting, sh: Shared, x: Session, g: nat, fifo: seq<W.BlockInfo>)
    requires LocalInv(t, sh, x, g, fifo) && x.phase.Reserving?
    ensures var (sh', x') := OnReserve(t.c, sh, x);
      Stays(t, sh', x', g, fifo) && Nearer(t, sh, x, g, sh', x', g)
  {
    hide Below, SharedInv, SessionInv, TruePiece, Fresh, InStep, StartPiece, Nearer, IsGreeting, EndsWell, Describes;
    if x.current.None? && !x.choked {
      assert x.peerHas == Below(t.c.Count()) by { FullyGreeted(t, x, g); }
      SomethingToTakeUp(t, sh, x);
      var (sh', x') := OnReserve(t.c, sh, x);
      hide OnReserve, Stays, Greeted;
      if x' == x.(phase := Announcing) && sh' == sh {
        MoveTurn(t, sh, x, g, fifo, Announcing);
      } else {
        var i: nat :| i < t.c.Count() && i !in sh.tracker.have && x' == StartPiece(t.c, x, i);
        StartTurn(t, sh, x, g, fifo, sh', i);
      }
    } else {
      MoveTurn(t, sh, x, g, fifo, Filling);
    }
  }

  lemma FullyGreeted(t: Setting, x: Session, g: nat)
    requires t.Fair() && Greeted(t, x, g) && !x.choked && !x.phase.Gone?
    ensures x.peerHas == Below(t.c.Count())
  {
    hide Below, LearnAll, Describes, W.WithinLimit;
    assert t.greeting[..|t.greeting|] == t.greeting;
  }

  lemma SendTurn(t: Setting, sh: Shared, x: Session, g: nat, fifo: seq<W.BlockInfo>)
    requires LocalInv(t, sh, x, g, fifo) && x.phase.Filling? && CanRequest(t.c, x)
    ensures var x' := OnSend(t.c, x);
      var fifo' := fifo + [t.c.geometry.BlockInfoAt(x.current.value.index, x.nextBlock)];
      Stays(t, sh, x', g, fifo') && Nearer(t, sh, x, g, sh, x', g)
  {
    hide Below, Setting.Fair, SharedInv, TruePiece, Agrees, LearnAll, W.WithinLimit, EndsWell;
  }

  lemma EmitTurn(t: Setting, sh: Shared, x: Session, g: nat, fifo: seq<W.BlockInfo>)
    requires LocalInv(t, sh, x, g, fifo) && x.phase.Emitting?
    ensures var (sh', x') := OnEmit(sh, x);
      Stays(t, sh', x', g, fifo) && Nearer(t, sh, x, g, sh', x', g)
  {
    hide Below, Setting.Fair, SharedInv, SessionInv, TruePiece, Agrees, LearnAll, W.WithinLimit, EndsWell;
  }

  /** The turns that neither reserve nor talk. */
  lemma QuietTurn(t: Setting, sh: Shared, x: Session, g: nat, fifo: seq<W.BlockInfo>, e: Event)
    requires LocalInv(t, sh, x, g, fifo) && Enabled(t.c, sh, x, e)
    requires e.Connect? || e.ReadControl? || e.PipelineReady? || (e.DoneChanged? && sh.done)
      || (e.ReceiveFails? && Silenced(t, g))
    ensures var (sh', x') := Step(t.c, sh, x, e);
      Stays(t, sh', x', g, fifo) && Nearer(t, sh, x, g, sh', x', g)
  {
    hide Below, Setting.Fair, SharedInv, SessionInv, TruePiece, InStep, Nearer, OnReserve, OnMessage, OnEmit, OnSend,
      Greeted, Silenced;
    match e
    case Connect => MoveTurn(t, sh, x, g, fifo, LoopHead);
    case PipelineReady => MoveTurn(t, sh, x, g, fifo, Waiting);
    case DoneChanged => MoveTurn(t, sh, x, g, fifo, Leaving(SiblingDone));
    case ReceiveFails => MoveTurn(t, sh, x, g, fifo, Leaving(Failed));
    case _ => MoveTurn(t, sh, x, g, fifo, Reserving);
  }

  lemma AnnounceTurn(t: Setting, sh: Shared, x: Session, g: nat, fifo: seq<W.BlockInfo>)
    requires LocalInv(t, sh, x, g, fifo) && x.phase.Announcing?
    ensures var (sh', x') := (sh.(done := true), x.(phase := Leaving(TorrentDone)));
      Stays(t, sh', x', g, fifo) && Nearer(t, sh, x, g, sh', x', g)
  {
    hide Below, Setting.Fair, SharedInv, SessionInv, TruePiece, InStep, OnReserve, OnControl, OnMessage, OnEmit, OnSend,
      Greeted, ToGo;
    MoveTurn(t, sh, x, g, fifo, Leaving(TorrentDone));
  }

  /** Steps that leave the piece in work alone. */
  lemma SameWork(t: Setting, x: Session, x': Session, fifo: seq<W.BlockInfo>)
    requires t.Fair() && InStep(t, x, fifo)
    requires x'.current == x.current && x'.inFlight == x.inFlight && x'.nextBlock == x.nextBlock
    ensures InStep(t, x', fifo) && ToGo(t, x') == ToGo(t, x)
  {
    hide Setting.Fair, Agrees;
  }

  lemma WithdrawTurn(t: Setting, sh: Shared, x: Session, g: nat, fifo: seq<W.BlockInfo>)
    requires LocalInv(t, sh, x, g, fifo) && x.phase.Leaving?
    ensures var (sh', x') :=
        (sh.(tracker := sh.tracker.RemoveBitfield(x.peerHas)), x.(phase := Gone(x.phase.why)));
      Stays(t, sh', x', g, fifo) && Nearer(t, sh, x, g, sh', x', g)
  {
    hide Below, Setting.Fair, SharedInv, SessionInv, TruePiece, InStep, OnReserve, OnControl, OnMessage, OnEmit, OnSend,
      LearnAll, W.WithinLimit, EndsWell, ToGo, Tracking.Tracker.RemoveBitfield;
    var tr := sh.tracker.RemoveBitfield(x.peerHas);
    assert tr.have == sh.tracker.have by { WithdrawalOwnsTheSame(sh.tracker, x.peerHas); }
    SameWork(t, x, x.(phase := Gone(x.phase.why)), fifo);
  }

  lemma WithdrawalOwnsTheSame(tr: Tracking.Tracker, has: set<nat>)
    ensures tr.RemoveBitfield(has).have == tr.have
  {
  }

  // ----- the greeting

  lemma UnchokeTurn(t: Setting, sh: Shared, x: Session, fifo: seq<W.BlockInfo>)
    requires LocalInv(t, sh, x, |t.greeting|, fifo) && x.phase.Waiting?
    ensures var (sh', x') := OnMessage(t.c, sh, x, W.Unchoke);
      Stays(t, sh', x', |t.greeting| + 1, fifo) && Nearer(t, sh, x, |t.greeting|, sh', x', |t.greeting| + 1)
  {
    hide Below, SharedInv, TruePiece, Agrees, Describes, OnBlock, IsGreeting, LearnAll, Bitfields.FromWire,
      W.WithinLimit, EndsWell;
  }

  /** An introduction teaches the session what it says and nothing else. */
  lemma Introduced(c: Config, sh: Shared, x: Session, m: W.Message)
    requires Introduces(m, c.Count())
    ensures var (sh', x') := OnMessage(c, sh, x, m);
      && x' == x.(phase := LoopHead, peerHas := Learn(x.peerHas, m, c.Count()))
      && sh' == sh.(tracker := sh.tracker.(availability := sh'.tracker.availability))
  {
    hide OnBlock, Bitfields.FromWire, Relinquish;
    if m.Have? && m.index in x.peerHas {
      assert x.peerHas + {m.index} == x.peerHas;
    }
  }

  lemma GreetedFurther(t: Setting, x: Session, g: nat)
    requires Greeted(t, x, g) && g < |t.greeting| && W.WithinLimit(t.greeting[g]) && !x.phase.Gone?
    ensures Greeted(t, x.(phase := LoopHead, peerHas := Learn(x.peerHas, t.greeting[g], t.c.Count())), g + 1)
  {
    hide LearnAll, Learn, W.WithinLimit;
    LearnsNext(t.greeting, g, t.c.Count());
  }

  lemma LearnsNext(ms: seq<W.Message>, g: nat, n: nat)
    requires g < |ms|
    ensures LearnAll(ms[..g + 1], n) == Learn(LearnAll(ms[..g], n), ms[g], n)
  {
    hide Learn;
    assert ms[..g + 1][..g] == ms[..g];
  }

  lemma IntroductionTurn(t: Setting, sh: Shared, x: Session, g: nat, fifo: seq<W.BlockInfo>)
    requires LocalInv(t, sh, x, g, fifo) && x.phase.Waiting? && g < |t.greeting| && W.WithinLimit(t.greeting[g])
    ensures var (sh', x') := OnMessage(t.c, sh, x, t.greeting[g]);
      Stays(t, sh', x', g + 1, fifo) && Nearer(t, sh, x, g, sh', x', g + 1)
  {
    hide Below, SharedInv, SessionInv, TruePiece, InStep, Greeted, Describes, LearnAll, Learn, W.WithinLimit, EndsWell,
      Introduces, ToGo, OnMessage;
    var m := t.greeting[g];
    assert Introduces(m, t.c.Count());
    Introduced(t.c, sh, x, m);
    GreetedFurther(t, x, g);
    SameWork(t, x, OnMessage(t.c, sh, x, m).1, fifo);
  }

  // ----- a block arrives

  lemma AnswerIsSlice(t: Setting, index: nat, k: nat)
    requires t.c.WellFormed() && |t.content| == t.c.geometry.totalLength
    requires index < t.c.geometry.numPieces && k < t.c.geometry.NumBlocks(index)
    ensures k * BLOCK_SIZE < t.c.geometry.PieceLength(index)
    ensures |PieceOf(t.c.geometry, t.content, index)| == t.c.geometry.PieceLength(index)
    ensures Answer(t, t.c.geometry.BlockInfoAt(index, k)) ==
      W.Block(index, k * BLOCK_SIZE, Slice(PieceOf(t.c.geometry, t.content, index), k))
  {
    var g := t.c.geometry;
    RequestIsExact(g, index, k);
    PiecesTile(g, index);
    BlocksTile(g, index, k);
    var at, begin, length := g.PieceOffset(index), k * BLOCK_SIZE, g.BlockLength(index, k);
    hide Geometry.PieceOffset, Geometry.BlockInfoAt, Geometry.NumBlocks;
    CutTwice(t.content, at, at + g.PieceLength(index), begin, begin + length);
    assert begin + length == Min((k + 1) * BLOCK_SIZE, g.PieceLength(index));
    var r := g.BlockInfoAt(index, k);
    assert r == W.BlockInfo(index, begin, length);
    assert Answer(t, r).data == t.content[at + begin..at + begin + length];
  }

  lemma CutTwice(s: seq<Byte>, a: nat, b: nat, i: nat, j: nat)
    requires a <= b <= |s| && i <= j <= b - a
    ensures s[a..b][i..j] == s[a + i..a + j]
  {
    var inner := s[a..b];
    forall p | 0 <= p < j - i ensures inner[i..j][p] == s[a + i..a + j][p] {
      assert inner[i + p] == s[a + i + p];
    }
  }

  /** The next answer stores the first missing block of the piece. */
  lemma BlockStored(t: Setting, x: Session, fifo: seq<W.BlockInfo>)
    requires t.Fair() && Window(t.c, x) && x.current.Some? && fifo != [] && InStep(t, x, fifo)
    ensures var a, b, k := x.current.value, Answer(t, fifo[0]), x.nextBlock - x.inFlight;
      var (verdict, a') := a.AddBlock(b.begin, b.data);
      && b.index == a.index && verdict.Accepted?
      && a'.Valid() && a'.index == a.index && a'.length == a.length
      && 0 <= k < |a.received| && a'.received == a.received[k := true]
      && a'.remaining + 1 == a.remaining
      && Agrees(a', PieceOf(t.c.geometry, t.content, a.index))
  {
    hide IsGreeting, Below, RequestsInOrder, Slice, Assembly.AddBlock;
    var a, b, k := x.current.value, Answer(t, fifo[0]), x.nextBlock - x.inFlight;
    assert fifo[0] == t.c.geometry.BlockInfoAt(a.index, k);
    AnswerIsSlice(t, a.index, k);
    AddSliceAgrees(a, PieceOf(t.c.geometry, t.content, a.index), k);
    AddBlockKeepsValid(a, b.begin, b.data);
  }

  /** A block that leaves the piece incomplete. */
  lemma PartTurn(
    t: Setting, sh: Shared, x: Session, g: nat, fifo: seq<W.BlockInfo>, a: Assembly, answers: seq<nat>)
    requires t.Fair() && Stays(t, sh, x, g, fifo) && x.phase.Waiting? && x.current.Some? && fifo != []
    requires var b, k := x.current.value, x.nextBlock - x.inFlight;
      && a.index == b.index && a.remaining + 1 == b.remaining
      && 0 <= k < |b.received| && a.received == b.received[k := true]
      && Agrees(a, PieceOf(t.c.geometry, t.content, b.index))
    ensures var x' := x.(inFlight := x.inFlight - 1, phase := LoopHead, current := Some(a), answers := answers);
      Stays(t, sh, x', g, fifo[1..]) && Nearer(t, sh, x, g, sh, x', g)
  {
    hide Below, Setting.Fair, TruePiece, Agrees, PieceOf, LearnAll, W.WithinLimit, EndsWell;
  }

  /** A whole piece is the true piece, so it is kept. */
  lemma WholeIsTrue(t: Setting, a: Assembly)
    requires t.Fair() && a.Valid() && a.IsComplete() && a.index < t.c.Count()
    requires Agrees(a, PieceOf(t.c.geometry, t.content, a.index))
    ensures a.buf == PieceOf(t.c.geometry, t.content, a.index) && t.c.Verifies(a.index, a.buf)
  {
    hide IsGreeting, Below;
    CompleteIff(a);
    DivCeilBounds(a.length, BLOCK_SIZE);
    forall p | 0 <= p < |a.buf| ensures a.buf[p] == PieceOf(t.c.geometry, t.content, a.index)[p] {
      assert a.received[p / BLOCK_SIZE];
    }
  }

  lemma NothingOutstanding(t: Setting, x: Session, fifo: seq<W.BlockInfo>, received: seq<bool>)
    requires t.Fair() && InStep(t, x, fifo) && x.current.Some? && fifo != []
    requires x.nextBlock - x.inFlight < |x.current.value.received|
    requires received == x.current.value.received[x.nextBlock - x.inFlight := true]
    requires forall k :: 0 <= k < |received| ==> received[k]
    ensures fifo[1..] == []
  {
    hide Setting.Fair, Agrees;
    assert received[|received| - 1];
  }

  lemma Gained(t: Setting, tr: Tracking.Tracker, i: nat)
    requires Tracking.Good(tr, t.c.Count()) && i < t.c.Count() && i !in tr.have
    ensures |tr.MarkHave(i).have| == |tr.have| + 1
  {
  }

  /** The session lets go of its piece, with one piece more owned or with one that
      was owned already. */
  lemma LetGoTurn(
    t: Setting, sh: Shared, x: Session, g: nat, fifo: seq<W.BlockInfo>, tr: Tracking.Tracker, x': Session)
    requires t.Fair() && Stays(t, sh, x, g, fifo) && x.phase.Waiting? && x.current.Some?
    requires if x.current.value.index in sh.tracker.have then tr == sh.tracker
      else |tr.have| == |sh.tracker.have| + 1
    requires x'.phase.LoopHead? || x'.phase.Announcing? || (x'.phase.Emitting? && TruePiece(t, x'.phase.piece))
    requires x' == x.(inFlight := x'.inFlight, current := None, phase := x'.phase)
    ensures Stays(t, sh.(tracker := tr), x', g, []) && Nearer(t, sh, x, g, sh.(tracker := tr), x', g)
  {
    hide Below, Setting.Fair, TruePiece, ToGo, CanRequest, LearnAll, W.WithinLimit, EndsWell;
    assert InStep(t, x', []);
  }

  lemma WholeTurn(t: Setting, sh: Shared, x: Session, g: nat, fifo: seq<W.BlockInfo>, y: Session, a: Assembly)
    requires t.Fair() && SharedInv(t.c, sh) && Stays(t, sh, x, g, fifo) && x.phase.Waiting? && x.current.Some?
    requires y == x.(inFlight := y.inFlight, current := None)
    requires a.index == x.current.value.index && a.index < t.c.Count() && a.Valid() && a.IsComplete()
    requires Agrees(a, PieceOf(t.c.geometry, t.content, a.index))
    ensures var (sh', x') := OnWholePiece(t.c, sh, y, a);
      Stays(t, sh', x', g, []) && Nearer(t, sh, x, g, sh', x', g)
  {
    hide Below, Setting.Fair, Agrees, PieceOf, Assembly.Valid, Tracking.Tracker.IsComplete, Config.Verifies,
      Tracking.Tracker.MarkHave, InStep, Nearer, OnTrack;
    WholeIsTrue(t, a);
    if a.index in sh.tracker.have {
      var phase := if sh.tracker.IsComplete() then Announcing else LoopHead;
      LetGoTurn(t, sh, x, g, fifo, sh.tracker, y.(phase := phase));
    } else {
      Gained(t, sh.tracker, a.index);
      var tr := sh.tracker.MarkHave(a.index);
      LetGoTurn(t, sh, x, g, fifo, tr, y.(phase := Emitting(VerifiedPiece(a.index, a.buf), tr.IsComplete())));
    }
  }

  lemma BlockTurn(t: Setting, sh: Shared, x: Session, g: nat, fifo: seq<W.BlockInfo>)
    requires LocalInv(t, sh, x, g, fifo) && x.phase.Waiting? && fifo != [] && g > |t.greeting|
    ensures var (sh', x') := OnBlock(t.c, sh, x, Answer(t, fifo[0]));
      Stays(t, sh', x', g, fifo[1..]) && Nearer(t, sh, x, g, sh', x', g)
  {
    hide IsGreeting, Below;
    var b := Answer(t, fifo[0]);
    assert x.current.Some?;
    BlockStored(t, x, fifo);
    hide Setting.Fair, Answer, Agrees, PieceOf, Assembly.Valid, Assembly.AddBlock, OnWholePiece, Stays, Nearer,
      RequestsInOrder, PhaseHolds, SharedInv, Greeted, EndsWell;
    var a := x.current.value.AddBlock(b.begin, b.data).1;
    if a.IsComplete() {
      CompleteIff(a);
      NothingOutstanding(t, x, fifo, a.received);
      WholeTurn(t, sh, x, g, fifo, x.(inFlight := x.inFlight - 1, current := None), a);
    } else {
      PartTurn(t, sh, x, g, fifo, a, x.answers + [b.begin / BLOCK_SIZE]);
    }
  }

  lemma AnswerTurn(t: Setting, sh: Shared, x: Session, g: nat, fifo: seq<W.BlockInfo>)
    requires LocalInv(t, sh, x, g, fifo) && x.phase.Waiting? && fifo != [] && g > |t.greeting|
    ensures var (sh', x') := OnMessage(t.c, sh, x, W.Piece(Answer(t, fifo[0])));
      Stays(t, sh', x', g, fifo[1..]) && Nearer(t, sh, x, g, sh', x', g)
  {
    hide SharedInv, SessionInv, InStep, Setting.Fair, OnBlock, Answer, TruePiece, Evolves, ToGo, CanRequest, OnMessage,
      Below, Greeted, EndsWell, LocalInv, Stays;
    var b := Answer(t, fifo[0]);
    var counted := sh.(wire := sh.wire + |b.data|);
    MessageIsBlock(t.c, sh, x, b);
    CountedIsLocal(t, sh, x, g, fifo, |b.data|);
    BlockTurn(t, counted, x, g, fifo);
  }

  lemma CountedIsLocal(t: Setting, sh: Shared, x: Session, g: nat, fifo: seq<W.BlockInfo>, more: nat)
    requires LocalInv(t, sh, x, g, fifo)
    ensures LocalInv(t, sh.(wire := sh.wire + more), x, g, fifo)
  {
    assert SharedInv(t.c, sh);
    WireStep(t.c, sh, more);
    hide LocalInv;
    OthersLeaveLocal(t, sh, sh.(wire := sh.wire + more), x, g, fifo);
  }
}
