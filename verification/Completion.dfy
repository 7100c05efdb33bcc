/** The download ends, complete, if one peer is a faithful seeder whose greeting
    passes the wire: whatever the other sessions do. */
module Completion {
  import opened Common
  import opened Piece
  import opened Assembler
  import opened Swarm
  import opened Invariants
  import opened Runs
  import opened Delivery
  import opened Greetings
  import opened Seeder
  import Returning
  import Tracking
  import Bitfields
  import W = Wire

  // ----- the seat's own turns

  /** Nothing that may introduce a peer is too long for the 32-bit length. */
  lemma IntroductionIsCountable(m: W.Message, n: nat)
    requires Introduces(m, n) && n < U32_LIMIT
    ensures |W.Body(m)| < U32_LIMIT
  {
    hide Bitfields.Indices, Bitfields.Pack;
  }

  lemma AnswerFits(t: Setting, sh: Shared, x: Session, g: nat, fifo: seq<W.BlockInfo>)
    requires LocalInv(t, sh, x, g, fifo) && fifo != []
    ensures W.WithinLimit(W.Piece(Answer(t, fifo[0])))
  {
    hide SharedInv, IsGreeting, Below, Greeted, Agrees, RequestsInOrder;
    var a, k := x.current.value, x.nextBlock - x.inFlight;
    assert fifo[0] == t.c.geometry.BlockInfoAt(a.index, k);
    AnswerIsSlice(t, a.index, k);
    hide Answer;
  }

  /** What the session hears: the next message, or nothing more if it is one that
      does not pass the wire. */
  lemma HearsWhat(t: Setting, sh: Shared, x: Session, g: nat, fifo: seq<W.BlockInfo>)
    requires LocalInv(t, sh, x, g, fifo) && x.phase.Waiting?
    ensures g > |t.greeting| ==> fifo != []
    ensures Hears(t, g, fifo) == if Silenced(t, g) then ReceiveFails else Receive(NextMessage(t, g, fifo))
    ensures g < |t.greeting| ==> NextMessage(t, g, fifo) == t.greeting[g]
    ensures g == |t.greeting| ==> NextMessage(t, g, fifo) == W.Unchoke
    ensures g > |t.greeting| ==> NextMessage(t, g, fifo) == W.Piece(Answer(t, fifo[0]))
  {
    if g < |t.greeting| {
      IntroductionIsCountable(t.greeting[g], t.c.Count());
      HeardIff(t.greeting[g]);
    } else if g == |t.greeting| {
      HeardIff(W.Unchoke);
    } else {
      SomethingIsOutstanding(t, sh, x, g, fifo);
      AnswerFits(t, sh, x, g, fifo);
      HeardIff(W.Piece(Answer(t, fifo[0])));
    }
    hide LocalInv, Heard, W.WithinLimit, Answer, W.Body;
  }

  lemma HearsSomething(t: Setting, g: nat, fifo: seq<W.BlockInfo>)
    ensures Hears(t, g, fifo).Receive? || Hears(t, g, fifo).ReceiveFails?
  {
    hide Heard, NextMessage;
  }

  /** The session is never stuck. */
  lemma TurnIsFree(t: Setting, sh: Shared, x: Session, g: nat, fifo: seq<W.BlockInfo>)
    requires !x.phase.Gone? && !x.phase.Idling?
    ensures Enabled(t.c, sh, x, Turn(t, sh, x, g, fifo)) && Follows(t, sh, x, g, fifo, Turn(t, sh, x, g, fifo))
  {
    HearsSomething(t, g, fifo);
    hide CanRequest, Hears;
  }

  lemma NeverIdles(t: Setting, sh: Shared, x: Session, g: nat, fifo: seq<W.BlockInfo>)
    requires LocalInv(t, sh, x, g, fifo)
    ensures !x.phase.Idling?
  {
    hide SharedInv, SessionInv, InStep, Greeted, Setting.Fair;
  }

  /** Each of its turns keeps it on track and brings it nearer. */
  lemma SeatTurn(t: Setting, sh: Shared, x: Session, g: nat, fifo: seq<W.BlockInfo>, e: Event)
    requires LocalInv(t, sh, x, g, fifo) && Follows(t, sh, x, g, fifo, e) && Enabled(t.c, sh, x, e)
    ensures var (sh', x') := Step(t.c, sh, x, e);
      && Stays(t, sh', x', Said(t, g, e), Queue(t, x, g, fifo, e))
      && Nearer(t, sh, x, g, sh', x', Said(t, g, e))
  {
    assert t.Fair();
    hide LocalInv, Stays, Nearer, OnReserve, OnMessage, OnEmit, OnSend, OnControl, Answer, Setting.Fair, Hears,
      Silenced, W.WithinLimit;
    match x.phase
    case Dialing => QuietTurn(t, sh, x, g, fifo, e);
    case LoopHead => QuietTurn(t, sh, x, g, fifo, e);
    case Reserving => ReserveTurn(t, sh, x, g, fifo);
    case Filling =>
      if CanRequest(t.c, x) {
        SendTurn(t, sh, x, g, fifo);
      } else {
        QuietTurn(t, sh, x, g, fifo, e);
      }
    case Waiting => WaitingTurn(t, sh, x, g, fifo, e);
    case Emitting(_, _) => EmitTurn(t, sh, x, g, fifo);
    case Announcing => AnnounceTurn(t, sh, x, g, fifo);
    case Leaving(_) => WithdrawTurn(t, sh, x, g, fifo);
    case _ =>
  }

  lemma WaitingTurn(t: Setting, sh: Shared, x: Session, g: nat, fifo: seq<W.BlockInfo>, e: Event)
    requires LocalInv(t, sh, x, g, fifo) && Follows(t, sh, x, g, fifo, e) && Enabled(t.c, sh, x, e) && x.phase.Waiting?
    ensures var (sh', x') := Step(t.c, sh, x, e);
      && Stays(t, sh', x', Said(t, g, e), Queue(t, x, g, fifo, e))
      && Nearer(t, sh, x, g, sh', x', Said(t, g, e))
  {
    assert t.Fair();
    hide LocalInv, Stays, Nearer, OnReserve, OnMessage, OnEmit, OnSend, OnControl, Answer, Setting.Fair, Hears,
      W.WithinLimit, CanRequest, IsGreeting, Describes, LearnAll, Greeted, NextMessage;
    HearsWhat(t, sh, x, g, fifo);
    if e.DoneChanged? || Silenced(t, g) {
      QuietTurn(t, sh, x, g, fifo, e);
    } else if g < |t.greeting| {
      IntroductionTurn(t, sh, x, g, fifo);
    } else if g == |t.greeting| {
      UnchokeTurn(t, sh, x, fifo);
    } else {
      AnswerTurn(t, sh, x, g, fifo);
    }
  }

  // ----- the play

  /** The swarm, and the seeder's side of it. */
  datatype Play = Play(s: State, greeting: nat, fifo: seq<W.BlockInfo>)

  function Start(t: Setting): Play {
    Play(Init(t.c, t.peers), 0, [])
  }

  function Weight(t: Setting, sh: Shared, x: Session, g: nat): int {
    ((Unsaid(t, g) * (t.c.Count() + 2) + Missing(t, sh, x)) * (2 * U32_LIMIT + 1) + ToGo(t, x)) * 9 + Rank(x)
  }

  /** One action of the play. The session with the seeder does what may happen to
      it next; the others, and the receiver, do what they like; the download is not
      paused or cancelled. */
  predicate Plays(t: Setting, p: Play, a: Action, q: Play) {
    && CanAct(t.c, p.s, a) && q.s == Act(t.c, p.s, a)
    && if a.At? && a.peer == t.seat then
         var x := p.s.sessions[t.seat];
         && Follows(t, p.s.shared, x, p.greeting, p.fifo, a.event)
         && q.greeting == Said(t, p.greeting, a.event)
         && q.fifo == Queue(t, x, p.greeting, p.fifo, a.event)
       else
         !a.SetControl? && !a.DropCoordinator? && q.greeting == p.greeting && q.fifo == p.fifo
  }

  ghost predicate IsPlay(t: Setting, plays: seq<Play>, actions: seq<Action>) {
    && |plays| == |actions| + 1
    && plays[0] == Start(t)
    && forall k :: 0 <= k < |actions| ==> Plays(t, plays[k], actions[k], plays[k + 1])
  }

  function StatesOf(plays: seq<Play>): seq<State> {
    seq(|plays|, k requires 0 <= k < |plays| => plays[k].s)
  }

  /** A play is a run of the swarm. */
  lemma PlayIsRun(t: Setting, plays: seq<Play>, actions: seq<Action>)
    requires IsPlay(t, plays, actions)
    ensures IsRun(t.c, t.peers, StatesOf(plays), actions)
  {
    hide Act, CanAct, Follows, Init;
    var states := StatesOf(plays);
    forall k | 0 <= k < |actions|
      ensures CanAct(t.c, states[k], actions[k]) && states[k + 1] == Act(t.c, states[k], actions[k])
    {
      assert Plays(t, plays[k], actions[k], plays[k + 1]);
    }
  }

  ghost predicate PlayInv(t: Setting, p: Play) {
    && t.Fair() && |p.s.sessions| == t.peers && Inv(t.c, p.s)
    && LocalInv(t, p.s.shared, p.s.sessions[t.seat], p.greeting, p.fifo)
  }

  function Left(t: Setting, p: Play): int
    requires t.seat < |p.s.sessions|
  {
    Weight(t, p.s.shared, p.s.sessions[t.seat], p.greeting)
  }

  lemma StartIsOnTrack(t: Setting)
    requires t.Fair()
    ensures PlayInv(t, Start(t))
  {
    hide IsGreeting, AvailabilityExact, ClaimsExact, ExactlyOnce, Below, Describes;
    InitHolds(t.c, t.peers);
    assert t.greeting[..0] == [];
  }

  lemma NearerIsLess(t: Setting, sh: Shared, x: Session, g: nat, sh': Shared, x': Session, g': nat)
    requires 0 <= Missing(t, sh, x) <= t.c.Count() + 1 && 0 <= ToGo(t, x) <= 2 * U32_LIMIT
    requires 0 <= Missing(t, sh', x') <= t.c.Count() + 1 && 0 <= ToGo(t, x') <= 2 * U32_LIMIT
    requires 0 <= Unsaid(t, g') && 0 <= Unsaid(t, g) && Nearer(t, sh, x, g, sh', x', g')
    ensures Weight(t, sh', x', g') < Weight(t, sh, x, g)
  {
    assert Rank(x) <= 8 && Rank(x') <= 8;
    hide Missing, ToGo, Rank;
    if g' > g {
      Scale(Unsaid(t, g') + 1, Unsaid(t, g), t.c.Count() + 2);
      assert (Unsaid(t, g') + 1) * (t.c.Count() + 2) == Unsaid(t, g') * (t.c.Count() + 2) + t.c.Count() + 2;
    }
  }

  lemma WeightIsNatural(t: Setting, p: Play)
    requires PlayInv(t, p)
    ensures Left(t, p) >= 0
  {
    assert t.seat < t.peers;
    hide LocalInv, Inv, Setting.Fair, Missing, ToGo, Rank;
    MeasureIsBounded(t, p.s.shared, p.s.sessions[t.seat], p.greeting, p.fifo);
    Scale(0, Unsaid(t, p.greeting), t.c.Count() + 2);
  }

  lemma SeatActKeeps(t: Setting, p: Play, a: Action, q: Play)
    requires PlayInv(t, p) && Plays(t, p, a, q) && a.At? && a.peer == t.seat
    ensures PlayInv(t, q) && Left(t, q) < Left(t, p)
  {
    var x, sh := p.s.sessions[t.seat], p.s.shared;
    hide LocalInv, Nearer, SharedInv, SessionInv, AvailabilityExact, ClaimsExact, ExactlyOnce, Enabled, Step, Follows,
      Setting.Fair, Weight, Stays;
    assert t.Fair();
    PeerActKeeps(t.c, p.s, t.seat, a.event);
    SeatTurn(t, sh, x, p.greeting, p.fifo, a.event);
    var y := q.s.sessions[t.seat];
    Joined(t, q.s.shared, y, q.greeting, q.fifo);
    MeasureIsBounded(t, sh, x, p.greeting, p.fifo);
    MeasureIsBounded(t, q.s.shared, y, q.greeting, q.fifo);
    NearerIsLess(t, sh, x, p.greeting, q.s.shared, y, q.greeting);
  }

  lemma OtherActKeeps(t: Setting, p: Play, a: Action, q: Play)
    requires PlayInv(t, p) && Plays(t, p, a, q) && !(a.At? && a.peer == t.seat)
    ensures PlayInv(t, q) && Left(t, q) <= Left(t, p)
  {
    var x, sh := p.s.sessions[t.seat], p.s.shared;
    hide LocalInv, SharedInv, SessionInv, AvailabilityExact, ClaimsExact, ExactlyOnce, Enabled, Step, Follows,
      Setting.Fair, Weight, Evolves;
    assert t.Fair();
    ActKeeps(t.c, p.s, a);
    OtherActLeavesControl(t.c, p.s, a);
    OthersLeaveLocal(t, sh, q.s.shared, x, p.greeting, p.fifo);
    EvolvesOwns(sh, q.s.shared);
    OthersDoNotDelay(t, sh, q.s.shared, x);
    LessMissing(t, sh, q.s.shared, x, p.greeting);
    assert q.s.sessions[t.seat] == x;
  }

  lemma LessMissing(t: Setting, sh: Shared, sh': Shared, x: Session, g: nat)
    requires Missing(t, sh', x) <= Missing(t, sh, x)
    ensures Weight(t, sh', x, g) <= Weight(t, sh, x, g)
  {
    hide Missing, ToGo, Rank;
  }

  lemma EvolvesOwns(sh: Shared, sh': Shared)
    requires Evolves(sh, sh')
    ensures sh.tracker.have <= sh'.tracker.have
  {
    hide Tracking.Tracker.IsComplete;
  }

  lemma OtherActLeavesControl(c: Config, s: State, a: Action)
    requires CanAct(c, s, a) && !a.SetControl? && !a.DropCoordinator?
    ensures var sh' := Act(c, s, a).shared;
      sh'.control == s.shared.control && sh'.version == s.shared.version
      && sh'.coordinatorAlive == s.shared.coordinatorAlive
  {
    if a.At? {
      Returning.StepLeavesControl(c, s.shared, s.sessions[a.peer], a.event);
    }
    hide Step, Enabled;
  }

  lemma PlayKeeps(t: Setting, p: Play, a: Action, q: Play)
    requires PlayInv(t, p) && Plays(t, p, a, q)
    ensures PlayInv(t, q)
    ensures Left(t, q) + (if a.At? && a.peer == t.seat then 1 else 0) <= Left(t, p)
  {
    hide LocalInv, Inv, Act, CanAct, Weight, Setting.Fair;
    if a.At? && a.peer == t.seat {
      SeatActKeeps(t, p, a, q);
    } else {
      OtherActKeeps(t, p, a, q);
    }
  }

  /** How many of the actions were the session's own. */
  function TurnsTaken(t: Setting, actions: seq<Action>): nat {
    if actions == [] then 0
    else
      var last := actions[|actions| - 1];
      TurnsTaken(t, actions[..|actions| - 1]) + (if last.At? && last.peer == t.seat then 1 else 0)
  }

  /** However the play goes, the session stays on track, and its turns are paid
      for by what it has left. */
  lemma {:induction false} PlayStaysOnTrack(t: Setting, plays: seq<Play>, actions: seq<Action>, n: nat)
    requires t.Fair() && IsPlay(t, plays, actions) && n <= |actions|
    ensures PlayInv(t, plays[n])
    ensures Left(t, plays[n]) + TurnsTaken(t, actions[..n]) <= Left(t, Start(t))
  {
    hide LocalInv, Inv, Act, CanAct, Plays, Start, Weight, Setting.Fair;
    StartIsOnTrack(t);
    if n > 0 {
      PlayStaysOnTrack(t, plays, actions, n - 1);
      PlayKeeps(t, plays[n - 1], actions[n - 1], plays[n]);
      assert actions[..n][..n - 1] == actions[..n - 1];
    }
  }

  // ----- total correctness in any company

  /** Whatever the other sessions do, and however the steps interleave: the session
      with the seeder takes no more turns than it had left at the start, always has
      one to take until it is gone, and is gone only when the torrent is complete
      and announced, if its greeting passes the wire. */
  lemma SeederSuffices(t: Setting, plays: seq<Play>, actions: seq<Action>)
    requires t.Fair() && IsPlay(t, plays, actions)
    ensures TurnsTaken(t, actions) <= Left(t, Start(t))
    ensures var p := plays[|actions|];
      && |p.s.sessions| == t.peers
      && var (sh, x) := (p.s.shared, p.s.sessions[t.seat]);
      && (!x.phase.Gone? ==>
            var e := Turn(t, sh, x, p.greeting, p.fifo);
            CanAct(t.c, p.s, At(t.seat, e)) && Follows(t, sh, x, p.greeting, p.fifo, e))
      && (x.phase.Gone? && t.Lawful() ==> sh.done && sh.tracker.IsComplete())
  {
    PlayStaysOnTrack(t, plays, actions, |actions|);
    assert actions[..|actions|] == actions;
    WeightIsNatural(t, plays[|actions|]);
    SeatIsFree(t, plays[|actions|]);
    hide IsPlay, PlayInv, Left, Follows, Turn, Enabled, Setting.Fair;
  }

  lemma SeatIsFree(t: Setting, p: Play)
    requires PlayInv(t, p)
    ensures t.seat < |p.s.sessions| == t.peers
    ensures var (sh, x) := (p.s.shared, p.s.sessions[t.seat]);
      && (!x.phase.Gone? ==>
            var e := Turn(t, sh, x, p.greeting, p.fifo);
            CanAct(t.c, p.s, At(t.seat, e)) && Follows(t, sh, x, p.greeting, p.fifo, e))
      && (x.phase.Gone? && t.Lawful() ==> sh.done && sh.tracker.IsComplete())
  {
    assert t.seat < t.peers;
    hide LocalInv, Inv, Follows, Turn, Enabled, Setting.Fair, Tracking.Tracker.IsComplete;
    var (sh, x) := (p.s.shared, p.s.sessions[t.seat]);
    NeverIdles(t, sh, x, p.greeting, p.fifo);
    if !x.phase.Gone? {
      TurnIsFree(t, sh, x, p.greeting, p.fifo);
    } else if t.Lawful() {
      GoneIsComplete(t, sh, x, p.greeting, p.fifo);
    }
  }

  lemma GoneIsComplete(t: Setting, sh: Shared, x: Session, g: nat, fifo: seq<W.BlockInfo>)
    requires LocalInv(t, sh, x, g, fifo) && x.phase.Gone? && t.Lawful()
    ensures sh.done && sh.tracker.IsComplete()
  {
    hide IsGreeting, Describes, Below, Window, InStep, Tracking.Tracker.IsComplete;
  }

  /** From wherever the others have brought the swarm, the session completes the
      torrent by its own turns alone. */
  lemma {:induction false} SeatFinishes(t: Setting, plays: seq<Play>, actions: seq<Action>, p: Play)
    returns (whole: seq<Play>, all: seq<Action>)
    requires t.Fair() && IsPlay(t, plays, actions) && p == plays[|actions|] && PlayInv(t, p)
    ensures IsPlay(t, whole, all) && plays <= whole && actions <= all
    ensures forall k :: |actions| <= k < |all| ==> all[k].At? && all[k].peer == t.seat
    ensures t.seat < |whole[|all|].s.sessions| && whole[|all|].s.sessions[t.seat].phase.Gone?
    decreases Left(t, p)
  {
    hide IsPlay, Plays, Inv, Act, CanAct, Weight, Setting.Fair, Follows;
    assert t.seat < t.peers by { SeatIsFree(t, p); }
    var x := p.s.sessions[t.seat];
    PlayLength(t, plays, actions);
    if x.phase.Gone? {
      whole, all := plays, actions;
    } else {
      var e := Turn(t, p.s.shared, x, p.greeting, p.fifo);
      var q := NextPlay(t, p, e);
      WeightIsNatural(t, p);
      SeatActKeeps(t, p, At(t.seat, e), q);
      hide LocalInv;
      PlayGoesOn(t, plays, actions, At(t.seat, e), q);
      whole, all := SeatFinishes(t, plays + [q], actions + [At(t.seat, e)], q);
      assert forall k :: |actions| <= k < |all| ==> all[k].At? && all[k].peer == t.seat by {
        assert all[|actions|] == (actions + [At(t.seat, e)])[|actions|];
      }
    }
  }

  lemma PlayLength(t: Setting, plays: seq<Play>, actions: seq<Action>)
    requires IsPlay(t, plays, actions)
    ensures |plays| == |actions| + 1
  {
    hide Plays, Start;
  }

  lemma NextPlay(t: Setting, p: Play, e: Event) returns (q: Play)
    requires PlayInv(t, p) && !p.s.sessions[t.seat].phase.Gone?
    requires e == Turn(t, p.s.shared, p.s.sessions[t.seat], p.greeting, p.fifo)
    ensures Plays(t, p, At(t.seat, e), q)
  {
    var x := p.s.sessions[t.seat];
    SeatIsFree(t, p);
    hide LocalInv, Inv, Turn, Follows, Enabled, Step;
    q := Play(Act(t.c, p.s, At(t.seat, e)), Said(t, p.greeting, e), Queue(t, x, p.greeting, p.fifo, e));
  }

  lemma PlayGoesOn(t: Setting, plays: seq<Play>, actions: seq<Action>, a: Action, q: Play)
    requires IsPlay(t, plays, actions) && Plays(t, plays[|actions|], a, q)
    ensures IsPlay(t, plays + [q], actions + [a])
  {
    hide Plays, Start;
  }

  /** So from any point of any play the torrent can be completed, the other sessions
      standing still. */
  lemma SeederCompletesSwarm(t: Setting, plays: seq<Play>, actions: seq<Action>)
    returns (whole: seq<Play>, all: seq<Action>)
    requires t.Fair() && t.Lawful() && IsPlay(t, plays, actions)
    ensures IsPlay(t, whole, all) && plays <= whole && actions <= all
    ensures forall k :: |actions| <= k < |all| ==> all[k].At? && all[k].peer == t.seat
    ensures whole[|all|].s.shared.done && whole[|all|].s.shared.tracker.IsComplete()
  {
    PlayStaysOnTrack(t, plays, actions, |actions|);
    whole, all := SeatFinishes(t, plays, actions, plays[|actions|]);
    SeederSuffices(t, whole, all);
    hide IsPlay, PlayInv, Setting.Fair, Follows, Turn;
  }
}
