/** What the invariants mean for a download, for every interleaving of its sessions. */
module Theorems {
  import opened Common
  import opened Piece
  import opened Assembler
  import opened Swarm
  import opened Invariants
  import opened Runs
  import Tracking
  import Bitfields
  import W = Wire

  // ----- availability

  predicate Panicked(x: Session) {
    x.phase.Gone? && x.phase.how.Panicked?
  }

  /** One if the session's task still exists and its peer offers the piece. */
  function LiveOffer(x: Session, i: nat): nat {
    if !x.phase.Gone? && i in x.peerHas then 1 else 0
  }

  function LiveOffersOf(sessions: seq<Session>, i: nat): seq<nat> {
    seq(|sessions|, k requires 0 <= k < |sessions| => LiveOffer(sessions[k], i))
  }

  /** The availability of a piece is the number of live peers that offer it,
      exactly as long as no task that offered it has ended in a panic; it never
      exceeds the number of peers, and never falls below the live count. */
  lemma AvailabilityIsLiveCount(
    c: Config, peers: nat, states: seq<State>, actions: seq<Action>, k: nat, i: nat)
    requires c.WellFormed() && IsRun(c, peers, states, actions) && k < |states| && i < c.Count()
    ensures |states[k].shared.tracker.availability| == c.Count()
    ensures var available, live :=
        states[k].shared.tracker.availability[i], Sum(LiveOffersOf(states[k].sessions, i));
      && live <= available <= |states[k].sessions|
      && (available == live <==>
          forall j :: 0 <= j < |states[k].sessions| && Panicked(states[k].sessions[j]) ==>
            i !in states[k].sessions[j].peerHas)
  {
    hide SharedInv, SessionInv, ClaimsExact, ExactlyOnce, CanAct, Act, Init;
    RunHolds(c, peers, states, actions, k);
    var sessions := states[k].sessions;
    var live, all := LiveOffersOf(sessions, i), OffersOf(sessions, i);
    SumMonotone(live, all);
    AvailabilityFits(c, states[k], i);
    assert (forall j :: 0 <= j < |sessions| && Panicked(sessions[j]) ==> i !in sessions[j].peerHas)
      <==> live == all by {
      forall j | 0 <= j < |sessions|
        ensures live[j] == all[j] <==> (Panicked(sessions[j]) ==> i !in sessions[j].peerHas)
      {
      }
    }
  }

  lemma {:induction false} SumBounded(xs: seq<nat>)
    requires forall i :: 0 <= i < |xs| ==> xs[i] <= 1
    ensures Sum(xs) <= |xs|
  {
    if xs != [] {
      SumBounded(xs[1..]);
    }
  }

  /** The 32-bit counters cannot overflow with fewer than 2^32 peers. */
  lemma AvailabilityFits(c: Config, s: State, i: nat)
    requires AvailabilityExact(c, s) && i < c.Count()
    ensures s.shared.tracker.availability[i] <= |s.sessions|
  {
    SumBounded(OffersOf(s.sessions, i));
  }

  /** Undoing a contribution never meets a counter that is already zero. */
  lemma NothingSaturates(c: Config, s: State, peer: nat, i: nat)
    requires Inv(c, s) && peer < |s.sessions| && Counted(s.sessions[peer])
    requires i in s.sessions[peer].peerHas
    ensures i < c.Count() && s.shared.tracker.availability[i] > 0
  {
    hide SharedInv, ClaimsExact, ExactlyOnce, Window, PhaseHolds;
    assert SessionInv(c, s.shared, s.sessions[peer]);
    assert i in Below(c.Count());
    SumUpdate(OffersOf(s.sessions, i), peer, 0);
  }

  /** No task that ended in a panic stands for the piece. */
  predicate NoGhostOffers(sessions: seq<Session>, i: nat) {
    forall j :: 0 <= j < |sessions| && Panicked(sessions[j]) ==> i !in sessions[j].peerHas
  }

  lemma LiveIsBelow(sessions: seq<Session>, i: nat)
    ensures Sum(LiveOffersOf(sessions, i)) <= Sum(OffersOf(sessions, i))
    ensures NoGhostOffers(sessions, i) ==> Sum(LiveOffersOf(sessions, i)) == Sum(OffersOf(sessions, i))
  {
    SumMonotone(LiveOffersOf(sessions, i), OffersOf(sessions, i));
    if NoGhostOffers(sessions, i) {
      assert LiveOffersOf(sessions, i) == OffersOf(sessions, i);
    }
  }

  /** A free session takes up, exclusively or in the endgame, a needed piece of its
      peer that no more live peers offer than any other piece it could have
      taken: any needed piece of its peer that no ended task still stands for,
      unclaimed unless all of them are claimed. */
  lemma ReservationIsRarest(c: Config, s: State, peer: nat, i: nat)
    requires Inv(c, s) && CanAct(c, s, At(peer, Reserve))
    requires s.sessions[peer].current.None? && !s.sessions[peer].choked
    requires s.shared.tracker.Candidate(s.sessions[peer].peerHas, false, i) && NoGhostOffers(s.sessions, i)
    requires i in s.shared.tracker.claimed ==> s.shared.tracker.Reserve(s.sessions[peer].peerHas).0.None?
    ensures var x' := Act(c, s, At(peer, Reserve)).sessions[peer];
      && x'.current.Some?
      && x'.current.value.index < c.Count()
      && x'.current.value.index in s.sessions[peer].peerHas - s.shared.tracker.have
      && Sum(LiveOffersOf(s.sessions, x'.current.value.index)) <= Sum(LiveOffersOf(s.sessions, i))
  {
    var t, has := s.shared.tracker, s.sessions[peer].peerHas;
    assert |t.availability| == c.Count();
    LiveIsBelow(s.sessions, i);
    assert t.availability[i] == Sum(LiveOffersOf(s.sessions, i));
    RarestTaken(c, s.shared, s.sessions[peer], i);
    hide OnReserve, LiveOffersOf, OffersOf, SharedInv, SessionInv, ClaimsExact, ExactlyOnce, NoGhostOffers;
    var taken := OnReserve(c, s.shared, s.sessions[peer]).1.current.value.index;
    LiveIsBelow(s.sessions, taken);
  }

  lemma RarestTaken(c: Config, sh: Shared, x: Session, i: nat)
    requires SharedInv(c, sh) && x.current.None? && !x.choked
    requires sh.tracker.Candidate(x.peerHas, false, i)
    requires i in sh.tracker.claimed ==> sh.tracker.Reserve(x.peerHas).0.None?
    ensures var x' := OnReserve(c, sh, x).1;
      && x'.current.Some? && x'.current.value.index < c.Count()
      && x'.current.value.index in x.peerHas - sh.tracker.have
      && sh.tracker.availability[x'.current.value.index] <= sh.tracker.availability[i]
  {
    Tracking.RarestBelowIsRarest(sh.tracker, x.peerHas, true, c.Count());
    Tracking.RarestBelowIsRarest(sh.tracker, x.peerHas, false, c.Count());
    assert i in Below(c.Count());
  }

  // ----- claims

  lemma {:induction false} PositiveIff(xs: seq<nat>)
    ensures Sum(xs) > 0 <==> exists k :: 0 <= k < |xs| && xs[k] > 0
  {
    SumZero(xs);
  }

  lemma TwoTerms(xs: seq<nat>, j: nat, k: nat)
    requires j < k < |xs|
    ensures xs[j] + xs[k] <= Sum(xs)
  {
    SumUpdate(xs, j, 0);
    SumUpdate(xs[j := 0], k, 0);
  }

  /** No owned piece is claimed, and a claimed piece is always kept by some
      session: it works on the piece, or an error, the panic or a sibling's
      completion made it stop without giving it back. Until the first endgame
      reservation the converse holds too, and no two sessions keep one piece. */
  lemma ClaimDiscipline(c: Config, peers: nat, states: seq<State>, actions: seq<Action>, n: nat)
    requires c.WellFormed() && IsRun(c, peers, states, actions) && n < |states|
    ensures states[n].shared.tracker.have !! states[n].shared.tracker.claimed
    ensures forall i: nat :: i in states[n].shared.tracker.claimed ==> IsKept(states[n], i)
    ensures !states[n].shared.endgame ==>
      forall i: nat :: i in states[n].shared.tracker.claimed <==> IsKept(states[n], i)
    ensures !states[n].shared.endgame ==>
      forall i: nat, j, k :: 0 <= j < k < |states[n].sessions| && Keeps(states[n].sessions[j], i) == 1 ==>
        Keeps(states[n].sessions[k], i) == 0
  {
    hide CanAct, Act, Init, SessionInv, AvailabilityExact, ExactlyOnce, Keeps, IsKept;
    RunHolds(c, peers, states, actions, n);
    var s := states[n];
    forall i: nat ensures IsKept(s, i) <==> Sum(KeepsOf(s.sessions, i)) > 0 {
      KeptIff(s, i);
    }
    if !s.shared.endgame {
      forall i: nat, j, k | 0 <= j < k < |s.sessions| && Keeps(s.sessions[j], i) == 1
        ensures Keeps(s.sessions[k], i) == 0
      {
        TwoTerms(KeepsOf(s.sessions, i), j, k);
      }
    }
  }

  predicate IsKept(s: State, i: nat) {
    exists k :: 0 <= k < |s.sessions| && Keeps(s.sessions[k], i) == 1
  }

  lemma KeptIff(s: State, i: nat)
    ensures IsKept(s, i) <==> Sum(KeepsOf(s.sessions, i)) > 0
  {
    var xs := KeepsOf(s.sessions, i);
    PositiveIff(xs);
    assert forall k :: 0 <= k < |xs| ==> xs[k] == Keeps(s.sessions[k], i) <= 1;
  }

  /** Step `j` of the run reserves piece `i` exclusively. */
  ghost predicate TakesClaim(c: Config, states: seq<State>, actions: seq<Action>, j: nat, i: nat)
    requires j < |actions| && |states| == |actions| + 1 && CanAct(c, states[j], actions[j])
  {
    actions[j].At? && Reserves(states[j].shared, states[j].sessions[actions[j].peer], actions[j].event, i)
  }

  /** Step `j` of the run is a session giving up piece `i`. */
  ghost predicate DropsClaim(c: Config, states: seq<State>, actions: seq<Action>, j: nat, i: nat)
    requires j < |actions| && |states| == |actions| + 1 && CanAct(c, states[j], actions[j])
  {
    actions[j].At? &&
    var x := states[j].sessions[actions[j].peer];
    x.current.Some? && x.current.value.index == i && GivesUp(states[j].shared, x, actions[j].event)
  }

  /** What a claim means at any point of any run, endgame included: the piece was
      reserved exclusively, and no session has given it up since. */
  lemma {:induction false} ClaimHistory(
    c: Config, peers: nat, states: seq<State>, actions: seq<Action>, n: nat, i: nat)
    requires c.WellFormed() && IsRun(c, peers, states, actions) && n < |states|
    ensures i in states[n].shared.tracker.claimed <==>
      exists j :: 0 <= j < n && TakesClaim(c, states, actions, j, i)
                  && forall m :: j < m < n ==> !DropsClaim(c, states, actions, m, i)
  {
    hide Inv, TakesClaim, DropsClaim, Act;
    if n > 0 {
      ClaimHistory(c, peers, states, actions, n - 1, i);
      RunHolds(c, peers, states, actions, n - 1);
      ClaimAfterAct(c, states, actions, n - 1, i);
    } else {
      assert states[0].shared.tracker.claimed == {};
    }
  }

  lemma ClaimAfterAct(c: Config, states: seq<State>, actions: seq<Action>, j: nat, i: nat)
    requires j < |actions| && |states| == |actions| + 1 && CanAct(c, states[j], actions[j])
    requires Inv(c, states[j]) && states[j + 1] == Act(c, states[j], actions[j])
    ensures i in states[j + 1].shared.tracker.claimed <==>
      || TakesClaim(c, states, actions, j, i)
      || (i in states[j].shared.tracker.claimed && !DropsClaim(c, states, actions, j, i))
  {
    hide SharedInv, SessionInv, AvailabilityExact, ClaimsExact, ExactlyOnce, Step, Enabled, GivesUp, Reserves;
    if actions[j].At? {
      ClaimAfterStep(c, states[j].shared, states[j].sessions[actions[j].peer], actions[j].event, i);
    }
  }

  /** A session that waits unchoked with nothing to do has nothing it could do:
      whatever is claimed or has leaked, its peer offers no piece still needed. */
  lemma NoUsefulSessionIdles(
    c: Config, peers: nat, states: seq<State>, actions: seq<Action>, k: nat, peer: nat)
    requires c.WellFormed() && IsRun(c, peers, states, actions) && k < |states|
    requires peer < |states[k].sessions|
    requires var x := states[k].sessions[peer]; x.phase.Waiting? && !x.choked && x.current.None?
    ensures states[k].sessions[peer].peerHas <= states[k].shared.tracker.have
  {
    hide CanAct, Act, Init, SharedInv, AvailabilityExact, ClaimsExact, ExactlyOnce, Window;
    RunHolds(c, peers, states, actions, k);
    assert SessionInv(c, states[k].shared, states[k].sessions[peer]);
  }

  // ----- the request window

  /** While a piece is held: the peer is willing, the counter of requests in flight
      is at most five and no more than were made, the assembler has the piece's
      length and is incomplete, and the requests made are the first blocks of
      the piece, each once, each inside it. */
  lemma RequestWindow(
    c: Config, peers: nat, states: seq<State>, actions: seq<Action>, k: nat, peer: nat)
    requires c.WellFormed() && IsRun(c, peers, states, actions) && k < |states|
    requires peer < |states[k].sessions| && states[k].sessions[peer].current.Some?
    ensures var x := states[k].sessions[peer]; var a := x.current.value;
      && !x.choked && a.index < c.Count()
      && a.length == c.geometry.PieceLength(a.index) && !a.IsComplete()
      && x.inFlight <= Min(MAX_PIPELINED_REQUESTS, x.nextBlock)
      && x.nextBlock <= c.geometry.NumBlocks(a.index)
      && |x.requests| == x.nextBlock
      && (forall j :: 0 <= j < |x.requests| ==>
            && x.requests[j].index == a.index
            && x.requests[j].begin == j * BLOCK_SIZE
            && 0 < x.requests[j].length
            && x.requests[j].begin + x.requests[j].length <= a.length)
  {
    hide CanAct, Act, Init, SharedInv, AvailabilityExact, ClaimsExact, ExactlyOnce, PhaseHolds, Assembly.Valid, Below;
    RunHolds(c, peers, states, actions, k);
    var x := states[k].sessions[peer];
    assert SessionInv(c, states[k].shared, x);
    var index := x.current.value.index;
    forall j | 0 <= j < |x.requests|
      ensures x.requests[j] == c.geometry.BlockInfoAt(index, j) && j < c.geometry.NumBlocks(index)
      ensures x.requests[j].index == index && x.requests[j].begin == j * BLOCK_SIZE
      ensures 0 < x.requests[j].length
      ensures x.requests[j].begin + x.requests[j].length <= c.geometry.PieceLength(index)
    {
      RequestIsExact(c.geometry, index, j);
    }
  }

  // ----- emission

  lemma {:induction false} CopiesCountsMembers(ps: seq<VerifiedPiece>, i: nat)
    ensures Copies(ps, i) > 0 <==> exists p :: p in ps && p.index == i
    ensures Copies(ps, i) <= 1 ==>
      forall j, k :: 0 <= j < k < |ps| && ps[j].index == i ==> ps[k].index != i
  {
    if ps != [] {
      var front, last := ps[..|ps| - 1], ps[|ps| - 1];
      CopiesCountsMembers(front, i);
      assert ps == front + [last];
      if Copies(front, i) > 0 {
        var p :| p in front && p.index == i;
        assert p in ps;
      }
      if last.index == i { assert last in ps; }
      if Copies(ps, i) <= 1 {
        forall j, k | 0 <= j < k < |ps| && ps[j].index == i ensures ps[k].index != i {
          assert ps[j] == front[j];
          if k == |ps| - 1 {
            assert front[j] in front;
          } else {
            assert ps[k] == front[k];
          }
        }
      }
    }
  }

  /** The copies that exist of piece `i`: sent, lost, or waiting in one session. */
  ghost predicate IsEmitted(s: State, i: nat) {
    || (exists p :: p in s.shared.sent && p.index == i)
    || (exists p :: p in s.shared.lost && p.index == i)
    || (exists k :: 0 <= k < |s.sessions| && Pending(s.sessions[k], i) == 1)
  }

  /** No index occurs twice, neither within what is sent, lost or pending nor
      between them; together they are exactly the owned pieces; and all of it has
      its piece's length and the expected hash. */
  lemma EmittedExactlyOnce(c: Config, peers: nat, states: seq<State>, actions: seq<Action>, n: nat)
    requires c.WellFormed() && IsRun(c, peers, states, actions) && n < |states|
    ensures var s := states[n];
      && (forall i: nat :: i in s.shared.tracker.have <==> IsEmitted(s, i))
      && AllDifferent(s.shared.sent) && AllDifferent(s.shared.lost)
      && (forall p, q :: p in s.shared.sent && q in s.shared.lost ==> p.index != q.index)
      && (forall p :: p in s.shared.sent || p in s.shared.lost ==> Sound(c, p))
      && (forall k :: 0 <= k < |s.sessions| && s.sessions[k].phase.Emitting? ==>
            var piece := s.sessions[k].phase.piece;
            Sound(c, piece) && forall p :: p in s.shared.sent || p in s.shared.lost ==> p.index != piece.index)
      && (forall j, k :: 0 <= j < k < |s.sessions| && s.sessions[j].phase.Emitting? && s.sessions[k].phase.Emitting? ==>
            s.sessions[j].phase.piece.index != s.sessions[k].phase.piece.index)
  {
    hide CanAct, Act, Init, AvailabilityExact, ClaimsExact, Copies, Sum, PendingOf, Sound, IsEmitted;
    RunHolds(c, peers, states, actions, n);
    var s := states[n];
    forall i: nat
      ensures Copies(s.shared.sent, i) + Copies(s.shared.lost, i) + Sum(PendingOf(s.sessions, i)) == Owned(s.shared, i)
      ensures i in s.shared.tracker.have <==> IsEmitted(s, i)
    {
      EmittedIff(s, i);
    }
    DifferentIff(s.shared.sent);
    DifferentIff(s.shared.lost);
    forall p | p in s.shared.sent || p in s.shared.lost
      ensures p in s.shared.sent ==> forall q :: q in s.shared.lost ==> p.index != q.index
      ensures Sum(PendingOf(s.sessions, p.index)) == 0
    {
      CopiesCountsMembers(s.shared.sent, p.index);
      CopiesCountsMembers(s.shared.lost, p.index);
    }
    forall k | 0 <= k < |s.sessions| && s.sessions[k].phase.Emitting?
      ensures Sound(c, s.sessions[k].phase.piece)
      ensures Sum(PendingOf(s.sessions, s.sessions[k].phase.piece.index)) > 0
    {
      assert SessionInv(c, s.shared, s.sessions[k]);
      PendingIsPositive(s.sessions, k);
    }
    forall j, k | 0 <= j < k < |s.sessions| && s.sessions[j].phase.Emitting? && s.sessions[k].phase.Emitting?
      ensures s.sessions[j].phase.piece.index != s.sessions[k].phase.piece.index
    {
      PendingTwice(s.sessions, j, k);
    }
  }

  ghost predicate AllDifferent(ps: seq<VerifiedPiece>) {
    forall j, k :: 0 <= j < k < |ps| ==> ps[j].index != ps[k].index
  }

  lemma DifferentIff(ps: seq<VerifiedPiece>)
    requires forall i: nat :: Copies(ps, i) <= 1
    ensures AllDifferent(ps)
  {
    forall j, k | 0 <= j < k < |ps| ensures ps[j].index != ps[k].index {
      CopiesCountsMembers(ps, ps[j].index);
    }
  }

  lemma EmittedIff(s: State, i: nat)
    requires Copies(s.shared.sent, i) + Copies(s.shared.lost, i) + Sum(PendingOf(s.sessions, i)) == Owned(s.shared, i)
    ensures i in s.shared.tracker.have <==> IsEmitted(s, i)
  {
    CopiesCountsMembers(s.shared.sent, i);
    CopiesCountsMembers(s.shared.lost, i);
    var xs := PendingOf(s.sessions, i);
    PositiveIff(xs);
    assert forall k :: 0 <= k < |xs| ==> xs[k] == Pending(s.sessions[k], i) <= 1;
  }

  lemma PendingTwice(sessions: seq<Session>, j: nat, k: nat)
    requires j < k < |sessions| && sessions[j].phase.Emitting? && sessions[k].phase.Emitting?
    ensures sessions[j].phase.piece.index == sessions[k].phase.piece.index ==>
      Sum(PendingOf(sessions, sessions[j].phase.piece.index)) > 1
  {
    TwoTerms(PendingOf(sessions, sessions[j].phase.piece.index), j, k);
  }

  lemma PendingIsPositive(sessions: seq<Session>, k: nat)
    requires k < |sessions| && sessions[k].phase.Emitting?
    ensures Sum(PendingOf(sessions, sessions[k].phase.piece.index)) > 0
  {
    SumUpdate(PendingOf(sessions, sessions[k].phase.piece.index), k, 0);
  }

  /** When the run has returned and its receiver was there throughout, the
      channel carried exactly the owned pieces. */
  lemma ReturnedRunSentEverything(c: Config, s: State, i: nat)
    requires Inv(c, s) && HasReturned(s) && s.shared.lost == []
    ensures i in s.shared.tracker.have <==> exists p :: p in s.shared.sent && p.index == i
  {
    hide SharedInv, SessionInv, AvailabilityExact, ClaimsExact;
    NothingAtFirst(PendingOf(s.sessions, i));
    CopiesCountsMembers(s.shared.sent, i);
    assert Copies(s.shared.lost, i) == 0;
    assert Copies(s.shared.sent, i) == Owned(s.shared, i);
  }

  // ----- completion

  /** `done` means complete, and both last. */
  lemma DoneIsSound(
    c: Config, peers: nat, states: seq<State>, actions: seq<Action>, j: nat, k: nat)
    requires c.WellFormed() && IsRun(c, peers, states, actions) && j <= k < |states|
    ensures states[j].shared.done ==> states[j].shared.tracker.IsComplete()
    ensures states[j].shared.done ==> states[k].shared.done
    ensures states[j].shared.tracker.IsComplete() ==> states[k].shared.tracker.IsComplete()
  {
    hide CanAct, Act, Init, SessionInv, AvailabilityExact, ClaimsExact, ExactlyOnce, Tracking.Tracker.IsComplete;
    RunHolds(c, peers, states, actions, j);
    RunEvolves(c, peers, states, actions, j, k);
  }

  /** When a run that was never cancelled and whose coordinator still exists has
      returned without the torrent complete, every session was refused, or ended
      by its peer closing, by an error or by the panic. */
  lemma IncompleteReturnHasCause(
    c: Config, peers: nat, states: seq<State>, actions: seq<Action>, k: nat, peer: nat)
    requires c.WellFormed() && IsRun(c, peers, states, actions) && k < |states|
    requires HasReturned(states[k]) && peer < |states[k].sessions|
    requires !states[k].shared.tracker.IsComplete()
    requires !states[k].shared.everCancelled && states[k].shared.coordinatorAlive
    ensures states[k].sessions[peer].phase.how in {Refused, Failed, Exit.Panicked, PeerClosed}
  {
    hide CanAct, Act, Init, AvailabilityExact, ClaimsExact, ExactlyOnce, Window, Tracking.Tracker.IsComplete, Below;
    RunHolds(c, peers, states, actions, k);
    assert SessionInv(c, states[k].shared, states[k].sessions[peer]);
  }

  /** The session is on its way to announcing completion. */
  predicate WillAnnounce(x: Session) {
    x.phase.Announcing? || (x.phase.Emitting? && x.phase.complete)
  }

  ghost predicate CompletionPending(s: State) {
    s.shared.tracker.IsComplete() ==>
      s.shared.done || exists k :: 0 <= k < |s.sessions| && WillAnnounce(s.sessions[k])
  }

  lemma BlockPendsCompletion(c: Config, sh: Shared, x: Session, b: W.Block)
    requires x.phase.Waiting?
    ensures var (sh', x') := OnBlock(c, sh, x, b);
      sh'.tracker.IsComplete() && !sh.tracker.IsComplete() ==> WillAnnounce(x')
  {
    hide Assembly.AddBlock, Assembly.IsComplete, Config.Verifies, Below;
  }

  lemma StepPendsCompletion(c: Config, sh: Shared, x: Session, e: Event)
    requires c.WellFormed() && SharedInv(c, sh) && SessionInv(c, sh, x) && Enabled(c, sh, x, e)
    ensures var (sh', x') := Step(c, sh, x, e);
      && (sh'.tracker.IsComplete() && !sh.tracker.IsComplete() ==> WillAnnounce(x'))
      && (WillAnnounce(x) ==> WillAnnounce(x') || sh'.done)
  {
    hide Below, SharedInv, SessionInv, OnMessage, OnBlock;
    if e.Receive? && e.message.Piece? {
      MessageIsBlock(c, sh, x, e.message.block);
      BlockPendsCompletion(c, sh.(wire := sh.wire + |e.message.block.data|), x, e.message.block);
    } else if !e.Emit? && !e.Announce? {
      assert !WillAnnounce(x);
      OtherStepsMoveNothing(c, sh, x, e);
      StepKeeps(c, sh, x, e);
      hide Step, Enabled;
    }
  }

  lemma MessageIsBlock(c: Config, sh: Shared, x: Session, b: W.Block)
    ensures OnMessage(c, sh, x, W.Piece(b)) == OnBlock(c, sh.(wire := sh.wire + |b.data|), x, b)
  {
    hide OnBlock;
  }

  lemma PendingKept(c: Config, s: State, a: Action)
    requires c.WellFormed() && Inv(c, s) && CanAct(c, s, a) && CompletionPending(s)
    ensures CompletionPending(Act(c, s, a))
  {
    hide SharedInv, SessionInv, AvailabilityExact, ClaimsExact, ExactlyOnce, Step, Enabled, Tracking.Tracker.IsComplete,
      Evolves, WillAnnounce;
    if a.At? {
      var x := s.sessions[a.peer];
      StepPendsCompletion(c, s.shared, x, a.event);
      StepKeeps(c, s.shared, x, a.event);
      var s' := Act(c, s, a);
      if s'.shared.tracker.IsComplete() && !s'.shared.done {
        assert s.shared.done ==> s'.shared.done by { EvolvesKeepsDone(s.shared, s'.shared); }
        if !s.shared.tracker.IsComplete() {
          assert WillAnnounce(s'.sessions[a.peer]);
        } else {
          var k :| 0 <= k < |s.sessions| && WillAnnounce(s.sessions[k]);
          assert WillAnnounce(s'.sessions[k]);
        }
      }
    }
  }

  lemma EvolvesKeepsDone(sh: Shared, sh': Shared)
    requires Evolves(sh, sh')
    ensures sh.done ==> sh'.done
  {
  }

  /** Completion never goes unannounced: it has been, or some session is about
      to; so once a run has returned, complete means announced. */
  lemma {:induction false} CompletionIsAnnounced(
    c: Config, peers: nat, states: seq<State>, actions: seq<Action>, k: nat)
    requires c.WellFormed() && IsRun(c, peers, states, actions) && k < |states|
    ensures CompletionPending(states[k])
    ensures HasReturned(states[k]) ==> (states[k].shared.done <==> states[k].shared.tracker.IsComplete())
  {
    hide CanAct, Act, Inv, Tracking.Tracker.IsComplete;
    if k == 0 {
      assert !states[0].shared.tracker.IsComplete() by { NotCompleteAtFirst(c); }
    } else {
      CompletionIsAnnounced(c, peers, states, actions, k - 1);
      RunHolds(c, peers, states, actions, k - 1);
      PendingKept(c, states[k - 1], actions[k - 1]);
    }
    DoneIsSound(c, peers, states, actions, k, k);
  }

  lemma NotCompleteAtFirst(c: Config)
    requires c.WellFormed()
    ensures !InitShared(c).tracker.IsComplete()
  {
    assert 0 in Below(c.Count());
  }

  // ----- the panic

  /** The one block that ends a session's task on the spot: empty, at the end of
      a current piece that is a whole number of blocks. */
  predicate IsFatal(x: Session, e: Event) {
    && e.Receive? && e.message.Piece? && x.current.Some?
    && var b, a := e.message.block, x.current.value;
      b.index == a.index && b.data == [] && b.begin == a.length && a.length % BLOCK_SIZE == 0
  }

  /** A step ends in a panic exactly when it receives such a block. */
  lemma PanicHasOneCause(c: Config, sh: Shared, x: Session, e: Event)
    requires SessionInv(c, sh, x) && Enabled(c, sh, x, e)
    requires e.Receive? && e.message.Piece? ==> |e.message.block.data| < U32_LIMIT
    ensures Panicked(Step(c, sh, x, e).1) <==> IsFatal(x, e)
  {
    hide Below, RequestsInOrder, Tracking.Tracker.IsComplete, Tracking.Tracker.Rarest, Fresh, Bitfields.FromWire;
    if e.Receive? && e.message.Piece? {
      var b := e.message.block;
      MessageIsBlock(c, sh, x, b);
      if x.current.Some? {
        AddBlockOutcome(x.current.value, b.begin, b.data);
      }
      hide OnMessage, Assembly.AddBlock, Assembly.Valid;
    } else {
      hide OnBlock;
    }
  }
}
