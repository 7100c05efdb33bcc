/** The shared piece-level state: `PieceTracker` in `src/download/state.rs`. */
module Tracking {
  import opened Common
  import opened Bitfields

  /** The tracker as a value. */
  datatype Tracker = Tracker(have: set<nat>, availability: seq<nat>, claimed: set<nat>) {

    predicate Valid() {
      have <= Below(|availability|) && claimed <= Below(|availability|)
    }

    predicate IsComplete() { have == Below(|availability|) }

    function AddAvailability(index: nat): Tracker {
      if index < |availability| then
        this.(availability := availability[index := availability[index] + 1])
      else
        this
    }

    function AddBitfield(s: set<nat>): Tracker {
      this.(availability := seq(|availability|, i requires 0 <= i < |availability| =>
        if i in s then availability[i] + 1 else availability[i]))
    }

    /** Subtracts one per piece, stopping at zero. */
    function RemoveBitfield(s: set<nat>): Tracker {
      this.(availability := seq(|availability|, i requires 0 <= i < |availability| =>
        if i in s && availability[i] > 0 then availability[i] - 1 else availability[i]))
    }

    function Release(index: nat): Tracker {
      this.(claimed := claimed - {index})
    }

    function MarkHave(index: nat): Tracker {
      this.(have := if index < |availability| then have + {index} else have, claimed := claimed - {index})
    }

    /** A piece still needed that the peer has, and that nobody claims if claims count. */
    predicate Candidate(peer: set<nat>, skipClaimed: bool, i: nat) {
      i < |availability| && i !in have && i in peer && !(skipClaimed && i in claimed)
    }

    /** The rarest candidate below `k`, the earliest of equals. */
    function RarestBelow(peer: set<nat>, skipClaimed: bool, k: nat): (r: Option<nat>)
      requires k <= |availability|
      ensures r.Some? ==> r.value < k
    {
      if k == 0 then None
      else
        var best := RarestBelow(peer, skipClaimed, k - 1);
        if !Candidate(peer, skipClaimed, k - 1) then best
        else if best.None? || availability[k - 1] < availability[best.value] then Some(k - 1)
        else best
    }

    function Rarest(peer: set<nat>, skipClaimed: bool): (r: Option<nat>)
      ensures r.Some? ==> r.value < |availability|
    {
      RarestBelow(peer, skipClaimed, |availability|)
    }

    function Reserve(peer: set<nat>): (Option<nat>, Tracker) {
      match Rarest(peer, true)
      case None => (None, this)
      case Some(index) => (Some(index), this.(claimed := claimed + {index}))
    }

    function ReserveEndgame(peer: set<nat>): Option<nat> {
      Rarest(peer, false)
    }
  }

  /** `r` is the choice the reservation rule asks for among the pieces below `k`. */
  ghost predicate IsRarest(t: Tracker, peer: set<nat>, skipClaimed: bool, k: nat, r: Option<nat>)
    requires k <= |t.availability|
  {
    match r
    case None => forall i: nat :: i < k ==> !t.Candidate(peer, skipClaimed, i)
    case Some(index) =>
      && index < k
      && t.Candidate(peer, skipClaimed, index)
      && forall i: nat :: i < k && t.Candidate(peer, skipClaimed, i) ==>
           && t.availability[index] <= t.availability[i]
           && (t.availability[index] == t.availability[i] ==> index <= i)
  }

  /** The loop picks the rarest candidate, the first among equals, and gives up
      only when there is none. */
  lemma {:induction false} RarestBelowIsRarest(t: Tracker, peer: set<nat>, skipClaimed: bool, k: nat)
    requires k <= |t.availability|
    ensures IsRarest(t, peer, skipClaimed, k, t.RarestBelow(peer, skipClaimed, k))
  {
    if k > 0 {
      RarestBelowIsRarest(t, peer, skipClaimed, k - 1);
    }
  }

  /** The rule leaves no freedom. */
  lemma RarestIsUnique(t: Tracker, peer: set<nat>, skipClaimed: bool, r: Option<nat>)
    requires IsRarest(t, peer, skipClaimed, |t.availability|, r)
    ensures r == t.Rarest(peer, skipClaimed)
  {
    RarestBelowIsRarest(t, peer, skipClaimed, |t.availability|);
  }

  /** When the exclusive reservation fails, the endgame one fails too exactly
      when the peer has nothing that is still needed: no claim can hide a piece. */
  lemma EndgameStrandsNothing(t: Tracker, peer: set<nat>)
    requires peer <= Below(|t.availability|)
    requires t.Reserve(peer).0.None?
    ensures t.ReserveEndgame(peer).None? <==> peer <= t.have
  {
    RarestBelowIsRarest(t, peer, false, |t.availability|);
    var r := t.ReserveEndgame(peer);
    if r.None? {
      forall i | i in peer ensures i in t.have {
        assert i in Below(|t.availability|);
        assert !t.Candidate(peer, false, i);
      }
    }
  }

  /** Withdrawing a bitfield undoes adding it. */
  lemma RemoveUndoesAdd(t: Tracker, s: set<nat>)
    ensures t.AddBitfield(s).RemoveBitfield(s) == t
  {
    assert t.AddBitfield(s).RemoveBitfield(s).availability == t.availability;
  }

  /** A tracker of `n` pieces in which no owned piece is claimed. */
  ghost predicate Good(t: Tracker, n: nat) {
    |t.availability| == n && t.Valid() && t.have !! t.claimed
  }

  /** Pieces are gained and never given up, and completion lasts. */
  ghost predicate Grows(t: Tracker, t': Tracker) {
    && |t'.availability| == |t.availability|
    && t.have <= t'.have
    && (t.IsComplete() ==> t'.IsComplete())
  }

  lemma ReleaseKeeps(t: Tracker, n: nat, index: nat)
    requires Good(t, n)
    ensures Good(t.Release(index), n) && Grows(t, t.Release(index))
  {
  }

  lemma MarkHaveKeeps(t: Tracker, n: nat, index: nat)
    requires Good(t, n) && index < n
    ensures Good(t.MarkHave(index), n) && Grows(t, t.MarkHave(index))
    ensures index in t.MarkHave(index).have
  {
    assert index in Below(n);
  }

  lemma ReserveKeeps(t: Tracker, n: nat, peer: set<nat>)
    requires Good(t, n)
    ensures Good(t.Reserve(peer).1, n) && Grows(t, t.Reserve(peer).1)
    ensures t.Reserve(peer).0.Some? ==> t.Reserve(peer).0.value < n
  {
    RarestBelowIsRarest(t, peer, true, n);
    var r := t.Rarest(peer, true);
    if r.Some? {
      assert r.value in Below(n);
    }
  }

  lemma AvailabilityKeeps(t: Tracker, n: nat, availability: seq<nat>)
    requires Good(t, n) && |availability| == n
    ensures Good(t.(availability := availability), n) && Grows(t, t.(availability := availability))
  {
  }

  class PieceTracker {
    const pieceHashes: seq<Digest>
    const sha1: seq<Byte> -> Digest
    const have: Bitfield
    var availability: seq<nat>
    var claimed: seq<bool>

    ghost predicate Valid()
      reads this, have
    {
      && have.Valid()
      && have.numPieces == |pieceHashes| == |availability| == |claimed|
    }

    ghost function Claims(): (s: set<nat>)
      reads this
    {
      set i: nat | i in Below(|claimed|) && claimed[i]
    }

    ghost function Value(): Tracker
      reads this, have
      requires Valid()
      ensures Value().Valid()
    {
      Tracker(have.Value(), availability, Claims())
    }

    constructor (hashes: seq<Digest>, sha1: seq<Byte> -> Digest)
      ensures Valid() && fresh(have) && pieceHashes == hashes && this.sha1 == sha1
      ensures Value() == Tracker({}, seq(|hashes|, _ => 0), {})
    {
      var n := |hashes|;
      pieceHashes := hashes;
      this.sha1 := sha1;
      have := new Bitfield(n);
      availability := seq(n, _ => 0);
      claimed := seq(n, _ => false);
    }

    method IsComplete() returns (r: bool)
      requires Valid()
      ensures r == Value().IsComplete()
    {
      r := have.IsComplete();
    }

    method Has(index: nat) returns (r: bool)
      requires Valid()
      ensures r <==> index in Value().have
    {
      r := have.Has(index);
    }

    method AddAvailability(index: nat)
      requires Valid()
      modifies this`availability
      ensures Valid() && Value() == old(Value()).AddAvailability(index)
    {
      if index < |availability| {
        availability := availability[index := availability[index] + 1];
      }
    }

    method AddBitfieldAvailability(bitfield: Bitfield)
      requires Valid() && bitfield.Valid()
      modifies this`availability
      ensures Valid() && Value() == old(Value()).AddBitfield(bitfield.Value())
    {
      ghost var target := Value().AddBitfield(bitfield.Value()).availability;
      for i := 0 to |availability|
        invariant Valid() && |availability| == |target|
        invariant forall j :: 0 <= j < i ==> availability[j] == target[j]
        invariant forall j :: i <= j < |target| ==> availability[j] == old(availability)[j]
      {
        if bitfield.Has(i) {
          availability := availability[i := availability[i] + 1];
        }
      }
    }

    method RemoveBitfieldAvailability(bitfield: Bitfield)
      requires Valid() && bitfield.Valid()
      modifies this`availability
      ensures Valid() && Value() == old(Value()).RemoveBitfield(bitfield.Value())
    {
      ghost var target := Value().RemoveBitfield(bitfield.Value()).availability;
      for i := 0 to |availability|
        invariant Valid() && |availability| == |target|
        invariant forall j :: 0 <= j < i ==> availability[j] == target[j]
        invariant forall j :: i <= j < |target| ==> availability[j] == old(availability)[j]
      {
        if bitfield.Has(i) {
          availability := availability[i := if availability[i] > 0 then availability[i] - 1 else 0];
        }
      }
    }

    /** Claims the rarest unclaimed piece that the peer can give us. */
    method ReservePiece(peerHas: Bitfield) returns (r: Option<nat>)
      requires Valid() && peerHas.Valid()
      modifies this`claimed
      ensures Valid() && (r, Value()) == old(Value()).Reserve(peerHas.Value())
      ensures r.Some? ==> r.value < |pieceHashes|
    {
      r := RarestNeeded(peerHas, true);
      if r.Some? {
        SetClaim(r.value, true);
      }
    }

    method ReservePieceEndgame(peerHas: Bitfield) returns (r: Option<nat>)
      requires Valid() && peerHas.Valid()
      ensures r == Value().ReserveEndgame(peerHas.Value())
      ensures r.Some? ==> r.value < |pieceHashes|
    {
      r := RarestNeeded(peerHas, false);
    }

    method RarestNeeded(peerHas: Bitfield, skipClaimed: bool) returns (r: Option<nat>)
      requires Valid() && peerHas.Valid()
      ensures r == Value().Rarest(peerHas.Value(), skipClaimed)
      ensures IsRarest(Value(), peerHas.Value(), skipClaimed, |pieceHashes|, r)
    {
      hide HasBit, Indices, Below;
      ghost var t, peer := Value(), peerHas.Value();
      var best: Option<(nat, nat)> := None;
      r := None;
      for i := 0 to |pieceHashes|
        invariant r == if best.None? then None else Some(best.value.1)
        invariant best.Some? ==> best.value.1 < i && best.value.0 == t.availability[best.value.1]
        invariant r == t.RarestBelow(peer, skipClaimed, i)
      {
        assert i in t.claimed <==> claimed[i];
        if have.Has(i) || !peerHas.Has(i) || (skipClaimed && claimed[i]) {
          continue;
        }
        var avail := availability[i];
        if best.None? || avail < best.value.0 {
          best := Some((avail, i));
          r := Some(i);
        }
      }
      RarestBelowIsRarest(t, peer, skipClaimed, |pieceHashes|);
    }

    method ReleasePiece(index: nat)
      requires Valid()
      modifies this`claimed
      ensures Valid() && Value() == old(Value()).Release(index)
    {
      if index < |claimed| {
        SetClaim(index, false);
      }
    }

    method SetClaim(index: nat, claim: bool)
      requires Valid() && index < |claimed|
      modifies this`claimed
      ensures Valid()
      ensures Value() == old(Value()).(claimed :=
        if claim then old(Claims()) + {index} else old(Claims()) - {index})
    {
      ghost var before := Claims();
      claimed := claimed[index := claim];
      assert forall i: nat :: i in Claims() <==> if i == index then claim else i in before;
    }

    method Verify(index: nat, data: seq<Byte>) returns (r: bool)
      ensures r <==> index < |pieceHashes| && sha1(data) == pieceHashes[index]
    {
      r := index < |pieceHashes| && sha1(data) == pieceHashes[index];
    }

    method MarkHave(index: nat)
      requires Valid()
      modifies this`claimed, have
      ensures Valid() && Value() == old(Value()).MarkHave(index)
    {
      have.Set(index);
      ReleasePiece(index);
    }
  }
}
