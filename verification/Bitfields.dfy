/** A set of piece indices packed into wire bytes: `src/download/bitfield.rs`. */
module Bitfields {
  import opened Common

  /** `0x80 >> k`. */
  function Mask(k: nat): bv8
    requires k < 8
  {
    if k == 0 then 0x80 else if k == 1 then 0x40 else if k == 2 then 0x20 else if k == 3 then 0x10
    else if k == 4 then 0x08 else if k == 5 then 0x04 else if k == 6 then 0x02 else 0x01
  }

  /** Setting a bit affects that bit alone. */
  lemma SetBitSetsOne(b: bv8, k: nat, j: nat)
    requires k < 8 && j < 8
    ensures (b | Mask(k)) & Mask(j) != 0 <==> j == k || b & Mask(j) != 0
  {
  }

  /** Bit `i` of packed bytes, most significant first. */
  predicate HasBit(bytes: seq<bv8>, i: nat)
    requires i / 8 < |bytes|
  {
    bytes[i / 8] & Mask(i % 8) != 0
  }

  /** The pieces that `n` bits of packed bytes stand for. */
  function Indices(bytes: seq<bv8>, n: nat): (s: set<nat>)
    requires |bytes| == DivCeil(n, 8)
    ensures s <= Below(n)
  {
    set i: nat | i in Below(n) && HasBit(bytes, i)
  }

  function Pack(wire: seq<Byte>): seq<bv8> {
    seq(|wire|, i requires 0 <= i < |wire| => wire[i] as bv8)
  }

  function Unpack(bytes: seq<bv8>): seq<Byte> {
    seq(|bytes|, i requires 0 <= i < |bytes| => bytes[i] as Byte)
  }

  lemma PackUnpack(bytes: seq<bv8>)
    ensures Pack(Unpack(bytes)) == bytes
  {
  }

  /** A peer's bitfield must have exactly the bytes that `n` pieces need. */
  function FromWire(wire: seq<Byte>, n: nat): Result<set<nat>> {
    if |wire| != DivCeil(n, 8) then
      Err(PeerProtocol("bitfield has the wrong length"))
    else
      Ok(Indices(Pack(wire), n))
  }

  function Power(j: nat): (p: nat)
    ensures p > 0
  {
    if j == 0 then 1 else 2 * Power(j - 1)
  }

  /** Piece `i` is marked in the wire bytes: eight pieces a byte, the first with
      the highest value. */
  predicate Marked(wire: seq<Byte>, i: nat)
    requires i / 8 < |wire|
  {
    wire[i / 8] / Power(7 - i % 8) % 2 == 1
  }

  lemma HighBits(b: Byte)
    ensures (b as bv8) & 0x80 != 0 <==> b / 128 % 2 == 1
    ensures (b as bv8) & 0x40 != 0 <==> b / 64 % 2 == 1
    ensures (b as bv8) & 0x20 != 0 <==> b / 32 % 2 == 1
    ensures (b as bv8) & 0x10 != 0 <==> b / 16 % 2 == 1
  {
  }

  lemma LowBits(b: Byte)
    ensures (b as bv8) & 0x08 != 0 <==> b / 8 % 2 == 1
    ensures (b as bv8) & 0x04 != 0 <==> b / 4 % 2 == 1
    ensures (b as bv8) & 0x02 != 0 <==> b / 2 % 2 == 1
    ensures (b as bv8) & 0x01 != 0 <==> b % 2 == 1
  {
  }

  lemma MaskPicksPlace(b: Byte, k: nat)
    requires k < 8
    ensures (b as bv8) & Mask(k) != 0 <==> b / Power(7 - k) % 2 == 1
  {
    hide Power;
    Powers();
    if k < 4 {
      HighBits(b);
    } else {
      LowBits(b);
    }
  }

  lemma Powers()
    ensures Power(0) == 1 && Power(1) == 2 && Power(2) == 4 && Power(3) == 8
    ensures Power(4) == 16 && Power(5) == 32 && Power(6) == 64 && Power(7) == 128
  {
    assert Power(3) == 8;
  }

  lemma BitIsMark(wire: seq<Byte>, i: nat)
    requires i / 8 < |wire|
    ensures HasBit(Pack(wire), i) <==> Marked(wire, i)
  {
    hide Mask, Power;
    MaskPicksPlace(wire[i / 8], i % 8);
  }

  lemma AcceptedLength(length: nat, n: nat)
    ensures length == DivCeil(n, 8) <==> 8 * length >= n && (length > 0 ==> 8 * (length - 1) < n)
  {
    DivCeilBounds(n, 8);
  }

  /** What a bitfield message means: it is accepted exactly when it has one byte for
      every eight pieces begun, and it advertises exactly the pieces marked, the
      first piece of a byte by its highest bit. */
  lemma WireMeansMarked(wire: seq<Byte>, n: nat)
    ensures FromWire(wire, n).Ok? <==> 8 * |wire| >= n && (wire != [] ==> 8 * (|wire| - 1) < n)
    ensures FromWire(wire, n).Ok? ==>
      forall i: nat :: i in FromWire(wire, n).value <==> i < n && Marked(wire, i)
  {
    hide HasBit, Marked, Pack, DivCeil;
    AcceptedLength(|wire|, n);
    if FromWire(wire, n).Ok? {
      forall i: nat | i < n ensures i in FromWire(wire, n).value <==> Marked(wire, i) {
        BitIsMark(wire, i);
      }
    }
  }

  /** Two bitfields mean the same set exactly when they agree on the first `n`
      bits; the padding after them never matters. */
  lemma PaddingIsIgnored(a: seq<bv8>, b: seq<bv8>, n: nat)
    requires |a| == |b| == DivCeil(n, 8)
    ensures Indices(a, n) == Indices(b, n) <==> forall i: nat :: i < n ==> (HasBit(a, i) <==> HasBit(b, i))
  {
    if Indices(a, n) == Indices(b, n) {
      forall i: nat | i < n ensures HasBit(a, i) <==> HasBit(b, i) {
        assert i in Below(n);
        assert i in Indices(a, n) <==> i in Indices(b, n);
      }
    }
  }

  lemma SetBitAt(bytes: seq<bv8>, index: nat, i: nat)
    requires index / 8 < |bytes| && i / 8 < |bytes|
    ensures HasBit(bytes[index / 8 := bytes[index / 8] | Mask(index % 8)], i) <==> i == index || HasBit(bytes, i)
  {
    SetBitSetsOne(bytes[index / 8], index % 8, i % 8);
    hide Mask;
  }

  lemma SettingAddsOne(bytes: seq<bv8>, n: nat, index: nat)
    requires |bytes| == DivCeil(n, 8) && index < n
    ensures Indices(bytes[index / 8 := bytes[index / 8] | Mask(index % 8)], n) == Indices(bytes, n) + {index}
  {
    var after := bytes[index / 8 := bytes[index / 8] | Mask(index % 8)];
    forall i: nat | i < n ensures HasBit(after, i) <==> i == index || HasBit(bytes, i) {
      SetBitAt(bytes, index, i);
    }
    hide HasBit, Mask;
    assert forall i: nat :: i in Indices(after, n) <==> i in Indices(bytes, n) + {index};
  }

  /** Every set of pieces has a packed form, and reading it back gives the set. */
  lemma {:induction false} WireFormExists(s: set<nat>, n: nat) returns (bytes: seq<bv8>)
    requires s <= Below(n)
    ensures |bytes| == DivCeil(n, 8) && Indices(bytes, n) == s
    decreases s
  {
    if s == {} {
      bytes := seq(DivCeil(n, 8), _ => 0);
      assert forall i: nat :: i < n ==> !HasBit(bytes, i);
      assert Indices(bytes, n) == {};
    } else {
      var i :| i in s;
      assert i in Below(n);
      var rest := WireFormExists(s - {i}, n);
      SettingAddsOne(rest, n, i);
      bytes := rest[i / 8 := rest[i / 8] | Mask(i % 8)];
      assert s == (s - {i}) + {i};
    }
  }

  class Bitfield {
    var bytes: seq<bv8>
    const numPieces: nat
    var count: nat

    ghost predicate Valid()
      reads this
    {
      && |bytes| == DivCeil(numPieces, 8)
      && count == |Value()|
    }

    ghost function Value(): (s: set<nat>)
      reads this
      requires |bytes| == DivCeil(numPieces, 8)
      ensures s <= Below(numPieces)
    {
      Indices(bytes, numPieces)
    }

    constructor (n: nat)
      ensures Valid() && numPieces == n && Value() == {}
    {
      bytes := seq(DivCeil(n, 8), _ => 0);
      numPieces := n;
      count := 0;
      new;
      assert forall i: nat :: i < n ==> !HasBit(bytes, i);
      assert Indices(bytes, n) == {};
    }

    /** Adopts wire bytes and counts their pieces once. */
    constructor Adopt(wire: seq<bv8>, n: nat)
      requires |wire| == DivCeil(n, 8)
      ensures Valid() && numPieces == n && bytes == wire && Value() == Indices(wire, n)
    {
      bytes := wire;
      numPieces := n;
      var c := 0;
      ghost var seen: set<nat> := {};
      for i := 0 to n
        invariant forall j: nat :: j in seen <==> j < i && HasBit(wire, j)
        invariant c == |seen|
      {
        if HasBit(wire, i) {
          c := c + 1;
          seen := seen + {i};
        }
      }
      assert seen == Indices(wire, n);
      count := c;
    }

    static method FromBytes(wire: seq<Byte>, n: nat) returns (r: Result<Bitfield>)
      ensures r.Ok? <==> FromWire(wire, n).Ok?
      ensures r.Ok? ==> fresh(r.value) && r.value.Valid() && r.value.numPieces == n
                        && r.value.Value() == FromWire(wire, n).value
      ensures r.Ok? ==> forall i: nat :: i in r.value.Value() <==> i < n && Marked(wire, i)
    {
      WireMeansMarked(wire, n);
      if |wire| != DivCeil(n, 8) {
        return Err(PeerProtocol("bitfield has the wrong length"));
      }
      var bf := new Bitfield.Adopt(Pack(wire), n);
      return Ok(bf);
    }

    predicate Has(index: nat)
      reads this
      requires |bytes| == DivCeil(numPieces, 8)
      ensures Has(index) <==> index in Value()
    {
      assert index in Below(numPieces) <==> index < numPieces;
      index < numPieces && HasBit(bytes, index)
    }

    method Set(index: nat)
      requires Valid()
      modifies this
      ensures Valid()
      ensures Value() == old(Value()) + (if index < numPieces then {index} else {})
    {
      if index >= numPieces {
        return;
      }
      SettingAddsOne(bytes, numPieces, index);
      assert index in Below(numPieces);
      if !HasBit(bytes, index) {
        bytes := bytes[index / 8 := bytes[index / 8] | Mask(index % 8)];
        count := count + 1;
      }
    }

    method Count() returns (r: nat)
      requires Valid()
      ensures r == |Value()|
    {
      r := count;
    }

    method IsComplete() returns (r: bool)
      requires Valid()
      ensures r <==> Value() == Below(numPieces)
    {
      FullSubset(Value(), numPieces);
      r := count == numPieces;
    }

    method ToMessageBytes() returns (wire: seq<Byte>)
      requires Valid()
      ensures FromWire(wire, numPieces) == Ok(Value())
      ensures forall i: nat :: i < numPieces ==> i / 8 < |wire| && (Marked(wire, i) <==> i in Value())
    {
      PackUnpack(bytes);
      wire := Unpack(bytes);
      WireMeansMarked(wire, numPieces);
      hide Marked, Indices, HasBit, FromWire;
      assert forall i: nat :: i < numPieces ==> i / 8 < |wire|;
    }
  }
}
