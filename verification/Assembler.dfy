/** The assembly of one piece from its blocks: `PieceAssembler` in `src/download/piece.rs`. */
module Assembler {
  import opened Common
  import opened Piece

  /** What a block meets at the assembler: `Crashed` is the index panic. */
  datatype Verdict = Accepted | Rejected | Crashed

  /** The state of an assembler, as a value. */
  datatype Assembly = Assembly(
    index: nat,
    length: u32,
    buf: seq<Byte>,
    received: seq<bool>,
    remaining: nat)
  {
    predicate Valid() {
      && |buf| == length
      && |received| == DivCeil(length, BLOCK_SIZE)
      && remaining == Sum(Unset(received))
    }

    predicate IsComplete() { remaining == 0 }

    function AddBlock(begin: u32, data: seq<Byte>): (Verdict, Assembly) {
      var length32 := |data| % U32_LIMIT;
      var k := begin / BLOCK_SIZE;
      if begin % BLOCK_SIZE != 0 then
        (Rejected, this)
      else if begin + length32 >= U32_LIMIT || begin + length32 > length then
        (Rejected, this)
      else if |data| != length32 || begin + length32 > |buf| || k >= |received| then
        (Crashed, this)
      else
        (Accepted, this.(
          buf := buf[..begin] + data + buf[begin + |data|..],
          received := received[k := true],
          remaining := if received[k] || remaining == 0 then remaining else remaining - 1))
    }
  }

  /** One for every block that is still missing. */
  function Unset(received: seq<bool>): seq<nat> {
    seq(|received|, i requires 0 <= i < |received| => if received[i] then 0 else 1)
  }

  function Fresh(index: nat, length: u32): Assembly {
    var blocks := DivCeil(length, BLOCK_SIZE);
    Assembly(index, length,
             seq(length, i requires 0 <= i < length => 0),
             seq(blocks, i requires 0 <= i < blocks => false),
             blocks)
  }

  lemma FreshIsValid(index: nat, length: u32)
    ensures Fresh(index, length).Valid()
    ensures length > 0 ==> !Fresh(index, length).IsComplete()
  {
    var a := Fresh(index, length);
    AllUnset(a.received);
  }

  lemma {:induction false} AllUnset(received: seq<bool>)
    requires forall i :: 0 <= i < |received| ==> !received[i]
    ensures Sum(Unset(received)) == |received|
  {
    if received != [] {
      AllUnset(received[1..]);
      assert Unset(received)[1..] == Unset(received[1..]);
    }
  }

  lemma AddBlockKeepsValid(a: Assembly, begin: u32, data: seq<Byte>)
    requires a.Valid()
    ensures a.AddBlock(begin, data).0.Accepted? ==>
      var b := a.AddBlock(begin, data).1;
      && b.Valid() && b.index == a.index && b.length == a.length
      && b.remaining <= a.remaining
      && (!a.received[begin / BLOCK_SIZE] ==> b.remaining + 1 == a.remaining)
  {
    var (verdict, b) := a.AddBlock(begin, data);
    if verdict.Accepted? {
      var k := begin / BLOCK_SIZE;
      SumUpdate(Unset(a.received), k, 0);
      assert Unset(b.received) == Unset(a.received)[k := 0];
    }
  }

  /** An assembler is complete exactly when every block has been marked. */
  lemma CompleteIff(a: Assembly)
    requires a.Valid()
    ensures a.IsComplete() <==> forall k :: 0 <= k < |a.received| ==> a.received[k]
  {
    SumZero(Unset(a.received));
    assert forall k :: 0 <= k < |a.received| ==> Unset(a.received)[k] == if a.received[k] then 0 else 1;
  }

  /** A block of any size a message can carry is accepted exactly when it is
      aligned and fits; the one fatal block is the empty one at the end of a
      piece that is a whole number of blocks. */
  lemma AddBlockOutcome(a: Assembly, begin: u32, data: seq<Byte>)
    requires a.Valid() && |data| < U32_LIMIT
    ensures a.AddBlock(begin, data).0.Crashed? <==>
      data == [] && begin == a.length && a.length % BLOCK_SIZE == 0
    ensures a.AddBlock(begin, data).0.Accepted? <==>
      && begin % BLOCK_SIZE == 0
      && begin + |data| <= a.length
      && (begin < a.length || a.length % BLOCK_SIZE != 0)
  {
    DivCeilBounds(a.length, BLOCK_SIZE);
  }

  /** Repeating a block changes nothing exactly when it carries the same bytes. */
  lemma RedeliveryHarmlessIff(a: Assembly, begin: u32, data: seq<Byte>)
    requires a.Valid()
    requires a.AddBlock(begin, data).0.Accepted? && a.received[begin / BLOCK_SIZE]
    ensures a.AddBlock(begin, data).1 == a <==> data == a.buf[begin..begin + |data|]
    ensures a.AddBlock(begin, data).1.remaining == a.remaining
  {
    var b := a.AddBlock(begin, data).1;
    assert b.received == a.received;
    assert b.buf[begin..begin + |data|] == data;
    if data == a.buf[begin..begin + |data|] {
      assert a.buf == a.buf[..begin] + a.buf[begin..begin + |data|] + a.buf[begin + |data|..];
    }
  }

  /** The bytes of block `k` of a piece. */
  function Slice(piece: seq<Byte>, k: nat): seq<Byte>
    requires k * BLOCK_SIZE <= |piece|
  {
    piece[k * BLOCK_SIZE..Min((k + 1) * BLOCK_SIZE, |piece|)]
  }

  /** Marked blocks hold the bytes of `piece`. */
  ghost predicate Agrees(a: Assembly, piece: seq<Byte>) {
    && |piece| == |a.buf|
    && forall p :: 0 <= p < |piece| && p / BLOCK_SIZE < |a.received| && a.received[p / BLOCK_SIZE] ==>
         a.buf[p] == piece[p]
  }

  lemma AddSliceAgrees(a: Assembly, piece: seq<Byte>, k: nat)
    requires a.Valid() && Agrees(a, piece) && k * BLOCK_SIZE < |piece|
    ensures a.AddBlock(k * BLOCK_SIZE, Slice(piece, k)).0.Accepted?
    ensures var b := a.AddBlock(k * BLOCK_SIZE, Slice(piece, k)).1;
      && b.Valid() && b.index == a.index && Agrees(b, piece)
      && k < |a.received| && b.received == a.received[k := true]
  {
    AddBlockOutcome(a, k * BLOCK_SIZE, Slice(piece, k));
    AddBlockKeepsValid(a, k * BLOCK_SIZE, Slice(piece, k));
    var b := a.AddBlock(k * BLOCK_SIZE, Slice(piece, k)).1;
    forall p | 0 <= p < |piece| && b.received[p / BLOCK_SIZE]
      ensures b.buf[p] == piece[p]
    {
      if p / BLOCK_SIZE != k { assert a.received[p / BLOCK_SIZE]; }
    }
  }

  // ----- any deliveries at all

  /** A block as it comes from a peer: any length, any bytes. */
  datatype Delivery = Delivery(begin: u32, data: seq<Byte>) {
    predicate Covers(p: nat) { begin <= p < begin + |data| }
  }

  /** The assembler after all of `ds`, if every one was accepted. */
  ghost function Receive(a: Assembly, ds: seq<Delivery>): Option<Assembly> {
    if ds == [] then Some(a)
    else
      match Receive(a, ds[..|ds| - 1])
      case None => None
      case Some(b) =>
        var last := ds[|ds| - 1];
        var (verdict, c) := b.AddBlock(last.begin, last.data);
        if verdict.Accepted? then Some(c) else None
  }

  /** The byte that the last delivery covering position `p` put there. */
  function LastCovering(ds: seq<Delivery>, p: nat): Option<Byte> {
    if ds == [] then None
    else if ds[|ds| - 1].Covers(p) then Some(ds[|ds| - 1].data[p - ds[|ds| - 1].begin])
    else LastCovering(ds[..|ds| - 1], p)
  }

  predicate IsCovered(ds: seq<Delivery>, p: nat) {
    exists i :: 0 <= i < |ds| && ds[i].Covers(p)
  }

  predicate HasStart(ds: seq<Delivery>, k: nat) {
    exists i :: 0 <= i < |ds| && ds[i].begin == k * BLOCK_SIZE
  }

  lemma {:induction false} LastCoveringIff(ds: seq<Delivery>, p: nat)
    ensures LastCovering(ds, p).Some? <==> IsCovered(ds, p)
    ensures LastCovering(ds, p).Some? ==>
      exists i :: 0 <= i < |ds| && ds[i].Covers(p) && ds[i].data[p - ds[i].begin] == LastCovering(ds, p).value
  {
    if ds != [] {
      var front, n := ds[..|ds| - 1], |ds| - 1;
      LastCoveringIff(front, p);
      assert forall i :: 0 <= i < n ==> front[i] == ds[i];
      if ds[n].Covers(p) {
        assert IsCovered(ds, p);
      }
    }
  }

  lemma HasStartSnoc(ds: seq<Delivery>, last: Delivery, k: nat)
    ensures HasStart(ds + [last], k) <==> HasStart(ds, k) || last.begin == k * BLOCK_SIZE
  {
    var more := ds + [last];
    if HasStart(ds, k) {
      var i :| 0 <= i < |ds| && ds[i].begin == k * BLOCK_SIZE;
      assert more[i] == ds[i];
    }
    if last.begin == k * BLOCK_SIZE {
      assert more[|ds|] == last;
    }
  }

  /** What a buffer holds after deliveries: the last byte put at each place. */
  ghost predicate Holds(a: Assembly, ds: seq<Delivery>) {
    && (forall k :: 0 <= k < |a.received| ==> (a.received[k] <==> HasStart(ds, k)))
    && (forall p :: 0 <= p < |a.buf| ==>
          a.buf[p] == match LastCovering(ds, p) case Some(b) => b case None => 0)
  }

  /** Whatever is delivered and accepted, short, long, overlapping or repeated: a
      block counts exactly when some delivery began at it, and each byte is the
      last one delivered for its place, or zero. */
  lemma {:induction false} DeliveriesHold(index: nat, length: u32, ds: seq<Delivery>)
    requires Receive(Fresh(index, length), ds).Some?
    ensures var a := Receive(Fresh(index, length), ds).value;
      a.Valid() && a.index == index && a.length == length && Holds(a, ds)
  {
    if ds == [] {
      FreshIsValid(index, length);
    } else {
      var front, last := ds[..|ds| - 1], ds[|ds| - 1];
      DeliveriesHold(index, length, front);
      AcceptedHolds(Receive(Fresh(index, length), front).value, front, last);
      assert ds == front + [last];
    }
  }

  lemma AcceptedHolds(a: Assembly, ds: seq<Delivery>, last: Delivery)
    requires a.Valid() && Holds(a, ds) && a.AddBlock(last.begin, last.data).0.Accepted?
    ensures var b := a.AddBlock(last.begin, last.data).1;
      b.Valid() && b.index == a.index && b.length == a.length && Holds(b, ds + [last])
  {
    AddBlockKeepsValid(a, last.begin, last.data);
    var b := a.AddBlock(last.begin, last.data).1;
    forall k | 0 <= k < |b.received| ensures b.received[k] <==> HasStart(ds + [last], k) {
      HasStartSnoc(ds, last, k);
    }
    assert (ds + [last])[..|ds|] == ds;
  }

  /** The byte held at `p` is one that a delivery brought there. */
  predicate Arrived(a: Assembly, ds: seq<Delivery>, p: nat) {
    p < |a.buf| && exists i :: 0 <= i < |ds| && ds[i].Covers(p) && ds[i].data[p - ds[i].begin] == a.buf[p]
  }

  lemma ArrivedIffCovered(a: Assembly, ds: seq<Delivery>, p: nat)
    requires Holds(a, ds) && p < |a.buf|
    ensures Arrived(a, ds, p) <==> IsCovered(ds, p)
  {
    LastCoveringIff(ds, p);
  }

  /** An assembler is complete exactly when every block of its piece was begun by
      some delivery; and every byte it holds has arrived exactly when the
      deliveries cover the piece. Neither implies the other. */
  lemma CompleteAndArrivedIff(index: nat, length: u32, ds: seq<Delivery>)
    requires Receive(Fresh(index, length), ds).Some?
    ensures var a := Receive(Fresh(index, length), ds).value;
      && (a.IsComplete() <==> forall k: nat :: k * BLOCK_SIZE < length ==> HasStart(ds, k))
      && ((forall p: nat :: p < length ==> Arrived(a, ds, p)) <==> forall p: nat :: p < length ==> IsCovered(ds, p))
  {
    DeliveriesHold(index, length, ds);
    var a := Receive(Fresh(index, length), ds).value;
    CompleteIff(a);
    DivCeilBounds(length, BLOCK_SIZE);
    assert |a.buf| == length && forall k: nat :: k * BLOCK_SIZE < length <==> k < |a.received|;
    assert forall k :: 0 <= k < |a.received| ==> (a.received[k] <==> HasStart(ds, k));
    forall p: nat | p < length ensures Arrived(a, ds, p) <==> IsCovered(ds, p) {
      ArrivedIffCovered(a, ds, p);
    }
    hide Holds, Arrived, IsCovered, HasStart, Receive, Assembly.Valid, Fresh;
  }

  // ----- deliveries cut from a piece

  /** A stretch of a piece, and the delivery of its true bytes. */
  datatype Stretch = Stretch(begin: nat, length: nat) {
    predicate Fits(total: nat) {
      begin % BLOCK_SIZE == 0 && begin + length <= total && (begin < total || total % BLOCK_SIZE != 0)
    }

    predicate Covers(p: nat) { begin <= p < begin + length }
  }

  predicate AllFit(rs: seq<Stretch>, total: nat) {
    forall i :: 0 <= i < |rs| ==> rs[i].Fits(total)
  }

  function Cut(piece: seq<Byte>, rs: seq<Stretch>): seq<Delivery>
    requires |piece| < U32_LIMIT && AllFit(rs, |piece|)
  {
    seq(|rs|, i requires 0 <= i < |rs| =>
      Delivery(rs[i].begin, piece[rs[i].begin..rs[i].begin + rs[i].length]))
  }

  predicate Reached(rs: seq<Stretch>, p: nat) {
    exists i :: 0 <= i < |rs| && rs[i].Covers(p)
  }

  lemma ReachedIsCovered(piece: seq<Byte>, rs: seq<Stretch>, p: nat)
    requires |piece| < U32_LIMIT && AllFit(rs, |piece|)
    ensures Reached(rs, p) <==> IsCovered(Cut(piece, rs), p)
  {
    var ds := Cut(piece, rs);
    if Reached(rs, p) {
      var i :| 0 <= i < |rs| && rs[i].Covers(p);
      assert ds[i].Covers(p);
    }
    if IsCovered(ds, p) {
      var i :| 0 <= i < |ds| && ds[i].Covers(p);
      assert rs[i].Covers(p);
    }
  }

  /** True bytes are always accepted, whatever their order and extent. */
  lemma {:induction false} CutIsAccepted(index: nat, piece: seq<Byte>, rs: seq<Stretch>)
    requires |piece| < U32_LIMIT && AllFit(rs, |piece|)
    ensures Receive(Fresh(index, |piece|), Cut(piece, rs)).Some?
  {
    if rs != [] {
      var front, last := rs[..|rs| - 1], rs[|rs| - 1];
      CutIsAccepted(index, piece, front);
      var ds := Cut(piece, rs);
      assert ds[..|ds| - 1] == Cut(piece, front);
      DeliveriesHold(index, |piece|, Cut(piece, front));
      var a := Receive(Fresh(index, |piece|), Cut(piece, front)).value;
      AddBlockOutcome(a, last.begin, ds[|ds| - 1].data);
    }
  }

  /** The assembler that true bytes leave behind. */
  ghost function Assembled(index: nat, piece: seq<Byte>, rs: seq<Stretch>): Assembly
    requires |piece| < U32_LIMIT && AllFit(rs, |piece|)
  {
    CutIsAccepted(index, piece, rs);
    Receive(Fresh(index, |piece|), Cut(piece, rs)).value
  }

  /** With true bytes each place holds the piece's byte if it was reached, else zero. */
  lemma CutHolds(index: nat, piece: seq<Byte>, rs: seq<Stretch>, p: nat)
    requires |piece| < U32_LIMIT && AllFit(rs, |piece|) && p < |piece|
    ensures |Assembled(index, piece, rs).buf| == |piece|
    ensures Assembled(index, piece, rs).buf[p] == if Reached(rs, p) then piece[p] else 0
  {
    CutIsAccepted(index, piece, rs);
    var ds := Cut(piece, rs);
    DeliveriesHold(index, |piece|, ds);
    ReachedIsCovered(piece, rs, p);
    LastCoveringIff(ds, p);
  }

  /** A set of true deliveries rebuilds its piece, whatever the piece is, exactly
      when it reaches every byte. */
  lemma RebuildsIff(index: nat, length: u32, rs: seq<Stretch>)
    requires AllFit(rs, length)
    ensures (forall piece: seq<Byte> :: |piece| == length ==> Assembled(index, piece, rs).buf == piece)
      <==> forall p: nat :: p < length ==> Reached(rs, p)
  {
    var ones := seq(length, _ => 1 as Byte);
    if forall piece: seq<Byte> :: |piece| == length ==> Assembled(index, piece, rs).buf == piece {
      assert Assembled(index, ones, rs).buf == ones;
      forall p: nat | p < length ensures Reached(rs, p) {
        CutHolds(index, ones, rs, p);
      }
    }
    if forall p: nat :: p < length ==> Reached(rs, p) {
      forall piece: seq<Byte> | |piece| == length ensures Assembled(index, piece, rs).buf == piece {
        WholePieceRebuilt(index, piece, rs);
      }
    }
  }

  lemma WholePieceRebuilt(index: nat, piece: seq<Byte>, rs: seq<Stretch>)
    requires |piece| < U32_LIMIT && AllFit(rs, |piece|) && forall p: nat :: p < |piece| ==> Reached(rs, p)
    ensures Assembled(index, piece, rs).buf == piece
  {
    CutIsAccepted(index, piece, rs);
    DeliveriesHold(index, |piece|, Cut(piece, rs));
    forall p: nat | p < |piece| ensures Assembled(index, piece, rs).buf[p] == piece[p] {
      CutHolds(index, piece, rs, p);
    }
  }

  // ----- whole blocks

  /** Every index names a block that starts inside the piece. */
  predicate AreBlocksOf(ks: seq<nat>, total: nat) {
    forall i :: 0 <= i < |ks| ==> ks[i] * BLOCK_SIZE < total
  }

  /** The stretches that whole blocks take up. */
  function Slots(ks: seq<nat>, total: nat): (rs: seq<Stretch>)
    requires AreBlocksOf(ks, total)
    ensures AllFit(rs, total)
  {
    seq(|ks|, i requires 0 <= i < |ks| =>
      Stretch(ks[i] * BLOCK_SIZE, Min(BLOCK_SIZE, total - ks[i] * BLOCK_SIZE)))
  }

  /** Whole blocks of a piece delivered in any order, with repeats, are all
      accepted; the assembler is complete exactly when each was delivered, and
      then holds the piece. */
  lemma AnyOrderAssembly(index: nat, piece: seq<Byte>, ks: seq<nat>)
    requires |piece| < U32_LIMIT && AreBlocksOf(ks, |piece|)
    ensures var a := Assembled(index, piece, Slots(ks, |piece|));
      && (a.IsComplete() <==> forall k: nat :: k * BLOCK_SIZE < |piece| ==> k in ks)
      && (a.IsComplete() ==> a.buf == piece)
  {
    var rs := Slots(ks, |piece|);
    CutIsAccepted(index, piece, rs);
    var ds := Cut(piece, rs);
    CompleteAndArrivedIff(index, |piece|, ds);
    forall k: nat ensures HasStart(ds, k) <==> k in ks {
      SlotStarts(piece, ks, k);
    }
    var a := Assembled(index, piece, rs);
    if a.IsComplete() {
      forall p: nat | p < |piece| ensures Reached(rs, p) {
        var k := p / BLOCK_SIZE;
        assert k in ks;
        var i :| 0 <= i < |ks| && ks[i] == k;
        assert rs[i].Covers(p);
      }
      WholePieceRebuilt(index, piece, rs);
    }
  }

  lemma SlotStarts(piece: seq<Byte>, ks: seq<nat>, k: nat)
    requires |piece| < U32_LIMIT && AreBlocksOf(ks, |piece|)
    ensures HasStart(Cut(piece, Slots(ks, |piece|)), k) <==> k in ks
  {
    var ds := Cut(piece, Slots(ks, |piece|));
    if HasStart(ds, k) {
      var i :| 0 <= i < |ds| && ds[i].begin == k * BLOCK_SIZE;
      assert ks[i] == k;
    }
    if k in ks {
      var i :| 0 <= i < |ks| && ks[i] == k;
      assert ds[i].begin == k * BLOCK_SIZE;
    }
  }

  /** A repeated block with other bytes overwrites what was received. */
  lemma RedeliveryOverwrites(index: nat)
    ensures var ds := [Delivery(0, [1]), Delivery(0, [2])];
      && Receive(Fresh(index, 16385), ds[..1]).Some? && Receive(Fresh(index, 16385), ds).Some?
      && var (a, b) := (Receive(Fresh(index, 16385), ds[..1]).value, Receive(Fresh(index, 16385), ds).value);
        a.received == b.received == [true, false] && a.buf[0] == 1 && b.buf[0] == 2
  {
    var ds := [Delivery(0, [1]), Delivery(0, [2])];
    assert ds[..1][..0] == [] && ds[..1] == [Delivery(0, [1])];
    FreshIsValid(index, 16385);
    var start := Fresh(index, 16385);
    assert Receive(start, ds[..0]) == Some(start);
    var a := start.AddBlock(0, [1]).1;
    assert Receive(start, ds[..1]) == Some(a);
    assert ds[..|ds| - 1] == ds[..1];
  }

  /** Completion does not mean that every byte arrived: one empty block completes
      a one-byte piece that nobody sent. */
  lemma CompleteWithoutData(index: nat)
    ensures Fresh(index, 1).AddBlock(0, []).0.Accepted?
    ensures Fresh(index, 1).AddBlock(0, []).1.IsComplete()
  {
  }

  /** Nor does the arrival of every byte mean completion: one long block covers a
      piece of two blocks and counts for one of them. */
  lemma ArrivedButIncomplete(index: nat, data: seq<Byte>)
    requires |data| == 16385
    ensures Fresh(index, 16385).AddBlock(0, data).0.Accepted?
    ensures Fresh(index, 16385).AddBlock(0, data).1.buf == data
    ensures !Fresh(index, 16385).AddBlock(0, data).1.IsComplete()
  {
    FreshIsValid(index, 16385);
  }

  class PieceAssembler {
    const index: nat
    const length: u32
    const buf: array<Byte>
    const received: array<bool>
    var remaining: u32

    ghost function Value(): Assembly
      reads this, buf, received
    {
      Assembly(index, length, buf[..], received[..], remaining)
    }

    ghost predicate Valid()
      reads this, buf, received
    {
      Value().Valid()
    }

    constructor (index: nat, length: u32)
      ensures Valid() && Value() == Fresh(index, length)
      ensures fresh(this) && fresh(buf) && fresh(received)
    {
      var numBlocks := DivCeil(length, BLOCK_SIZE);
      this.index := index;
      this.length := length;
      this.buf := new Byte[length](_ => 0);
      this.received := new bool[numBlocks](_ => false);
      this.remaining := numBlocks;
      new;
      FreshIsValid(index, length);
      assert Value() == Fresh(index, length);
    }

    /** Copies a block into place and marks it. */
    method AddBlock(begin: u32, data: seq<Byte>) returns (r: Verdict)
      requires Valid()
      modifies this, buf, received
      ensures Valid()
      ensures (r, Value()) == old(Value()).AddBlock(begin, data)
    {
      ghost var before := Value();
      AddBlockKeepsValid(before, begin, data);
      if begin % BLOCK_SIZE != 0 {
        return Rejected;
      }
      var end := begin + |data| % U32_LIMIT;
      if end >= U32_LIMIT || end > length {
        return Rejected;
      }
      var blockIdx := begin / BLOCK_SIZE;
      if end - begin != |data| || blockIdx >= received.Length {
        return Crashed;
      }
      forall i | 0 <= i < |data| {
        buf[begin + i] := data[i];
      }
      if !received[blockIdx] {
        received[blockIdx] := true;
        remaining := remaining - 1;
      }
      assert buf[..] == before.buf[..begin] + data + before.buf[end..];
      assert received[..] == before.received[blockIdx := true];
      r := Accepted;
    }

    method IsComplete() returns (r: bool)
      requires Valid()
      ensures r <==> forall k :: 0 <= k < received.Length ==> received[k]
      ensures r == Value().IsComplete()
    {
      CompleteIff(Value());
      assert forall k :: 0 <= k < received.Length ==> Value().received[k] == received[k];
      r := remaining == 0;
    }

    method IntoBytes() returns (data: seq<Byte>)
      ensures data == Value().buf
    {
      data := buf[..];
    }
  }
}
