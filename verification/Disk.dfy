/** Laying pieces onto files: `src/disk.rs`. */
module Disk {
  import opened Common
  import opened Piece
  import opened Swarm
  import Metainfo

  /** One file, placed at its offset in the stream. */
  datatype MappedFile = MappedFile(length: nat, offset: nat)

  /** Copy `len` bytes of the source from `srcStart` to a file position. */
  datatype WriteOp = WriteOp(fileIndex: nat, fileOffset: nat, srcStart: nat, len: nat)

  /** The length of the stream that the files make up. */
  function TotalOf(files: seq<MappedFile>): nat {
    if files == [] then 0 else TotalOf(files[..|files| - 1]) + files[|files| - 1].length
  }

  /** Files laid end to end from zero. */
  ghost predicate EndToEnd(files: seq<MappedFile>) {
    forall i :: 0 <= i < |files| ==> files[i].offset == TotalOf(files[..i])
  }

  lemma {:induction false} TotalGrows(files: seq<MappedFile>, i: nat)
    requires i < |files|
    ensures TotalOf(files[..i]) + files[i].length == TotalOf(files[..i + 1]) <= TotalOf(files)
    decreases |files|
  {
    assert files[..i + 1][..i] == files[..i];
    if i + 1 < |files| {
      var front := files[..|files| - 1];
      TotalGrows(front, i);
      assert front[..i] == files[..i] && front[..i + 1] == files[..i + 1];
    } else {
      assert files[..i + 1] == files;
    }
  }

  /** Places the files one after the other; a running offset that leaves 64 bits
      is an error. */
  method BuildFileMap(lengths: seq<u64>) returns (r: Result<seq<MappedFile>>)
    ensures r.Ok? <==> Sum(lengths) < U64_LIMIT
    ensures r.Ok? ==> |r.value| == |lengths| && EndToEnd(r.value) && TotalOf(r.value) == Sum(lengths)
    ensures r.Ok? ==> forall i :: 0 <= i < |lengths| ==> r.value[i].length == lengths[i]
  {
    var offset := 0;
    var files: seq<MappedFile> := [];
    for k := 0 to |lengths|
      invariant |files| == k && EndToEnd(files) && TotalOf(files) == offset == Sum(lengths[..k])
      invariant offset < U64_LIMIT
      invariant forall i :: 0 <= i < k ==> files[i].length == lengths[i]
    {
      assert lengths[..k + 1] == lengths[..k] + [lengths[k]];
      SumSnoc(lengths[..k], lengths[k]);
      var file := MappedFile(lengths[k], offset);
      SnocEndToEnd(files, file);
      files := files + [file];
      if offset + lengths[k] >= U64_LIMIT {
        PrefixSum(lengths, k + 1);
        return Err(Storage("total torrent size overflows u64"));
      }
      offset := offset + lengths[k];
    }
    assert lengths[..|lengths|] == lengths;
    return Ok(files);
  }

  lemma SnocEndToEnd(files: seq<MappedFile>, file: MappedFile)
    requires EndToEnd(files) && file.offset == TotalOf(files)
    ensures EndToEnd(files + [file]) && TotalOf(files + [file]) == TotalOf(files) + file.length
  {
    var more := files + [file];
    assert more[..|files|] == files;
    forall i | 0 <= i < |more| ensures more[i].offset == TotalOf(more[..i]) {
      if i < |files| {
        assert more[..i] == files[..i];
      }
    }
  }

  lemma {:induction false} PrefixSum(xs: seq<nat>, k: nat)
    requires k <= |xs|
    ensures Sum(xs[..k]) <= Sum(xs)
    decreases |xs|
  {
    if k == |xs| {
      assert xs[..k] == xs;
    } else {
      var front := xs[..|xs| - 1];
      PrefixSum(front, k);
      assert front[..k] == xs[..k];
      assert xs == front + [xs[|xs| - 1]];
      SumSnoc(front, xs[|xs| - 1]);
    }
  }

  /** Under a file map the declared total does not wrap: the torrent's own total
      length is the length of the mapped files. */
  lemma MappedTotalIsDeclared(info: Metainfo.Info)
    requires Metainfo.Layout(info).Ok?
    ensures var lengths := Metainfo.FileLengths(Metainfo.Layout(info).value);
      Metainfo.TotalLength(info) == Ok(Sum(lengths)) <==> Sum(lengths) < U64_LIMIT
  {
  }

  /** Two files whose total the torrent declares as zero. */
  lemma DeclaredTotalWraps() returns (info: Metainfo.Info)
    ensures Metainfo.TotalLength(info) == Ok(0)
    ensures Metainfo.Layout(info).Ok? && Sum(Metainfo.FileLengths(Metainfo.Layout(info).value)) == U64_LIMIT
  {
    var files := [Metainfo.FileEntry(U64_LIMIT - 1, []), Metainfo.FileEntry(1, [])];
    info := Metainfo.Info(1, [], None, Some(files));
    var lengths := Metainfo.FileLengths(Metainfo.Layout(info).value);
    var first: seq<nat> := [U64_LIMIT - 1];
    assert lengths == first + [1] && first == [] + first;
    SumSnoc([], U64_LIMIT - 1);
    SumSnoc(first, 1);
  }

  // ----- mapping a region of the stream

  /** How much of a region starting at `at` a stream of length `total` covers. */
  function Reach(total: nat, at: nat, len: nat): (covered: nat)
    ensures covered <= len
    ensures covered == len <==> len == 0 || at + len <= total
    ensures covered > 0 ==> at + covered <= total
  {
    if total <= at then 0 else Min(len, total - at)
  }

  /** The ops run through the source in order without gap or overlap, from its
      start to `covered`, and each stays inside its file, at the file position
      that its stream position has. */
  ghost predicate OpsTile(files: seq<MappedFile>, globalOffset: nat, ops: seq<WriteOp>, covered: nat) {
    && (ops == [] ==> covered == 0)
    && (ops != [] ==> ops[0].srcStart == 0 && ops[|ops| - 1].srcStart + ops[|ops| - 1].len == covered)
    && (forall j :: 0 <= j < |ops| - 1 ==>
          ops[j + 1].srcStart == ops[j].srcStart + ops[j].len && ops[j].fileIndex < ops[j + 1].fileIndex)
    && (forall j :: 0 <= j < |ops| ==>
          && 0 < ops[j].len && ops[j].fileIndex < |files|
          && ops[j].fileOffset + ops[j].len <= files[ops[j].fileIndex].length
          && files[ops[j].fileIndex].offset + ops[j].fileOffset == globalOffset + ops[j].srcStart)
  }

  lemma NoOps(files: seq<MappedFile>, globalOffset: nat)
    ensures OpsTile(files, globalOffset, [], 0)
  {
  }

  lemma OpsSnoc(files: seq<MappedFile>, globalOffset: nat, ops: seq<WriteOp>, covered: nat, op: WriteOp)
    requires OpsTile(files, globalOffset, ops, covered)
    requires op.srcStart == covered && 0 < op.len && op.fileIndex < |files|
    requires ops != [] ==> ops[|ops| - 1].fileIndex < op.fileIndex
    requires op.fileOffset + op.len <= files[op.fileIndex].length
    requires files[op.fileIndex].offset + op.fileOffset == globalOffset + op.srcStart
    ensures OpsTile(files, globalOffset, ops + [op], covered + op.len)
  {
  }

  /** One op for each file that meets the region; together they cover the region
      up to the end of the files. */
  method MapRegion(files: seq<MappedFile>, globalOffset: nat, len: nat) returns (ops: seq<WriteOp>)
    requires EndToEnd(files)
    ensures OpsTile(files, globalOffset, ops, Reach(TotalOf(files), globalOffset, len))
  {
    hide OpsTile;
    assert OpsTile(files, globalOffset, [], 0) by { NoOps(files, globalOffset); }
    var regionEnd := globalOffset + len;
    ops := [];
    for k := 0 to |files|
      invariant OpsTile(files, globalOffset, ops, Reach(TotalOf(files[..k]), globalOffset, len))
      invariant ops != [] ==> ops[|ops| - 1].fileIndex < k
    {
      TotalGrows(files, k);
      var file := files[k];
      var fileEnd := file.offset + file.length;
      var start := Max(globalOffset, file.offset);
      var end := Min(regionEnd, fileEnd);
      if start >= end {
        continue;
      }
      var op := WriteOp(k, start - file.offset, start - globalOffset, end - start);
      OpsSnoc(files, globalOffset, ops, Reach(TotalOf(files[..k]), globalOffset, len), op);
      ops := ops + [op];
    }
    assert files[..|files|] == files;
  }

  // ----- the files as one stream

  /** `flat` with `data` put in at a position. */
  function Overwrite(flat: seq<Byte>, at: nat, data: seq<Byte>): (r: seq<Byte>)
    requires data == [] || at + |data| <= |flat|
    ensures |r| == |flat|
  {
    if data == [] then flat else flat[..at] + data + flat[at + |data|..]
  }

  /** A write into one file is a write into the stream. */
  lemma {:induction false} ConcatWrite(contents: seq<seq<Byte>>, f: nat, at: nat, data: seq<Byte>)
    requires f < |contents| && data != [] && at + |data| <= |contents[f]|
    ensures |Concat(contents[..f])| + |contents[f]| <= |Concat(contents)|
    ensures Concat(contents[f := Overwrite(contents[f], at, data)]) ==
            Overwrite(Concat(contents), |Concat(contents[..f])| + at, data)
  {
    var after := contents[f := Overwrite(contents[f], at, data)];
    if f == 0 {
      assert after[1..] == contents[1..];
      assert contents[..0] == [];
      WriteBefore(contents[0], Concat(contents[1..]), at, data);
    } else {
      hide Overwrite;
      var rest := contents[1..];
      ConcatWrite(rest, f - 1, at, data);
      assert after[1..] == rest[f - 1 := Overwrite(rest[f - 1], at, data)];
      assert contents[..f][1..] == rest[..f - 1];
      WriteBehind(contents[0], Concat(rest), |Concat(rest[..f - 1])| + at, data);
    }
  }

  lemma WriteBehind(front: seq<Byte>, flat: seq<Byte>, at: nat, data: seq<Byte>)
    requires data != [] && at + |data| <= |flat|
    ensures Overwrite(front + flat, |front| + at, data) == front + Overwrite(flat, at, data)
  {
    assert (front + flat)[|front| + at + |data|..] == flat[at + |data|..];
    assert (front + flat)[..|front| + at] == front + flat[..at];
  }

  lemma WriteBefore(front: seq<Byte>, flat: seq<Byte>, at: nat, data: seq<Byte>)
    requires data != [] && at + |data| <= |front|
    ensures Overwrite(front + flat, at, data) == Overwrite(front, at, data) + flat
  {
    assert (front + flat)[..at] == front[..at];
    assert (front + flat)[at + |data|..] == front[at + |data|..] + flat;
  }

  /** A write fills its own range and leaves every range beside it alone. */
  lemma OverwriteRange(flat: seq<Byte>, at: nat, data: seq<Byte>, a: nat, b: nat)
    requires at + |data| <= |flat| && a <= b <= |flat|
    requires b <= at || at + |data| <= a || (a == at && b == at + |data|)
    ensures Overwrite(flat, at, data)[a..b] == if a == at && b == at + |data| then data else flat[a..b]
  {
    var after := Overwrite(flat, at, data);
    if data != [] {
      assert after[..at] == flat[..at] && after[at..at + |data|] == data && after[at + |data|..] == flat[at + |data|..];
      if b <= at {
        assert after[a..b] == after[..at][a..b];
      } else if at + |data| <= a {
        assert after[a..b] == after[at + |data|..][a - at - |data|..b - at - |data|];
        assert flat[a..b] == flat[at + |data|..][a - at - |data|..b - at - |data|];
      }
    }
  }

  /** Two writes, one right behind the other, are one write. */
  lemma WritesJoin(flat: seq<Byte>, at: nat, data: seq<Byte>, c: nat, d: nat)
    requires c <= d <= |data| && at + d <= |flat|
    ensures Overwrite(Overwrite(flat, at, data[..c]), at + c, data[c..d]) == Overwrite(flat, at, data[..d])
  {
    var once := Overwrite(flat, at, data[..c]);
    if c == 0 {
      assert data[..c] == [] && data[c..d] == data[..d];
    } else if c == d {
      assert data[c..d] == [];
    } else {
      assert data[..d] == data[..c] + data[c..d];
      assert once[..at + c] == flat[..at] + data[..c];
      assert once[at + d..] == flat[at + d..];
    }
  }

  /** Each file has its mapped length. */
  ghost predicate Fits(files: seq<MappedFile>, contents: seq<seq<Byte>>) {
    |contents| == |files| && forall i :: 0 <= i < |files| ==> |contents[i]| == files[i].length
  }

  lemma {:induction false} ConcatLength(files: seq<MappedFile>, contents: seq<seq<Byte>>, k: nat)
    requires Fits(files, contents) && k <= |files|
    ensures |Concat(contents[..k])| == TotalOf(files[..k])
  {
    if k > 0 {
      ConcatLength(files, contents, k - 1);
      ConcatSnoc(contents[..k - 1], contents[k - 1]);
      assert contents[..k] == contents[..k - 1] + [contents[k - 1]];
      assert files[..k][..k - 1] == files[..k - 1];
    }
  }

  lemma NothingWritten(flat: seq<Byte>, at: nat)
    ensures Overwrite(flat, at, []) == flat
  {
  }

  lemma {:induction false} OpStaysWithin(files: seq<MappedFile>, at: nat, ops: seq<WriteOp>, covered: nat, j: nat)
    requires OpsTile(files, at, ops, covered) && j < |ops|
    ensures ops[j].srcStart + ops[j].len <= covered
    ensures ops[j].srcStart + ops[j].len == if j + 1 < |ops| then ops[j + 1].srcStart else covered
    decreases |ops| - j
  {
    if j + 1 < |ops| {
      OpStaysWithin(files, at, ops, covered, j + 1);
    }
  }

  class Storage {
    const geometry: Geometry
    const files: seq<MappedFile>
    /** What each open file holds. */
    var contents: seq<seq<Byte>>

    ghost predicate Valid()
      reads this
    {
      EndToEnd(files) && Fits(files, contents)
    }

    ghost function Stream(): (flat: seq<Byte>)
      reads this
      requires Valid()
      ensures |flat| == TotalOf(files)
    {
      assert contents[..|files|] == contents && files[..|files|] == files;
      ConcatLength(files, contents, |files|);
      Concat(contents)
    }

    /** Every file is created with its full length. */
    constructor (geometry: Geometry, files: seq<MappedFile>)
      requires EndToEnd(files)
      ensures Valid() && this.geometry == geometry && this.files == files
    {
      this.geometry := geometry;
      this.files := files;
      contents := seq(|files|, i requires 0 <= i < |files| => seq(files[i].length, _ => 0 as Byte));
    }

    /** Writes a piece at its place in the stream, as far as the files reach;
        accepted exactly when they reach to its end. */
    method WritePiece(index: nat, data: seq<Byte>) returns (r: Result<()>)
      requires Valid()
      modifies this
      ensures Valid()
      ensures var at := geometry.PieceOffset(index);
        && Stream() == Overwrite(old(Stream()), at, data[..Reach(TotalOf(files), at, |data|)])
        && (r.Ok? <==> data == [] || at + |data| <= TotalOf(files))
    {
      hide Storage.Stream, Concat, Overwrite, Fits, EndToEnd;
      var at := geometry.PieceOffset(index);
      var ops := MapRegion(files, at, |data|);
      ghost var flat := Stream();
      ghost var reach := Reach(TotalOf(files), at, |data|);
      var covered := 0;
      assert flat == Overwrite(flat, at, data[..0]) by { NothingWritten(flat, at); assert data[..0] == []; }
      for j := 0 to |ops|
        invariant Valid() && covered <= reach
        invariant covered == if j < |ops| then ops[j].srcStart else reach
        invariant Stream() == Overwrite(flat, at, data[..covered])
      {
        OpStaysWithin(files, at, ops, reach, j);
        WriteOne(ops[j], data);
        WritesJoin(flat, at, data, covered, covered + ops[j].len);
        covered := covered + ops[j].len;
      }
      if covered != |data| {
        return Err(Error.Storage("piece not fully mapped to files"));
      }
      return Ok(());
    }

    method WriteOne(op: WriteOp, data: seq<Byte>)
      requires Valid() && op.fileIndex < |files| && 0 < op.len && op.srcStart + op.len <= |data|
      requires op.fileOffset + op.len <= files[op.fileIndex].length
      modifies this
      ensures Valid()
      ensures files[op.fileIndex].offset + op.fileOffset + op.len <= TotalOf(files)
      ensures Stream() == Overwrite(old(Stream()), files[op.fileIndex].offset + op.fileOffset,
                                    data[op.srcStart..op.srcStart + op.len])
    {
      hide Concat, Overwrite, TotalOf;
      var source := data[op.srcStart..op.srcStart + op.len];
      ConcatWrite(contents, op.fileIndex, op.fileOffset, source);
      ConcatLength(files, contents, op.fileIndex);
      TotalGrows(files, op.fileIndex);
      contents := contents[op.fileIndex := Overwrite(contents[op.fileIndex], op.fileOffset, source)];
    }

    /** Drains a stream of pieces to the files, stopping at the first error. */
    method Assemble(pieces: seq<VerifiedPiece>) returns (r: Result<()>)
      requires Valid()
      modifies this
      ensures Valid()
      ensures (r.Ok?, Stream()) == Drained(geometry, old(Stream()), pieces)
    {
      hide Storage.Stream, Overwrite, Reach, EndToEnd, Fits;
      ghost var flat := Stream();
      for k := 0 to |pieces|
        invariant Valid() && (true, Stream()) == Drained(geometry, flat, pieces[..k])
      {
        var p := pieces[k];
        assert pieces[..k + 1][..k] == pieces[..k];
        var w := WritePiece(p.index, p.data);
        if w.Err? {
          DrainStops(geometry, flat, pieces, k + 1);
          return w;
        }
      }
      assert pieces[..|pieces|] == pieces;
      return Ok(());
    }
  }

  // ----- pieces written in any order

  predicate WellSized(g: Geometry, p: VerifiedPiece) {
    p.index < g.numPieces && |p.data| == g.PieceLength(p.index)
  }

  predicate AllWellSized(g: Geometry, pieces: seq<VerifiedPiece>) {
    forall k :: 0 <= k < |pieces| ==> WellSized(g, pieces[k])
  }

  /** Pieces written in order, each as far as the stream reaches, until one does
      not fit: whether all of them did, and the stream then. */
  function Drained(g: Geometry, flat: seq<Byte>, pieces: seq<VerifiedPiece>): (r: (bool, seq<Byte>))
    ensures |r.1| == |flat|
  {
    if pieces == [] then (true, flat)
    else
      var before := Drained(g, flat, pieces[..|pieces| - 1]);
      if !before.0 then before
      else
        var last := pieces[|pieces| - 1];
        var at := g.PieceOffset(last.index);
        (last.data == [] || at + |last.data| <= |flat|,
         Overwrite(before.1, at, last.data[..Reach(|flat|, at, |last.data|)]))
  }

  lemma {:induction false} DrainStops(g: Geometry, flat: seq<Byte>, pieces: seq<VerifiedPiece>, k: nat)
    requires k <= |pieces| && !Drained(g, flat, pieces[..k]).0
    ensures Drained(g, flat, pieces) == Drained(g, flat, pieces[..k])
    decreases |pieces|
  {
    hide Overwrite, Reach;
    if k == |pieces| {
      assert pieces[..k] == pieces;
    } else {
      assert pieces[..|pieces| - 1][..k] == pieces[..k];
      DrainStops(g, flat, pieces[..|pieces| - 1], k);
    }
  }

  /** Over files as long as the torrent, pieces of the right size never fail: the
      error for a piece not fully mapped cannot occur. */
  lemma {:induction false} SizedPiecesFit(g: Geometry, flat: seq<Byte>, pieces: seq<VerifiedPiece>)
    requires g.Consistent() && |flat| == g.totalLength && AllWellSized(g, pieces)
    ensures Drained(g, flat, pieces) == (true, Written(g, flat, pieces))
    decreases |pieces|
  {
    hide Overwrite;
    if pieces != [] {
      var last := pieces[|pieces| - 1];
      SizedPiecesFit(g, flat, pieces[..|pieces| - 1]);
      PiecesTile(g, last.index);
      assert last.data[..|last.data|] == last.data;
    }
  }

  /** The stream after the pieces have been written in the given order. */
  function Written(g: Geometry, flat: seq<Byte>, pieces: seq<VerifiedPiece>): (r: seq<Byte>)
    requires g.Consistent() && |flat| == g.totalLength
    requires AllWellSized(g, pieces)
    ensures |r| == |flat|
  {
    if pieces == [] then flat
    else
      var last := pieces[|pieces| - 1];
      PiecesTile(g, last.index);
      Overwrite(Written(g, flat, pieces[..|pieces| - 1]), g.PieceOffset(last.index), last.data)
  }
}
