/** The parts of a parsed torrent that fix its size: `src/metainfo.rs`. */
module Metainfo {
  import opened Common

  const SHA1_LEN := 20

  datatype FileEntry = FileEntry(length: u64, path: seq<string>)

  /** The fields of the info dictionary that the engine computes with. */
  datatype Info = Info(
    pieceLength: u64,
    pieces: seq<Byte>,
    length: Option<u64>,
    files: Option<seq<FileEntry>>)

  datatype FileLayout = Single(length: u64) | Multi(files: seq<FileEntry>)

  function NumPieces(info: Info): nat {
    |info.pieces| / SHA1_LEN
  }

  function PieceHashes(info: Info): (r: Result<seq<Digest>>)
    ensures r.Ok? <==> |info.pieces| % SHA1_LEN == 0
    ensures r.Ok? ==> |r.value| == NumPieces(info)
  {
    if |info.pieces| % SHA1_LEN != 0 then
      Err(InvalidPiecesLength(|info.pieces|))
    else
      Ok(seq(NumPieces(info), i requires 0 <= i < NumPieces(info) =>
        info.pieces[SHA1_LEN * i..SHA1_LEN * i + SHA1_LEN]))
  }

  /** The hashes are the field itself, cut into 20-byte parts: laid end to end they
      give it back. */
  lemma HashesAreTheField(info: Info)
    requires PieceHashes(info).Ok?
    ensures Concat(PieceHashes(info).value) == info.pieces
    ensures forall i :: 0 <= i < NumPieces(info) ==> |PieceHashes(info).value[i]| == SHA1_LEN
  {
    var n := NumPieces(info);
    HashesPrefix(info, n);
    assert PieceHashes(info).value[..n] == PieceHashes(info).value;
    assert info.pieces[..SHA1_LEN * n] == info.pieces;
  }

  lemma {:induction false} HashesPrefix(info: Info, k: nat)
    requires PieceHashes(info).Ok? && k <= NumPieces(info)
    ensures Concat(PieceHashes(info).value[..k]) == info.pieces[..SHA1_LEN * k]
  {
    var hashes := PieceHashes(info).value;
    if k > 0 {
      HashesPrefix(info, k - 1);
      assert hashes[..k] == hashes[..k - 1] + [hashes[k - 1]];
      ConcatSnoc(hashes[..k - 1], hashes[k - 1]);
      assert info.pieces[..SHA1_LEN * k] ==
        info.pieces[..SHA1_LEN * (k - 1)] + info.pieces[SHA1_LEN * (k - 1)..SHA1_LEN * (k - 1) + SHA1_LEN];
    }
  }

  /** Hash `i` is the twenty bytes from position `20 * i` on. */
  lemma HashAt(info: Info, i: nat)
    ensures PieceHashes(info).Ok? <==> |info.pieces| % 20 == 0
    ensures PieceHashes(info).Ok? ==> |PieceHashes(info).value| == |info.pieces| / 20
    ensures PieceHashes(info).Ok? && i < |info.pieces| / 20 ==>
      PieceHashes(info).value[i] == info.pieces[20 * i..20 * i + 20]
  {
  }

  function Layout(info: Info): Result<FileLayout> {
    match (info.length, info.files)
    case (Some(length), None) => Ok(Single(length))
    case (None, Some(files)) => Ok(Multi(files))
    case _ => Err(InvalidFileLayout)
  }

  /** The file lengths in stream order. */
  function FileLengths(layout: FileLayout): seq<nat> {
    match layout
    case Single(length) => [length]
    case Multi(files) => seq(|files|, i requires 0 <= i < |files| => files[i].length as nat)
  }

  /** The sum over the files is not checked: it wraps at 64 bits. */
  function TotalLength(info: Info): Result<u64> {
    match Layout(info)
    case Err(e) => Err(e)
    case Ok(layout) => Ok(Sum(FileLengths(layout)) % U64_LIMIT)
  }

  /** The files of a torrent, one way or the other, and their declared total: exactly
      one of the two descriptions must be there. */
  lemma TotalLengthIs(info: Info)
    ensures TotalLength(info).Ok? <==> (info.length.Some? <==> info.files.None?)
    ensures TotalLength(info).Ok? <==> Layout(info).Ok?
    ensures info.length.Some? && info.files.None? ==>
      TotalLength(info) == Ok(info.length.value) && FileLengths(Layout(info).value) == [info.length.value]
    ensures info.length.None? && info.files.Some? ==>
      var lengths := FileLengths(Layout(info).value);
      && TotalLength(info) == Ok(Sum(lengths) % 0x1_0000_0000_0000_0000)
      && |lengths| == |info.files.value|
      && forall i :: 0 <= i < |lengths| ==> lengths[i] == info.files.value[i].length
  {
    if info.length.Some? && info.files.None? {
      SumSnoc([], info.length.value);
      assert [] + [info.length.value] == FileLengths(Single(info.length.value));
    }
  }
}
