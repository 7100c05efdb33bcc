/** The walk that finds the original bytes of the `info` value: `extract_raw_info`,
    `skip_value` and `read_byte_string` in `src/metainfo.rs`. */
module Bencode {
  import opened Common

  const COLON: Byte := 58
  const PLUS: Byte := 43
  const MINUS: Byte := 45
  const LETTER_D: Byte := 100
  const LETTER_E: Byte := 101
  const LETTER_I: Byte := 105
  const LETTER_L: Byte := 108

  /** The key `info`. */
  const INFO: seq<Byte> := [105, 110, 102, 111]

  predicate IsDigit(b: Byte) { 48 <= b <= 57 }

  predicate AllDigits(s: seq<Byte>) { forall i :: 0 <= i < |s| ==> IsDigit(s[i]) }

  // ----- the format

  datatype Entry = Entry(key: seq<Byte>, value: Value)

  datatype Value =
    | Integer(n: int)
    | Bytes(content: seq<Byte>)
    | List(items: seq<Value>)
    | Dictionary(entries: seq<Entry>)

  function Digits(n: nat): (s: seq<Byte>)
    ensures |s| > 0
    ensures AllDigits(s)
  {
    if n < 10 then [48 + n] else Digits(n / 10) + [48 + n % 10]
  }

  function EncodeBytes(content: seq<Byte>): seq<Byte> {
    Digits(|content|) + [COLON] + content
  }

  function EncodeInteger(n: int): seq<Byte> {
    [LETTER_I] + (if n < 0 then [MINUS] + Digits(-n) else Digits(n)) + [LETTER_E]
  }

  function Encode(v: Value): (s: seq<Byte>)
    ensures |s| > 0
    decreases v
  {
    match v
    case Integer(n) => EncodeInteger(n)
    case Bytes(content) => EncodeBytes(content)
    case List(items) => [LETTER_L] + EncodeItems(items) + [LETTER_E]
    case Dictionary(entries) => [LETTER_D] + EncodeEntries(entries) + [LETTER_E]
  }

  function EncodeItems(items: seq<Value>): seq<Byte>
    decreases items
  {
    if items == [] then [] else Encode(items[0]) + EncodeItems(items[1..])
  }

  function EncodeEntries(entries: seq<Entry>): seq<Byte>
    decreases entries
  {
    if entries == [] then []
    else EncodeBytes(entries[0].key) + (Encode(entries[0].value) + EncodeEntries(entries[1..]))
  }

  // ----- the walk

  /** Where byte `b` next occurs, from `i` on. */
  function FindByte(buf: seq<Byte>, i: nat, b: Byte): (r: Option<nat>)
    requires i <= |buf|
    ensures r.Some? ==> i <= r.value < |buf| && buf[r.value] == b && b !in buf[i..r.value]
    ensures r.None? ==> b !in buf[i..]
    decreases |buf| - i
  {
    if i == |buf| then None
    else if buf[i] == b then Some(i)
    else FindByte(buf, i + 1, b)
  }

  function DigitsValue(s: seq<Byte>): nat
    requires AllDigits(s)
  {
    if s == [] then 0
    else
      var last: int := s[|s| - 1];
      assert IsDigit(s[|s| - 1]);
      DigitsValue(s[..|s| - 1]) * 10 + (last - 48)
  }

  /** Decimal digits with an optional plus sign, as a 64-bit number. */
  function ParseUsize(s: seq<Byte>): Option<nat> {
    var t := if |s| > 1 && s[0] == PLUS then s[1..] else s;
    if t == [] || !AllDigits(t) then None
    else if DigitsValue(t) >= U64_LIMIT then None
    else Some(DigitsValue(t))
  }

  function ReadByteString(buf: seq<Byte>, i: nat): (r: Result<(seq<Byte>, nat)>)
    requires i <= |buf|
    ensures r.Ok? ==> i < r.value.1 <= |buf|
  {
    match FindByte(buf, i, COLON)
    case None => Err(MalformedTorrent("byte string missing ':' delimiter"))
    case Some(colon) =>
      match ParseUsize(buf[i..colon])
      case None => Err(MalformedTorrent("invalid byte-string length"))
      case Some(len) =>
        var start := colon + 1;
        if start + len > |buf| then Err(MalformedTorrent("byte string runs past end of buffer"))
        else Ok((buf[start..start + len], start + len))
  }

  /** The index just past the value that begins at `i`. */
  function Skip(buf: seq<Byte>, i: nat): (r: Result<nat>)
    requires i <= |buf|
    ensures r.Ok? ==> i < r.value <= |buf|
    decreases |buf| - i, 1
  {
    if i == |buf| then Err(MalformedTorrent("unexpected end of buffer"))
    else if buf[i] == LETTER_I then
      match FindByte(buf, i, LETTER_E)
      case None => Err(MalformedTorrent("unterminated integer"))
      case Some(e) => Ok(e + 1)
    else if buf[i] == LETTER_L || buf[i] == LETTER_D then
      SkipItems(buf, i + 1)
    else if IsDigit(buf[i]) then
      match ReadByteString(buf, i)
      case Err(e) => Err(e)
      case Ok(s) => Ok(s.1)
    else
      Err(MalformedTorrent("unexpected bencode byte"))
  }

  /** Skips values up to the closing `e`; the index just past it. */
  function SkipItems(buf: seq<Byte>, j: nat): (r: Result<nat>)
    requires j <= |buf|
    ensures r.Ok? ==> j < r.value <= |buf|
    decreases |buf| - j, 2
  {
    if j == |buf| then Err(MalformedTorrent("unterminated container"))
    else if buf[j] == LETTER_E then Ok(j + 1)
    else
      match Skip(buf, j)
      case Err(e) => Err(e)
      case Ok(next) => SkipItems(buf, next)
  }

  /** The bytes of the first `info` value at or after entry position `i`. */
  function InfoFrom(buf: seq<Byte>, i: nat): Result<seq<Byte>>
    requires i <= |buf|
    decreases |buf| - i
  {
    if i == |buf| then Err(MalformedTorrent("unterminated top-level dictionary"))
    else if buf[i] == LETTER_E then Err(MalformedTorrent("metainfo has no `info` dictionary"))
    else
      match ReadByteString(buf, i)
      case Err(e) => Err(e)
      case Ok((key, afterKey)) =>
        match Skip(buf, afterKey)
        case Err(e) => Err(e)
        case Ok(end) =>
          if key == INFO then Ok(buf[afterKey..end]) else InfoFrom(buf, end)
  }

  function RawInfo(buf: seq<Byte>): Result<seq<Byte>> {
    if |buf| == 0 || buf[0] != LETTER_D then Err(MalformedTorrent("metainfo is not a bencode dictionary"))
    else InfoFrom(buf, 1)
  }

  /** The walk over a buffer, value by value; it ends on every input because each
      value skipped moves it on. */
  method SkipValue(buf: seq<Byte>, i: nat) returns (r: Result<nat>)
    requires i <= |buf|
    ensures r == Skip(buf, i)
    ensures r.Ok? ==> i < r.value <= |buf|
    decreases |buf| - i
  {
    if i == |buf| {
      return Err(MalformedTorrent("unexpected end of buffer"));
    }
    var kind := buf[i];
    if kind == LETTER_I {
      var e := FindByte(buf, i, LETTER_E);
      if e.None? {
        return Err(MalformedTorrent("unterminated integer"));
      }
      return Ok(e.value + 1);
    } else if kind == LETTER_L || kind == LETTER_D {
      var j := i + 1;
      while j < |buf| && buf[j] != LETTER_E
        invariant i < j <= |buf|
        invariant SkipItems(buf, i + 1) == SkipItems(buf, j)
      {
        var next := SkipValue(buf, j);
        if next.Err? {
          return next;
        }
        j := next.value;
      }
      if j == |buf| {
        return Err(MalformedTorrent("unterminated container"));
      }
      return Ok(j + 1);
    } else if IsDigit(kind) {
      var s := ReadByteString(buf, i);
      if s.Err? {
        return Err(s.error);
      }
      return Ok(s.value.1);
    }
    return Err(MalformedTorrent("unexpected bencode byte"));
  }

  method ExtractRawInfo(buf: seq<Byte>) returns (r: Result<seq<Byte>>)
    ensures r == RawInfo(buf)
  {
    if |buf| == 0 || buf[0] != LETTER_D {
      return Err(MalformedTorrent("metainfo is not a bencode dictionary"));
    }
    var i := 1;
    while i < |buf| && buf[i] != LETTER_E
      invariant 1 <= i <= |buf| && InfoFrom(buf, 1) == InfoFrom(buf, i)
    {
      var key := ReadByteString(buf, i);
      if key.Err? {
        return Err(key.error);
      }
      var end := SkipValue(buf, key.value.1);
      if end.Err? {
        return Err(end.error);
      }
      if key.value.0 == INFO {
        return Ok(buf[key.value.1..end.value]);
      }
      i := end.value;
    }
    if i == |buf| {
      return Err(MalformedTorrent("unterminated top-level dictionary"));
    }
    return Err(MalformedTorrent("metainfo has no `info` dictionary"));
  }

  // ----- the walk agrees with the format

  /** `s` lies in the buffer at `i`. */
  predicate LiesAt(buf: seq<Byte>, i: nat, s: seq<Byte>) {
    i + |s| <= |buf| && buf[i..i + |s|] == s
  }

  lemma LiesInParts(buf: seq<Byte>, i: nat, a: seq<Byte>, b: seq<Byte>)
    requires LiesAt(buf, i, a + b)
    ensures LiesAt(buf, i, a) && LiesAt(buf, i + |a|, b)
  {
    assert buf[i..i + |a|] == (a + b)[..|a|];
    assert buf[i + |a|..i + |a| + |b|] == (a + b)[|a|..];
  }

  lemma FindIsFirst(buf: seq<Byte>, i: nat, s: seq<Byte>, b: Byte)
    requires LiesAt(buf, i, s + [b]) && b !in s
    ensures FindByte(buf, i, b) == Some(i + |s|)
  {
    LiesInParts(buf, i, s, [b]);
    var r := FindByte(buf, i, b);
    assert buf[i + |s|] == [b][0];
    assert b in buf[i..] by { assert buf[i..][|s|] == b; }
  }

  lemma {:induction false} DigitsRoundTrip(n: nat)
    ensures DigitsValue(Digits(n)) == n
  {
    if n >= 10 {
      DigitsRoundTrip(n / 10);
      assert Digits(n)[..|Digits(n)| - 1] == Digits(n / 10);
    }
  }

  /** A byte string is read back with its content and its end. */
  lemma ReadEncoded(buf: seq<Byte>, i: nat, content: seq<Byte>)
    requires |buf| < U64_LIMIT && LiesAt(buf, i, EncodeBytes(content))
    ensures ReadByteString(buf, i) == Ok((content, i + |EncodeBytes(content)|))
  {
    var digits := Digits(|content|);
    LiesInParts(buf, i, digits + [COLON], content);
    LiesInParts(buf, i, digits, [COLON]);
    FindIsFirst(buf, i, digits, COLON);
    DigitsRoundTrip(|content|);
    assert buf[i..i + |digits|] == digits;
  }

  lemma SkipString(buf: seq<Byte>, i: nat, content: seq<Byte>)
    requires |buf| < U64_LIMIT && LiesAt(buf, i, EncodeBytes(content)) && IsDigit(buf[i])
    ensures Skip(buf, i) == Ok(i + |EncodeBytes(content)|)
  {
    ReadEncoded(buf, i, content);
    hide ReadByteString;
  }

  lemma FirstByte(v: Value)
    ensures Encode(v)[0] == match v
      case Integer(_) => LETTER_I
      case Bytes(content) => Digits(|content|)[0]
      case List(_) => LETTER_L
      case Dictionary(_) => LETTER_D
  {
  }

  lemma SkipInteger(buf: seq<Byte>, i: nat, n: int)
    requires LiesAt(buf, i, EncodeInteger(n))
    ensures Skip(buf, i) == Ok(i + |EncodeInteger(n)|)
  {
    hide ReadByteString, FindByte, SkipItems;
    var body := EncodeInteger(n)[..|EncodeInteger(n)| - 1];
    assert EncodeInteger(n) == body + [LETTER_E];
    assert buf[i] == buf[i..i + |EncodeInteger(n)|][0];
    FindIsFirst(buf, i, body, LETTER_E);
  }

  /** Skipping an encoded value, wherever it lies, stops exactly at its end. */
  lemma {:induction false} SkipEncoded(buf: seq<Byte>, i: nat, v: Value)
    requires |buf| < U64_LIMIT && LiesAt(buf, i, Encode(v))
    ensures Skip(buf, i) == Ok(i + |Encode(v)|)
    decreases v
  {
    hide ReadByteString, FindByte, SkipItems, EncodeInteger, EncodeBytes;
    FirstByte(v);
    assert buf[i] == buf[i..i + |Encode(v)|][0];
    match v
    case Integer(n) =>
      SkipInteger(buf, i, n);
    case Bytes(content) =>
      SkipString(buf, i, content);
    case List(items) =>
      assert Encode(v) == [LETTER_L] + (EncodeItems(items) + [LETTER_E]);
      LiesInParts(buf, i, [LETTER_L], EncodeItems(items) + [LETTER_E]);
      SkipEncodedItems(buf, i + 1, items);
    case Dictionary(entries) =>
      assert Encode(v) == [LETTER_D] + (EncodeEntries(entries) + [LETTER_E]);
      LiesInParts(buf, i, [LETTER_D], EncodeEntries(entries) + [LETTER_E]);
      SkipEncodedEntries(buf, i + 1, entries);
  }

  lemma SkipItemsStep(buf: seq<Byte>, j: nat, next: nat)
    requires j < |buf| && buf[j] != LETTER_E && Skip(buf, j) == Ok(next)
    ensures SkipItems(buf, j) == SkipItems(buf, next)
  {
    hide Skip;
  }

  lemma {:induction false} SkipEncodedItems(buf: seq<Byte>, j: nat, items: seq<Value>)
    requires |buf| < U64_LIMIT && LiesAt(buf, j, EncodeItems(items) + [LETTER_E])
    ensures SkipItems(buf, j) == Ok(j + |EncodeItems(items)| + 1)
    decreases items
  {
    hide ReadByteString, FindByte, Encode, Skip;
    if items == [] {
      assert buf[j] == buf[j..j + 1][0];
    } else {
      var first, rest := Encode(items[0]), EncodeItems(items[1..]) + [LETTER_E];
      assert EncodeItems(items) + [LETTER_E] == first + rest;
      LiesInParts(buf, j, first, rest);
      FirstByte(items[0]);
      assert buf[j] == buf[j..j + |first|][0];
      SkipEncoded(buf, j, items[0]);
      SkipEncodedItems(buf, j + |first|, items[1..]);
    }
  }

  lemma {:induction false} SkipEncodedEntries(buf: seq<Byte>, j: nat, entries: seq<Entry>)
    requires |buf| < U64_LIMIT && LiesAt(buf, j, EncodeEntries(entries) + [LETTER_E])
    ensures SkipItems(buf, j) == Ok(j + |EncodeEntries(entries)| + 1)
    decreases entries
  {
    hide ReadByteString, FindByte, Encode, EncodeBytes, Skip;
    if entries == [] {
      assert buf[j] == buf[j..j + 1][0];
    } else {
      var k, v := EntryLies(buf, j, entries);
      SkipString(buf, j, entries[0].key);
      SkipEncoded(buf, j + k, entries[0].value);
      SkipEncodedEntries(buf, j + k + v, entries[1..]);
      SkipItemsStep(buf, j, j + k);
      SkipItemsStep(buf, j + k, j + k + v);
    }
  }

  /** The key, the value and the rest of a dictionary lie one after another. */
  lemma EntryLies(buf: seq<Byte>, j: nat, entries: seq<Entry>) returns (k: nat, v: nat)
    requires entries != [] && LiesAt(buf, j, EncodeEntries(entries) + [LETTER_E])
    ensures k == |EncodeBytes(entries[0].key)| && v == |Encode(entries[0].value)|
    ensures LiesAt(buf, j, EncodeBytes(entries[0].key)) && LiesAt(buf, j + k, Encode(entries[0].value))
    ensures LiesAt(buf, j + k + v, EncodeEntries(entries[1..]) + [LETTER_E])
    ensures |EncodeEntries(entries)| == k + v + |EncodeEntries(entries[1..])|
    ensures IsDigit(buf[j]) && buf[j + k] != LETTER_E
  {
    var key, value := EncodeBytes(entries[0].key), Encode(entries[0].value);
    var rest := EncodeEntries(entries[1..]) + [LETTER_E];
    k, v := |key|, |value|;
    assert EncodeEntries(entries) + [LETTER_E] == key + (value + rest);
    LiesInParts(buf, j, key, value + rest);
    LiesInParts(buf, j + k, value, rest);
    FirstByte(entries[0].value);
    assert buf[j] == buf[j..j + k][0];
    assert buf[j + k] == buf[j + k..j + k + v][0];
  }

  /** The first value whose key is `info`. */
  function FirstInfo(entries: seq<Entry>): Option<Value> {
    if entries == [] then None
    else if entries[0].key == INFO then Some(entries[0].value)
    else FirstInfo(entries[1..])
  }

  lemma {:induction false} InfoFromEncoded(buf: seq<Byte>, j: nat, entries: seq<Entry>)
    requires |buf| < U64_LIMIT && LiesAt(buf, j, EncodeEntries(entries) + [LETTER_E])
    ensures match FirstInfo(entries)
      case Some(v) => InfoFrom(buf, j) == Ok(Encode(v))
      case None => InfoFrom(buf, j).Err?
    decreases entries
  {
    hide ReadByteString, FindByte, Encode, EncodeBytes, Skip;
    if entries == [] {
      assert buf[j] == buf[j..j + 1][0];
    } else {
      var k, v := EntryLies(buf, j, entries);
      ReadEncoded(buf, j, entries[0].key);
      SkipEncoded(buf, j + k, entries[0].value);
      InfoFromEncoded(buf, j + k + v, entries[1..]);
    }
  }

  /** From any encoded dictionary, whatever follows it, exactly the original bytes
      of the first `info` value are returned, and an error exactly if none. */
  lemma RawInfoIsFaithful(entries: seq<Entry>, suffix: seq<Byte>)
    requires |Encode(Dictionary(entries)) + suffix| < U64_LIMIT
    ensures match FirstInfo(entries)
      case Some(v) => RawInfo(Encode(Dictionary(entries)) + suffix) == Ok(Encode(v))
      case None => RawInfo(Encode(Dictionary(entries)) + suffix).Err?
  {
    var buf := Encode(Dictionary(entries)) + suffix;
    var inner := EncodeEntries(entries) + [LETTER_E];
    assert Encode(Dictionary(entries)) == [LETTER_D] + inner;
    assert LiesAt(buf, 0, [LETTER_D] + inner);
    LiesInParts(buf, 0, [LETTER_D], inner);
    InfoFromEncoded(buf, 1, entries);
  }

  /** No encoded value is the beginning of another one. */
  lemma EncodingIsPrefixFree(v: Value, w: Value, s: seq<Byte>, t: seq<Byte>)
    requires Encode(v) + s == Encode(w) + t && |Encode(v) + s| < U64_LIMIT
    ensures Encode(v) == Encode(w) && s == t
  {
    var buf := Encode(v) + s;
    assert LiesAt(buf, 0, Encode(v)) && LiesAt(buf, 0, Encode(w));
    SkipEncoded(buf, 0, v);
    SkipEncoded(buf, 0, w);
    assert Encode(v) == buf[..|Encode(v)|] == Encode(w);
    assert s == buf[|Encode(v)|..] == t;
  }
}
