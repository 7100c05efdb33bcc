/** Exactly which buffers the walk over the metainfo accepts, and what it finds in
    them: a grammar a little looser than the format, with every byte written out. */
module Grammar {
  import opened Common
  import opened Bencode

  /** What the walk takes for a value. The text of a number is anything up to the
      first `e`; lengths may begin with zeros; a dictionary may hold any values. */
  datatype Loose =
    | Number(text: seq<Byte>)
    | Text(zeros: nat, content: seq<Byte>)
    | Items(items: seq<Loose>)
    | Entries(items: seq<Loose>)

  /** An entry of the outermost dictionary: here the length may also have a plus. */
  datatype Pair = Pair(plus: bool, zeros: nat, key: seq<Byte>, value: Loose)

  function Zeros(n: nat): (s: seq<Byte>)
    ensures |s| == n && forall i :: 0 <= i < n ==> s[i] == 48
  {
    if n == 0 then [] else [48] + Zeros(n - 1)
  }

  /** A length: perhaps a plus, zeros, and the decimal digits. */
  function LengthText(plus: bool, zeros: nat, n: nat): seq<Byte> {
    (if plus then [43] else []) + Zeros(zeros) + Digits(n)
  }

  function SpellString(plus: bool, zeros: nat, content: seq<Byte>): seq<Byte> {
    LengthText(plus, zeros, |content|) + ([58] + content)
  }

  function Spell(v: Loose): seq<Byte>
    decreases v
  {
    match v
    case Number(text) => [105] + text + [101]
    case Text(zeros, content) => SpellString(false, zeros, content)
    case Items(items) => [108] + (SpellAll(items) + [101])
    case Entries(items) => [100] + (SpellAll(items) + [101])
  }

  function SpellAll(items: seq<Loose>): seq<Byte>
    decreases items
  {
    if items == [] then [] else Spell(items[0]) + SpellAll(items[1..])
  }

  /** No number has an `e` in its text. */
  predicate Fine(v: Loose)
    decreases v
  {
    match v
    case Number(text) => 101 !in text
    case Text(_, _) => true
    case Items(items) => AllFine(items)
    case Entries(items) => AllFine(items)
  }

  predicate AllFine(items: seq<Loose>)
    decreases items
  {
    items == [] || (Fine(items[0]) && AllFine(items[1..]))
  }

  function SpellPair(p: Pair): seq<Byte> {
    SpellString(p.plus, p.zeros, p.key) + Spell(p.value)
  }

  function SpellPairs(pairs: seq<Pair>): seq<Byte> {
    if pairs == [] then [] else SpellPair(pairs[0]) + SpellPairs(pairs[1..])
  }

  // ----- lengths

  function Power10(k: nat): nat {
    if k == 0 then 1 else 10 * Power10(k - 1)
  }

  /** The decimal digits of a number, counted from the last one. */
  lemma {:induction false} DigitsAre(n: nat, k: nat)
    ensures Power10(k) > 0
    ensures k < |Digits(n)| ==> Digits(n)[|Digits(n)| - 1 - k] == 48 + n / Power10(k) % 10
    ensures k >= |Digits(n)| <==> k > 0 && n < Power10(k)
  {
    if k > 0 {
      DigitsAre(n / 10, k - 1);
      var p := Power10(k - 1);
      assert n / 10 / p == n / (10 * p) by { DivideTwice(n, p); }
      assert n / 10 < p <==> n < 10 * p;
    }
  }

  lemma DivideTwice(n: nat, p: nat)
    requires p > 0
    ensures n / 10 / p == n / (10 * p)
  {
    var q := n / 10 / p;
    var r := n / 10 % p;
    assert n == 10 * (q * p + r) + n % 10;
    assert 10 * (q * p) == q * (10 * p);
    assert n == q * (10 * p) + (10 * r + n % 10);
    assert 10 * r + n % 10 < 10 * p;
    QuotientIs(n, 10 * p, q, 10 * r + n % 10);
  }

  lemma QuotientIs(n: nat, d: nat, q: nat, r: nat)
    requires d > 0 && n == q * d + r && r < d
    ensures n / d == q
  {
    var more := n / d - q;
    assert more * d == r - n % d;
    assert more >= 1 ==> more * d >= d;
    assert more <= -1 ==> more * d + d <= 0;
  }

  /** Digits stand for `n` exactly if they are those of `n` behind zeros. */
  lemma {:induction false} DigitsCanonical(s: seq<Byte>) returns (zeros: nat)
    requires s != [] && AllDigits(s)
    ensures s == Zeros(zeros) + Digits(DigitsValue(s))
  {
    var front, last := s[..|s| - 1], s[|s| - 1];
    assert IsDigit(s[|s| - 1]);
    assert s == front + [last];
    if front == [] {
      zeros := 0;
      assert DigitsValue(s) == last - 48;
    } else {
      var z := DigitsCanonical(front);
      var n := DigitsValue(front);
      assert DigitsValue(s) == 10 * n + (last - 48);
      if n == 0 {
        zeros := |front|;
        assert Digits(0) == [48];
        assert front == Zeros(zeros);
      } else {
        zeros := z;
        assert Digits(DigitsValue(s)) == Digits(n) + [last];
      }
    }
  }

  lemma {:induction false} ZerosAddNothing(zeros: nat, s: seq<Byte>)
    requires AllDigits(s)
    ensures AllDigits(Zeros(zeros) + s) && DigitsValue(Zeros(zeros) + s) == DigitsValue(s)
  {
    var t := Zeros(zeros) + s;
    if s != [] {
      ZerosAddNothing(zeros, s[..|s| - 1]);
      assert t[..|t| - 1] == Zeros(zeros) + s[..|s| - 1];
    } else if zeros > 0 {
      ZerosAddNothing(zeros - 1, []);
      assert t[..|t| - 1] == Zeros(zeros - 1) + [];
    }
  }

  /** The length parser reads a number below 2^64 with zeros and a plus before it,
      and nothing else. */
  lemma ParseUsizeIff(s: seq<Byte>, n: nat)
    ensures ParseUsize(s) == Some(n) <==>
      n < 18446744073709551616 && exists plus, zeros :: s == LengthText(plus, zeros, n)
  {
    if ParseUsize(s) == Some(n) {
      var plus, zeros := ParsedText(s);
    }
    if n < 18446744073709551616 && exists plus, zeros :: s == LengthText(plus, zeros, n) {
      var plus, zeros :| s == LengthText(plus, zeros, n);
      ParseSpelled(plus, zeros, n);
    }
  }

  lemma ParsedText(s: seq<Byte>) returns (plus: bool, zeros: nat)
    requires ParseUsize(s).Some?
    ensures ParseUsize(s).value < 18446744073709551616
    ensures s == LengthText(plus, zeros, ParseUsize(s).value)
  {
    hide DigitsValue, Digits, Zeros;
    plus := |s| > 1 && s[0] == 43;
    var t := if plus then s[1..] else s;
    zeros := DigitsCanonical(t);
  }

  lemma ParseSpelled(plus: bool, zeros: nat, n: nat)
    requires n < 18446744073709551616
    ensures ParseUsize(LengthText(plus, zeros, n)) == Some(n)
    ensures 58 !in LengthText(plus, zeros, n)
  {
    hide Zeros, Digits, DigitsValue;
    ZerosAddNothing(zeros, Digits(n));
    DigitsRoundTrip(n);
    var s, t := LengthText(plus, zeros, n), Zeros(zeros) + Digits(n);
    assert plus ==> s == [43] + t && s[1..] == t;
    assert !plus ==> s == t;
    assert IsDigit(t[0]);
  }

  // ----- strings

  lemma LiesTogether(buf: seq<Byte>, i: nat, a: seq<Byte>, b: seq<Byte>)
    requires LiesAt(buf, i, a) && LiesAt(buf, i + |a|, b)
    ensures LiesAt(buf, i, a + b)
  {
    assert buf[i..i + |a + b|] == buf[i..i + |a|] + buf[i + |a|..i + |a| + |b|];
  }

  /** A byte string is read exactly where one is spelled. */
  lemma ReadSpelled(buf: seq<Byte>, i: nat, plus: bool, zeros: nat, content: seq<Byte>)
    requires |buf| < U64_LIMIT && LiesAt(buf, i, SpellString(plus, zeros, content))
    ensures ReadByteString(buf, i) == Ok((content, i + |SpellString(plus, zeros, content)|))
  {
    ParseSpelled(plus, zeros, |content|);
    ReadInParts(buf, i, LengthText(plus, zeros, |content|), content);
    hide LengthText, ParseUsize, ReadByteString;
  }

  lemma ReadInParts(buf: seq<Byte>, i: nat, text: seq<Byte>, content: seq<Byte>)
    requires LiesAt(buf, i, text + ([58] + content)) && 58 !in text && ParseUsize(text) == Some(|content|)
    ensures ReadByteString(buf, i) == Ok((content, i + |text + ([58] + content)|))
  {
    hide FindByte, ParseUsize;
    LiesInParts(buf, i, text, [58] + content);
    LiesInParts(buf, i + |text|, [58], content);
    LiesTogether(buf, i, text, [58]);
    FindIsFirst(buf, i, text, 58);
  }

  lemma SpelledIfRead(buf: seq<Byte>, i: nat) returns (plus: bool, zeros: nat)
    requires i <= |buf| && ReadByteString(buf, i).Ok?
    ensures var (content, end) := ReadByteString(buf, i).value;
      LiesAt(buf, i, SpellString(plus, zeros, content)) && end == i + |SpellString(plus, zeros, content)|
  {
    hide LengthText, ParseUsize, FindByte;
    var colon := FindByte(buf, i, 58).value;
    plus, zeros := ParsedText(buf[i..colon]);
    var content := ReadByteString(buf, i).value.0;
    assert buf[colon..colon + 1 + |content|] == [58] + content;
    LiesTogether(buf, i, buf[i..colon], [58] + content);
  }

  // ----- values

  /** The walk steps over a spelled value, wherever it lies. */
  lemma {:induction false} SkipSpelled(buf: seq<Byte>, i: nat, v: Loose)
    requires |buf| < U64_LIMIT && Fine(v) && LiesAt(buf, i, Spell(v))
    ensures Spell(v) != [] && Spell(v)[0] != 101
    ensures Skip(buf, i) == Ok(i + |Spell(v)|)
    decreases v
  {
    hide ReadByteString, FindByte, SkipItems;
    assert buf[i..i + |Spell(v)|] == Spell(v);
    match v
    case Number(text) =>
      assert Spell(v) == [105] + text + [101];
      FindIsFirst(buf, i, [105] + text, 101);
    case Text(zeros, content) =>
      ReadSpelled(buf, i, false, zeros, content);
      FirstIsDigit(false, zeros, content);
    case Items(items) =>
      LiesInParts(buf, i, [108], SpellAll(items) + [101]);
      SkipAllSpelled(buf, i + 1, items);
    case Entries(items) =>
      LiesInParts(buf, i, [100], SpellAll(items) + [101]);
      SkipAllSpelled(buf, i + 1, items);
  }

  lemma FirstIsDigit(plus: bool, zeros: nat, content: seq<Byte>)
    ensures var s := SpellString(plus, zeros, content);
      s != [] && (s[0] == 43 <==> plus) && (!plus ==> IsDigit(s[0]))
  {
  }

  lemma {:induction false} SkipAllSpelled(buf: seq<Byte>, j: nat, items: seq<Loose>)
    requires |buf| < U64_LIMIT && AllFine(items) && LiesAt(buf, j, SpellAll(items) + [101])
    ensures SkipItems(buf, j) == Ok(j + |SpellAll(items)| + 1)
    decreases items
  {
    hide Skip, Spell, Fine;
    if items == [] {
      assert buf[j] == buf[j..j + 1][0];
    } else {
      var first, rest := Spell(items[0]), SpellAll(items[1..]) + [101];
      assert SpellAll(items) + [101] == first + rest;
      LiesInParts(buf, j, first, rest);
      SkipSpelled(buf, j, items[0]);
      assert buf[j] == buf[j..j + |first|][0];
      SkipAllSpelled(buf, j + |first|, items[1..]);
    }
  }

  /** And it steps over nothing else. */
  lemma {:induction false} SpelledIfSkipped(buf: seq<Byte>, i: nat) returns (v: Loose)
    requires i <= |buf| && Skip(buf, i).Ok?
    ensures Fine(v) && LiesAt(buf, i, Spell(v)) && Skip(buf, i).value == i + |Spell(v)|
    decreases |buf| - i, 1
  {
    hide ReadByteString, FindByte, SkipItems;
    var end := Skip(buf, i).value;
    if buf[i] == 105 {
      v := Number(buf[i + 1..end - 1]);
      assert buf[i..end] == Spell(v);
    } else if buf[i] == 108 || buf[i] == 100 {
      var items := SpelledIfAllSkipped(buf, i + 1);
      v := if buf[i] == 108 then Items(items) else Entries(items);
      assert LiesAt(buf, i, [buf[i]]);
      LiesTogether(buf, i, [buf[i]], SpellAll(items) + [101]);
    } else {
      var plus, zeros := SpelledIfRead(buf, i);
      v := Text(zeros, ReadByteString(buf, i).value.0);
      FirstIsDigit(plus, zeros, v.content);
      assert buf[i] == buf[i..end][0];
    }
  }

  lemma {:induction false} SpelledIfAllSkipped(buf: seq<Byte>, j: nat) returns (items: seq<Loose>)
    requires j <= |buf| && SkipItems(buf, j).Ok?
    ensures AllFine(items) && LiesAt(buf, j, SpellAll(items) + [101])
    ensures SkipItems(buf, j).value == j + |SpellAll(items)| + 1
    decreases |buf| - j, 2
  {
    hide Skip, Spell, Fine;
    if buf[j] == 101 {
      items := [];
      assert buf[j..j + 1] == [101];
    } else {
      var v := SpelledIfSkipped(buf, j);
      var more := SpelledIfAllSkipped(buf, j + |Spell(v)|);
      items := [v] + more;
      assert items[1..] == more;
      LiesTogether(buf, j, Spell(v), SpellAll(more) + [101]);
      assert SpellAll(items) + [101] == Spell(v) + (SpellAll(more) + [101]);
    }
  }

  /** On every buffer: the walk over a value ends at `j` exactly if a value of the
      grammar is spelled from `i` to `j`; otherwise it ends with an error. */
  lemma SkipIff(buf: seq<Byte>, i: nat, j: nat)
    requires |buf| < U64_LIMIT && i <= |buf|
    ensures Skip(buf, i) == Ok(j) <==> exists v :: Fine(v) && LiesAt(buf, i, Spell(v)) && j == i + |Spell(v)|
  {
    if Skip(buf, i) == Ok(j) {
      var v := SpelledIfSkipped(buf, i);
    }
    if v :| Fine(v) && LiesAt(buf, i, Spell(v)) && j == i + |Spell(v)| {
      SkipSpelled(buf, i, v);
    }
  }

  // ----- the info dictionary

  ghost predicate AllPairs(pairs: seq<Pair>) {
    forall k :: 0 <= k < |pairs| ==> Fine(pairs[k].value)
  }

  /** Entries before the first whose key is `info`, and that entry. */
  ghost predicate LeadsToInfo(buf: seq<Byte>, j: nat, pairs: seq<Pair>, info: Pair) {
    && AllPairs(pairs) && Fine(info.value)
    && (forall k :: 0 <= k < |pairs| ==> pairs[k].key != [105, 110, 102, 111])
    && info.key == [105, 110, 102, 111]
    && LiesAt(buf, j, SpellPairs(pairs) + SpellPair(info))
  }

  /** The entry is read at `j`, its key up to `after`. */
  ghost predicate KeyEnds(buf: seq<Byte>, j: nat, p: Pair, after: nat) {
    var end := j + |SpellPair(p)|;
    && j <= after <= end <= |buf|
    && ReadByteString(buf, j) == Ok((p.key, after)) && Skip(buf, after) == Ok(end)
    && buf[after..end] == Spell(p.value)
  }

  lemma PairRead(buf: seq<Byte>, j: nat, p: Pair)
    requires |buf| < U64_LIMIT && Fine(p.value) && LiesAt(buf, j, SpellPair(p))
    ensures j < |buf| && buf[j] != 101
    ensures exists after :: KeyEnds(buf, j, p, after)
  {
    hide Skip, ReadByteString, Spell, SpellString, Fine;
    var key := SpellString(p.plus, p.zeros, p.key);
    LiesInParts(buf, j, key, Spell(p.value));
    ReadSpelled(buf, j, p.plus, p.zeros, p.key);
    SkipSpelled(buf, j + |key|, p.value);
    FirstIsDigit(p.plus, p.zeros, p.key);
    assert buf[j] == buf[j..j + |key|][0];
    assert KeyEnds(buf, j, p, j + |key|);
  }

  lemma {:induction false} InfoFound(buf: seq<Byte>, j: nat, pairs: seq<Pair>, info: Pair)
    requires |buf| < U64_LIMIT && LeadsToInfo(buf, j, pairs, info)
    ensures InfoFrom(buf, j) == Ok(Spell(info.value))
    decreases |pairs|
  {
    hide Skip, ReadByteString, Spell, SpellPair, Fine;
    if pairs == [] {
      assert SpellPairs(pairs) + SpellPair(info) == SpellPair(info);
      PairRead(buf, j, info);
    } else {
      var rest := SpellPairs(pairs[1..]) + SpellPair(info);
      assert SpellPairs(pairs) + SpellPair(info) == SpellPair(pairs[0]) + rest;
      LiesInParts(buf, j, SpellPair(pairs[0]), rest);
      PairRead(buf, j, pairs[0]);
      InfoFound(buf, j + |SpellPair(pairs[0])|, pairs[1..], info);
    }
  }

  lemma PairIfRead(buf: seq<Byte>, j: nat) returns (p: Pair)
    requires j <= |buf| && ReadByteString(buf, j).Ok? && Skip(buf, ReadByteString(buf, j).value.1).Ok?
    ensures Fine(p.value) && p.key == ReadByteString(buf, j).value.0 && LiesAt(buf, j, SpellPair(p))
    ensures var after := ReadByteString(buf, j).value.1;
      Skip(buf, after).value == j + |SpellPair(p)| && buf[after..j + |SpellPair(p)|] == Spell(p.value)
  {
    hide Skip, ReadByteString, Spell;
    var (key, after) := ReadByteString(buf, j).value;
    var plus, zeros := SpelledIfRead(buf, j);
    var v := SpelledIfSkipped(buf, after);
    p := Pair(plus, zeros, key, v);
    LiesTogether(buf, j, SpellString(plus, zeros, key), Spell(v));
  }

  lemma {:induction false} LedToInfo(buf: seq<Byte>, j: nat) returns (pairs: seq<Pair>, info: Pair)
    requires j <= |buf| && InfoFrom(buf, j).Ok?
    ensures LeadsToInfo(buf, j, pairs, info) && InfoFrom(buf, j).value == Spell(info.value)
    decreases |buf| - j
  {
    hide Skip, ReadByteString, Spell, SpellPair, Fine;
    var p := PairIfRead(buf, j);
    if p.key == [105, 110, 102, 111] {
      pairs, info := [], p;
      assert SpellPairs(pairs) + SpellPair(info) == SpellPair(info);
    } else {
      var more;
      more, info := LedToInfo(buf, j + |SpellPair(p)|);
      pairs := [p] + more;
      assert pairs[1..] == more;
      LiesTogether(buf, j, SpellPair(p), SpellPairs(more) + SpellPair(info));
      assert SpellPairs(pairs) + SpellPair(info) == SpellPair(p) + (SpellPairs(more) + SpellPair(info));
    }
  }

  /** On every buffer: the bytes that are hashed are those of the value of the first
      entry with the key `info` in a dictionary that the buffer begins with, of
      which only the entries up to that one need to be there; otherwise the
      outcome is an error. */
  lemma RawInfoIff(buf: seq<Byte>, raw: seq<Byte>)
    requires |buf| < U64_LIMIT
    ensures RawInfo(buf) == Ok(raw) <==>
      && LiesAt(buf, 0, [100])
      && exists pairs, info :: LeadsToInfo(buf, 1, pairs, info) && raw == Spell(info.value)
  {
    hide InfoFrom, LeadsToInfo;
    assert LiesAt(buf, 0, [100]) <==> |buf| > 0 && buf[0] == 100 by {
      assert |buf| > 0 ==> buf[..1] == [buf[0]];
    }
    if RawInfo(buf) == Ok(raw) {
      var pairs, info := LedToInfo(buf, 1);
    }
    if pairs, info :| LeadsToInfo(buf, 1, pairs, info) && raw == Spell(info.value) && LiesAt(buf, 0, [100]) {
      InfoFound(buf, 1, pairs, info);
    }
  }
}
