/** Machine integers, failure types and finite sums shared by every module. */
module Common {

  const U16_LIMIT: int := 0x1_0000
  const U32_LIMIT: int := 0x1_0000_0000
  const U64_LIMIT: int := 0x1_0000_0000_0000_0000

  type Byte = x: int | 0 <= x < 256
  type u16 = x: int | 0 <= x < U16_LIMIT
  type u32 = x: int | 0 <= x < U32_LIMIT
  type u64 = x: int | 0 <= x < U64_LIMIT

  type Digest = seq<Byte>

  datatype Option<+T> = None | Some(value: T)

  datatype Error =
    | InvalidFileLayout
    | InvalidPiecesLength(length: nat)
    | MalformedTorrent(reason: string)
    | PeerProtocol(reason: string)
    | Storage(reason: string)

  datatype Result<+T> = Ok(value: T) | Err(error: Error) {
    predicate IsFailure() { Err? }
    function PropagateFailure<U>(): Result<U> requires Err? { Err(error) }
    function Extract(): T requires Ok? { value }
  }

  function Min(a: int, b: int): (m: int)
    ensures m <= a && m <= b && (m == a || m == b)
  {
    if a <= b then a else b
  }

  function Max(a: int, b: int): (m: int)
    ensures m >= a && m >= b && (m == a || m == b)
  {
    if a >= b then a else b
  }

  /** Unsigned division rounding up. */
  function DivCeil(a: nat, b: nat): (q: nat)
    requires b > 0
    ensures a == 0 <==> q == 0
  {
    (a + b - 1) / b
  }

  /** The quotient is the number of `b`-sized slots needed to hold `a`. */
  lemma DivCeilBounds(a: nat, b: nat)
    requires b > 0
    ensures DivCeil(a, b) * b >= a
    ensures a > 0 ==> (DivCeil(a, b) - 1) * b < a
  {
    var q := (a + b - 1) / b;
    assert q * b <= a + b - 1 < q * b + b;
  }

  function Sum(xs: seq<nat>): nat {
    if xs == [] then 0 else xs[0] + Sum(xs[1..])
  }

  lemma {:induction false} SumSnoc(xs: seq<nat>, x: nat)
    ensures Sum(xs + [x]) == Sum(xs) + x
  {
    if xs == [] {
      assert [x][1..] == [];
      assert xs + [x] == [x];
    } else {
      assert (xs + [x])[1..] == xs[1..] + [x];
      SumSnoc(xs[1..], x);
    }
  }

  /** Replacing one term changes the sum by exactly the difference. */
  lemma {:induction false} SumUpdate(xs: seq<nat>, i: nat, x: nat)
    requires i < |xs|
    ensures Sum(xs[i := x]) + xs[i] == Sum(xs) + x
    ensures xs[i] <= Sum(xs)
  {
    if i == 0 {
      assert xs[i := x][1..] == xs[1..];
    } else {
      assert xs[i := x][1..] == xs[1..][i - 1 := x];
      SumUpdate(xs[1..], i - 1, x);
    }
  }

  /** A sum of naturals is zero exactly when every term is. */
  lemma {:induction false} SumZero(xs: seq<nat>)
    ensures Sum(xs) == 0 <==> forall i :: 0 <= i < |xs| ==> xs[i] == 0
  {
    if xs != [] {
      SumZero(xs[1..]);
      assert forall i :: 0 <= i < |xs| - 1 ==> xs[1..][i] == xs[i + 1];
      if Sum(xs) == 0 {
        forall i | 0 <= i < |xs| ensures xs[i] == 0 {
          if i > 0 { assert xs[1..][i - 1] == 0; }
        }
      }
    }
  }

  /** Termwise order carries over to the sums. */
  lemma {:induction false} SumMonotone(xs: seq<nat>, ys: seq<nat>)
    requires |xs| == |ys|
    requires forall i :: 0 <= i < |xs| ==> xs[i] <= ys[i]
    ensures Sum(xs) <= Sum(ys)
    ensures Sum(xs) == Sum(ys) ==> xs == ys
  {
    if xs != [] {
      forall i | 0 <= i < |xs| - 1 ensures xs[1..][i] <= ys[1..][i] {
        assert xs[i + 1] <= ys[i + 1];
      }
      SumMonotone(xs[1..], ys[1..]);
      if Sum(xs) == Sum(ys) {
        assert xs == [xs[0]] + xs[1..] && ys == [ys[0]] + ys[1..];
      }
    }
  }

  /** Byte strings laid end to end. */
  function Concat(parts: seq<seq<Byte>>): seq<Byte> {
    if parts == [] then [] else parts[0] + Concat(parts[1..])
  }

  lemma {:induction false} ConcatSnoc(parts: seq<seq<Byte>>, last: seq<Byte>)
    ensures Concat(parts + [last]) == Concat(parts) + last
  {
    if parts == [] {
      assert [last][1..] == [];
    } else {
      assert (parts + [last])[1..] == parts[1..] + [last];
      ConcatSnoc(parts[1..], last);
    }
  }

  /** The naturals below `n`. */
  function Below(n: nat): (s: set<nat>)
    ensures forall i: nat :: i in s <==> i < n
    ensures |s| == n
  {
    if n == 0 then {} else Below(n - 1) + {n - 1}
  }

  /** A set of naturals below `n` has `n` members exactly when it has them all. */
  lemma FullSubset(s: set<nat>, n: nat)
    requires s <= Below(n)
    ensures |s| <= n
    ensures |s| == n <==> s == Below(n)
  {
    assert |Below(n) - s| == |Below(n)| - |s|;
    if |s| == n {
      assert Below(n) - s == {};
    }
  }
}
