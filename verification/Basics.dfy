/** Small shared vocabulary: optional values, results, Go's fixed-width integers and string order. */
module Basics {

  datatype Option<+T> = None | Some(value: T)

  datatype Result<+T, +E> = Success(value: T) | Failure(error: E)

  const TWO_31: int := 0x8000_0000
  const TWO_32: int := 0x1_0000_0000
  const TWO_63: int := 0x8000_0000_0000_0000

  type int32 = x: int | -0x8000_0000 <= x < 0x8000_0000

  /** Go's conversion int32(x): the low 32 bits, read as a signed number. */
  function WrapInt32(x: int): (r: int32)
    ensures -TWO_31 <= x < TWO_31 <==> r == x
  {
    (x + TWO_31) % TWO_32 - TWO_31
  }

  /** The cast keeps the low 32 bits: its result is the one int32 congruent to x. */
  lemma WrapInt32Exactly(x: int, r: int)
    ensures r == WrapInt32(x) <==> -0x8000_0000 <= r < 0x8000_0000 && (x - r) % 0x1_0000_0000 == 0
  {
    var w := WrapInt32(x);
    assert x - w == TWO_32 * ((x + TWO_31) / TWO_32);
    MultipleModulo((x + TWO_31) / TWO_32);
    if -0x8000_0000 <= r < 0x8000_0000 && (x - r) % 0x1_0000_0000 == 0 {
      assert x - r == TWO_32 * ((x - r) / TWO_32);
      OneResidue(w, r, (x + TWO_31) / TWO_32, (x - r) / TWO_32);
    }
  }

  lemma MultipleModulo(k: int)
    ensures (0x1_0000_0000 * k) % 0x1_0000_0000 == 0
  {
  }

  lemma OneResidue(w: int, r: int, j: int, k: int)
    requires w + TWO_32 * j == r + TWO_32 * k && -TWO_31 <= w < TWO_31 && -TWO_31 <= r < TWO_31
    ensures w == r
  {
    assert TWO_32 * (j - k) == r - w;
  }

  /** Go's integer division by a positive divisor, which truncates toward zero. */
  function QuoTrunc(x: int, y: int): (q: int)
    requires y > 0
    ensures x >= 0 ==> 0 <= x - q * y < y
    ensures x <= 0 ==> -y < x - q * y <= 0
  {
    if x >= 0 then x / y else -((-x) / y)
  }

  /** Go's `<` on strings: lexicographic by character. */
  predicate StrLess(a: string, b: string) {
    if b == "" then false
    else if a == "" then true
    else a[0] < b[0] || (a[0] == b[0] && StrLess(a[1..], b[1..]))
  }

  /** a precedes b: they agree up to k, where a ends or has the smaller character. */
  ghost predicate PrecedesAt(a: string, b: string, k: nat) {
    k <= |a| && k < |b| && a[..k] == b[..k] && (k == |a| || a[k] < b[k])
  }

  lemma {:induction false} StrLessExactly(a: string, b: string)
    ensures StrLess(a, b) <==> exists k: nat :: PrecedesAt(a, b, k)
    decreases |a|
  {
    if b == "" || a == "" {
      assert b != "" ==> PrecedesAt(a, b, 0);
    } else {
      StrLessExactly(a[1..], b[1..]);
      if k: nat :| PrecedesAt(a[1..], b[1..], k) && a[0] == b[0] {
        assert a == [a[0]] + a[1..] && b == [b[0]] + b[1..];
        assert a[..k + 1] == [a[0]] + a[1..][..k] && b[..k + 1] == [b[0]] + b[1..][..k];
        assert PrecedesAt(a, b, k + 1);
      }
      if k: nat :| PrecedesAt(a, b, k) {
        if k > 0 {
          assert a[0] == a[..k][0] == b[..k][0] == b[0];
          assert a[1..][..k - 1] == a[..k][1..] && b[1..][..k - 1] == b[..k][1..];
          assert PrecedesAt(a[1..], b[1..], k - 1);
        }
      }
      assert a[0] < b[0] ==> PrecedesAt(a, b, 0);
    }
  }

  lemma {:induction false} StrLessTrichotomy(a: string, b: string)
    ensures StrLess(a, b) || a == b || StrLess(b, a)
    ensures !(StrLess(a, b) && StrLess(b, a))
    ensures !StrLess(a, a)
  {
    if a != "" && b != "" && a[0] == b[0] {
      StrLessTrichotomy(a[1..], b[1..]);
      assert a == [a[0]] + a[1..] && b == [b[0]] + b[1..];
    }
    if a != "" { StrLessTrichotomy(a[1..], a[1..]); }
  }

  lemma {:induction false} StrLessTransitive(a: string, b: string, c: string)
    requires StrLess(a, b) && StrLess(b, c)
    ensures StrLess(a, c)
  {
    if a != "" && a[0] == b[0] && b[0] == c[0] {
      StrLessTransitive(a[1..], b[1..], c[1..]);
    }
  }
}
