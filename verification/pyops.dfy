/** The few pieces of Python 2 semantics the toolkit relies on, written out
    because Dafny's integers are unbounded and its `/` and `%` are Euclidean. */
module PyOps {
  import opened Wrappers

  /** `a // b` (and `/` between two Python 2 integers): rounds toward minus infinity. */
  function FloorDiv(a: int, b: int): (q: int)
    requires b != 0
    ensures b > 0 ==> b * q <= a < b * q + b
    ensures b < 0 ==> b * q + b < a <= b * q
  {
    if b > 0 || a % b == 0 then a / b else a / b - 1
  }

  /** `int(x)` on a float: truncation toward zero. */
  function Trunc(x: real): (n: int)
    ensures 0.0 <= x ==> n as real <= x < n as real + 1.0
    ensures x < 0.0 ==> n as real - 1.0 < x <= n as real
  {
    if x >= 0.0 then x.Floor else -((-x).Floor)
  }

  /** Python 2 `round(x)`: to the nearest integer, halves away from zero. */
  function Round(x: real): (n: int)
    ensures 0.0 <= x ==> n as real - 0.5 <= x < n as real + 0.5
    ensures x < 0.0 ==> n as real - 0.5 < x <= n as real + 0.5
  {
    if x >= 0.0 then (x + 0.5).Floor else -((-x + 0.5).Floor)
  }

  /** The position a slice bound `i` denotes in a sequence of length `n`:
      negative bounds count from the end, and bounds are clamped to `[0, n]`. */
  function SliceBound(i: int, n: nat): (k: nat)
    ensures k <= n
    ensures 0 <= i <= n ==> k == i
    ensures n < i ==> k == n
    ensures i < 0 <= i + n ==> k == i + n
    ensures i + n < 0 ==> k == 0
  {
    if i < 0 then (if i + n < 0 then 0 else i + n) else if i > n then n else i
  }

  /** Whether position `k` lies in the slice `[lo:hi]` of a length-`n` sequence. */
  predicate InSlice(k: int, lo: int, hi: int, n: nat)
  {
    SliceBound(lo, n) <= k < SliceBound(hi, n)
  }

  /** The length of the slice `[lo:hi]` of a length-`n` sequence; it never
      runs past the end. */
  function SliceLength(lo: int, hi: int, n: nat): (k: nat)
    ensures SliceBound(lo, n) + k <= n
    ensures k == 0 <==> SliceBound(hi, n) <= SliceBound(lo, n)
  {
    var a, b := SliceBound(lo, n), SliceBound(hi, n);
    if a <= b then b - a else 0
  }

  /** `s[lo:hi]` with Python's clamping and negative bounds. */
  function Slice<T>(s: seq<T>, lo: int, hi: int): (r: seq<T>)
    ensures |r| == SliceLength(lo, hi, |s|)
    ensures r == s[SliceBound(lo, |s|)..SliceBound(lo, |s|) + |r|]
  {
    var a, b := SliceBound(lo, |s|), SliceBound(hi, |s|);
    if a <= b then s[a..b] else []
  }

  /** Within bounds, a Python slice is Dafny's. */
  lemma SliceWithin<T>(s: seq<T>, lo: int, hi: int)
    requires 0 <= lo <= hi <= |s|
    ensures Slice(s, lo, hi) == s[lo..hi]
  {
  }

  /** `s[lo:]`. */
  function SliceFrom<T>(s: seq<T>, lo: int): (r: seq<T>)
    ensures r == Slice(s, lo, |s|)
  {
    s[SliceBound(lo, |s|)..]
  }

  /** The position `s[i]` reads in a length-`n` list, or None where Python
      raises IndexError; negative indices count from the end. */
  function ListIndex(i: int, n: nat): (r: Option<nat>)
    ensures r.Some? <==> 0 <= i + n && i < n
    ensures r.Some? ==> r.value < n && (i >= 0 ==> r.value == i) && (i < 0 ==> r.value == i + n)
  {
    if 0 <= i < n then Some(i) else if i < 0 <= i + n then Some(i + n) else None
  }

  /** `a * n` as `n` additions of `a`: a product the solver reasons about
      linearly, one step at a time. */
  function Times(a: nat, n: nat): (r: nat)
  {
    if n == 0 then 0 else Times(a, n - 1) + a
  }

  lemma {:induction false} TimesIsProduct(a: nat, n: nat)
    ensures Times(a, n) == a * n
  {
    if n > 0 {
      TimesIsProduct(a, n - 1);
    }
  }

  lemma {:induction false} TimesMonotone(a: nat, m: nat, n: nat)
    requires m <= n
    ensures Times(a, m) <= Times(a, n)
    decreases n
  {
    if m < n {
      TimesMonotone(a, m, n - 1);
    }
  }

  /** Dividing `n` strides of `a` by `a` gives back `n`. */
  lemma TimesDiv(a: nat, n: nat)
    requires 1 <= a
    ensures Times(a, n) / a == n
  {
    TimesIsProduct(a, n);
    var q := (a * n) / a;
    var m := (a * n) % a;
    assert a * n == q * a + m;
    assert (n - q) * a == m;
    if n > q {
      MulLeft(1, n - q, a);
    } else if n < q {
      MulLeft(1, q - n, a);
    }
  }

  lemma MulLeft(a: int, b: int, c: int)
    requires a <= b && 0 <= c
    ensures a * c <= b * c
  {
    assert b * c - a * c == (b - a) * c;
  }
}
