/** Filling the dark part of a region of interest: every pixel at or below
    a threshold takes the mean value of the pixels above it. */
module RoiTools {

  /** How many values of `s` exceed `th`. */
  function CountAbove(s: seq<real>, th: real): (n: nat)
    ensures n <= |s|
  {
    if s == [] then 0 else CountAbove(s[..|s| - 1], th) + (if s[|s| - 1] > th then 1 else 0)
  }

  /** The sum of the values of `s` that exceed `th`. */
  function SumAbove(s: seq<real>, th: real): real
  {
    if s == [] then 0.0 else SumAbove(s[..|s| - 1], th) + (if s[|s| - 1] > th then s[|s| - 1] else 0.0)
  }

  /** Some value of `s` exceeds `th`: the mean below is then defined. */
  predicate SomeAbove(s: seq<real>, th: real)
  {
    exists k :: 0 <= k < |s| && s[k] > th
  }

  /** A value above the threshold is counted. */
  lemma {:induction false} CountAbovePositive(s: seq<real>, th: real)
    requires SomeAbove(s, th)
    ensures CountAbove(s, th) > 0
  {
    var k :| 0 <= k < |s| && s[k] > th;
    if k < |s| - 1 {
      assert s[..|s| - 1][k] == s[k];
      CountAbovePositive(s[..|s| - 1], th);
    }
  }

  /** The sum of the values above `th` is at least `th` per value, and
      strictly more as soon as there is one. */
  lemma {:induction false} SumAboveBound(s: seq<real>, th: real)
    ensures SumAbove(s, th) >= th * CountAbove(s, th) as real
    ensures CountAbove(s, th) > 0 ==> SumAbove(s, th) > th * CountAbove(s, th) as real
  {
    if s != [] {
      var init := s[..|s| - 1];
      SumAboveBound(init, th);
      var c := CountAbove(init, th) as real;
      if s[|s| - 1] > th {
        assert CountAbove(s, th) as real == c + 1.0;
        assert SumAbove(s, th) == SumAbove(init, th) + s[|s| - 1];
        MulSucc(th, c);
      } else {
        assert CountAbove(s, th) as real == c && SumAbove(s, th) == SumAbove(init, th);
      }
    }
  }

  lemma MulSucc(th: real, c: real)
    ensures th * (c + 1.0) == th * c + th
  {
  }

  /** The mean of the values of `s` above `th` (`np.mean` over the mask). */
  function MeanAbove(s: seq<real>, th: real): (m: real)
    requires SomeAbove(s, th)
    ensures m > th
  {
    CountAbovePositive(s, th);
    SumAboveBound(s, th);
    var n := CountAbove(s, th) as real;
    assert SumAbove(s, th) / n > th by {
      assert th * n < SumAbove(s, th);
    }
    SumAbove(s, th) / n
  }

  /** The values after the fill: those above `th` are kept, the others
      become the mean of those above `th`. */
  function Filled(s: seq<real>, th: real): (r: seq<real>)
    requires SomeAbove(s, th)
    ensures |r| == |s|
  {
    var m := MeanAbove(s, th);
    seq(|s|, k requires 0 <= k < |s| => if s[k] > th then s[k] else m)
  }

  /** After the fill every value exceeds the threshold. */
  lemma FilledAbove(s: seq<real>, th: real)
    requires SomeAbove(s, th)
    ensures forall k :: 0 <= k < |s| ==> Filled(s, th)[k] > th
    ensures SomeAbove(Filled(s, th), th) <==> |s| > 0
  {
    if |s| > 0 {
      assert Filled(s, th)[0] > th;
    }
  }

  /** A second fill changes nothing. */
  lemma FillIdempotent(s: seq<real>, th: real)
    requires SomeAbove(s, th)
    ensures SomeAbove(Filled(s, th), th)
    ensures Filled(Filled(s, th), th) == Filled(s, th)
  {
    FilledAbove(s, th);
  }

  /** `fiil_in_lower_regions`: overwrites, in place, every pixel of `roi` not
      above `valueTh` with the mean of the pixels above it. */
  method FillInLowerRegions(roi: array<real>, valueTh: real := 5.0)
    requires SomeAbove(roi[..], valueTh)
    modifies roi
    ensures roi[..] == Filled(old(roi[..]), valueTh)
  {
    ghost var s := roi[..];
    var sum, count := 0.0, 0;
    for i := 0 to roi.Length
      invariant sum == SumAbove(roi[..i], valueTh) && count == CountAbove(roi[..i], valueTh)
    {
      assert roi[..i + 1][..i] == roi[..i];
      if roi[i] > valueTh {
        sum, count := sum + roi[i], count + 1;
      }
    }
    assert roi[..roi.Length] == s;
    CountAbovePositive(s, valueTh);
    var m := sum / count as real;
    assert m == MeanAbove(s, valueTh);
    for i := 0 to roi.Length
      invariant forall k :: 0 <= k < i ==> roi[k] == Filled(s, valueTh)[k]
      invariant forall k :: i <= k < roi.Length ==> roi[k] == s[k]
    {
      if !(roi[i] > valueTh) {
        roi[i] := m;
      }
    }
  }
}
