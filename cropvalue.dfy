// Choosing one crop value for a side from the values measured on the
// sampled frames (get_crop_value): the value measured on more than half of
// the frames, or else the smallest value measured.

module CropValue {

  /** How many times `v` occurs in `s`. */
  function Count(s: seq<int>, v: int): nat
  {
    multiset(s)[v]
  }

  /**
   * `v` occurs on strictly more than half of the samples. The source tests
   * `count > len / 2` with floor division, which is the same condition.
   */
  predicate IsMajority(s: seq<int>, v: int)
  {
    2 * Count(s, v) > |s|
  }

  /** The source's test `d[max] > len(seq) / 2`, with floor division, is the majority test. */
  lemma MajorityByFloorDivision(s: seq<int>, v: int)
    ensures Count(s, v) > |s| / 2 <==> IsMajority(s, v)
  {
  }

  /** The smallest sample. */
  function Minimum(s: seq<int>): (m: int)
    requires |s| > 0
    ensures m in s
    ensures forall x :: x in s ==> m <= x
  {
    if |s| == 1 then s[0]
    else
      var rest := Minimum(s[1..]);
      assert s == [s[0]] + s[1..];
      if s[0] < rest then s[0] else rest
  }

  /** The value get_crop_value promises: the majority sample if there is one, the minimum otherwise. */
  ghost function CropValueOf(s: seq<int>): int
    requires |s| > 0
  {
    if exists v :: IsMajority(s, v) then
      var v :| IsMajority(s, v); v
    else
      Minimum(s)
  }

  /** Two distinct values together occur no more often than there are samples. */
  lemma {:induction false} TwoCountsBounded(s: seq<int>, a: int, b: int)
    requires a != b
    ensures Count(s, a) + Count(s, b) <= |s|
  {
    if s != [] {
      TwoCountsBounded(s[1..], a, b);
      assert s == [s[0]] + s[1..];
      assert multiset(s) == multiset{s[0]} + multiset(s[1..]);
    }
  }

  /** At most one value is a majority. */
  lemma MajorityUnique(s: seq<int>, a: int, b: int)
    requires IsMajority(s, a) && IsMajority(s, b)
    ensures a == b
  {
    if a != b {
      TwoCountsBounded(s, a, b);
    }
  }

  /** Majority wins: a value on more than half of the samples is the crop value. */
  lemma MajorityWins(s: seq<int>, v: int)
    requires |s| > 0
    requires IsMajority(s, v)
    ensures CropValueOf(s) == v
  {
    var w :| IsMajority(s, w) && CropValueOf(s) == w;
    MajorityUnique(s, v, w);
  }

  /** Minimum otherwise: without a majority the crop value is the smallest sample. */
  lemma MinimumOtherwise(s: seq<int>)
    requires |s| > 0
    requires forall v :: !IsMajority(s, v)
    ensures CropValueOf(s) in s
    ensures forall x :: x in s ==> CropValueOf(s) <= x
  {
  }

  /** In every case the crop value is one of the samples. */
  lemma CropValueIsSample(s: seq<int>)
    requires |s| > 0
    ensures CropValueOf(s) in s
  {
  }

  /** A sample no larger than every sample is the minimum. */
  lemma MinimumUnique(s: seq<int>, m: int)
    requires |s| > 0
    requires m in s && forall x :: x in s ==> m <= x
    ensures m == Minimum(s)
  {
  }

  /** The counting loop of get_crop_value: a dictionary from each sample to its number of occurrences. */
  method CountSamples(s: seq<int>) returns (d: map<int, nat>)
    ensures forall v :: v in d <==> v in s
    ensures forall n :: 0 <= n < |s| ==> s[n] in d
    ensures forall v :: v in d ==> d[v] == Count(s, v)
  {
    d := map[];
    var i := 0;
    while i < |s|
      invariant 0 <= i <= |s|
      invariant forall v :: v in d <==> v in s[..i]
      invariant forall n :: 0 <= n < i ==> s[n] in d
      invariant forall v :: v in d ==> d[v] == Count(s[..i], v)
    {
      assert s[..i + 1] == s[..i] + [s[i]];
      d := d[s[i] := if s[i] in d then d[s[i]] + 1 else 1];
      i := i + 1;
    }
    assert s[..i] == s;
  }

  /**
   * A key of `d` with the highest count. The source sorts the keys by
   * decreasing count and takes the first; which of several keys with the same
   * count comes first depends on the dictionary's order. Here the keys are
   * visited in the order the samples first show them, which is one such order.
   */
  method MostFrequent(s: seq<int>, d: map<int, nat>) returns (best: int)
    requires |s| > 0
    requires forall n :: 0 <= n < |s| ==> s[n] in d
    requires forall v :: v in d ==> v in s
    ensures best in d
    ensures forall k :: k in d ==> d[k] <= d[best]
  {
    best := s[0];
    var n := 1;
    while n < |s|
      invariant 1 <= n <= |s|
      invariant best in d
      invariant forall m :: 0 <= m < n ==> d[s[m]] <= d[best]
    {
      var k := s[n];
      if d[k] > d[best] {
        best := k;
      }
      n := n + 1;
    }
    forall k | k in d
      ensures d[k] <= d[best]
    {
      var m :| 0 <= m < |s| && s[m] == k;
    }
  }

  /** The minimum loop of get_crop_value, started from `start` (the most frequent key). */
  method SmallestFrom(s: seq<int>, start: int) returns (r: int)
    requires |s| > 0
    ensures r == start || r in s
    ensures r <= start
    ensures forall x :: x in s ==> r <= x
  {
    r := start;
    var j := 0;
    while j < |s|
      invariant 0 <= j <= |s|
      invariant r == start || r in s[..j]
      invariant r <= start
      invariant forall n :: 0 <= n < j ==> r <= s[n]
    {
      if s[j] < r {
        r := s[j];
      }
      j := j + 1;
    }
    assert s[..j] == s;
  }

  /**
   * get_crop_value: count each value, take a key with the highest count,
   * return it if its count is more than half the samples, else return the
   * smallest sample.
   */
  method GetCropValue(s: seq<int>) returns (r: int)
    requires |s| > 0
    ensures r == CropValueOf(s)
  {
    var d := CountSamples(s);
    var best := MostFrequent(s, d);
    if d[best] > |s| / 2 {
      r := best;
      MajorityWins(s, best);
    } else {
      r := SmallestFrom(s, best);
      forall v ensures !IsMajority(s, v) {
        if v in d {
          assert Count(s, v) <= d[best];
        } else {
          assert Count(s, v) == 0;
        }
      }
      MinimumUnique(s, r);
    }
  }
}
