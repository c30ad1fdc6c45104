/** Letter histograms and the Index of Coincidence of a segment
    (`calculateIoC`). */
module Coincidence {
  import opened Letters
  import opened JsNumber

  /** How many characters of `s` sit at alphabet position `k`. */
  function Count(s: string, k: int): nat
  {
    if s == [] then 0
    else Count(s[..|s| - 1], k) + (if Shift(s[|s| - 1]) == k then 1 else 0)
  }

  /** The 26-bucket histogram of the letters `A`–`Z` in `s`; any other
      character falls in no bucket. */
  function Histogram(s: string): (h: seq<nat>)
    ensures |h| == AlphabetSize
  {
    seq(AlphabetSize, k => Count(s, k))
  }

  function Sum(h: seq<int>): int
  {
    if h == [] then 0 else h[0] + Sum(h[1..])
  }

  /** `freqs.reduce((sum, count) => sum + count * (count - 1), 0)`: the number
      of ordered pairs of distinct positions holding the same letter. */
  function CoincidenceSum(h: seq<nat>): int
  {
    if h == [] then 0 else h[0] * (h[0] - 1) + CoincidenceSum(h[1..])
  }

  /** How many characters of `s` are letters `A`–`Z`. */
  function LetterCount(s: string): nat
  {
    if s == [] then 0
    else LetterCount(s[..|s| - 1]) + (if IsLetter(s[|s| - 1]) then 1 else 0)
  }

  /** The Index of Coincidence as the code computes it: the coincidence sum
      over `n * (n - 1)` with `n` the segment's length. For a segment shorter
      than two characters both are 0, and the result is NaN. */
  function IoC(segment: string): Number
  {
    var n := |segment|;
    Ratio(CoincidenceSum(Histogram(segment)), n * (n - 1))
  }

  /** Counting one more character increments its bucket, if it has one. */
  lemma HistogramSnoc(s: string, c: char)
    ensures Histogram(s + [c]) ==
      if IsLetter(c) then Histogram(s)[Shift(c) := Histogram(s)[Shift(c)] + 1] else Histogram(s)
  {
    assert (s + [c])[..|s + [c]| - 1] == s;
  }

  /** The histogram of `segment`, filled bucket by bucket as `calculateIoC` and
      `calculateFrequencyScores` do with their `forEach`. */
  method CountLetters(segment: string) returns (counts: seq<nat>)
    ensures counts == Histogram(segment)
  {
    var freqs := new nat[AlphabetSize](_ => 0);
    assert freqs[..] == Histogram(segment[..0]);
    var i := 0;
    while i < |segment|
      invariant 0 <= i <= |segment|
      invariant freqs[..] == Histogram(segment[..i])
    {
      var c := segment[i];
      var index := Shift(c);
      HistogramSnoc(segment[..i], c);
      assert segment[..i + 1] == segment[..i] + [c];
      if 0 <= index < AlphabetSize {
        freqs[index] := freqs[index] + 1;
      }
      i := i + 1;
    }
    assert segment[..i] == segment;
    counts := freqs[..];
  }

  /** `calculateIoC(segment)` */
  method CalculateIoC(segment: string) returns (ioc: Number)
    ensures ioc == IoC(segment)
    ensures |segment| >= 2 ==> ioc.Finite? && 0.0 <= ioc.value <= 1.0
    ensures |segment| < 2 ==> ioc == NaN
  {
    var freqs := CountLetters(segment);
    var total := |segment|;
    ioc := Ratio(CoincidenceSum(freqs), total * (total - 1));
    IoCBounds(segment);
  }

  lemma {:induction false} SumUpdate(h: seq<int>, k: int, v: int)
    requires 0 <= k < |h|
    ensures Sum(h[k := v]) == Sum(h) - h[k] + v
  {
    if k > 0 {
      assert h[k := v][1..] == h[1..][k - 1 := v];
      SumUpdate(h[1..], k - 1, v);
    }
  }

  lemma {:induction false} SumOfZeros(h: seq<int>)
    requires forall k :: 0 <= k < |h| ==> h[k] == 0
    ensures Sum(h) == 0
  {
    if h != [] {
      SumOfZeros(h[1..]);
    }
  }

  /** The histogram's buckets add up to the number of letters in the segment;
      for a segment of letters only, to its length. */
  lemma {:induction false} HistogramSum(s: string)
    ensures Sum(Histogram(s)) == LetterCount(s) <= |s|
    ensures IsLetters(s) ==> LetterCount(s) == |s|
  {
    if s == [] {
      SumOfZeros(Histogram(s));
    } else {
      var init, c := s[..|s| - 1], s[|s| - 1];
      assert s == init + [c];
      HistogramSum(init);
      HistogramSnoc(init, c);
      if IsLetter(c) {
        SumUpdate(Histogram(init), Shift(c), Histogram(init)[Shift(c)] + 1);
      }
      if IsLetters(s) {
        assert IsLetters(init) by {
          forall i | 0 <= i < |init| ensures IsLetter(init[i]) { assert init[i] == s[i]; }
        }
      }
    }
  }

  /** Pairs of equal letters are among all pairs: the coincidence sum of a
      histogram lies between 0 and S * (S - 1), S being its total. */
  lemma {:induction false} CoincidenceSumBounds(h: seq<nat>)
    ensures 0 <= CoincidenceSum(h) <= Sum(h) * (Sum(h) - 1)
  {
    if h != [] {
      CoincidenceSumBounds(h[1..]);
      var c, rest := h[0], Sum(h[1..]);
      assert rest >= 0 by { SumOfNats(h[1..]); }
      assert c * (c - 1) >= 0;
      assert (c + rest) * (c + rest - 1) == c * (c - 1) + rest * (rest - 1) + 2 * c * rest;
    }
  }

  lemma {:induction false} SumOfNats(h: seq<nat>)
    ensures Sum(h) >= 0
  {
    if h != [] {
      SumOfNats(h[1..]);
    }
  }

  /** The coincidence sum of a segment is at most its number of ordered
      pairs of positions, `n * (n - 1)`. */
  lemma CoincidenceSumOfSegment(segment: string)
    ensures 0 <= CoincidenceSum(Histogram(segment)) <= |segment| * (|segment| - 1)
  {
    var n := |segment|;
    HistogramSum(segment);
    CoincidenceSumBounds(Histogram(segment));
    PairsMonotone(Sum(Histogram(segment)), n);
  }

  lemma PairsMonotone(s: int, n: int)
    requires 0 <= s <= n
    ensures s * (s - 1) <= n * (n - 1)
  {
    assert n * (n - 1) - s * (s - 1) == (n - s) * (n + s - 1);
    assert (n - s) * (n + s - 1) >= 0 by {
      if n > s { assert n + s - 1 >= 0; }
    }
  }

  lemma RatioAtMostOne(num: int, den: int)
    requires 0 <= num <= den && den > 0
    ensures 0.0 <= num as real / den as real <= 1.0
  {
  }

  /** The Index of Coincidence of a segment of two or more characters is a
      number in [0, 1]; that of a shorter segment is NaN (0/0). */
  lemma IoCBounds(segment: string)
    ensures |segment| >= 2 ==> IoC(segment).Finite? && 0.0 <= IoC(segment).value <= 1.0
    ensures |segment| < 2 ==> IoC(segment) == NaN
  {
    var n := |segment|;
    CoincidenceSumOfSegment(segment);
    if n >= 2 {
      assert n * (n - 1) > 0 by { assert n - 1 >= 1; }
      RatioAtMostOne(CoincidenceSum(Histogram(segment)), n * (n - 1));
    } else {
      assert n * (n - 1) == 0;
    }
  }
}
