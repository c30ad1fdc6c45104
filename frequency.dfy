/** Scoring the 26 candidate shifts of one column against a language's
    letter ranking (`calculateFrequencyScores`). */
module FrequencyScores {
  import opened Letters
  import opened JsNumber
  import opened Coincidence
  import opened Profiles

  /** The score of `shift` after the first `m` letters, as the code sums it:
      the relative frequency of the column letter `(j + shift) % 26` times the
      weight of the plain letter `j`. */
  function PartialScore(counts: seq<nat>, total: nat, profile: LanguageProfile, shift: nat, m: nat): Number
    requires |counts| == AlphabetSize && shift < AlphabetSize && m <= AlphabetSize
  {
    if m == 0 then Finite(0.0)
    else Add(PartialScore(counts, total, profile, shift, m - 1),
             Mul(Ratio(counts[(m - 1 + shift) % AlphabetSize], total), Weight(profile, m - 1)))
  }

  /** `calculateFrequencyScores(segment, language)[shift]` */
  function Score(segment: string, profile: LanguageProfile, shift: nat): Number
    requires shift < AlphabetSize
  {
    PartialScore(Histogram(segment), |segment|, profile, shift, AlphabetSize)
  }

  /** The same sum over raw counts instead of relative frequencies. */
  function CountScore(counts: seq<nat>, profile: LanguageProfile, shift: nat, m: nat): int
    requires |counts| == AlphabetSize && shift < AlphabetSize && m <= AlphabetSize
  {
    if m == 0 then 0
    else CountScore(counts, profile, shift, m - 1) + counts[(m - 1 + shift) % AlphabetSize] * Weight(profile, m - 1)
  }

  /** The weighted letter count of a shift: the sum, over the plain letters
      `j`, of how often the column holds `(j + shift) % 26` times the weight
      of `j`. */
  function IntScore(segment: string, profile: LanguageProfile, shift: nat): int
    requires shift < AlphabetSize
  {
    CountScore(Histogram(segment), profile, shift, AlphabetSize)
  }

  /** Adding one more relative frequency times its weight. */
  lemma ScaleStep(a: int, c: int, w: int, n: int)
    requires n > 0
    ensures Add(Finite(a as real / n as real), Mul(Ratio(c, n), w)) == Finite((a + c * w) as real / n as real)
  {
    var f := c as real / n as real;
    assert Mul(Ratio(c, n), w) == Finite(f * w as real);
    assert f * w as real == (c * w) as real / n as real;
  }

  /** Every bucket is divided by the same column length, so over a non-empty
      column the code's sum is the weighted count over that length. */
  lemma {:induction false} PartialScoreScaled(counts: seq<nat>, total: nat, profile: LanguageProfile, shift: nat, m: nat)
    requires |counts| == AlphabetSize && shift < AlphabetSize && m <= AlphabetSize
    requires total > 0
    ensures PartialScore(counts, total, profile, shift, m) ==
      Finite(CountScore(counts, profile, shift, m) as real / total as real)
  {
    if m > 0 {
      PartialScoreScaled(counts, total, profile, shift, m - 1);
      ScaleStep(CountScore(counts, profile, shift, m - 1), counts[(m - 1 + shift) % AlphabetSize],
                Weight(profile, m - 1), total);
    }
  }

  /** Over an empty column every frequency is 0/0, and every partial score
      after the first letter is NaN. */
  lemma {:induction false} PartialScoreOfNothing(counts: seq<nat>, profile: LanguageProfile, shift: nat, m: nat)
    requires |counts| == AlphabetSize && shift < AlphabetSize && 1 <= m <= AlphabetSize
    requires forall k :: 0 <= k < AlphabetSize ==> counts[k] == 0
    ensures PartialScore(counts, 0, profile, shift, m) == NaN
  {
    if m > 1 {
      PartialScoreOfNothing(counts, profile, shift, m - 1);
    }
  }

  /** A non-empty column scores every shift with its weighted count over the
      column's length; an empty one scores every shift NaN. */
  lemma ScoreKind(segment: string, profile: LanguageProfile, shift: nat)
    requires shift < AlphabetSize
    ensures |segment| > 0 ==>
      Score(segment, profile, shift) == Finite(IntScore(segment, profile, shift) as real / |segment| as real)
    ensures |segment| == 0 ==> Score(segment, profile, shift) == NaN
  {
    if |segment| > 0 {
      PartialScoreScaled(Histogram(segment), |segment|, profile, shift, AlphabetSize);
    } else {
      assert segment == [];
      PartialScoreOfNothing(Histogram(segment), profile, shift, AlphabetSize);
    }
  }

  /** `calculateFrequencyScores(segment, language)` */
  method CalculateFrequencyScores(segment: string, profile: LanguageProfile) returns (scores: seq<Number>)
    ensures |scores| == AlphabetSize
    ensures forall shift :: 0 <= shift < AlphabetSize ==> scores[shift] == Score(segment, profile, shift)
    ensures |segment| > 0 ==> forall shift :: 0 <= shift < AlphabetSize ==>
      scores[shift] == Finite(IntScore(segment, profile, shift) as real / |segment| as real)
    ensures |segment| == 0 ==> forall shift :: 0 <= shift < AlphabetSize ==> scores[shift] == NaN
  {
    var segmentFreqs := CountLetters(segment);
    var totalLetters := |segment|;
    var segmentFreqsNormalized := seq(AlphabetSize, k requires 0 <= k < AlphabetSize => Ratio(segmentFreqs[k], totalLetters));
    var result := new Number[AlphabetSize](_ => Finite(0.0));
    for i := 0 to AlphabetSize
      invariant forall shift :: 0 <= shift < i ==> result[shift] == Score(segment, profile, shift)
    {
      var score := Finite(0.0);
      for j := 0 to AlphabetSize
        invariant score == PartialScore(segmentFreqs, totalLetters, profile, i, j)
      {
        var shiftedIndex := (j + i) % AlphabetSize;
        var freqIndex := IndexOfChar(profile.freqOrder, Letter(j));
        score := Add(score, Mul(segmentFreqsNormalized[shiftedIndex], AlphabetSize - freqIndex));
      }
      result[i] := score;
    }
    scores := result[..];
    forall shift | 0 <= shift < AlphabetSize
      ensures |segment| > 0 ==> scores[shift] == Finite(IntScore(segment, profile, shift) as real / |segment| as real)
      ensures |segment| == 0 ==> scores[shift] == NaN
    {
      ScoreKind(segment, profile, shift);
    }
  }
}
