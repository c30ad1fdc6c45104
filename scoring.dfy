/** Properties of the shift scores of `calculateFrequencyScores`: their range,
    and how they move when the column itself is shifted. */
module ScoreProperties {
  import opened Letters
  import opened JsNumber
  import opened Coincidence
  import opened Profiles
  import opened FrequencyScores
  import opened Decryption
  import opened Arithmetic

  /** The counts a shift reads, in the order it reads them: bucket
      `(j + shift) % 26` for `j` below `m`. */
  function RotatedSum(counts: seq<nat>, shift: nat, m: nat): int
    requires |counts| == AlphabetSize && shift < AlphabetSize && m <= AlphabetSize
  {
    if m == 0 then 0 else RotatedSum(counts, shift, m - 1) + counts[(m - 1 + shift) % AlphabetSize]
  }

  lemma {:induction false} SumAppend(a: seq<int>, b: seq<int>)
    ensures Sum(a + b) == Sum(a) + Sum(b)
  {
    if a != [] {
      assert (a + b)[1..] == a[1..] + b;
      SumAppend(a[1..], b);
    } else {
      assert a + b == b;
    }
  }

  lemma {:induction false} RotatedSumPrefix(counts: seq<nat>, shift: nat, m: nat)
    requires |counts| == AlphabetSize && shift < AlphabetSize && m <= AlphabetSize
    ensures RotatedSum(counts, shift, m) == Sum((counts[shift..] + counts[..shift])[..m])
  {
    var r := counts[shift..] + counts[..shift];
    if m == 0 {
      assert r[..0] == [];
    } else {
      RotatedSumPrefix(counts, shift, m - 1);
      assert r[..m] == r[..m - 1] + [r[m - 1]];
      SumAppend(r[..m - 1], [r[m - 1]]);
      if m - 1 + shift >= AlphabetSize {
        assert (m - 1 + shift) % AlphabetSize == m - 1 + shift - AlphabetSize;
      }
    }
  }

  /** Every shift reads each bucket exactly once. */
  lemma RotatedSumTotal(counts: seq<nat>, shift: nat)
    requires |counts| == AlphabetSize && shift < AlphabetSize
    ensures RotatedSum(counts, shift, AlphabetSize) == Sum(counts)
  {
    var r := counts[shift..] + counts[..shift];
    RotatedSumPrefix(counts, shift, AlphabetSize);
    assert r[..AlphabetSize] == r;
    SumAppend(counts[shift..], counts[..shift]);
    SumAppend(counts[..shift], counts[shift..]);
    assert counts[..shift] + counts[shift..] == counts;
  }

  /** Every count is weighted by between 1 and 26. */
  lemma {:induction false} CountScoreBounds(counts: seq<nat>, profile: LanguageProfile, shift: nat, m: nat)
    requires |counts| == AlphabetSize && shift < AlphabetSize && m <= AlphabetSize
    requires IsAlphabetPermutation(profile.freqOrder)
    ensures RotatedSum(counts, shift, m) <= CountScore(counts, profile, shift, m)
              <= AlphabetSize * RotatedSum(counts, shift, m)
  {
    if m > 0 {
      CountScoreBounds(counts, profile, shift, m - 1);
      RankInRange(profile, m - 1);
      var c, w := counts[(m - 1 + shift) % AlphabetSize], Weight(profile, m - 1);
      var before := RotatedSum(counts, shift, m - 1);
      MulMonotone(1, w, c);
      MulMonotone(w, AlphabetSize, c);
      assert AlphabetSize * (before + c) == AlphabetSize * before + AlphabetSize * c;
    }
  }

  /** With a profile whose order is a permutation, the weighted count of a
      shift over a column of `n` letters lies in [n, 26 n]. */
  lemma IntScoreBounds(segment: string, profile: LanguageProfile, shift: nat)
    requires IsLetters(segment) && shift < AlphabetSize
    requires IsAlphabetPermutation(profile.freqOrder)
    ensures |segment| <= IntScore(segment, profile, shift) <= AlphabetSize * |segment|
  {
    CountScoreBounds(Histogram(segment), profile, shift, AlphabetSize);
    RotatedSumTotal(Histogram(segment), shift);
    HistogramSum(segment);
  }

  /** So every score of a non-empty column of letters is a number between 1
      and 26: the weighted average of weights in [1, 26]. */
  lemma ScoreBounds(segment: string, profile: LanguageProfile, shift: nat)
    requires IsLetters(segment) && |segment| > 0 && shift < AlphabetSize
    requires IsAlphabetPermutation(profile.freqOrder)
    ensures Score(segment, profile, shift).Finite?
    ensures 1.0 <= Score(segment, profile, shift).value <= 26.0
  {
    ScoreKind(segment, profile, shift);
    IntScoreBounds(segment, profile, shift);
    RatioBetween(IntScore(segment, profile, shift) as real, |segment| as real);
  }

  lemma RatioBetween(v: real, n: real)
    requires n > 0.0 && n <= v <= 26.0 * n
    ensures 1.0 <= v / n <= 26.0
  {
    var q := v / n;
    assert q * n == v;
    assert (q - 26.0) * n == v - 26.0 * n <= 0.0;
    assert (q - 1.0) * n == v - n >= 0.0;
  }

  /** Shifting every letter of a column by the key letter `k` moves each
      letter to the bucket `k` places further on. */
  lemma {:induction false} CountEnciphered(segment: string, k: char, x: int)
    requires IsLetters(segment) && IsLetter(k) && 0 <= x < AlphabetSize
    ensures Count(Encipher(segment, [k]), (x + Shift(k)) % AlphabetSize) == Count(segment, x)
  {
    if segment != [] {
      var n := |segment|;
      var init := segment[..n - 1];
      EncipherInit(segment, k);
      CountEnciphered(init, k, x);
      var e := Encipher(segment, [k]);
      var a, b := Shift(segment[n - 1]), Shift(k);
      assert Shift(e[n - 1]) == (a + b) % AlphabetSize;
      ModWrap(a + b, AlphabetSize);
      ModWrap(x + b, AlphabetSize);
    }
  }

  lemma EncipherInit(segment: string, k: char)
    requires IsLetters(segment) && IsLetter(k) && |segment| > 0
    ensures IsLetters(segment[..|segment| - 1])
    ensures Encipher(segment, [k])[..|segment| - 1] == Encipher(segment[..|segment| - 1], [k])
  {
  }

  lemma {:induction false} CountScoreRotated(counts: seq<nat>, moved: seq<nat>, profile: LanguageProfile, shift: nat, k: nat, m: nat)
    requires |counts| == AlphabetSize && |moved| == AlphabetSize && shift < AlphabetSize && k < AlphabetSize
    requires m <= AlphabetSize
    requires forall x :: 0 <= x < AlphabetSize ==> moved[(x + k) % AlphabetSize] == counts[x]
    ensures CountScore(moved, profile, (shift + k) % AlphabetSize, m) == CountScore(counts, profile, shift, m)
  {
    if m > 0 {
      CountScoreRotated(counts, moved, profile, shift, k, m - 1);
      var y := (m - 1 + shift) % AlphabetSize;
      ModShuffle(m - 1, shift, k);
      assert moved[(y + k) % AlphabetSize] == counts[y];
    }
  }

  /** `((j + s) % 26 + k) % 26 == (j + (s + k) % 26) % 26` for small operands. */
  lemma ModShuffle(j: nat, s: nat, k: nat)
    requires j < AlphabetSize && s < AlphabetSize && k < AlphabetSize
    ensures ((j + s) % AlphabetSize + k) % AlphabetSize == (j + (s + k) % AlphabetSize) % AlphabetSize
  {
    ModWrap(j + s, AlphabetSize);
    ModWrap(s + k, AlphabetSize);
    ModWrap((j + s) % AlphabetSize + k, AlphabetSize);
    ModWrap(j + (s + k) % AlphabetSize, AlphabetSize);
  }

  /** Enciphering a column with the key letter `k` moves every score `k`
      places: the enciphered column scores shift `s + k` exactly as the
      original scores `s`. The best shift of a column thus moves with its key
      letter, up to the first-of-equals choice. */
  lemma ScoreEquivariant(segment: string, profile: LanguageProfile, k: char, shift: nat)
    requires IsLetters(segment) && IsLetter(k) && shift < AlphabetSize
    ensures IntScore(Encipher(segment, [k]), profile, (shift + Shift(k)) % AlphabetSize) ==
            IntScore(segment, profile, shift)
  {
    var counts, moved := Histogram(segment), Histogram(Encipher(segment, [k]));
    forall x | 0 <= x < AlphabetSize
      ensures moved[(x + Shift(k)) % AlphabetSize] == counts[x]
    {
      CountEnciphered(segment, k, x);
    }
    CountScoreRotated(counts, moved, profile, shift, Shift(k), AlphabetSize);
  }
}
