/** Recovering the key letter of each column (`breakCipher`, first loop):
    score all shifts and keep the first one with the largest score. */
module KeyRecovery {
  import opened Letters
  import opened JsNumber
  import opened Columns
  import opened Profiles
  import opened FrequencyScores

  /** `shift` has the largest weighted count of all 26 shifts, and every
      smaller shift has a strictly smaller one. */
  predicate IsFirstBestShift(segment: string, profile: LanguageProfile, shift: int)
  {
    && 0 <= shift < AlphabetSize
    && (forall other :: 0 <= other < AlphabetSize ==>
          IntScore(segment, profile, other) <= IntScore(segment, profile, shift))
    && (forall other :: 0 <= other < shift ==>
          IntScore(segment, profile, other) < IntScore(segment, profile, shift))
  }

  /** The key recovered for `text`: one character per column of `|key|`;
      for a non-empty column the letter of its first best shift, for an empty
      one `'@'` (all its scores are NaN, so `indexOf(Math.max(...))` is -1). */
  predicate IsRecoveredKey(text: string, profile: LanguageProfile, key: string)
  {
    && |key| >= 1
    && forall i :: 0 <= i < |key| ==>
         if |Column(text, i, |key|)| > 0
         then IsLetter(key[i]) && IsFirstBestShift(Column(text, i, |key|), profile, Shift(key[i]))
         else key[i] == '@'
  }

  lemma RatioOrder(a: int, b: int, n: int)
    requires n > 0
    ensures a as real / n as real <= b as real / n as real <==> a <= b
    ensures a as real / n as real < b as real / n as real <==> a < b
  {
  }

  /** `scores.indexOf(Math.max(...scores))` on the scores of a column is its
      first best shift when the column has characters, and -1 when it has
      none. */
  lemma ChosenShift(segment: string, profile: LanguageProfile, scores: seq<Number>)
    requires |scores| == AlphabetSize
    requires forall shift :: 0 <= shift < AlphabetSize ==> scores[shift] == Score(segment, profile, shift)
    ensures |segment| > 0 ==> IsFirstBestShift(segment, profile, IndexOf(scores, Max(scores)))
    ensures |segment| == 0 ==> IndexOf(scores, Max(scores)) == -1
  {
    var n := |segment|;
    if n > 0 {
      forall shift | 0 <= shift < AlphabetSize
        ensures scores[shift] == Finite(IntScore(segment, profile, shift) as real / n as real)
      {
        ScoreKind(segment, profile, shift);
      }
      FirstMaxIndex(scores);
      var k := IndexOf(scores, Max(scores));
      forall other | 0 <= other < AlphabetSize
        ensures IntScore(segment, profile, other) <= IntScore(segment, profile, k)
        ensures other < k ==> IntScore(segment, profile, other) < IntScore(segment, profile, k)
      {
        RatioOrder(IntScore(segment, profile, other), IntScore(segment, profile, k), n);
      }
    } else {
      ScoreKind(segment, profile, 0);
      MaxIndexWithNaN(scores, 0);
    }
  }

  /** The key loop of `breakCipher`: one letter per column of `keyLength`. */
  method RecoverKey(ciphertext: string, keyLength: nat, profile: LanguageProfile) returns (key: string)
    requires keyLength >= 1
    ensures |key| == keyLength
    ensures IsRecoveredKey(ciphertext, profile, key)
  {
    key := "";
    for i := 0 to keyLength
      invariant |key| == i
      invariant forall t :: 0 <= t < i ==>
        if |Column(ciphertext, t, keyLength)| > 0
        then IsLetter(key[t]) && IsFirstBestShift(Column(ciphertext, t, keyLength), profile, Shift(key[t]))
        else key[t] == '@'
    {
      var segment := ExtractColumn(ciphertext, i, keyLength);
      var scores := CalculateFrequencyScores(segment, profile);
      var maxScoreIndex := IndexOf(scores, Max(scores));
      ChosenShift(segment, profile, scores);
      key := key + [Letter(maxScoreIndex)];
    }
  }
}
