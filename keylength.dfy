/** Estimating the key length (`estimateKeyLength`): for every candidate
    length from 1 to 20, average the Index of Coincidence of its columns and
    keep the length whose average comes closest to the language's expected
    value. */
module KeyLength {
  import opened Arithmetic
  import opened JsNumber
  import opened Coincidence
  import opened Columns
  import opened Profiles

  const MaxKeyLength := 20

  /** `averageIoC` after adding the Index of Coincidence of the first `m`
      columns of `keyLength`. */
  function ColumnIoCSum(text: string, keyLength: nat, m: nat): Number
    requires keyLength >= 1
  {
    if m == 0 then Finite(0.0)
    else Add(ColumnIoCSum(text, keyLength, m - 1), IoC(Column(text, m - 1, keyLength)))
  }

  /** The average Index of Coincidence of the columns of `keyLength`. */
  function AverageIoC(text: string, keyLength: nat): Number
    requires keyLength >= 1
  {
    Div(ColumnIoCSum(text, keyLength, keyLength), keyLength)
  }

  /** `Math.abs(averageIoC - config.expectedIoC)` */
  function Difference(text: string, profile: LanguageProfile, keyLength: nat): Number
    requires keyLength >= 1
  {
    Abs(Sub(AverageIoC(text, keyLength), profile.expectedIoC))
  }

  /** A candidate length takes part in the comparison when its average is a
      number; a NaN average loses every `<`. */
  predicate Qualifies(text: string, keyLength: nat)
    requires keyLength >= 1
  {
    AverageIoC(text, keyLength).Finite?
  }

  /** `keyLength` is the length the estimator settles on: among the qualifying
      candidates in [1, 20] its difference is smallest, and every smaller
      qualifying candidate has a strictly larger difference (the first
      minimum wins ties); with no qualifying candidate it is 1. */
  predicate IsBestKeyLength(text: string, profile: LanguageProfile, keyLength: nat)
  {
    && 1 <= keyLength <= MaxKeyLength
    && (!Qualifies(text, keyLength) ==> keyLength == 1)
    && (forall other :: 1 <= other <= MaxKeyLength && Qualifies(text, other) ==>
          && Qualifies(text, keyLength)
          && Difference(text, profile, keyLength).value <= Difference(text, profile, other).value)
    && (forall other :: 1 <= other < keyLength && Qualifies(text, other) ==>
          Difference(text, profile, keyLength).value < Difference(text, profile, other).value)
  }

  /** The first `m` columns of `keyLength` all have two or more characters. */
  predicate ColumnsLong(text: string, keyLength: nat, m: nat)
    requires keyLength >= 1
  {
    forall i :: 0 <= i < m ==> |Column(text, i, keyLength)| >= 2
  }

  /** The running sum is a number in [0, m] when the first `m` columns all
      have two or more characters, and NaN otherwise. */
  lemma {:induction false} ColumnIoCSumKind(text: string, keyLength: nat, m: nat)
    requires keyLength >= 1
    ensures ColumnsLong(text, keyLength, m) ==>
      ColumnIoCSum(text, keyLength, m).Finite? && 0.0 <= ColumnIoCSum(text, keyLength, m).value <= m as real
    ensures !ColumnsLong(text, keyLength, m) ==> ColumnIoCSum(text, keyLength, m) == NaN
  {
    if m > 0 {
      ColumnIoCSumKind(text, keyLength, m - 1);
      var column := Column(text, m - 1, keyLength);
      IoCBounds(column);
      assert ColumnsLong(text, keyLength, m) <==>
        ColumnsLong(text, keyLength, m - 1) && |column| >= 2;
    }
  }

  /** All columns of `keyLength` have two or more characters exactly when the
      text has at least `2 * keyLength` characters. */
  lemma ColumnsLongEnough(text: string, keyLength: nat)
    requires keyLength >= 1
    ensures ColumnsLong(text, keyLength, keyLength) <==> |text| >= 2 * keyLength
  {
    var n := |text|;
    if n >= 2 * keyLength {
      forall i | 0 <= i < keyLength ensures |Column(text, i, keyLength)| >= 2 {
        ColumnLength(text, i, keyLength);
        DivAtLeastIff(n - i + keyLength - 1, keyLength, 2);
      }
    } else {
      var last := keyLength - 1;
      ColumnLength(text, last, keyLength);
      DivAtLeastIff(n, keyLength, 2);
      assert |Column(text, last, keyLength)| < 2;
    }
  }

  lemma MeanAtMostOne(sum: real, k: nat)
    requires k >= 1 && 0.0 <= sum <= k as real
    ensures 0.0 <= sum / k as real <= 1.0
  {
  }

  /** The average of a candidate is a number in [0, 1] exactly when the text
      has at least two characters per column, and NaN otherwise. */
  lemma AverageIoCKind(text: string, keyLength: nat)
    requires keyLength >= 1
    ensures Qualifies(text, keyLength) <==> |text| >= 2 * keyLength
    ensures Qualifies(text, keyLength) ==> 0.0 <= AverageIoC(text, keyLength).value <= 1.0
    ensures !Qualifies(text, keyLength) ==> AverageIoC(text, keyLength) == NaN
  {
    ColumnIoCSumKind(text, keyLength, keyLength);
    ColumnsLongEnough(text, keyLength);
    var sum := ColumnIoCSum(text, keyLength, keyLength);
    if sum.Finite? {
      MeanAtMostOne(sum.value, keyLength);
    }
  }

  /** A candidate qualifies exactly when the text has at least two characters
      per column; then its difference is a number, otherwise it is NaN. */
  lemma QualifiesIff(text: string, profile: LanguageProfile, keyLength: nat)
    requires keyLength >= 1
    ensures Qualifies(text, keyLength) <==> |text| >= 2 * keyLength
    ensures Qualifies(text, keyLength) ==> Difference(text, profile, keyLength).Finite?
    ensures !Qualifies(text, keyLength) ==> Difference(text, profile, keyLength) == NaN
  {
    AverageIoCKind(text, keyLength);
  }

  /** The state of the search after the candidates below `upto`:
      `bestDifference` is still `Infinity` while no candidate qualified, and
      is otherwise the difference of `bestLength`, the first qualifying
      candidate with the smallest difference so far. */
  predicate BestSoFar(text: string, profile: LanguageProfile, upto: nat, bestLength: nat, bestDifference: Number)
  {
    && 1 <= upto <= MaxKeyLength + 1
    && 1 <= bestLength <= MaxKeyLength
    && (bestDifference.PosInf? ==>
          bestLength == 1 && forall other :: 1 <= other < upto ==> !Qualifies(text, other))
    && (!bestDifference.PosInf? ==>
          && bestLength < upto
          && Qualifies(text, bestLength)
          && bestDifference == Difference(text, profile, bestLength)
          && (forall other :: 1 <= other < upto && Qualifies(text, other) ==>
                bestDifference.value <= Difference(text, profile, other).value)
          && (forall other :: 1 <= other < bestLength && Qualifies(text, other) ==>
                bestDifference.value < Difference(text, profile, other).value))
  }

  /** One round of the search: `if (iocDifference < bestIoCDifference)`
      replaces the best candidate exactly when the new one is strictly better. */
  lemma SearchStep(text: string, profile: LanguageProfile, keyLength: nat, bestLength: nat, bestDifference: Number)
    requires 1 <= keyLength <= MaxKeyLength
    requires BestSoFar(text, profile, keyLength, bestLength, bestDifference)
    ensures var difference := Difference(text, profile, keyLength);
      if Less(difference, bestDifference)
      then BestSoFar(text, profile, keyLength + 1, keyLength, difference)
      else BestSoFar(text, profile, keyLength + 1, bestLength, bestDifference)
  {
  }

  /** When the search is over, the best candidate so far is the estimate. */
  lemma SearchDone(text: string, profile: LanguageProfile, bestLength: nat, bestDifference: Number)
    requires BestSoFar(text, profile, MaxKeyLength + 1, bestLength, bestDifference)
    ensures IsBestKeyLength(text, profile, bestLength)
  {
  }

  /** `estimateKeyLength(ciphertext, language)` */
  method EstimateKeyLength(ciphertext: string, profile: LanguageProfile) returns (bestLength: nat)
    ensures IsBestKeyLength(ciphertext, profile, bestLength)
    ensures |ciphertext| >= 2 ==> 2 * bestLength <= |ciphertext|
    ensures |ciphertext| < 2 ==> bestLength == 1
  {
    bestLength := 1;
    var bestIoCDifference := PosInf;
    var keyLength := 1;
    while keyLength <= MaxKeyLength
      invariant BestSoFar(ciphertext, profile, keyLength, bestLength, bestIoCDifference)
    {
      var averageIoC := Finite(0.0);
      var i := 0;
      while i < keyLength
        invariant 0 <= i <= keyLength
        invariant averageIoC == ColumnIoCSum(ciphertext, keyLength, i)
      {
        var segment := ExtractColumn(ciphertext, i, keyLength);
        var ioc := CalculateIoC(segment);
        averageIoC := Add(averageIoC, ioc);
        i := i + 1;
      }
      averageIoC := Div(averageIoC, keyLength);
      var iocDifference := Abs(Sub(averageIoC, profile.expectedIoC));
      SearchStep(ciphertext, profile, keyLength, bestLength, bestIoCDifference);
      if Less(iocDifference, bestIoCDifference) {
        bestIoCDifference := iocDifference;
        bestLength := keyLength;
      }
      keyLength := keyLength + 1;
    }
    SearchDone(ciphertext, profile, bestLength, bestIoCDifference);
    QualifiesIff(ciphertext, profile, bestLength);
    if |ciphertext| >= 2 {
      QualifiesIff(ciphertext, profile, 1);
    }
  }
}
