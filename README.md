# Vigenère cipher breaker, modelled in Dafny

`vigenere.js` breaks a Vigenère cipher over the 26 letters `A`–`Z` without
knowing the key. It works in four stages:

1. It normalises the input: upper-case it, then delete every character
   outside `A`–`Z`.
2. It estimates the key length. Every candidate length L from 1 to 20 splits
   the text into L stride-columns. The candidate whose average Index of
   Coincidence lies closest to the language's expected value wins. Ties go to
   the first candidate.
3. It recovers one key letter per column. Each of the 26 shifts is scored
   against the language's ranking of letters by frequency. The first shift
   with the largest score wins.
4. It deciphers with `(c − k[i mod L] + 26) mod 26`.

The model has one Dafny module per stage. Every loop of the program becomes a
`method` with its loop and invariants:

- the histogram filled in a 26-slot `array`;
- the column built by appending;
- the nested key-length search;
- the double scoring loop writing into a 26-slot `array`;
- the key and plaintext loops.

Each method is proved against a specification function or predicate. Lemmas
then prove what the program promises about those specifications.

JavaScript numbers are modelled by `JsNumber.Number`. It has exact reals for
finite values, plus `Infinity`, `-Infinity` and `NaN`. The code relies on two
degenerate cases, and the model keeps both:

- **Short columns.** A column shorter than two characters has Index of
  Coincidence `0/0 = NaN`. A NaN distance loses every `<`, so that candidate
  length is skipped. A length L is therefore a candidate exactly when the
  text has at least 2L characters (`KeyLength.QualifiesIff`). When no length
  qualifies, the answer stays 1.
- **Empty columns.** An empty column scores every shift `NaN`. Then
  `Math.max` is `NaN`, `indexOf` returns −1, and the key character is
  `String.fromCharCode(64)`, which is `'@'`. This only happens on an empty
  ciphertext. There the program returns the key `"@"` and an empty
  plaintext (`Cipher.BreakCipher`).

The JavaScript operations the code applies to numbers and strings are
definitions in the model, used by the members in the table below:

- `Normalization.Normalize`, with `UpperCase`, `UpperOf` and `KeepLetters`,
  is the expression at vigenere.js:109.
- `JsNumber.Ratio`, `Add`, `Mul`, `Div`, `Sub` and `Abs` are the arithmetic
  at vigenere.js:24, 39-42 and 61-69, NaN and the infinities included.
- `JsNumber.Less` is the `<` at vigenere.js:43. It is false whenever either
  side is NaN, which is why a NaN distance never replaces the best so far.
- `JsNumber.Max` and `JsNumber.IndexOf` are `Math.max(...)` and the
  strict-equality `indexOf` at vigenere.js:87.
- `Profiles.IndexOfChar` is the string `indexOf` at vigenere.js:68.

The language is a parameter: a `Profiles.LanguageProfile`. The program's
table holds `English` and `Portuguese`.

**Degenerate inputs.**

- The code signals no error for an input that normalises to fewer than two
  letters. It returns key length 1.
- A one-letter column has a NaN Index of Coincidence, not one in [0, 1].

## Model

| member | source | states |
|---|---|---|
| `Normalization.NormalizeIsLetters` | vigenere.js:109 | the normalised text contains only `A`–`Z` |
| `Normalization.NormalizeAscii` | vigenere.js:109 | an ASCII capital is kept; a small letter is folded to its capital; any other ASCII character is dropped |
| `Normalization.NormalizeAppend` | vigenere.js:109 | normalisation works character by character and keeps the order: normalising a concatenation concatenates the normal forms |
| `Normalization.NormalizeLetters` | vigenere.js:109 | text of letters `A`–`Z` is left unchanged |
| `Normalization.NormalizeIdempotent` | vigenere.js:109 | normalising twice is the same as normalising once |
| `Normalization.NormalizeExample` | vigenere.js:109 | `"Hello, World! 123"` normalises to `"HELLOWORLD"` |
| `Letters.Letter` | vigenere.js:88 | `'A' + k` has alphabet position k; it is a letter exactly when k ≥ 0, and k = −1 gives `'@'` |
| `Profiles.TableOrdersArePermutations` | vigenere.js:3-12 | both `freqOrder` strings in the language table are permutations of `A`–`Z` |
| `Profiles.RankInRange` | vigenere.js:68-69 | under a permutation order, every letter's `indexOf` rank is in [0, 25] and names that letter, so its weight `26 − rank` is in [1, 26] |
| `Coincidence.CountLetters` | vigenere.js:15-21 | the 26 buckets filled by the loop hold, for each letter, how many times it occurs in the segment |
| `Coincidence.HistogramSum` | vigenere.js:15-21 | the buckets add up to the number of letters in the segment, which is its length when it holds only letters |
| `Coincidence.CoincidenceSumBounds` | vigenere.js:24 | the sum of c·(c − 1) over the buckets lies between 0 and S·(S − 1), where S is their total |
| `Coincidence.CoincidenceSumOfSegment` | vigenere.js:14-24 | a segment's coincidence sum lies between 0 and n·(n − 1) |
| `Coincidence.CalculateIoC` | vigenere.js:14-25 | returns the coincidence sum over n·(n − 1), as a JavaScript number: a number in [0, 1] for a segment of two or more characters, NaN for a shorter one |
| `Coincidence.IoCBounds` | vigenere.js:14-25 | for a segment of two or more characters the Index of Coincidence lies in [0, 1]; for a shorter one it is NaN |
| `Columns.ExtractColumn` | vigenere.js:35-38 | the stride loop builds the column at `offset`, which holds the characters at positions `offset`, `offset + L`, … |
| `Columns.ColumnAt` | vigenere.js:36-37 | the k-th character of column `offset` is the text's character at `offset + k·L` |
| `Columns.ColumnOfPosition` | vigenere.js:36-37 | every position j of the text appears in column `j mod L`, at index `j div L` |
| `Columns.ColumnLength` | vigenere.js:36-37 | the column at `offset` has ⌈(n − offset)/L⌉ characters, or none when `offset` ≥ n |
| `Columns.ColumnSnoc` | vigenere.js:36-37 | appending a character to the text appends it to exactly the one column whose positions it continues |
| `Columns.ColumnsPartition` | vigenere.js:34-38 | the L columns partition the text: their lengths add up to its length |
| `KeyLength.ColumnIoCSumKind` | vigenere.js:34-40 | the running sum of column IoCs is a number in [0, m] when every column has at least two characters, and NaN otherwise |
| `KeyLength.AverageIoCKind` | vigenere.js:41 | the average IoC of a length is a number in [0, 1] when all its columns have at least two characters, and NaN otherwise |
| `KeyLength.ColumnsLongEnough` | vigenere.js:34-38 | all L columns have at least two characters exactly when the text has at least 2L |
| `KeyLength.QualifiesIff` | vigenere.js:41-43 | a length has a defined distance from `expectedIoC` exactly when the text has at least 2L characters; otherwise the distance is NaN and the candidate is skipped |
| `JsNumber.LessSemantics` | vigenere.js:43 | `<` is false whenever NaN is on either side, never holds both ways, and every number other than NaN and `Infinity` is below `Infinity` |
| `KeyLength.SearchStep` | vigenere.js:43-46 | one strict-`<` update keeps the best length so far the first closest candidate among those seen |
| `KeyLength.EstimateKeyLength` | vigenere.js:27-50 | returns a length in [1, 20]: the smallest qualifying length whose distance to `expectedIoC` is minimal among all qualifying lengths, or 1 when none qualifies; the result is at most half the text length |
| `JsNumber.FirstMaxIndex` | vigenere.js:87 | on finite numbers, `indexOf(Math.max(...))` is the first index holding the largest value |
| `JsNumber.MaxIndexWithNaN` | vigenere.js:87 | when any value is NaN, `indexOf(Math.max(...))` is −1 |
| `FrequencyScores.PartialScoreScaled` | vigenere.js:61-70 | dividing every bucket by the same column length gives, for every shift, the weighted count over that length |
| `FrequencyScores.ScoreKind` | vigenere.js:61-71 | a non-empty column scores every shift with its weighted count Σ count·weight over the column length; an empty column scores every shift NaN |
| `FrequencyScores.CalculateFrequencyScores` | vigenere.js:52-75 | returns exactly 26 scores; score s sums the frequency of letter `(j + s) mod 26` times the weight of letter j; for a non-empty column this is its weighted count over its length, and for an empty one NaN |
| `ScoreProperties.IntScoreBounds` | vigenere.js:64-72 | under a permutation order, each shift's weighted count over a column of n letters lies in [n, 26n] |
| `ScoreProperties.ScoreBounds` | vigenere.js:64-72 | under a permutation order, every score of a non-empty column of letters is a number in [1, 26] |
| `ScoreProperties.RotatedSumTotal` | vigenere.js:66-69 | each shift reads every one of the 26 buckets exactly once |
| `ScoreProperties.ScoreEquivariant` | vigenere.js:64-72 | enciphering a column with key letter k moves its scores k places: shift s + k of the enciphered column scores what shift s of the original did |
| `KeyRecovery.ChosenShift` | vigenere.js:86-87 | for a non-empty column the chosen index is the first shift of largest weighted count; for an empty one it is −1 |
| `KeyRecovery.RecoverKey` | vigenere.js:81-89 | the key has one character per column; a non-empty column contributes `'A' +` its first best shift, and an empty one contributes `'@'` |
| `Decryption.LetterRoundTrip` | vigenere.js:93-96 | subtracting a key letter undoes adding it, and adding undoes subtracting |
| `Decryption.DecipherIsLetters` | vigenere.js:93-96 | deciphering and enciphering letters with a key of letters give letters |
| `Decryption.DecipherEncipher` | vigenere.js:91-97 | deciphering with a key recovers any plaintext enciphered with that key |
| `Decryption.EncipherDecipher` | vigenere.js:91-97 | enciphering the deciphered text with the same key gives back the ciphertext |
| `Decryption.Decrypt` | vigenere.js:91-97 | the plaintext has the ciphertext's length and only letters; each character is `(c − k[i mod L] + 26) mod 26`, and enciphering it with the key gives back the ciphertext |
| `Cipher.RecoveredKeyIsLetters` | vigenere.js:81-89 | when the text is at least as long as the key, every column is non-empty, so every key character is a letter |
| `Cipher.BreakCipher` | vigenere.js:77-100 | the key has the estimated length and holds each column's first best shift; the plaintext deciphers the ciphertext with it and enciphers back to it; an empty ciphertext gives the key `"@"` and an empty plaintext |
| `Cipher.Analyze` | vigenere.js:109-111 | the normalised input consists of letters and is broken as above: the key has the estimated length and holds each column's first best shift; the plaintext deciphers the normalised input with it and enciphers back to it; an input with no letters gives the key `"@"` and an empty plaintext |

## Left out

- Reading `pt.txt`, writing `decryptedText.txt`, the error messages and the console timing and logging (vigenere.js:104-123). These are I/O; `Cipher.Analyze` takes the file's text as a parameter and returns the key and plaintext.
- The fixed choice `const language = 'PT'` (vigenere.js:102). The profile is a parameter instead. `Profiles.LanguageConfigs` holds the table. A lookup of a language missing from the table, which throws in the code, is not modelled.
- IEEE-754 rounding. Finite numbers are exact reals: sums, averages, `Math.abs` distances and normalised frequencies. A tie or order that rounding would create or break is therefore not modelled. NaN and the infinities are modelled.
- Nothing claims that the recovered key is the one that enciphered the text. Whether it is depends on the statistics of the plaintext, not on the code.
- `toUpperCase` (`Normalization.UpperOf`) is modelled for every character whose upper case contains a letter `A`–`Z`. Other characters are kept unchanged instead of upper-cased. Their upper case holds no `A`–`Z`, so the normalised text is the same. Strings are sequences of code points, not UTF-16 code units, which again leaves the `A`–`Z` letters unchanged.
- Out-of-range characters in `calculateFrequencyScores` (vigenere.js:55-58). There, `segmentFreqs[index]++` has no bounds check, so such a character writes to a slot or property outside 0–25. The scoring loop reads only slots 0–25, so `Coincidence.CountLetters` is shared with `calculateIoC`.
- `Decryption.Decrypt`: it requires a ciphertext of letters, and a key of letters when the ciphertext is non-empty. `breakCipher` is only called on normalised text, and its key has letters whenever the text is non-empty.
