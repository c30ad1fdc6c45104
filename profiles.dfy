/** The language table `languageConfigs`: for each language, the Index of
    Coincidence expected of its plain text and its letters ordered from most
    to least frequent. */
module Profiles {
  import opened Letters

  datatype LanguageProfile = LanguageProfile(expectedIoC: real, freqOrder: string)

  const English := LanguageProfile(0.065, "ETAOINSHRDLCUMWFGYPBVKJXQZ")
  const Portuguese := LanguageProfile(0.072, "AEOSRINDMTUCLPVQGBFZHJXKWY")

  const LanguageConfigs: map<string, LanguageProfile> := map["EN" := English, "PT" := Portuguese]

  /** `s.indexOf(c)` on a string: the first position of `c`, or -1. */
  function IndexOfChar(s: string, c: char): int
  {
    if s == [] then -1
    else if s[0] == c then 0
    else
      var k := IndexOfChar(s[1..], c);
      if k < 0 then -1 else k + 1
  }

  /** The frequency rank of the letter with alphabet position `j`
      (`freqs.indexOf(String.fromCharCode('A'.charCodeAt(0) + j))`). */
  function Rank(profile: LanguageProfile, j: int): int
    requires 0 <= j < AlphabetSize
  {
    IndexOfChar(profile.freqOrder, Letter(j))
  }

  /** The weight `26 - rank` a letter contributes to a shift's score. */
  function Weight(profile: LanguageProfile, j: int): int
    requires 0 <= j < AlphabetSize
  {
    AlphabetSize - Rank(profile, j)
  }

  /** The order has 26 characters and holds each of the 26 letters, so every
      letter occurs in it exactly once. */
  predicate IsAlphabetPermutation(order: string)
  {
    && |order| == AlphabetSize
    && forall j :: 0 <= j < AlphabetSize ==> Letter(j) in order
  }

  lemma {:induction false} IndexOfCharFound(s: string, c: char)
    requires c in s
    ensures 0 <= IndexOfChar(s, c) < |s|
    ensures s[IndexOfChar(s, c)] == c
  {
    if s[0] != c {
      assert c in s[1..];
      IndexOfCharFound(s[1..], c);
    }
  }

  /** In a profile whose order is a permutation of the alphabet, every letter
      has a rank in [0, 25] and so a weight in [1, 26], and the rank is the
      letter's position in the order. */
  lemma RankInRange(profile: LanguageProfile, j: int)
    requires IsAlphabetPermutation(profile.freqOrder) && 0 <= j < AlphabetSize
    ensures 0 <= Rank(profile, j) < AlphabetSize
    ensures profile.freqOrder[Rank(profile, j)] == Letter(j)
    ensures 1 <= Weight(profile, j) <= AlphabetSize
  {
    IndexOfCharFound(profile.freqOrder, Letter(j));
  }

  /** Both frequency orders in the table are permutations of `A`–`Z`. */
  lemma TableOrdersArePermutations()
    ensures forall tag :: tag in LanguageConfigs ==> IsAlphabetPermutation(LanguageConfigs[tag].freqOrder)
  {
  }
}
