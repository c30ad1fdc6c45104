/** The whole attack (`breakCipher`) and the normalisation that precedes it:
    estimate the key length, recover one key letter per column, decipher. */
module Cipher {
  import opened Letters
  import opened Normalization
  import opened Columns
  import opened Profiles
  import opened KeyLength
  import opened KeyRecovery
  import opened Decryption

  /** When the text has at least as many characters as the key, every column
      has one, so every key character is a letter. */
  lemma RecoveredKeyIsLetters(text: string, profile: LanguageProfile, key: string)
    requires IsRecoveredKey(text, profile, key) && |key| <= |text|
    ensures IsLetters(key)
  {
    forall i | 0 <= i < |key| ensures IsLetter(key[i]) {
      assert |Column(text, i, |key|)| > 0;
    }
  }

  /** `breakCipher(ciphertext, language)` on a normalised ciphertext. The key
      has the estimated length; deciphering it with the key gives a plaintext
      that enciphers back to it. An empty ciphertext yields the key `"@"`. */
  method BreakCipher(ciphertext: string, profile: LanguageProfile) returns (key: string, plaintext: string)
    requires IsLetters(ciphertext)
    ensures IsBestKeyLength(ciphertext, profile, |key|)
    ensures IsRecoveredKey(ciphertext, profile, key)
    ensures |plaintext| == |ciphertext| && IsLetters(plaintext)
    ensures |ciphertext| > 0 ==> IsLetters(key)
    ensures |ciphertext| > 0 ==> plaintext == Decipher(ciphertext, key)
    ensures |ciphertext| > 0 ==> Encipher(plaintext, key) == ciphertext
    ensures |ciphertext| == 0 ==> key == "@" && plaintext == ""
  {
    var keyLength := EstimateKeyLength(ciphertext, profile);
    key := RecoverKey(ciphertext, keyLength, profile);
    if |ciphertext| > 0 {
      RecoveredKeyIsLetters(ciphertext, profile, key);
    } else {
      assert |Column(ciphertext, 0, keyLength)| == 0;
      assert key == "@";
    }
    plaintext := Decrypt(ciphertext, key);
  }

  /** The program's flow between reading and writing: normalise the input,
      then attack it. */
  method Analyze(data: string, profile: LanguageProfile) returns (key: string, plaintext: string)
    ensures IsLetters(Normalize(data))
    ensures IsBestKeyLength(Normalize(data), profile, |key|)
    ensures IsRecoveredKey(Normalize(data), profile, key)
    ensures |plaintext| == |Normalize(data)| && IsLetters(plaintext)
    ensures |Normalize(data)| > 0 ==> IsLetters(key)
    ensures |Normalize(data)| > 0 ==> plaintext == Decipher(Normalize(data), key)
    ensures |Normalize(data)| > 0 ==> Encipher(plaintext, key) == Normalize(data)
    ensures |Normalize(data)| == 0 ==> key == "@" && plaintext == ""
  {
    var ciphertext := Normalize(data);
    NormalizeIsLetters(data);
    key, plaintext := BreakCipher(ciphertext, profile);
  }
}
