/** The Vigenère shifts: deciphering subtracts the key letter of each
    position, cycling through the key; enciphering, the inverse, adds it. */
module Decryption {
  import opened Letters
  import opened Arithmetic

  /** `((charCode - keyCharCode + 26) % 26) + 'A'`. The dividend is never
      negative, so JavaScript's `%` and Dafny's agree. */
  function DecipherLetter(c: char, k: char): char
    requires IsLetter(c) && IsLetter(k)
  {
    Letter((Shift(c) - Shift(k) + AlphabetSize) % AlphabetSize)
  }

  /** The forward shift that produces Vigenère ciphertext. */
  function EncipherLetter(p: char, k: char): char
    requires IsLetter(p) && IsLetter(k)
  {
    Letter((Shift(p) + Shift(k)) % AlphabetSize)
  }

  function Decipher(text: string, key: string): string
    requires IsLetters(text) && IsLetters(key) && |key| >= 1
  {
    seq(|text|, i requires 0 <= i < |text| => DecipherLetter(text[i], key[i % |key|]))
  }

  function Encipher(text: string, key: string): string
    requires IsLetters(text) && IsLetters(key) && |key| >= 1
  {
    seq(|text|, i requires 0 <= i < |text| => EncipherLetter(text[i], key[i % |key|]))
  }

  lemma LetterRoundTrip(p: char, k: char)
    requires IsLetter(p) && IsLetter(k)
    ensures DecipherLetter(EncipherLetter(p, k), k) == p
    ensures EncipherLetter(DecipherLetter(p, k), k) == p
  {
    var a, b := Shift(p), Shift(k);
    ModWrap(a + b, AlphabetSize);
    ModWrap((a + b) % AlphabetSize - b + AlphabetSize, AlphabetSize);
    ModWrap(a - b + AlphabetSize, AlphabetSize);
    ModWrap((a - b + AlphabetSize) % AlphabetSize + b, AlphabetSize);
  }

  lemma DecipherIsLetters(text: string, key: string)
    requires IsLetters(text) && IsLetters(key) && |key| >= 1
    ensures IsLetters(Decipher(text, key)) && IsLetters(Encipher(text, key))
  {
  }

  /** Deciphering with the key undoes enciphering with it. */
  lemma DecipherEncipher(plaintext: string, key: string)
    requires IsLetters(plaintext) && IsLetters(key) && |key| >= 1
    ensures IsLetters(Encipher(plaintext, key))
    ensures Decipher(Encipher(plaintext, key), key) == plaintext
  {
  }

  /** Enciphering with the key undoes deciphering with it. */
  lemma EncipherDecipher(ciphertext: string, key: string)
    requires IsLetters(ciphertext) && IsLetters(key) && |key| >= 1
    ensures IsLetters(Decipher(ciphertext, key))
    ensures Encipher(Decipher(ciphertext, key), key) == ciphertext
  {
  }

  /** The plaintext loop of `breakCipher`. An empty ciphertext asks nothing of
      the key. */
  method Decrypt(ciphertext: string, key: string) returns (plaintext: string)
    requires IsLetters(ciphertext)
    requires |ciphertext| > 0 ==> IsLetters(key) && |key| >= 1
    ensures |plaintext| == |ciphertext|
    ensures IsLetters(plaintext)
    ensures |ciphertext| > 0 ==> plaintext == Decipher(ciphertext, key) && Encipher(plaintext, key) == ciphertext
  {
    plaintext := "";
    for i := 0 to |ciphertext|
      invariant |plaintext| == i
      invariant forall t :: 0 <= t < i ==> plaintext[t] == DecipherLetter(ciphertext[t], key[t % |key|])
    {
      var keyCharCode := Shift(key[i % |key|]);
      var charCode := Shift(ciphertext[i]);
      var decodedCharCode := (charCode - keyCharCode + AlphabetSize) % AlphabetSize;
      plaintext := plaintext + [Letter(decodedCharCode)];
    }
    if |ciphertext| > 0 {
      EncipherDecipher(ciphertext, key);
    }
  }
}
