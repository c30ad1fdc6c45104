/** The 26-letter alphabet `A`–`Z` and the character-code arithmetic the
    cipher code does against the base `'A'`. */
module Letters {

  const AlphabetSize := 26

  predicate IsLetter(c: char)
  {
    'A' <= c <= 'Z'
  }

  predicate IsLetters(s: string)
  {
    forall i :: 0 <= i < |s| ==> IsLetter(s[i])
  }

  /** `c.charCodeAt(0) - 'A'.charCodeAt(0)`: the letter's position in the
      alphabet (A = 0 … Z = 25); other characters fall outside [0, 25]. */
  function Shift(c: char): int
  {
    c as int - 'A' as int
  }

  /** `String.fromCharCode('A'.charCodeAt(0) + k)`. Besides the letters, the
      code can only ask for k = -1 (an `indexOf` that found nothing), which
      gives `'@'`. */
  function Letter(k: int): (c: char)
    requires -1 <= k < AlphabetSize
    ensures Shift(c) == k
    ensures IsLetter(c) <==> 0 <= k
  {
    ('A' as int + k) as char
  }
}

/** The normalisation applied to the input before the attack
    (`data.toUpperCase().replace(/[^A-Z]/g, "")`): upper-case the text, then
    delete every character outside `A`–`Z`. */
module Normalization {
  import opened Letters

  /** `String.prototype.toUpperCase` on one character, for every character
      whose upper case contains a letter `A`–`Z`: the ASCII lower-case letters,
      the dotless i and long s, and the special cases that expand to several
      characters. Every other character upper-cases to characters outside
      `A`–`Z`, so keeping it unchanged leaves the normalised text the same. */
  function UpperOf(c: char): string
  {
    if c as int < 128 then [AsciiUpper(c)] else SpecialUpper(c)
  }

  function AsciiUpper(c: char): char
  {
    if 'a' <= c <= 'z' then (c as int - 32) as char else c
  }

  function SpecialUpper(c: char): string
  {
    match c
      case '\U{DF}' => "SS"  // sharp s
      case '\U{131}' => "I"  // dotless i
      case '\U{17F}' => "S"  // long s
      case '\U{149}' => "\U{2BC}N"  // n preceded by apostrophe
      case '\U{1F0}' => "J\U{30C}"  // j with caron
      case '\U{1E96}' => "H\U{331}"  // h with line below
      case '\U{1E97}' => "T\U{308}"  // t with diaeresis
      case '\U{1E98}' => "W\U{30A}"  // w with ring above
      case '\U{1E99}' => "Y\U{30A}"  // y with ring above
      case '\U{1E9A}' => "A\U{2BE}"  // a with right half ring
      case '\U{FB00}' => "FF"
      case '\U{FB01}' => "FI"
      case '\U{FB02}' => "FL"
      case '\U{FB03}' => "FFI"
      case '\U{FB04}' => "FFL"
      case '\U{FB05}' => "ST"
      case '\U{FB06}' => "ST"
      case _ => [c]
  }

  /** `text.toUpperCase()` */
  function UpperCase(text: string): string
  {
    if text == [] then [] else UpperOf(text[0]) + UpperCase(text[1..])
  }

  /** `text.replace(/[^A-Z]/g, "")` */
  function KeepLetters(text: string): string
  {
    if text == [] then []
    else (if IsLetter(text[0]) then [text[0]] else []) + KeepLetters(text[1..])
  }

  function Normalize(text: string): string
  {
    KeepLetters(UpperCase(text))
  }

  /** The normalised text consists of letters `A`–`Z` only. */
  lemma {:induction false} NormalizeIsLetters(text: string)
    ensures IsLetters(Normalize(text))
  {
    KeepLettersIsLetters(UpperCase(text));
  }

  lemma {:induction false} KeepLettersIsLetters(text: string)
    ensures IsLetters(KeepLetters(text))
  {
    if text != [] {
      KeepLettersIsLetters(text[1..]);
    }
  }

  lemma {:induction false} KeepLettersAppend(a: string, b: string)
    ensures KeepLetters(a + b) == KeepLetters(a) + KeepLetters(b)
  {
    if a != [] {
      assert (a + b)[0] == a[0] && (a + b)[1..] == a[1..] + b;
      KeepLettersAppend(a[1..], b);
    } else {
      assert a + b == b;
    }
  }

  lemma {:induction false} UpperCaseAppend(a: string, b: string)
    ensures UpperCase(a + b) == UpperCase(a) + UpperCase(b)
  {
    if a != [] {
      assert (a + b)[0] == a[0] && (a + b)[1..] == a[1..] + b;
      UpperCaseAppend(a[1..], b);
    } else {
      assert a + b == b;
    }
  }

  /** Normalisation works character by character and keeps the order: the
      normal form of a concatenation is the concatenation of normal forms. */
  lemma NormalizeAppend(a: string, b: string)
    ensures Normalize(a + b) == Normalize(a) + Normalize(b)
  {
    UpperCaseAppend(a, b);
    KeepLettersAppend(UpperCase(a), UpperCase(b));
  }

  /** On one ASCII character: a capital is kept, a small letter is case-folded,
      anything else is dropped. */
  lemma NormalizeAscii(c: char)
    requires c as int < 128
    ensures IsLetter(c) ==> Normalize([c]) == [c]
    ensures 'a' <= c <= 'z' ==> Normalize([c]) == [(c as int - 32) as char]
    ensures !IsLetter(c) && !('a' <= c <= 'z') ==> Normalize([c]) == []
  {
    assert [c][1..] == [];
    assert UpperCase([c]) == UpperOf(c);
    var u := AsciiUpper(c);
    assert [u][1..] == [];
    assert KeepLetters([u]) == if IsLetter(u) then [u] else [];
  }

  /** Text that is already normal is left unchanged, so normalising twice is
      normalising once. */
  lemma {:induction false} NormalizeLetters(text: string)
    requires IsLetters(text)
    ensures Normalize(text) == text
  {
    if text != [] {
      assert text == [text[0]] + text[1..];
      NormalizeAppend([text[0]], text[1..]);
      NormalizeAscii(text[0]);
      NormalizeLetters(text[1..]);
    }
  }

  lemma NormalizeIdempotent(text: string)
    ensures Normalize(Normalize(text)) == Normalize(text)
  {
    NormalizeIsLetters(text);
    NormalizeLetters(Normalize(text));
  }

  /** Normalising a text that starts with an ASCII character. */
  lemma NormalizeCons(c: char, rest: string)
    requires c as int < 128
    ensures Normalize([c] + rest) == Normalize([c]) + Normalize(rest)
    ensures Normalize([c]) == if IsLetter(c) then [c] else if 'a' <= c <= 'z' then [(c as int - 32) as char] else []
  {
    NormalizeAppend([c], rest);
    NormalizeAscii(c);
  }

  lemma NormalizeHello(text: string)
    requires text == "Hello,"
    ensures Normalize(text) == "HELLO"
  {
    NormalizeCons(',', "");
    NormalizeCons('o', ",");
    NormalizeCons('l', "o,");
    NormalizeCons('l', "lo,");
    NormalizeCons('e', "llo,");
    NormalizeCons('H', "ello,");
  }

  lemma NormalizeWorld(text: string)
    requires text == " World"
    ensures Normalize(text) == "WORLD"
  {
    NormalizeCons('d', "");
    NormalizeCons('l', "d");
    NormalizeCons('r', "ld");
    NormalizeCons('o', "rld");
    NormalizeCons('W', "orld");
    NormalizeCons(' ', "World");
  }

  lemma NormalizeDigits(text: string)
    requires text == "! 123"
    ensures Normalize(text) == ""
  {
    NormalizeCons('3', "");
    NormalizeCons('2', "3");
    NormalizeCons('1', "23");
    NormalizeCons(' ', "123");
    NormalizeCons('!', " 123");
  }

  /** Punctuation, blanks and digits disappear and small letters are folded. */
  lemma NormalizeExample(text: string)
    requires text == "Hello, World! 123"
    ensures Normalize(text) == "HELLOWORLD"
  {
    assert text == text[..6] + text[6..12] + text[12..];
    NormalizeAppend(text[..6], text[6..12]);
    NormalizeAppend(text[..12], text[12..]);
    assert text[..12] == text[..6] + text[6..12];
    NormalizeHello(text[..6]);
    NormalizeWorld(text[6..12]);
    NormalizeDigits(text[12..]);
  }
}
