/** Splitting the ciphertext into the columns of a candidate key length: the
    column at `offset` holds every `keyLength`-th character starting there,
    which are the characters enciphered with the same key letter. */
module Columns {
  import opened Arithmetic

  /** The characters at positions `offset`, `offset + keyLength`, ... of `text`. */
  function Column(text: string, offset: nat, keyLength: nat): string
    requires keyLength >= 1
    decreases |text| - offset
  {
    if offset >= |text| then [] else [text[offset]] + Column(text, offset + keyLength, keyLength)
  }

  /** The segment loop of `estimateKeyLength` and `breakCipher`:
      `for (let j = i; j < ciphertext.length; j += keyLength) segment += ciphertext[j]`. */
  method ExtractColumn(text: string, offset: nat, keyLength: nat) returns (segment: string)
    requires keyLength >= 1
    ensures segment == Column(text, offset, keyLength)
  {
    segment := "";
    var j := offset;
    while j < |text|
      invariant offset <= j
      invariant segment + Column(text, j, keyLength) == Column(text, offset, keyLength)
      decreases |text| - j
    {
      segment := segment + [text[j]];
      j := j + keyLength;
    }
  }

  /** The column at `offset` has one character for each position
      `offset + k * keyLength` inside the text. */
  lemma {:induction false} ColumnLength(text: string, offset: nat, keyLength: nat)
    requires keyLength >= 1
    ensures |Column(text, offset, keyLength)| ==
      if offset >= |text| then 0 else (|text| - offset + keyLength - 1) / keyLength
    decreases |text| - offset
  {
    if offset < |text| {
      ColumnLength(text, offset + keyLength, keyLength);
      var rest := |text| - offset - 1;
      if offset + keyLength < |text| {
        DivStep(rest, keyLength);
        assert |text| - (offset + keyLength) + keyLength - 1 == rest;
      } else {
        DivOne(rest + keyLength, keyLength);
      }
    }
  }

  /** The k-th character of the column at `offset` is the character at
      position `offset + k * keyLength`. */
  lemma {:induction false} ColumnAt(text: string, offset: nat, keyLength: nat, k: nat)
    requires keyLength >= 1 && k < |Column(text, offset, keyLength)|
    ensures offset + k * keyLength < |text|
    ensures Column(text, offset, keyLength)[k] == text[offset + k * keyLength]
    decreases |text| - offset
  {
    if k > 0 {
      ColumnAt(text, offset + keyLength, keyLength, k - 1);
      assert offset + keyLength + (k - 1) * keyLength == offset + k * keyLength;
    }
  }

  /** Every position `j` of the text shows up in the column `j % keyLength`,
      at index `j / keyLength`. */
  lemma ColumnOfPosition(text: string, keyLength: nat, j: nat)
    requires keyLength >= 1 && j < |text|
    ensures j / keyLength < |Column(text, j % keyLength, keyLength)|
    ensures Column(text, j % keyLength, keyLength)[j / keyLength] == text[j]
  {
    var offset, k := j % keyLength, j / keyLength;
    assert j == offset + k * keyLength;
    ColumnLength(text, offset, keyLength);
    var n := |text| - offset + keyLength - 1;
    assert n == k * keyLength + (|text| - j - 1) + keyLength;
    DivAtLeast(n, keyLength, k + 1);
    ColumnAt(text, offset, keyLength, k);
  }

  /** Appending a character to the text appends it to exactly one column:
      the one whose positions it continues. */
  lemma {:induction false} ColumnSnoc(text: string, c: char, offset: nat, keyLength: nat)
    requires keyLength >= 1
    ensures Column(text + [c], offset, keyLength) ==
      Column(text, offset, keyLength) + (if offset <= |text| && (|text| - offset) % keyLength == 0 then [c] else [])
    decreases |text| - offset
  {
    var longer := text + [c];
    if offset < |text| {
      ColumnSnoc(text, c, offset + keyLength, keyLength);
      assert longer[offset] == text[offset];
      var d := |text| - offset;
      if offset + keyLength > |text| {
        ModWrap(d, keyLength);
        assert Column(text, offset + keyLength, keyLength) == [];
        assert Column(longer, offset + keyLength, keyLength) == [];
      } else {
        DivStep(d - keyLength, keyLength);
      }
    } else if offset == |text| {
      ModWrap(0, keyLength);
      assert Column(longer, offset + keyLength, keyLength) == [];
    }
  }

  /** The total length of the first `m` columns. */
  function ColumnLengths(text: string, keyLength: nat, m: nat): nat
    requires keyLength >= 1
  {
    if m == 0 then 0 else ColumnLengths(text, keyLength, m - 1) + |Column(text, m - 1, keyLength)|
  }

  /** Among the offsets below `keyLength`, the character appended at position
      `n` joins exactly the column `n % keyLength`. */
  lemma JoinsColumn(n: nat, offset: nat, keyLength: nat)
    requires keyLength >= 1 && offset < keyLength
    ensures (offset <= n && (n - offset) % keyLength == 0) <==> offset == n % keyLength
  {
    var q, r := n / keyLength, n % keyLength;
    assert n == q * keyLength + r;
    if offset == r {
      assert n - offset == q * keyLength;
      MulMod(q, keyLength);
    }
    if offset <= n {
      var q', r' := (n - offset) / keyLength, (n - offset) % keyLength;
      assert n - offset == q' * keyLength + r';
      if r' == 0 {
        DivModUnique(n, keyLength, q', offset);
      }
    }
  }

  lemma {:induction false} ColumnLengthsSnoc(text: string, c: char, keyLength: nat, m: nat)
    requires keyLength >= 1 && m <= keyLength
    ensures ColumnLengths(text + [c], keyLength, m) ==
      ColumnLengths(text, keyLength, m) + (if |text| % keyLength < m then 1 else 0)
  {
    if m > 0 {
      ColumnLengthsSnoc(text, c, keyLength, m - 1);
      ColumnSnoc(text, c, m - 1, keyLength);
      JoinsColumn(|text|, m - 1, keyLength);
    }
  }

  /** The `keyLength` columns partition the text: their lengths add up to the
      length of the text. */
  lemma {:induction false} ColumnsPartition(text: string, keyLength: nat)
    requires keyLength >= 1
    ensures ColumnLengths(text, keyLength, keyLength) == |text|
    decreases |text|
  {
    if text == [] {
      ColumnsOfEmpty(keyLength, keyLength);
    } else {
      var init := text[..|text| - 1];
      assert text == init + [text[|text| - 1]];
      ColumnsPartition(init, keyLength);
      ColumnLengthsSnoc(init, text[|text| - 1], keyLength, keyLength);
    }
  }

  lemma {:induction false} ColumnsOfEmpty(keyLength: nat, m: nat)
    requires keyLength >= 1
    ensures ColumnLengths([], keyLength, m) == 0
  {
    if m > 0 {
      ColumnsOfEmpty(keyLength, m - 1);
    }
  }
}
