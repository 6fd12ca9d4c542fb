/** The text form in which a tracker stores its 4 x 4 transformation: one row
    per line, "[ a, b, c, d ]", read back by splitting on the character class
    [\s+,\[\]] and skipping the empty parts.  Number formatting and number
    parsing are functions supplied from outside. */
module MatrixText {
  import opened Options

  type Matrix = seq<seq<real>>

  /** Exactly four rows of four entries. */
  predicate IsMatrix4(m: Matrix) {
    |m| == 4 && forall i :: 0 <= i < 4 ==> |m[i]| == 4
  }

  /** The characters the tokenizer splits on: the ASCII white space of \s
      (space, tab, line feed, vertical tab, form feed, carriage return),
      '+', ',', '[' and ']'. */
  predicate IsSeparator(c: char) {
    || c == ' ' || c == '\t' || c == '\n' || c == '\U{000B}' || c == '\U{000C}' || c == '\r'
    || c == '+' || c == ',' || c == '[' || c == ']'
  }

  /** A token is a non-empty run of non-separators. */
  predicate IsToken(w: string) {
    w != [] && forall k :: 0 <= k < |w| ==> !IsSeparator(w[k])
  }

  predicate AllSeparators(s: string) {
    forall k :: 0 <= k < |s| ==> IsSeparator(s[k])
  }

  /** The longest prefix of s that holds no separator. */
  function Word(s: string): (w: string)
    ensures |w| <= |s| && w == s[..|w|]
    ensures forall k :: 0 <= k < |w| ==> !IsSeparator(w[k])
    ensures |w| < |s| ==> IsSeparator(s[|w|])
  {
    if s == [] || IsSeparator(s[0]) then [] else [s[0]] + Word(s[1..])
  }

  /** split(QRegExp("[\\s+,\\[\\]]"), SkipEmptyParts): the maximal runs of
      non-separators, in order. */
  function Tokens(s: string): seq<string>
    decreases |s|
  {
    if s == [] then []
    else if IsSeparator(s[0]) then Tokens(s[1..])
    else
      var w := Word(s);
      [w] + Tokens(s[|w|..])
  }

  /** No part is empty and no part holds a separator. */
  lemma {:induction false} TokensAreTokens(s: string)
    ensures forall k :: 0 <= k < |Tokens(s)| ==> IsToken(Tokens(s)[k])
    decreases |s|
  {
    if s != [] {
      if IsSeparator(s[0]) {
        TokensAreTokens(s[1..]);
      } else {
        TokensAreTokens(s[|Word(s)|..]);
      }
    }
  }

  /** A glued boundary: no token straddles the seam between a and b. */
  predicate CleanSeam(a: string, b: string) {
    a == [] || b == [] || IsSeparator(a[|a| - 1]) || IsSeparator(b[0])
  }

  /** Across a seam that a separator guards, the first word of a + b is the
      first word of a. */
  lemma {:induction false} WordConcat(a: string, b: string)
    requires a != [] && CleanSeam(a, b)
    ensures Word(a + b) == Word(a)
    decreases |a|
  {
    if IsSeparator(a[0]) {
    } else if |a| == 1 {
      assert (a + b)[1..] == b;
      if b != [] {
        assert IsSeparator(b[0]);
      }
    } else {
      assert (a + b)[1..] == a[1..] + b;
      WordConcat(a[1..], b);
    }
  }

  /** Tokenizing distributes over concatenation at a clean seam. */
  lemma {:induction false} TokensConcat(a: string, b: string)
    requires CleanSeam(a, b)
    ensures Tokens(a + b) == Tokens(a) + Tokens(b)
    decreases |a|
  {
    if a == [] {
      assert a + b == b;
    } else if IsSeparator(a[0]) {
      assert (a + b)[1..] == a[1..] + b;
      TokensConcat(a[1..], b);
    } else {
      WordConcat(a, b);
      var w := Word(a);
      assert (a + b)[|w|..] == a[|w|..] + b;
      TokensConcat(a[|w|..], b);
    }
  }

  /** A token reads back as itself. */
  lemma TokensOfToken(w: string)
    requires IsToken(w)
    ensures Tokens(w) == [w]
  {
    WordOfToken(w);
    assert w[|w|..] == [];
  }

  lemma {:induction false} WordOfToken(w: string)
    requires forall k :: 0 <= k < |w| ==> !IsSeparator(w[k])
    ensures Word(w) == w
    decreases |w|
  {
    if w != [] {
      WordOfToken(w[1..]);
    }
  }

  /** Separators alone read back as nothing. */
  lemma {:induction false} TokensOfSeparators(p: string)
    requires AllSeparators(p)
    ensures Tokens(p) == []
    decreases |p|
  {
    if p != [] {
      TokensOfSeparators(p[1..]);
    }
  }

  /** The entries row[0..j) as the serialising loop writes them: each
      entry followed by ", " unless it is the row's last. */
  function EntriesUpTo(row: seq<string>, j: nat): string
    requires j <= |row|
  {
    if j == 0 then ""
    else EntriesUpTo(row, j - 1) + row[j - 1] + (if j - 1 != |row| - 1 then ", " else "")
  }

  /** One row: "[ ", the entries, and the row terminator. */
  function RowText(row: seq<string>, rowEnd: string): string {
    "[ " + EntriesUpTo(row, |row|) + rowEnd
  }

  /** Rows rows[0..i) one after another. */
  function GridUpTo(rows: seq<seq<string>>, i: nat, rowEnd: string): string
    requires i <= |rows|
  {
    if i == 0 then "" else GridUpTo(rows, i - 1, rowEnd) + RowText(rows[i - 1], rowEnd)
  }

  function GridText(rows: seq<seq<string>>, rowEnd: string): string {
    GridUpTo(rows, |rows|, rowEnd)
  }

  /** The cells of rows[0..i) in row-major order. */
  function FlattenUpTo<T>(rows: seq<seq<T>>, i: nat): seq<T>
    requires i <= |rows|
  {
    if i == 0 then [] else FlattenUpTo(rows, i - 1) + rows[i - 1]
  }

  /** One step of the entry loop: appending entry j and its separator. */
  lemma AppendEntry(prefix: string, row: seq<string>, j: nat)
    requires j < |row|
    ensures prefix + EntriesUpTo(row, j) + row[j] + (if j != |row| - 1 then ", " else "")
            == prefix + EntriesUpTo(row, j + 1)
  {
    assert prefix + EntriesUpTo(row, j + 1)
        == prefix + (EntriesUpTo(row, j) + row[j] + (if j != |row| - 1 then ", " else ""));
  }

  /** One step of the row loop: appending row i and its terminator. */
  lemma AppendRow(rows: seq<seq<string>>, i: nat, rowEnd: string)
    requires i < |rows|
    ensures GridUpTo(rows, i, rowEnd) + "[ " + EntriesUpTo(rows[i], |rows[i]|) + rowEnd
            == GridUpTo(rows, i + 1, rowEnd)
  {
    assert GridUpTo(rows, i + 1, rowEnd)
        == GridUpTo(rows, i, rowEnd) + ("[ " + EntriesUpTo(rows[i], |rows[i]|) + rowEnd);
  }

  predicate AllTokens(rows: seq<seq<string>>) {
    forall i, j :: 0 <= i < |rows| && 0 <= j < |rows[i]| ==> IsToken(rows[i][j])
  }

  /** The entries of a row read back as the row's cells. */
  lemma {:induction false} TokensOfEntries(row: seq<string>, j: nat)
    requires j <= |row|
    requires forall k :: 0 <= k < |row| ==> IsToken(row[k])
    ensures Tokens(EntriesUpTo(row, j)) == row[..j]
    ensures j > 0 && j < |row| ==> EntriesUpTo(row, j)[|EntriesUpTo(row, j)| - 1] == ' '
  {
    if j > 0 {
      var prev := EntriesUpTo(row, j - 1);
      var sep := if j - 1 != |row| - 1 then ", " else "";
      TokensOfEntries(row, j - 1);
      TokensConcat(prev, row[j - 1]);
      TokensOfToken(row[j - 1]);
      TokensConcat(prev + row[j - 1], sep);
      TokensOfSeparators(sep);
      assert row[..j] == row[..j - 1] + [row[j - 1]];
    }
  }

  /** Written with a terminator made of separators, the rows read back as
      their cells in row-major order. */
  lemma {:induction false} TokensOfGrid(rows: seq<seq<string>>, i: nat, rowEnd: string)
    requires i <= |rows| && AllTokens(rows) && AllSeparators(rowEnd)
    ensures Tokens(GridUpTo(rows, i, rowEnd)) == FlattenUpTo(rows, i)
  {
    if i > 0 {
      var row := rows[i - 1];
      var entries := EntriesUpTo(row, |row|);
      TokensOfGrid(rows, i - 1, rowEnd);
      TokensOfEntries(row, |row|);
      TokensOfSeparators("[ ");
      TokensOfSeparators(rowEnd);
      TokensConcat("[ ", entries);
      TokensConcat("[ " + entries, rowEnd);
      assert row[..|row|] == row;
      assert Tokens(RowText(row, rowEnd)) == row by {
        calc {
          Tokens(RowText(row, rowEnd));
          Tokens("[ " + entries) + Tokens(rowEnd);
          Tokens("[ ") + Tokens(entries) + [];
          row;
        }
      }
      TokensConcat(GridUpTo(rows, i - 1, rowEnd), RowText(row, rowEnd));
      calc {
        Tokens(GridUpTo(rows, i, rowEnd));
        Tokens(GridUpTo(rows, i - 1, rowEnd) + RowText(row, rowEnd));
        Tokens(GridUpTo(rows, i - 1, rowEnd)) + Tokens(RowText(row, rowEnd));
        FlattenUpTo(rows, i - 1) + row;
        FlattenUpTo(rows, i);
      }
    }
  }

  /** In a grid of rows of four, cell (i, j) is element 4 i + j of the
      row-major sequence. */
  lemma {:induction false} FlattenIndex<T>(rows: seq<seq<T>>, n: nat)
    requires n <= |rows| && forall k :: 0 <= k < |rows| ==> |rows[k]| == 4
    ensures |FlattenUpTo(rows, n)| == 4 * n
    ensures forall i, j :: 0 <= i < n && 0 <= j < 4 ==> FlattenUpTo(rows, n)[4 * i + j] == rows[i][j]
  {
    if n > 0 {
      FlattenIndex(rows, n - 1);
      var f := FlattenUpTo(rows, n);
      assert f == FlattenUpTo(rows, n - 1) + rows[n - 1];
      forall i, j | 0 <= i < n && 0 <= j < 4
        ensures f[4 * i + j] == rows[i][j]
      {
        if i < n - 1 {
          assert 4 * i + j < 4 * (n - 1);
        }
      }
    }
  }

  /** GetTrasformation's parse: sixteen tokens read in row-major order, or
      an error when the text holds fewer. */
  function ParseMatrix(text: string, toDouble: string -> real): (m: Option<Matrix>)
    ensures m.Some? <==> |Tokens(text)| >= 16
    ensures m.Some? ==> IsMatrix4(m.value)
    ensures m.Some? ==> forall i, j :: 0 <= i < 4 && 0 <= j < 4 ==> m.value[i][j] == toDouble(Tokens(text)[4 * i + j])
  {
    var ts := Tokens(text);
    if |ts| < 16 then None
    else Some(seq(4, i requires 0 <= i < 4 => seq(4, j requires 0 <= j < 4 => toDouble(ts[4 * i + j]))))
  }

  /** The text of a grid of token cells with a separator terminator parses
      back to the cells, read as numbers. */
  lemma ParseGrid(cells: seq<seq<string>>, rowEnd: string, toDouble: string -> real)
    requires |cells| == 4 && forall k :: 0 <= k < 4 ==> |cells[k]| == 4
    requires AllTokens(cells) && AllSeparators(rowEnd)
    ensures ParseMatrix(GridText(cells, rowEnd), toDouble).Some?
    ensures forall i, j :: 0 <= i < 4 && 0 <= j < 4 ==>
      ParseMatrix(GridText(cells, rowEnd), toDouble).value[i][j] == toDouble(cells[i][j])
  {
    TokensOfGrid(cells, 4, rowEnd);
    FlattenIndex(cells, 4);
  }

  /** When every cell reads as the matching entry of m, the grid's text
      parses back to exactly m. */
  lemma ParseGridExact(cells: seq<seq<string>>, rowEnd: string, toDouble: string -> real, m: Matrix)
    requires |cells| == 4 && forall k :: 0 <= k < 4 ==> |cells[k]| == 4
    requires AllTokens(cells) && AllSeparators(rowEnd) && IsMatrix4(m)
    requires forall i, j :: 0 <= i < 4 && 0 <= j < 4 ==> toDouble(cells[i][j]) == m[i][j]
    ensures ParseMatrix(GridText(cells, rowEnd), toDouble) == Some(m)
  {
    ParseGrid(cells, rowEnd, toDouble);
    var r := ParseMatrix(GridText(cells, rowEnd), toDouble).value;
    forall i | 0 <= i < 4
      ensures r[i] == m[i]
    {
      assert forall j :: 0 <= j < 4 ==> r[i][j] == m[i][j];
    }
    assert r == m;
  }
}
