/** The warnings of the signalling rule: a cell written into a message in decimal digits, and
    read back from one. */
module Signals {
  import opened Prelude

  const SPACE: Letter := ' ' as int

  predicate Digit(letter: Letter) {
    '0' as int <= letter <= '9' as int
  }

  predicate Digits(text: Text) {
    text != [] && forall k :: 0 <= k < |text| ==> Digit(text[k])
  }

  /** A number in decimal digits, without leading zeros. */
  function Decimal(n: nat): Text {
    if n < 10 then ['0' as int + n] else Decimal(n / 10) + ['0' as int + n % 10]
  }

  /** The number that decimal digits stand for, leading zeros or not. */
  function Value(text: Text): nat
    requires Digits(text)
  {
    var last := |text| - 1;
    (if last == 0 then 0 else Value(text[..last]) * 10) + text[last] - '0' as int
  }

  lemma {:induction false} DecimalReadsBack(n: nat)
    ensures Digits(Decimal(n)) && Value(Decimal(n)) == n
  {
    if n >= 10 {
      DecimalReadsBack(n / 10);
      assert Decimal(n)[..|Decimal(n)| - 1] == Decimal(n / 10);
    }
  }

  /** The word, two numbers, and one space before each of them. */
  function Phrase(x: Text, y: Text): Text {
    Spelled("reserve ") + x + [SPACE] + y
  }

  /** What an agent says to warn of a cell. */
  function Warning(cell: (int, int)): Text
    requires cell.0 >= 0 && cell.1 >= 0
  {
    Phrase(Decimal(cell.0), Decimal(cell.1))
  }

  /** How many letters of the text, from `k` on, are digits. */
  function Span(text: Text, k: nat): (n: nat)
    requires k <= |text|
    ensures k + n <= |text| && forall j :: k <= j < k + n ==> Digit(text[j])
    decreases |text| - k
  {
    if k == |text| || !Digit(text[k]) then 0 else 1 + Span(text, k + 1)
  }

  lemma {:induction false} SpanOf(text: Text, k: nat, n: nat)
    requires k + n <= |text| && (k + n < |text| ==> !Digit(text[k + n]))
    requires forall j :: k <= j < k + n ==> Digit(text[j])
    ensures Span(text, k) == n
    decreases n
  {
    if n > 0 {
      SpanOf(text, k + 1, n - 1);
    }
  }

  /** The cell that a message warns of, if the whole message is such a phrase. */
  function Heard(text: Text): Option<(int, int)> {
    var word := |"reserve "|;
    if |text| < word || text[..word] != Spelled("reserve ") then None
    else
      var middle := word + Span(text, word);
      if middle == word || middle == |text| || text[middle] != SPACE || !Digits(text[middle + 1..]) then None
      else Some((Value(text[word..middle]), Value(text[middle + 1..])))
  }

  ghost predicate Reads(text: Text, x: Text, y: Text, cell: (int, int)) {
    Digits(x) && Digits(y) && text == Phrase(x, y) && (Value(x), Value(y)) == cell
  }

  /** A message is heard as a warning of a cell exactly when it is the phrase of two numbers
      in digits that stand for the cell. */
  lemma {:induction false} HeardIff(text: Text, cell: (int, int))
    ensures Heard(text) == Some(cell) <==> exists x, y :: Reads(text, x, y, cell)
  {
    var word := |"reserve "|;
    if Heard(text) == Some(cell) {
      var middle := word + Span(text, word);
      assert text == Phrase(text[word..middle], text[middle + 1..]);
      assert Reads(text, text[word..middle], text[middle + 1..], cell);
    }
    if x, y :| Reads(text, x, y, cell) {
      SpanOf(text, word, |x|);
      assert text[..word] == Spelled("reserve ");
      assert text[word..word + |x|] == x && text[word + |x| + 1..] == y;
    }
  }

  /** What one agent warns of, every other one hears. */
  lemma {:induction false} WarningIsHeard(cell: (int, int))
    requires cell.0 >= 0 && cell.1 >= 0
    ensures Heard(Warning(cell)) == Some(cell)
  {
    DecimalReadsBack(cell.0);
    DecimalReadsBack(cell.1);
    assert Reads(Warning(cell), Decimal(cell.0), Decimal(cell.1), cell);
    HeardIff(Warning(cell), cell);
  }
}
