/**
 * Cell names as the solver reports them: the column letter, counted from
 * `A`, followed by the rank in decimal, where rank 1 is the bottom row. On
 * an `n` by `n` board cell `(x, y)` is named by letter `x` and rank `n - y`,
 * so row 0 is the top rank.
 */
module Labels {
  import opened Board
  import opened Optional

  /** A cell name before it is written out: column index and rank. */
  datatype Label = Label(file: nat, rank: nat)

  /**
   * Column letters are the characters from `A` on. The count stops below
   * the surrogate range, where a character would no longer be a Unicode
   * scalar value.
   */
  const MaxFiles: nat := 0xD800 - 65

  /** The name of cell `c` on an `n` by `n` board. */
  function LabelOf(n: nat, c: Pos): (l: Label)
    requires OnBoard(n, c)
    ensures l.file < n && 1 <= l.rank <= n
  {
    Label(c.x, n - c.y)
  }

  /** Distinct cells of one board have distinct names. */
  lemma LabelOfInjective(n: nat, c: Pos, d: Pos)
    requires OnBoard(n, c) && OnBoard(n, d)
    ensures LabelOf(n, c) == LabelOf(n, d) <==> c == d
  {
    if LabelOf(n, c) == LabelOf(n, d) {
      assert c.x == LabelOf(n, c).file && c.y == n - LabelOf(n, c).rank;
    }
  }

  /** A knight move between two cells is the same knight move between their file and rank numbers, with the rank mirrored. */
  lemma KnightMoveLabels(n: nat, c: Pos, d: Pos)
    requires OnBoard(n, c) && OnBoard(n, d)
    ensures IsKnightMove(c, d) <==>
      Pos(LabelOf(n, d).file - LabelOf(n, c).file, LabelOf(n, c).rank - LabelOf(n, d).rank) in Moves
  {
    assert Pos(LabelOf(n, d).file - LabelOf(n, c).file, LabelOf(n, c).rank - LabelOf(n, d).rank) == Diff(c, d);
  }

  /** The letter of column `file`: the character with code `65 + file`. */
  function FileLetter(file: nat): (ch: char)
    requires file < MaxFiles
    ensures ch as int == 65 + file
  {
    (65 + file) as char
  }

  predicate IsDigit(ch: char) {
    '0' <= ch <= '9'
  }

  function DigitChar(d: nat): (ch: char)
    requires d < 10
    ensures IsDigit(ch) && ch as int - '0' as int == d
  {
    ('0' as int + d) as char
  }

  function DigitValue(ch: char): (d: nat)
    requires IsDigit(ch)
    ensures d < 10
  {
    ch as int - '0' as int
  }

  /** The decimal numeral of `r`, as a template string writes a non-negative integer. */
  function Decimal(r: nat): (s: string)
    ensures |s| >= 1
    ensures forall i :: 0 <= i < |s| ==> IsDigit(s[i])
    ensures s[0] == '0' ==> r == 0
  {
    if r < 10 then [DigitChar(r)] else Decimal(r / 10) + [DigitChar(r % 10)]
  }

  /** The number a string of digits denotes. */
  function DigitsValue(s: string): nat
    requires forall i :: 0 <= i < |s| ==> IsDigit(s[i])
  {
    if s == [] then 0 else 10 * DigitsValue(s[..|s| - 1]) + DigitValue(s[|s| - 1])
  }

  /** Reading the numeral back gives the number. */
  lemma {:induction false} DecimalRoundTrip(r: nat)
    ensures DigitsValue(Decimal(r)) == r
  {
    var s := Decimal(r);
    if r >= 10 {
      DecimalRoundTrip(r / 10);
      assert s[..|s| - 1] == Decimal(r / 10);
    }
  }

  /** The text of a name: its letter, then its rank. */
  function LabelText(l: Label): (s: string)
    requires l.file < MaxFiles
    ensures |s| >= 2 && s[0] as int == 65 + l.file
  {
    [FileLetter(l.file)] + Decimal(l.rank)
  }

  /**
   * Reads a name back: a letter from `A` on, then a numeral without a
   * leading zero (ranks start at 1).
   */
  function ParseLabel(s: string): Option<Label> {
    if && |s| >= 2
       && 65 <= s[0] as int < 65 + MaxFiles
       && s[1] != '0'
       && (forall i :: 1 <= i < |s| ==> IsDigit(s[i]))
    then
      Some(Label(s[0] as int - 65, DigitsValue(s[1..])))
    else
      None
  }

  /** A numeral whose first digit is not `0` denotes a positive number. */
  lemma {:induction false} LeadingDigitPositive(t: string)
    requires |t| >= 1 && t[0] != '0'
    requires forall i :: 0 <= i < |t| ==> IsDigit(t[i])
    ensures DigitsValue(t) >= 1
  {
    if |t| > 1 {
      LeadingDigitPositive(t[..|t| - 1]);
    }
  }

  /** A numeral without a leading zero is the decimal numeral of the number it denotes. */
  lemma {:induction false} DigitsDecimal(t: string)
    requires |t| >= 1 && t[0] != '0'
    requires forall i :: 0 <= i < |t| ==> IsDigit(t[i])
    ensures Decimal(DigitsValue(t)) == t
  {
    if |t| > 1 {
      var front := t[..|t| - 1];
      var last := t[|t| - 1];
      DigitsDecimal(front);
      LeadingDigitPositive(front);
      LastDigit(DigitsValue(front), DigitValue(last));
      assert DigitChar(DigitValue(last)) == last;
      assert t == front + [last];
    }
  }

  /** Appending digit `d` to the numeral of `a` gives the numeral of `10 * a + d`. */
  lemma LastDigit(a: nat, d: nat)
    requires d < 10
    ensures (10 * a + d) / 10 == a && (10 * a + d) % 10 == d
  {
  }

  /** Every name written out reads back as itself. */
  lemma ParseLabelText(l: Label)
    requires l.file < MaxFiles && l.rank >= 1
    ensures ParseLabel(LabelText(l)) == Some(l)
  {
    var s := LabelText(l);
    DecimalRoundTrip(l.rank);
    assert s[1..] == Decimal(l.rank);
  }

  /** Every text that reads as a name is exactly how that name is written. */
  lemma LabelTextParse(s: string)
    ensures ParseLabel(s).Some? ==> LabelText(ParseLabel(s).value) == s
  {
    if ParseLabel(s).Some? {
      DigitsDecimal(s[1..]);
      assert s == [s[0]] + s[1..];
    }
  }

  /** Different names are written differently. */
  lemma LabelTextInjective(a: Label, b: Label)
    requires a.file < MaxFiles && a.rank >= 1
    requires b.file < MaxFiles && b.rank >= 1
    ensures LabelText(a) == LabelText(b) <==> a == b
  {
    ParseLabelText(a);
    ParseLabelText(b);
  }
}
