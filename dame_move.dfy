/**
 * `DameMove` of rust_engine/src/dame.rs: a move as four named coordinates,
 * and its `Display` text `<column><row>-<column><row>` (column `a`..`h`, row
 * `y + 1` in decimal). `ParseMove` reads that text back and is proved to be
 * its inverse.
 */
module DameMoves {
  import opened Wrappers
  import opened Seqs
  import opened Rules

  datatype DameMove = DameMove(srcX: int, srcY: int, dstX: int, dstY: int)

  /** `DameMove::new`: the tuple's components, in order. */
  function NewDameMove(x: Move): (r: DameMove)
    ensures r.srcX == x.0 && r.srcY == x.1 && r.dstX == x.2 && r.dstY == x.3
  {
    DameMove(x.0, x.1, x.2, x.3)
  }

  /** The tuple a move was built from. */
  function Tuple(m: DameMove): Move {
    (m.srcX, m.srcY, m.dstX, m.dstY)
  }

  /** `DameMove::new` loses nothing: it and `Tuple` are inverse to each other. */
  lemma NewDameMoveInverse(x: Move, m: DameMove)
    ensures Tuple(NewDameMove(x)) == x
    ensures NewDameMove(Tuple(m)) == m
  {
  }

  // ---------------------------------------------------------------------------
  // Display

  const Columns: string := "abcdefgh"

  /** The text of a move. The source indexes the column letters with `x`, so both columns must be on the board. */
  function Render(m: DameMove): (r: string)
    requires 0 <= m.srcX < 8 && 0 <= m.dstX < 8
    ensures |r| >= 5 && r[0] == Columns[m.srcX]
  {
    [Columns[m.srcX]] + Decimal(m.srcY + 1) + "-" + [Columns[m.dstX]] + Decimal(m.dstY + 1)
  }

  function DigitChar(d: nat): (c: char)
    requires d < 10
    ensures IsDigit(c) && DigitValue(c) == d
  {
    "0123456789"[d]
  }

  predicate IsDigit(c: char) { '0' <= c <= '9' }

  function DigitValue(c: char): nat
    requires IsDigit(c)
  {
    (c as int - '0' as int) as nat
  }

  /** The decimal digits of `n`, most significant first, without leading zeros. */
  function Digits(n: nat): (r: string)
    ensures |r| > 0 && forall i | 0 <= i < |r| :: IsDigit(r[i])
  {
    if n < 10 then [DigitChar(n)] else Digits(n / 10) + [DigitChar(n % 10)]
  }

  /** `Display` of an integer: a minus sign for a negative value, then the digits of its magnitude. */
  function Decimal(n: int): string {
    if n < 0 then "-" + Digits(-n) else Digits(n)
  }

  // ---------------------------------------------------------------------------
  // Reading the text back

  /** The number of leading digits. */
  function DigitRun(s: string): (k: nat)
    ensures k <= |s| && forall i | 0 <= i < k :: IsDigit(s[i])
  {
    if s == [] || !IsDigit(s[0]) then 0 else 1 + DigitRun(s[1..])
  }

  /** The value of a non-empty digit string. */
  function ValueOf(s: string): nat
    requires forall i | 0 <= i < |s| :: IsDigit(s[i])
  {
    if s == [] then 0 else ValueOf(s[..|s| - 1]) * 10 + DigitValue(s[|s| - 1])
  }

  /** A natural number at the head of `s`, and the rest of `s`. */
  function ParseNat(s: string): Option<(nat, string)> {
    var k := DigitRun(s);
    if k == 0 then None else Some((ValueOf(s[..k]), s[k..]))
  }

  /** An integer, possibly negative, at the head of `s`, and the rest of `s`. */
  function ParseInt(s: string): Option<(int, string)> {
    if s != [] && s[0] == '-' then
      match ParseNat(s[1..])
      case Some((n, rest)) => var v: int := 0 - n as int; Some((v, rest))
      case None => None
    else
      match ParseNat(s)
      case Some((n, rest)) => var v: int := n; Some((v, rest))
      case None => None
  }

  function ColumnOf(c: char): Option<nat> {
    if 'a' <= c <= 'h' then Some((c as int - 'a' as int) as nat) else None
  }

  /** Read the text of a move: column, row, `-`, column, row, and nothing after. */
  function ParseMove(s: string): Option<DameMove> {
    if s == [] || ColumnOf(s[0]).None? then None
    else
      match ParseInt(s[1..])
      case None => None
      case Some((r1, t)) =>
        if |t| < 2 || t[0] != '-' || ColumnOf(t[1]).None? then None
        else
          match ParseInt(t[2..])
          case None => None
          case Some((r2, u)) =>
            if u != [] then None
            else Some(DameMove(ColumnOf(s[0]).value, r1 - 1, ColumnOf(t[1]).value, r2 - 1))
  }

  lemma {:induction false} DigitsValue(n: nat)
    ensures ValueOf(Digits(n)) == n
  {
    if n >= 10 {
      DigitsValue(n / 10);
      var s := Digits(n);
      assert s[..|s| - 1] == Digits(n / 10);
    }
  }

  lemma {:induction false} DigitRunOf(a: string, t: string)
    requires forall i | 0 <= i < |a| :: IsDigit(a[i])
    requires t == [] || !IsDigit(t[0])
    ensures DigitRun(a + t) == |a|
  {
    if a != [] {
      assert (a + t)[1..] == a[1..] + t;
      DigitRunOf(a[1..], t);
    } else {
      assert a + t == t;
    }
  }

  lemma ParseNatDigits(n: nat, t: string)
    requires t == [] || !IsDigit(t[0])
    ensures ParseNat(Digits(n) + t) == Some((n, t))
  {
    var a := Digits(n);
    DigitRunOf(a, t);
    assert (a + t)[..|a|] == a && (a + t)[|a|..] == t;
    DigitsValue(n);
  }

  lemma ParseIntDecimal(n: int, t: string)
    requires t == [] || !IsDigit(t[0])
    ensures ParseInt(Decimal(n) + t) == Some((n, t))
  {
    if n < 0 {
      var m: nat := -n;
      assert Decimal(n) == "-" + Digits(m);
      AppendAssoc("-", Digits(m), t);
      ParseNegative(m, t);
    } else {
      assert Decimal(n) == Digits(n);
      ParseNonNegative(n, t);
    }
  }

  lemma ParseNegative(n: nat, t: string)
    requires n > 0 && (t == [] || !IsDigit(t[0]))
    ensures ParseInt("-" + (Digits(n) + t)) == Some((0 - n as int, t))
  {
    var a := Digits(n) + t;
    ParseNatDigits(n, t);
    DashSplit(a);
  }

  lemma DashSplit(a: string)
    ensures |"-" + a| > 0 && ("-" + a)[0] == '-' && ("-" + a)[1..] == a
  {
  }

  lemma ParseNonNegative(n: nat, t: string)
    requires t == [] || !IsDigit(t[0])
    ensures ParseInt(Digits(n) + t) == Some((n, t))
  {
    var s := Digits(n) + t;
    ParseNatDigits(n, t);
    assert s[0] == Digits(n)[0] && IsDigit(s[0]);
  }

  lemma ColumnOfColumns(k: nat)
    requires k < 8
    ensures ColumnOf(Columns[k]) == Some(k)
  {
  }

  /** `ParseMove` on a column, a row, `-`, a column and a row. */
  lemma ParseMoveParts(s: string, tail: string, c1: nat, r1: int, c2: nat, r2: int)
    requires |s| > 0 && ColumnOf(s[0]) == Some(c1) && ParseInt(s[1..]) == Some((r1, tail))
    requires |tail| >= 2 && tail[0] == '-' && ColumnOf(tail[1]) == Some(c2) && ParseInt(tail[2..]) == Some((r2, []))
    ensures ParseMove(s) == Some(DameMove(c1, r1 - 1, c2, r2 - 1))
  {
  }

  /** The text of every move reads back as that move, so no two moves are displayed alike. */
  lemma ParseRender(m: DameMove)
    requires 0 <= m.srcX < 8 && 0 <= m.dstX < 8
    ensures ParseMove(Render(m)) == Some(m)
  {
    var tail := "-" + [Columns[m.dstX]] + Decimal(m.dstY + 1);
    RenderParts(m, tail);
    ParseIntDecimal(m.srcY + 1, tail);
    ParseIntDecimal(m.dstY + 1, []);
    ColumnOfColumns(m.srcX);
    ColumnOfColumns(m.dstX);
    ParseMoveParts(Render(m), tail, m.srcX, m.srcY + 1, m.dstX, m.dstY + 1);
  }

  /** The pieces of the text of a move: its first column, then its first row, then a dash, the second column and the second row. */
  lemma RenderParts(m: DameMove, tail: string)
    requires 0 <= m.srcX < 8 && 0 <= m.dstX < 8
    requires tail == "-" + [Columns[m.dstX]] + Decimal(m.dstY + 1)
    ensures |Render(m)| > 0 && Render(m)[0] == Columns[m.srcX] && Render(m)[1..] == Decimal(m.srcY + 1) + tail
    ensures |tail| >= 2 && tail[0] == '-' && tail[1] == Columns[m.dstX] && tail[2..] == Decimal(m.dstY + 1) + []
  {
    SplitText(Columns[m.srcX], Decimal(m.srcY + 1), Columns[m.dstX], Decimal(m.dstY + 1));
  }

  lemma SplitText(c1: char, a: string, c2: char, b: string)
    ensures ([c1] + a + "-" + [c2] + b)[0] == c1
    ensures ([c1] + a + "-" + [c2] + b)[1..] == a + ("-" + [c2] + b)
    ensures |"-" + [c2] + b| >= 2 && ("-" + [c2] + b)[0] == '-' && ("-" + [c2] + b)[1] == c2
    ensures ("-" + [c2] + b)[2..] == b + []
  {
    var t := "-" + [c2] + b;
    assert [c1] + a + "-" + [c2] + b == [c1] + (a + t);
    assert t == ['-', c2] + b;
  }

  lemma RenderInjective(m1: DameMove, m2: DameMove)
    requires 0 <= m1.srcX < 8 && 0 <= m1.dstX < 8 && 0 <= m2.srcX < 8 && 0 <= m2.dstX < 8
    ensures Render(m1) == Render(m2) <==> m1 == m2
  {
    ParseRender(m1);
    ParseRender(m2);
  }

  /** `e6-d5`: the move from `(4, 5)` to `(3, 4)`. */
  lemma RenderExample()
    ensures Render(DameMove(4, 5, 3, 4)) == "e6-d5"
  {
    assert Decimal(6) == "6" && Decimal(5) == "5";
  }
}
