/**
 * Cell identifiers. Sockets, tiles and pin locations are all named by the
 * template string `${col},${row}` (Level.js and ILoveHueParsers.js). This module
 * writes out JavaScript's decimal rendering of an integer and proves that the
 * identifier determines the cell, so that comparing ids (checkForWin, the
 * pinned-id set) is the same as comparing coordinates.
 */
module CellIds {

  predicate IsDigit(c: char) {
    '0' <= c <= '9'
  }

  function DigitChar(d: nat): (c: char)
    requires d < 10
    ensures IsDigit(c) && DigitValue(c) == d
  {
    ('0' as int + d) as char
  }

  function DigitValue(c: char): nat
    requires IsDigit(c)
  {
    c as int - '0' as int
  }

  predicate AllDigits(s: string) {
    forall i :: 0 <= i < |s| ==> IsDigit(s[i])
  }

  /** Decimal rendering of a natural number, most significant digit first. */
  function NatToString(n: nat): (s: string)
    ensures |s| >= 1 && AllDigits(s)
    decreases n
  {
    if n < 10 then [DigitChar(n)] else NatToString(n / 10) + [DigitChar(n % 10)]
  }

  /** Reads a non-empty run of decimal digits back as a number. */
  function ParseNat(s: string): nat
    requires |s| >= 1 && AllDigits(s)
    decreases |s|
  {
    if |s| == 1 then DigitValue(s[0])
    else 10 * ParseNat(s[..|s| - 1]) + DigitValue(s[|s| - 1])
  }

  lemma {:induction false} ParseNatOfNatToString(n: nat)
    ensures ParseNat(NatToString(n)) == n
    decreases n
  {
    if n >= 10 {
      var s := NatToString(n);
      var prefix := NatToString(n / 10);
      assert s == prefix + [DigitChar(n % 10)];
      assert s[..|s| - 1] == prefix;
      ParseNatOfNatToString(n / 10);
    }
  }

  /** JavaScript's `String(i)` for an integer-valued number. */
  function IntToString(i: int): (s: string)
    ensures |s| >= 1 && ',' !in s
    ensures i >= 0 <==> IsDigit(s[0])
  {
    if i < 0 then "-" + NatToString(-i) else NatToString(i)
  }

  lemma IntToStringInjective(a: int, b: int)
    requires IntToString(a) == IntToString(b)
    ensures a == b
  {
    if a < 0 {
      assert IntToString(a)[1..] == NatToString(-a);
      assert IntToString(b)[1..] == NatToString(-b);
      ParseNatOfNatToString(-a);
      ParseNatOfNatToString(-b);
    } else {
      ParseNatOfNatToString(a);
      ParseNatOfNatToString(b);
    }
  }

  /** The identifier `${col},${row}` of the cell in column `col` and row `row`. */
  function CellId(col: int, row: int): string {
    IntToString(col) + "," + IntToString(row)
  }

  /** Position of the first comma in `s`, or `|s|` when there is none. */
  function CommaIndex(s: string): (k: nat)
    ensures k <= |s|
    ensures forall i :: 0 <= i < k ==> s[i] != ','
    ensures k < |s| ==> s[k] == ','
  {
    if |s| == 0 then 0
    else if s[0] == ',' then 0
    else 1 + CommaIndex(s[1..])
  }

  lemma CommaIndexOfJoin(a: string, b: string)
    requires ',' !in a
    ensures CommaIndex(a + "," + b) == |a|
  {
    var s := a + "," + b;
    var k := CommaIndex(s);
    assert s[|a|] == ',';
  }

  /** Two cells share an identifier only if they are the same cell. */
  lemma {:induction false} CellIdInjective(c1: int, r1: int, c2: int, r2: int)
    ensures CellId(c1, r1) == CellId(c2, r2) <==> c1 == c2 && r1 == r2
  {
    if CellId(c1, r1) == CellId(c2, r2) {
      var a1, b1 := IntToString(c1), IntToString(r1);
      var a2, b2 := IntToString(c2), IntToString(r2);
      var s := CellId(c1, r1);
      CommaIndexOfJoin(a1, b1);
      CommaIndexOfJoin(a2, b2);
      assert a1 == s[..|a1|] == a2;
      assert b1 == s[|a1| + 1..] == b2;
      IntToStringInjective(c1, c2);
      IntToStringInjective(r1, r2);
    }
  }

  /** A cell with single-digit coordinates has the three-character id `c,r`. */
  lemma SmallCellId(c: int, r: int)
    requires 0 <= c < 10 && 0 <= r < 10
    ensures CellId(c, r) == [DigitChar(c), ',', DigitChar(r)]
  {}
}
