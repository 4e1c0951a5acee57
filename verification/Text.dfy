/** Facts about separated and ordered text that several encodings rest on. */
module Text {

  predicate Free(s: string, c: char) { c !in s }

  /** A text up to the first separator is determined by the whole. */
  lemma {:induction false} SplitFirst(a: string, x: string, b: string, y: string, c: char)
    requires Free(a, c) && Free(b, c)
    requires a + [c] + x == b + [c] + y
    ensures a == b && x == y
  {
    var s := a + [c] + x;
    var t := b + [c] + y;
    FirstChar(a, x, c);
    FirstChar(b, y, c);
    if a == "" {
      assert s[1..] == x && t[1..] == y;
    } else {
      assert s[1..] == a[1..] + [c] + x && t[1..] == b[1..] + [c] + y;
      SplitFirst(a[1..], x, b[1..], y, c);
      assert a == [a[0]] + a[1..] && b == [b[0]] + b[1..];
    }
  }

  lemma FirstChar(a: string, x: string, c: char)
    requires Free(a, c)
    ensures (a + [c] + x)[0] == (if a == "" then c else a[0])
    ensures a == "" <==> (a + [c] + x)[0] == c
  {
    assert a != "" ==> a[0] in a;
  }

  /** Lines, each ended by a line break. */
  function Lines(ls: seq<string>): string {
    if ls == [] then "" else ls[0] + "\n" + Lines(ls[1..])
  }

  lemma {:induction false} LinesInjective(a: seq<string>, b: seq<string>)
    requires forall i :: 0 <= i < |a| ==> Free(a[i], '\n')
    requires forall i :: 0 <= i < |b| ==> Free(b[i], '\n')
    requires Lines(a) == Lines(b)
    ensures a == b
  {
    assert a == [] <==> Lines(a) == "";
    assert b == [] <==> Lines(b) == "";
    if a != [] {
      SplitFirst(a[0], Lines(a[1..]), b[0], Lines(b[1..]), '\n');
      LinesInjective(a[1..], b[1..]);
      assert a == [a[0]] + a[1..] && b == [b[0]] + b[1..];
    }
  }

  /** strings.Join(parts, ",") */
  function Commas(parts: seq<string>): string {
    if parts == [] then "" else if |parts| == 1 then parts[0] else parts[0] + "," + Commas(parts[1..])
  }

  /**
    A scanner reads a text from state st and ends in state 0; no comma of the text meets it in state 0.
    With a scanner for quoted strings the commas between quotes are part of the text.
   */
  predicate Whole(scan: (nat, char) -> nat, st: nat, s: string)
    decreases |s|
  {
    if s == "" then st == 0 else !(st == 0 && s[0] == ',') && Whole(scan, scan(st, s[0]), s[1..])
  }

  /** A whole text before a comma is determined by what follows it together with it. */
  lemma {:induction false} SplitWhole(scan: (nat, char) -> nat, st: nat, a: string, x: string, b: string, y: string)
    requires Whole(scan, st, a) && Whole(scan, st, b) && a + [','] + x == b + [','] + y
    ensures a == b && x == y
    decreases |a|
  {
    var s, t := a + [','] + x, b + [','] + y;
    assert s[0] == if a == "" then ',' else a[0];
    assert t[0] == if b == "" then ',' else b[0];
    assert a == "" ==> s[1..] == x;
    assert b == "" ==> t[1..] == y;
    if a != "" && b != "" {
      assert s[1..] == a[1..] + [','] + x && t[1..] == b[1..] + [','] + y;
      SplitWhole(scan, scan(st, a[0]), a[1..], x, b[1..], y);
      assert a == [a[0]] + a[1..] && b == [b[0]] + b[1..];
    }
  }

  lemma {:induction false} CommasInjective(scan: (nat, char) -> nat, a: seq<string>, b: seq<string>)
    requires forall i :: 0 <= i < |a| ==> a[i] != "" && Whole(scan, 0, a[i])
    requires forall i :: 0 <= i < |b| ==> b[i] != "" && Whole(scan, 0, b[i])
    requires Commas(a) == Commas(b)
    ensures a == b
  {
    assert a == [] <==> Commas(a) == "" by { if a != [] { assert |Commas(a)| >= |a[0]|; } }
    assert b == [] <==> Commas(b) == "" by { if b != [] { assert |Commas(b)| >= |b[0]|; } }
    if a != [] {
      // A closing comma gives the last part the same shape as the others.
      var x := if |a| == 1 then "" else Commas(a[1..]) + ",";
      var y := if |b| == 1 then "" else Commas(b[1..]) + ",";
      assert Commas(a) + "," == a[0] + [','] + x;
      assert Commas(b) + "," == b[0] + [','] + y;
      SplitWhole(scan, 0, a[0], x, b[0], y);
      if |a| > 1 && |b| > 1 {
        assert x[..|x| - 1] == Commas(a[1..]) && y[..|y| - 1] == Commas(b[1..]);
        CommasInjective(scan, a[1..], b[1..]);
      }
      assert a == [a[0]] + a[1..] && b == [b[0]] + b[1..];
    }
  }

  /** fmt's %d for a natural number. */
  function Decimal(n: nat): (s: string)
    ensures s != ""
  {
    (if n < 10 then "" else Decimal(n / 10)) + [Digit(n % 10)]
  }

  function Digit(d: int): char
    requires 0 <= d < 10
  {
    ('0' as int + d) as char
  }

  function DigitValue(c: char): int { c as int - '0' as int }

  function DecimalValue(s: string): int {
    if s == "" then 0 else DecimalValue(s[..|s| - 1]) * 10 + DigitValue(s[|s| - 1])
  }

  lemma DigitRoundTrip(d: int)
    requires 0 <= d < 10
    ensures DigitValue(Digit(d)) == d && '0' <= Digit(d) <= '9'
  {
  }

  lemma {:induction false} DecimalRoundTrip(n: nat)
    ensures DecimalValue(Decimal(n)) == n
    ensures forall c :: c in Decimal(n) ==> '0' <= c <= '9'
  {
    var s, d := Decimal(n), n % 10;
    DigitRoundTrip(d);
    var front := if n < 10 then "" else Decimal(n / 10);
    assert s == front + [Digit(d)];
    assert s[..|s| - 1] == front;
    if n >= 10 { DecimalRoundTrip(n / 10); }
  }

  // ----- the byte order of strings -----

  predicate Le(a: string, b: string) {
    a == "" || (b != "" && (a[0] < b[0] || (a[0] == b[0] && Le(a[1..], b[1..]))))
  }

  lemma {:induction false} LeTotal(a: string, b: string)
    ensures Le(a, b) || Le(b, a)
  {
    if a != "" && b != "" && a[0] == b[0] { LeTotal(a[1..], b[1..]); }
  }

  lemma {:induction false} LeAntisymmetric(a: string, b: string)
    requires Le(a, b) && Le(b, a)
    ensures a == b
  {
    if a != "" {
      LeAntisymmetric(a[1..], b[1..]);
      assert a == [a[0]] + a[1..] && b == [b[0]] + b[1..];
    }
  }

  lemma {:induction false} LeTransitive(a: string, b: string, c: string)
    requires Le(a, b) && Le(b, c)
    ensures Le(a, c)
  {
    if a != "" && a[0] == b[0] && b[0] == c[0] { LeTransitive(a[1..], b[1..], c[1..]); }
  }
}
