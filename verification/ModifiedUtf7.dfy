/**
  IMAP mailbox names in modified UTF-7 (section 5.1.3 of RFC 3501): the decoder of
  internal/adapters/imap/mailbox.go, a reference encoder, and the round trip between them.

  Text is a sequence of Unicode scalar values.  Every delimiter the decoder looks for is
  ASCII, so working on characters or on the UTF-8 bytes of the same text is the same thing.
 */
module ModifiedUtf7 {

  datatype Option<+T> = None | Some(value: T)

  type Octet = x: int | 0 <= x < 256
  type Sextet = x: int | 0 <= x < 64
  type Unit = x: int | 0 <= x < 0x10000

  // ----- base64 -----

  /** The value of a character of the standard base64 alphabet, or -1. */
  function StdValue(c: char): (v: int)
    ensures -1 <= v < 64
  {
    if 'A' <= c <= 'Z' then c as int - 'A' as int
    else if 'a' <= c <= 'z' then c as int - 'a' as int + 26
    else if '0' <= c <= '9' then c as int - '0' as int + 52
    else if c == '+' then 62
    else if c == '/' then 63
    else -1
  }

  /** The modified alphabet writes 63 as a comma. */
  function ModifiedChar(v: Sextet): (c: char)
    ensures c != '-' && c != '&' && c != '\r' && c != '\n'
    ensures StdValue(if c == ',' then '/' else c) == v
  {
    if v < 26 then ('A' as int + v) as char
    else if v < 52 then ('a' as int + (v - 26)) as char
    else if v < 62 then ('0' as int + (v - 52)) as char
    else if v == 62 then '+'
    else ','
  }

  function CommaToSlash(s: string): (r: string) {
    seq(|s|, i requires 0 <= i < |s| => if s[i] == ',' then '/' else s[i])
  }

  /** The digits of a base64 text; line breaks are skipped, any other stranger is an error. */
  function Digits(s: string): (r: Option<seq<Sextet>>) {
    if s == "" then Some([])
    else if s[0] == '\r' || s[0] == '\n' then Digits(s[1..])
    else
      var v := StdValue(s[0]);
      var rest := Digits(s[1..]);
      if v < 0 || rest.None? then None else Some([v] + rest.value)
  }

  /** The three octets that four digits spell; two digits reach the first, three the second. */
  function Octet1(d0: int, d1: int): int { d0 * 4 + d1 / 16 }
  function Octet2(d1: int, d2: int): int { d1 % 16 * 16 + d2 / 4 }
  function Octet3(d2: int, d3: int): int { d2 % 4 * 64 + d3 }

  /** Regroups 6-bit digits into octets; a lone last digit is an error, leftover bits are dropped. */
  function ToOctets(d: seq<Sextet>): (r: Option<seq<Octet>>) {
    if |d| == 0 then Some([])
    else if |d| == 1 then None
    else if |d| == 2 then Some([Octet1(d[0], d[1])])
    else if |d| == 3 then Some([Octet1(d[0], d[1]), Octet2(d[1], d[2])])
    else
      var rest := ToOctets(d[4..]);
      if rest.None? then None
      else Some([Octet1(d[0], d[1]), Octet2(d[1], d[2]), Octet3(d[2], d[3])] + rest.value)
  }

  function Base64Decode(s: string): (r: Option<seq<Octet>>) {
    var d := Digits(s);
    if d.None? then None else ToOctets(d.value)
  }

  /** Regroups octets into 6-bit digits, zero-filling the last one. */
  function ToDigits(b: seq<Octet>): (d: seq<Sextet>)
    ensures |b| > 0 ==> |d| > 0
  {
    if |b| == 0 then []
    else if |b| == 1 then [b[0] / 4, b[0] % 4 * 16]
    else if |b| == 2 then [b[0] / 4, b[0] % 4 * 16 + b[1] / 16, b[1] % 16 * 4]
    else [b[0] / 4, b[0] % 4 * 16 + b[1] / 16, b[1] % 16 * 4 + b[2] / 64, b[2] % 64] + ToDigits(b[3..])
  }

  function ModifiedText(d: seq<Sextet>): (r: string)
    ensures |r| == |d|
    ensures forall i :: 0 <= i < |r| ==> r[i] == ModifiedChar(d[i])
  {
    seq(|d|, i requires 0 <= i < |d| => ModifiedChar(d[i]))
  }

  lemma {:induction false} OctetsOfDigits(b: seq<Octet>)
    ensures ToOctets(ToDigits(b)) == Some(b)
  {
    var d := ToDigits(b);
    if |b| == 1 {
      assert Octet1(d[0], d[1]) == b[0];
      assert b == [b[0]];
    } else if |b| == 2 {
      assert Octet1(d[0], d[1]) == b[0] && Octet2(d[1], d[2]) == b[1];
      assert b == [b[0], b[1]];
    } else if |b| >= 3 {
      OctetsOfDigits(b[3..]);
      assert d[4..] == ToDigits(b[3..]);
      assert Octet1(d[0], d[1]) == b[0] && Octet2(d[1], d[2]) == b[1] && Octet3(d[2], d[3]) == b[2];
      assert b == [b[0], b[1], b[2]] + b[3..];
    }
  }

  lemma {:induction false} DigitsOfModifiedText(d: seq<Sextet>)
    ensures Digits(CommaToSlash(ModifiedText(d))) == Some(d)
  {
    var s := CommaToSlash(ModifiedText(d));
    if d != [] {
      DigitsOfModifiedText(d[1..]);
      assert s[1..] == CommaToSlash(ModifiedText(d[1..]));
      assert s[0] == if ModifiedChar(d[0]) == ',' then '/' else ModifiedChar(d[0]);
      assert [d[0]] + d[1..] == d;
    }
  }

  // ----- UTF-16 -----

  predicate HighSurrogate(u: Unit) { 0xD800 <= u < 0xDC00 }
  predicate LowSurrogate(u: Unit) { 0xDC00 <= u < 0xE000 }

  /** The UTF-16 code units of a text. */
  function Utf16(s: string): (u: seq<Unit>)
    ensures s != "" ==> |u| > 0
  {
    if s == "" then []
    else
      var c := s[0] as int;
      (if c < 0x10000 then [c] else [0xD800 + (c - 0x10000) / 1024, 0xDC00 + (c - 0x10000) % 1024])
      + Utf16(s[1..])
  }

  function Combine(high: int, low: int): int { 0x10000 + (high - 0xD800) * 1024 + (low - 0xDC00) }

  /** Decoding: a surrogate without its partner becomes U+FFFD. */
  function FromUtf16(u: seq<Unit>): (s: string) {
    if u == [] then ""
    else if HighSurrogate(u[0]) && |u| > 1 && LowSurrogate(u[1]) then
      [Combine(u[0], u[1]) as char] + FromUtf16(u[2..])
    else if HighSurrogate(u[0]) || LowSurrogate(u[0]) then ['\U{FFFD}'] + FromUtf16(u[1..])
    else [u[0] as char] + FromUtf16(u[1..])
  }

  lemma {:induction false} Utf16RoundTrip(s: string)
    ensures FromUtf16(Utf16(s)) == s
  {
    if s != "" {
      Utf16RoundTrip(s[1..]);
      var c := s[0] as int;
      var u := Utf16(s);
      if c < 0x10000 {
        assert u[1..] == Utf16(s[1..]);
      } else {
        assert u[2..] == Utf16(s[1..]);
        assert Combine(u[0], u[1]) == c;
      }
      assert [s[0]] + s[1..] == s;
    }
  }

  /** No surrogate stands without its partner. */
  predicate WellFormedUtf16(u: seq<Unit>) {
    if u == [] then true
    else if HighSurrogate(u[0]) then |u| > 1 && LowSurrogate(u[1]) && WellFormedUtf16(u[2..])
    else !LowSurrogate(u[0]) && WellFormedUtf16(u[1..])
  }

  /** Code units survive the trip through text exactly when no surrogate is unpaired. */
  lemma {:induction false} UnitsSurviveIffPaired(u: seq<Unit>)
    ensures Utf16(FromUtf16(u)) == u <==> WellFormedUtf16(u)
  {
    if u != [] {
      var t := FromUtf16(u);
      if HighSurrogate(u[0]) && |u| > 1 && LowSurrogate(u[1]) {
        UnitsSurviveIffPaired(u[2..]);
        assert t[1..] == FromUtf16(u[2..]);
        assert Utf16(t) == [u[0], u[1]] + Utf16(t[1..]);
        assert u == [u[0], u[1]] + u[2..];
        if Utf16(t) == u { assert Utf16(t)[2..] == u[2..] && Utf16(t)[2..] == Utf16(t[1..]); }
      } else if HighSurrogate(u[0]) || LowSurrogate(u[0]) {
        assert Utf16(t)[0] == 0xFFFD;
      } else {
        UnitsSurviveIffPaired(u[1..]);
        assert t[1..] == FromUtf16(u[1..]);
        assert Utf16(t) == [u[0]] + Utf16(t[1..]);
        assert u == [u[0]] + u[1..];
        if Utf16(t) == u { assert Utf16(t)[1..] == u[1..] && Utf16(t)[1..] == Utf16(t[1..]); }
      }
    }
  }

  function UnitOctets(u: seq<Unit>): (b: seq<Octet>)
    ensures |b| == 2 * |u|
  {
    if u == [] then [] else [u[0] / 256, u[0] % 256] + UnitOctets(u[1..])
  }

  function BigEndian(high: int, low: int): int { high * 256 + low }

  function PairUp(b: seq<Octet>): (u: seq<Unit>)
    requires |b| % 2 == 0
    ensures |u| == |b| / 2
  {
    seq(|b| / 2, j requires 0 <= j < |b| / 2 => BigEndian(b[2 * j], b[2 * j + 1]))
  }

  lemma {:induction false} PairUpUnitOctets(u: seq<Unit>)
    ensures PairUp(UnitOctets(u)) == u
  {
    if u != [] {
      PairUpUnitOctets(u[1..]);
      var b := UnitOctets(u);
      assert b[2..] == UnitOctets(u[1..]);
      forall j | 0 <= j < |u| ensures PairUp(b)[j] == u[j] {
        if j > 0 { assert PairUp(b[2..])[j - 1] == BigEndian(b[2 * j], b[2 * j + 1]); }
      }
    }
  }

  // ----- decoding -----

  /** The index of the first c in s, or |s|. */
  function IndexOf(s: string, c: char): (i: nat)
    ensures i <= |s|
    ensures i < |s| ==> s[i] == c
  {
    if s == "" || s[0] == c then 0 else 1 + IndexOf(s[1..], c)
  }

  lemma {:induction false} IndexOfPrefix(a: string, c: char, b: string)
    requires c !in a
    ensures IndexOf(a + [c] + b, c) == |a|
  {
    if a != "" {
      IndexOfPrefix(a[1..], c, b);
      assert (a + [c] + b)[1..] == a[1..] + [c] + b;
    }
  }

  /** What one shifted run between & and - stands for; an undecodable run stays as written. */
  function DecodeRun(run: string): (r: string) {
    if run == "" then "&"
    else
      var raw := Base64Decode(CommaToSlash(run));
      if raw.None? || |raw.value| % 2 != 0 then "&" + run + "-"
      else FromUtf16(PairUp(raw.value))
  }

  /** The first decoding step of a nonempty text: what it yields and what is left to decode. */
  function Next(s: string): (p: (string, string))
    requires s != ""
    ensures |p.1| < |s|
  {
    if s[0] != '&' then ([s[0]], s[1..])
    else
      var end := IndexOf(s[1..], '-');
      if end == |s| - 1 then (s, "") else (DecodeRun(s[1..1 + end]), s[end + 2..])
  }

  function Decode(s: string): (r: string)
    decreases |s|
  {
    if s == "" then "" else Next(s).0 + Decode(Next(s).1)
  }

  /** The code units of one run, filled in place. */
  method FillUnits(raw: seq<Octet>) returns (units: array<Unit>)
    requires |raw| % 2 == 0
    ensures fresh(units) && units[..] == PairUp(raw)
  {
    units := new Unit[|raw| / 2](_ => 0);
    for j := 0 to units.Length
      invariant forall k :: 0 <= k < j ==> units[k] == PairUp(raw)[k]
    {
      units[j] := BigEndian(raw[2 * j], raw[2 * j + 1]);
    }
  }

  /** The decoder as written: one index over the text, appending to the result. */
  method DecodeModifiedUtf7(s: string) returns (r: string)
    ensures r == Decode(s)
  {
    if '&' !in s {
      NoAmpersandUnchanged(s);
      return s;
    }
    r := "";
    var i := 0;
    assert s[0..] == s;
    while i < |s|
      invariant 0 <= i <= |s|
      invariant Decode(s) == r + Decode(s[i..])
    {
      var text, j := DecodeAt(s, i);
      DecodeOn(r, s[i..]);
      r := r + text;
      i := j;
    }
  }

  lemma DecodeOn(r: string, s: string)
    requires s != ""
    ensures r + Decode(s) == (r + Next(s).0) + Decode(Next(s).1)
  {
  }

  /** One turn of the loop: the text it appends and the index it moves to. */
  method DecodeAt(s: string, i: nat) returns (text: string, j: nat)
    requires i < |s|
    ensures i < j <= |s| && Next(s[i..]) == (text, s[j..])
  {
    ghost var rest := s[i..];
    if s[i] != '&' {
      return [s[i]], i + 1;
    }
    assert rest[1..] == s[i + 1..];
    var end := IndexOf(s[i + 1..], '-');
    if end == |s| - i - 1 {
      assert s[|s|..] == "";
      return s[i..], |s|;
    }
    var run := s[i + 1..i + 1 + end];
    assert run == rest[1..1 + end];
    j := i + end + 2;
    assert rest[end + 2..] == s[j..];
    text := DecodeOneRun(run);
  }

  method DecodeOneRun(run: string) returns (r: string)
    ensures r == DecodeRun(run)
  {
    if run == "" {
      return "&";
    }
    var raw := Base64Decode(CommaToSlash(run));
    if raw.None? || |raw.value| % 2 != 0 {
      return "&" + run + "-";
    }
    var units := FillUnits(raw.value);
    r := FromUtf16(units[..]);
  }

  // ----- reference encoder and laws -----

  /** Printable US-ASCII other than & represents itself. */
  predicate Direct(c: char) { ' ' <= c <= '~' && c != '&' }

  /** The length of the longest prefix that has to be shifted. */
  function RunLength(s: string): (n: nat)
    ensures n <= |s|
    ensures s != "" && !Direct(s[0]) && s[0] != '&' ==> n > 0
  {
    if s == "" || Direct(s[0]) || s[0] == '&' then 0 else 1 + RunLength(s[1..])
  }

  function EncodeRun(s: string): (r: string) {
    ModifiedText(ToDigits(UnitOctets(Utf16(s))))
  }

  /** The encoding section 5.1.3 of RFC 3501 prescribes, one shift per maximal run. */
  function Encode(s: string): (r: string) {
    if s == "" then ""
    else if s[0] == '&' then "&-" + Encode(s[1..])
    else if Direct(s[0]) then [s[0]] + Encode(s[1..])
    else
      var n := RunLength(s);
      "&" + EncodeRun(s[..n]) + "-" + Encode(s[n..])
  }

  lemma {:induction false} NoAmpersandUnchanged(s: string)
    requires '&' !in s
    ensures Decode(s) == s
  {
    if s != "" {
      NoAmpersandUnchanged(s[1..]);
      assert s == [s[0]] + s[1..];
    }
  }

  lemma RunRoundTrip(s: string)
    requires s != ""
    ensures EncodeRun(s) != "" && '-' !in EncodeRun(s)
    ensures DecodeRun(EncodeRun(s)) == s
  {
    var u := Utf16(s);
    var b := UnitOctets(u);
    DigitsOfModifiedText(ToDigits(b));
    OctetsOfDigits(b);
    PairUpUnitOctets(u);
    Utf16RoundTrip(s);
  }

  /** Decoding one closed run in front of any text. */
  lemma DecodeShift(run: string, rest: string)
    requires '-' !in run
    ensures Decode("&" + run + "-" + rest) == DecodeRun(run) + Decode(rest)
  {
    var s := "&" + run + "-" + rest;
    assert s[1..] == run + ['-'] + rest;
    IndexOfPrefix(run, '-', rest);
    assert s[1..1 + |run|] == run;
    assert s[|run| + 2..] == rest;
  }

  /** Decoding undoes the encoding of every Unicode text. */
  lemma {:induction false} RoundTrip(s: string)
    ensures Decode(Encode(s)) == s
    decreases |s|
  {
    if s == "" {
    } else if s[0] == '&' {
      RoundTrip(s[1..]);
      DecodeShift("", Encode(s[1..]));
      assert "&" + "" + "-" + Encode(s[1..]) == Encode(s);
      assert s == ['&'] + s[1..];
    } else if Direct(s[0]) {
      RoundTrip(s[1..]);
      DecodeDirect(s[0], Encode(s[1..]));
      assert s == [s[0]] + s[1..];
    } else {
      var n := RunLength(s);
      RoundTrip(s[n..]);
      RunRoundTrip(s[..n]);
      DecodeShift(EncodeRun(s[..n]), Encode(s[n..]));
      assert s == s[..n] + s[n..];
    }
  }

  lemma DecodeDirect(c: char, rest: string)
    requires c != '&'
    ensures Decode([c] + rest) == [c] + Decode(rest)
  {
    assert ([c] + rest)[1..] == rest;
  }

  /** Two names share an encoding only if they are the same name. */
  lemma EncodeInjective(s: string, t: string)
    ensures Encode(s) == Encode(t) <==> s == t
  {
    RoundTrip(s);
    RoundTrip(t);
  }
}
