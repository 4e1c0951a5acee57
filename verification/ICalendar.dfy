/**
  iCalendar content lines: escaping and folding of internal/application/calendar.go, with the
  reader of sections 3.1 and 3.3.11 of RFC 5545 as the reference they are measured against.

  Lines are octets, because the 75-octet limit and the rule against splitting a code point are
  statements about octets.
 */
module ICalendar {

  type Octet = x: int | 0 <= x < 256
  type Octets = seq<Octet>

  const CR: Octet := 13
  const LF: Octet := 10
  const SPACE: Octet := 32
  const TAB: Octet := 9
  const COMMA: Octet := 44
  const COLON: Octet := 58
  const SEMICOLON: Octet := 59
  const BACKSLASH: Octet := 92
  const LOWER_N: Octet := 110
  const UPPER_N: Octet := 78

  const FIRST_LIMIT: nat := 75
  const NEXT_LIMIT: nat := 74

  // ----- escaping -----

  /** The replacer of icsLine: the longest newline form wins, everything else is left alone. */
  function Escape(v: Octets): (r: Octets) {
    if v == [] then []
    else if v[0] == BACKSLASH || v[0] == SEMICOLON || v[0] == COMMA then [BACKSLASH, v[0]] + Escape(v[1..])
    else if v[0] == CR && |v| > 1 && v[1] == LF then [BACKSLASH, LOWER_N] + Escape(v[2..])
    else if v[0] == CR || v[0] == LF then [BACKSLASH, LOWER_N] + Escape(v[1..])
    else [v[0]] + Escape(v[1..])
  }

  /** How a calendar reads an escaped text value. */
  function Unescape(v: Octets): (r: Octets) {
    if v == [] then []
    else if v[0] == BACKSLASH && |v| > 1 then
      [if v[1] == LOWER_N || v[1] == UPPER_N then LF else v[1]] + Unescape(v[2..])
    else [v[0]] + Unescape(v[1..])
  }

  /** A value with every line break written as LF. */
  function Normalised(v: Octets): (r: Octets) {
    if v == [] then []
    else if v[0] == CR && |v| > 1 && v[1] == LF then [LF] + Normalised(v[2..])
    else if v[0] == CR then [LF] + Normalised(v[1..])
    else [v[0]] + Normalised(v[1..])
  }

  predicate BreakFree(v: Octets) { CR !in v && LF !in v }

  lemma {:induction false} EscapeBreakFree(v: Octets)
    ensures BreakFree(Escape(v))
    decreases |v|
  {
    if v != [] {
      EscapeBreakFree(v[1..]);
      if |v| > 1 { EscapeBreakFree(v[2..]); }
    }
  }

  lemma UnescapePair(x: Octet, y: Octet, rest: Octets)
    requires x == BACKSLASH
    ensures Unescape([x, y] + rest) == [if y == LOWER_N || y == UPPER_N then LF else y] + Unescape(rest)
  {
    assert ([x, y] + rest)[2..] == rest;
  }

  lemma {:induction false} UnescapeEscape(v: Octets)
    ensures Unescape(Escape(v)) == Normalised(v)
    decreases |v|
  {
    if v == [] {
    } else if v[0] == BACKSLASH || v[0] == SEMICOLON || v[0] == COMMA {
      UnescapeEscape(v[1..]);
      UnescapePair(BACKSLASH, v[0], Escape(v[1..]));
    } else if v[0] == CR && |v| > 1 && v[1] == LF {
      UnescapeEscape(v[2..]);
      UnescapePair(BACKSLASH, LOWER_N, Escape(v[2..]));
    } else if v[0] == CR || v[0] == LF {
      UnescapeEscape(v[1..]);
      UnescapePair(BACKSLASH, LOWER_N, Escape(v[1..]));
    } else {
      UnescapeEscape(v[1..]);
      assert Escape(v)[1..] == Escape(v[1..]);
    }
  }

  /** TEXT of section 3.3.11 of RFC 5545: special octets stand only in escapes. */
  predicate EscapedText(s: Octets) {
    || s == []
    || (s[0] == BACKSLASH && |s| > 1 && s[1] in {BACKSLASH, SEMICOLON, COMMA, LOWER_N} && EscapedText(s[2..]))
    || (s[0] !in {BACKSLASH, SEMICOLON, COMMA, CR, LF} && EscapedText(s[1..]))
  }

  lemma PairEscaped(y: Octet, rest: Octets)
    requires y in {BACKSLASH, SEMICOLON, COMMA, LOWER_N} && EscapedText(rest)
    ensures EscapedText([BACKSLASH, y] + rest)
  {
    assert ([BACKSLASH, y] + rest)[2..] == rest;
  }

  /** For every value the escaped form is such a text. */
  lemma {:induction false} EscapeIsText(v: Octets)
    ensures EscapedText(Escape(v))
    decreases |v|
  {
    if v == [] {
    } else if v[0] == BACKSLASH || v[0] == SEMICOLON || v[0] == COMMA {
      EscapeIsText(v[1..]);
      PairEscaped(v[0], Escape(v[1..]));
    } else if v[0] == CR && |v| > 1 && v[1] == LF {
      EscapeIsText(v[2..]);
      PairEscaped(LOWER_N, Escape(v[2..]));
    } else if v[0] == CR || v[0] == LF {
      EscapeIsText(v[1..]);
      PairEscaped(LOWER_N, Escape(v[1..]));
    } else {
      EscapeIsText(v[1..]);
      assert Escape(v)[1..] == Escape(v[1..]);
    }
  }

  /** So every comma and semicolon of the escaped value follows a backslash. */
  lemma {:induction false} SeparatorsEscaped(s: Octets, i: nat)
    requires EscapedText(s) && i < |s| && (s[i] == COMMA || s[i] == SEMICOLON)
    ensures i > 0 && s[i - 1] == BACKSLASH
    decreases |s|
  {
    if s[0] == BACKSLASH {
      if i >= 2 { SeparatorsEscaped(s[2..], i - 2); }
    } else {
      SeparatorsEscaped(s[1..], i - 1);
    }
  }

  // ----- UTF-8 -----

  predicate Continuation(b: Octet) { 128 <= b < 192 }

  /** The length a lead octet announces, 0 for an octet that cannot start a code point. */
  function SequenceLength(b: Octet): (n: nat)
    ensures n <= 4
  {
    if b < 128 then 1 else if b < 194 then 0 else if b < 224 then 2 else if b < 240 then 3
    else if b < 245 then 4 else 0
  }

  /** No overlong form, no surrogate, nothing above U+10FFFF: what the second octet may be (RFC 3629, section 4). */
  predicate SecondFits(lead: Octet, second: Octet) {
    && (lead == 0xE0 ==> second >= 0xA0) && (lead == 0xED ==> second < 0xA0)
    && (lead == 0xF0 ==> second >= 0x90) && (lead == 0xF4 ==> second < 0x90)
  }

  /** The first n octets are one code point. */
  predicate HeadFits(s: Octets, n: nat)
    requires n <= |s|
  {
    (forall i :: 1 <= i < n ==> Continuation(s[i])) && (n > 1 ==> SecondFits(s[0], s[1]))
  }

  /** Whatever follows it. */
  lemma SameHead(s: Octets, t: Octets, n: nat)
    requires n <= |s| && n <= |t| && s[..n] == t[..n]
    ensures HeadFits(s, n) <==> HeadFits(t, n)
    ensures n > 0 ==> s[0] == t[0]
  {
    assert forall i :: 0 <= i < n ==> s[i] == s[..n][i] == t[..n][i] == t[i];
  }

  /** A concatenation of complete code point sequences. */
  predicate ValidUtf8(s: Octets) {
    s == [] ||
    (var n := SequenceLength(s[0]);
     n > 0 && n <= |s| && HeadFits(s, n)
     && ValidUtf8(s[n..]))
  }

  /** A text may be cut wherever the octet at the cut does not continue a code point. */
  predicate Boundary(s: Octets, i: int) {
    i <= 0 || i >= |s| || !Continuation(s[i])
  }

  lemma {:induction false} CutKeepsValid(s: Octets, cut: nat)
    requires ValidUtf8(s) && cut <= |s| && Boundary(s, cut)
    ensures ValidUtf8(s[..cut]) && ValidUtf8(s[cut..])
    decreases |s|
  {
    if cut == 0 {
      assert s[..0] == [] && s[0..] == s;
    } else if cut == |s| {
      assert s[..cut] == s && s[cut..] == [];
    } else {
      var n := SequenceLength(s[0]);
      assert n <= cut;
      CutKeepsValid(s[n..], cut - n);
      var a := s[..cut];
      SameHead(a, s, n);
      assert a[n..] == s[n..][..cut - n];
      assert s[cut..] == s[n..][cut - n..];
    }
  }

  /** In valid UTF-8 a boundary lies within any four consecutive positions. */
  lemma {:induction false} BoundaryNear(s: Octets, i: nat)
    requires ValidUtf8(s) && 3 <= i <= |s|
    ensures Boundary(s, i) || Boundary(s, i - 1) || Boundary(s, i - 2) || Boundary(s, i - 3)
    decreases |s|
  {
    var n := SequenceLength(s[0]);
    if n <= i - 3 {
      BoundaryNear(s[n..], i - n);
    } else if n < i {
      assert Boundary(s[n..], 0);
      if n < |s| { assert !Continuation(s[n]) by { assert s[n] == s[n..][0]; } }
    }
  }

  lemma ConcatValid(a: Octets, b: Octets)
    requires ValidUtf8(a) && ValidUtf8(b)
    ensures ValidUtf8(a + b)
  {
    if a == [] {
      assert a + b == b;
    } else {
      var n := SequenceLength(a[0]);
      SameHead(a + b, a, n);
      assert (a + b)[n..] == a[n..] + b;
      ConcatValid(a[n..], b);
    }
  }

  lemma {:induction false} EscapeValid(v: Octets)
    requires ValidUtf8(v)
    ensures ValidUtf8(Escape(v))
    decreases |v|
  {
    if v != [] {
      var n := SequenceLength(v[0]);
      EscapeHead(v, n);
      if v[0] == CR && |v| > 1 && v[1] == LF {
        assert v[1..][0] == LF && v[1..][1..] == v[2..];
        EscapeValid(v[2..]);
        PairValid(LOWER_N);
        ConcatValid([BACKSLASH, LOWER_N], Escape(v[2..]));
      } else {
        EscapeValid(v[n..]);
        if v[0] == CR || v[0] == LF {
          PairValid(LOWER_N);
          ConcatValid([BACKSLASH, LOWER_N], Escape(v[n..]));
        } else if v[0] == BACKSLASH || v[0] == SEMICOLON || v[0] == COMMA {
          PairValid(v[0]);
          ConcatValid([BACKSLASH, v[0]], Escape(v[n..]));
        } else {
          CutKeepsValid(v, n);
          ConcatValid(v[..n], Escape(v[n..]));
        }
      }
    }
  }

  lemma PairValid(y: Octet)
    requires y < 128
    ensures ValidUtf8([BACKSLASH, y])
  {
    assert [BACKSLASH, y][1..] == [y];
    assert [y][1..] == [];
  }

  /** Escaping leaves the first code point of a text alone unless it is one of the special octets. */
  lemma {:induction false} EscapeHead(v: Octets, n: nat)
    requires v != [] && 0 < n <= |v|
    requires forall i :: 1 <= i < n ==> Continuation(v[i])
    ensures Special(v[0]) || Escape(v) == v[..n] + Escape(v[n..])
    decreases n
  {
    if !Special(v[0]) {
      EscapePlain(v);
      if n == 1 {
        assert v[..1] == [v[0]];
      } else {
        EscapeHead(v[1..], n - 1);
        HeadParts(v, n, Escape(v[n..]));
      }
    }
  }

  lemma EscapePlain(v: Octets)
    requires v != [] && !Special(v[0])
    ensures Escape(v) == [v[0]] + Escape(v[1..])
  {
  }

  lemma HeadParts(v: Octets, n: nat, tail: Octets)
    requires 1 < n <= |v|
    ensures v[1..][n - 1..] == v[n..]
    ensures [v[0]] + (v[1..][..n - 1] + tail) == v[..n] + tail
  {
    assert v[..n] == [v[0]] + v[1..][..n - 1];
  }

  predicate Special(b: Octet) { b == BACKSLASH || b == SEMICOLON || b == COMMA || b == CR || b == LF }

  // ----- folding -----

  /** Where a line too long for the limit is cut: the last boundary at or before it, if there is one. */
  function Cut(line: Octets, limit: nat): (cut: nat)
    requires 0 < limit < |line|
    ensures 0 < cut <= limit
  {
    var c := LastBoundary(line, limit);
    if c == 0 then limit else c
  }

  function LastBoundary(line: Octets, i: nat): (c: nat)
    ensures c <= i
    ensures Boundary(line, c)
    ensures forall k :: c < k <= i ==> !Boundary(line, k)
  {
    if Boundary(line, i) then i else LastBoundary(line, i - 1)
  }

  /** The pieces a line is folded into. */
  function Pieces(line: Octets, limit: nat): (p: seq<Octets>)
    requires limit > 0
    ensures |p| > 0
    decreases |line|
  {
    if |line| <= limit then [line]
    else
      var c := Cut(line, limit);
      [line[..c]] + Pieces(line[c..], NEXT_LIMIT)
  }

  /** Pieces joined by a fold, the last one ended by a line break. */
  function Joined(p: seq<Octets>): (r: Octets)
    requires |p| > 0
  {
    if |p| == 1 then p[0] + [CR, LF] else p[0] + [CR, LF, SPACE] + Joined(p[1..])
  }

  /** A reader's unfolding: a line break followed by a space or tab disappears. */
  function Unfold(s: Octets): (r: Octets) {
    if s == [] then []
    else if |s| >= 3 && s[0] == CR && s[1] == LF && (s[2] == SPACE || s[2] == TAB) then Unfold(s[3..])
    else [s[0]] + Unfold(s[1..])
  }

  /** The physical lines of a text that ends each one with CR LF. */
  function PhysicalLines(s: Octets): (r: seq<Octets>) {
    if s == [] then []
    else
      var n := LineLength(s);
      [s[..n]] + (if n == |s| then [] else PhysicalLines(s[n + 2..]))
  }

  function LineLength(s: Octets): (n: nat)
    ensures n <= |s|
    ensures n < |s| ==> n + 2 <= |s| && s[n] == CR && s[n + 1] == LF
  {
    if s == [] || (|s| >= 2 && s[0] == CR && s[1] == LF) then 0 else 1 + LineLength(s[1..])
  }

  lemma {:induction false} LineLengthPrefix(a: Octets, rest: Octets)
    requires BreakFree(a)
    ensures LineLength(a + [CR, LF] + rest) == |a|
  {
    if a != [] {
      assert (a + [CR, LF] + rest)[1..] == a[1..] + [CR, LF] + rest;
      LineLengthPrefix(a[1..], rest);
    }
  }

  lemma {:induction false} UnfoldPrefix(a: Octets, s: Octets)
    requires BreakFree(a)
    ensures Unfold(a + s) == a + Unfold(s)
  {
    if a == [] {
      assert a + s == s;
    } else {
      assert (a + s)[1..] == a[1..] + s;
      UnfoldPrefix(a[1..], s);
    }
  }

  /** A piece before a fold, and the text after it. */
  lemma UnfoldFold(a: Octets, s: Octets)
    requires BreakFree(a)
    ensures Unfold(a + [CR, LF, SPACE] + s) == a + Unfold(s)
  {
    var t: Octets := [CR, LF, SPACE] + s;
    assert t[3..] == s;
    assert a + [CR, LF, SPACE] + s == a + t;
    UnfoldPrefix(a, t);
  }

  lemma UnfoldEnd()
    ensures Unfold([CR, LF]) == [CR, LF]
  {
    var s: Octets := [CR, LF];
    assert s[1..] == [LF];
    assert s[1..][1..] == [];
    assert Unfold(s[1..]) == [LF];
  }

  lemma {:induction false} UnfoldJoined(line: Octets, limit: nat)
    requires limit > 0 && BreakFree(line)
    ensures Unfold(Joined(Pieces(line, limit))) == line + [CR, LF]
    decreases |line|
  {
    var p := Pieces(line, limit);
    if |line| <= limit {
      UnfoldPrefix(line, [CR, LF]);
      UnfoldEnd();
    } else {
      var c := Cut(line, limit);
      UnfoldJoined(line[c..], NEXT_LIMIT);
      assert p[1..] == Pieces(line[c..], NEXT_LIMIT);
      UnfoldFold(line[..c], Joined(p[1..]));
      assert line == line[..c] + line[c..];
    }
  }

  /** The first piece fits the limit it was cut under, every later one the continuation limit. */
  ghost predicate PiecesFit(p: seq<Octets>, limit: nat) {
    forall i :: 0 <= i < |p| ==> BreakFree(p[i]) && |p[i]| <= if i == 0 then limit else NEXT_LIMIT
  }

  lemma {:induction false} PiecesAreShort(line: Octets, limit: nat)
    requires limit > 0 && BreakFree(line)
    ensures PiecesFit(Pieces(line, limit), limit)
    decreases |line|
  {
    if |line| > limit {
      var c := Cut(line, limit);
      PiecesAreShort(line[c..], NEXT_LIMIT);
      var p := Pieces(line, limit);
      forall i | 0 <= i < |p|
        ensures BreakFree(p[i]) && |p[i]| <= if i == 0 then limit else NEXT_LIMIT
      {
        if i > 0 { assert p[i] == Pieces(line[c..], NEXT_LIMIT)[i - 1]; }
      }
    }
  }

  lemma {:induction false} PiecesValid(line: Octets, limit: nat)
    requires limit > 3 && ValidUtf8(line)
    ensures forall i :: 0 <= i < |Pieces(line, limit)| ==> ValidUtf8(Pieces(line, limit)[i])
    decreases |line|
  {
    if |line| > limit {
      BoundaryNear(line, limit);
      var c := Cut(line, limit);
      CutKeepsValid(line, c);
      PiecesValid(line[c..], NEXT_LIMIT);
      var p := Pieces(line, limit);
      forall i | 0 <= i < |p| ensures ValidUtf8(p[i]) {
        if i > 0 { assert p[i] == Pieces(line[c..], NEXT_LIMIT)[i - 1]; }
      }
    }
  }

  function Continuations(p: seq<Octets>): (r: seq<Octets>)
    ensures |r| == |p|
    ensures forall i :: 0 <= i < |p| ==> r[i] == [SPACE] + p[i]
  {
    seq(|p|, i requires 0 <= i < |p| => [SPACE] + p[i])
  }

  lemma LinesOfFirst(head: Octets, rest: Octets)
    requires BreakFree(head)
    ensures PhysicalLines(head + [CR, LF] + rest) == [head] + PhysicalLines(rest)
  {
    var s := head + [CR, LF] + rest;
    LineLengthPrefix(head, rest);
    assert s[..|head|] == head;
    assert s[|head| + 2..] == rest;
  }

  lemma ContinuationsHead(p: seq<Octets>)
    requires |p| > 0
    ensures [[SPACE] + p[0]] + Continuations(p[1..]) == Continuations(p)
  {
  }

  lemma JoinedHead(first: Octets, p: seq<Octets>)
    requires |p| > 0
    ensures first + Joined(p) == first + p[0] + [CR, LF] + if |p| == 1 then [] else [SPACE] + Joined(p[1..])
  {
    var crlf, space: Octets := [CR, LF], [SPACE];
    if |p| == 1 {
      Regroup(first, p[0], crlf);
      assert first + p[0] + crlf + [] == first + p[0] + crlf;
    } else {
      var rest := Joined(p[1..]);
      assert [CR, LF, SPACE] == crlf + space;
      Regroup(p[0], crlf, space);
      Regroup(p[0] + crlf, space, rest);
      Regroup(first, p[0] + crlf, space + rest);
      Regroup(first, p[0], crlf);
    }
  }

  lemma Regroup(a: Octets, b: Octets, c: Octets)
    ensures a + (b + c) == a + b + c
  {
  }

  /** The physical lines of a folded line: the pieces, each after the first behind its space. */
  lemma {:induction false} LinesOfJoined(first: Octets, p: seq<Octets>)
    requires |p| > 0 && BreakFree(first) && forall i :: 0 <= i < |p| ==> BreakFree(p[i])
    ensures PhysicalLines(first + Joined(p)) == [first + p[0]] + Continuations(p[1..])
    decreases |p|
  {
    JoinedHead(first, p);
    if |p| == 1 {
      LinesOfFirst(first + p[0], []);
    } else {
      LinesOfFirst(first + p[0], [SPACE] + Joined(p[1..]));
      LinesOfJoined([SPACE], p[1..]);
      ContinuationsHead(p[1..]);
    }
  }

  // ----- icsLine -----

  /** icsLine as written: `line` and `cut` shrink, folded text is appended to the result. */
  method IcsLine(name: Octets, value: Octets) returns (r: Octets)
    ensures r == Joined(Pieces(name + [COLON] + Escape(value), FIRST_LIMIT))
  {
    var line := name + [COLON] + Escape(value);
    ghost var whole := Joined(Pieces(line, FIRST_LIMIT));
    r := [];
    var limit := FIRST_LIMIT;
    while |line| > limit
      invariant limit > 0
      invariant whole == r + Joined(Pieces(line, limit))
      decreases |line|
    {
      var cut := limit;
      while cut > 0 && !Boundary(line, cut)
        invariant 0 <= cut <= limit
        invariant LastBoundary(line, limit) == LastBoundary(line, cut)
      {
        cut := cut - 1;
      }
      if cut == 0 {
        cut := limit;
      }
      FoldOnce(line, limit);
      assert cut == Cut(line, limit);
      ghost var rest := Joined(Pieces(line[cut..], NEXT_LIMIT));
      assert r + (line[..cut] + [CR, LF, SPACE] + rest) == (r + (line[..cut] + [CR, LF, SPACE])) + rest;
      r := r + (line[..cut] + [CR, LF, SPACE]);
      line := line[cut..];
      limit := NEXT_LIMIT;
    }
    r := r + (line + [CR, LF]);
  }

  lemma FoldOnce(line: Octets, limit: nat)
    requires 0 < limit < |line|
    ensures var c := Cut(line, limit);
            Joined(Pieces(line, limit)) == line[..c] + [CR, LF, SPACE] + Joined(Pieces(line[c..], NEXT_LIMIT))
  {
    var c := Cut(line, limit);
    assert Pieces(line, limit)[1..] == Pieces(line[c..], NEXT_LIMIT);
  }

  /** What icsLine produces, as a value. */
  function Line(name: Octets, value: Octets): Octets {
    Joined(Pieces(name + [COLON] + Escape(value), FIRST_LIMIT))
  }

  function IndexOf(s: Octets, b: Octet): (i: nat)
    ensures i <= |s|
  {
    if s == [] || s[0] == b then 0 else 1 + IndexOf(s[1..], b)
  }

  /** A calendar's reading of one folded property: unfold, drop the line break, split at the first colon. */
  function Read(s: Octets): (Octets, Octets) {
    var u := Unfold(s);
    var line := if |u| < 2 then u else u[..|u| - 2];
    var i := IndexOf(line, COLON);
    (line[..i], if i == |line| then [] else Unescape(line[i + 1..]))
  }

  lemma {:induction false} IndexOfPrefix(a: Octets, b: Octet, rest: Octets)
    requires b !in a
    ensures IndexOf(a + [b] + rest, b) == |a|
  {
    if a != [] {
      assert (a + [b] + rest)[1..] == a[1..] + [b] + rest;
      IndexOfPrefix(a[1..], b, rest);
    }
  }

  /** A calendar reads back the name and the value with its line breaks normalised. */
  lemma ReadLine(name: Octets, value: Octets)
    requires BreakFree(name) && COLON !in name
    ensures Read(Line(name, value)) == (name, Normalised(value))
  {
    EscapeBreakFree(value);
    var line := name + [COLON] + Escape(value);
    UnfoldJoined(line, FIRST_LIMIT);
    assert (line + [CR, LF])[..|line|] == line;
    IndexOfPrefix(name, COLON, Escape(value));
    assert line[..|name|] == name && line[|name| + 1..] == Escape(value);
    UnescapeEscape(value);
  }

  /** The physical lines of one property, and what their pieces are. */
  lemma LinesOfLine(name: Octets, value: Octets) returns (p: seq<Octets>)
    requires BreakFree(name)
    ensures p == Pieces(name + [COLON] + Escape(value), FIRST_LIMIT) && PiecesFit(p, FIRST_LIMIT)
    ensures PhysicalLines(Line(name, value)) == [p[0]] + Continuations(p[1..])
  {
    EscapeBreakFree(value);
    var line := name + [COLON] + Escape(value);
    p := Pieces(line, FIRST_LIMIT);
    PiecesAreShort(line, FIRST_LIMIT);
    LinesOfJoined([], p);
    assert [] + Joined(p) == Joined(p) && [] + p[0] == p[0];
  }

  /** No physical line is longer than 75 octets, whatever the value holds. */
  lemma LinesFit(name: Octets, value: Octets)
    requires BreakFree(name)
    ensures forall i :: 0 <= i < |PhysicalLines(Line(name, value))| ==> |PhysicalLines(Line(name, value))[i]| <= 75
  {
    var p := LinesOfLine(name, value);
    var lines := [p[0]] + Continuations(p[1..]);
    forall i | 0 <= i < |lines| ensures |lines[i]| <= 75 {
      if i > 0 { assert lines[i] == [SPACE] + p[i]; }
    }
  }

  /** Folding valid UTF-8 never splits a code point: every physical line is valid UTF-8 by itself. */
  lemma LinesAreValidUtf8(name: Octets, value: Octets)
    requires BreakFree(name) && ValidUtf8(name) && ValidUtf8(value)
    ensures forall i :: 0 <= i < |PhysicalLines(Line(name, value))| ==> ValidUtf8(PhysicalLines(Line(name, value))[i])
  {
    var p := LinesOfLine(name, value);
    UnfoldedLineValid(name, value);
    PiecesValid(name + [COLON] + Escape(value), FIRST_LIMIT);
    var lines := [p[0]] + Continuations(p[1..]);
    forall i | 0 <= i < |lines| ensures ValidUtf8(lines[i]) {
      if i > 0 {
        assert lines[i] == [SPACE] + p[i];
        OneOctetValid(SPACE);
        ConcatValid([SPACE], p[i]);
      }
    }
  }

  lemma UnfoldedLineValid(name: Octets, value: Octets)
    requires ValidUtf8(name) && ValidUtf8(value)
    ensures ValidUtf8(name + [COLON] + Escape(value))
  {
    EscapeValid(value);
    OneOctetValid(COLON);
    ConcatValid(name, [COLON]);
    ConcatValid(name + [COLON], Escape(value));
  }

  lemma OneOctetValid(b: Octet)
    requires b < 128
    ensures ValidUtf8([b])
  {
    assert [b][1..] == [];
  }
}
