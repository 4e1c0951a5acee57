/**
  Markdown to mail HTML: internal/mailrender/markdown.go.

  The renderer writes pieces -- escaped text, start tags, end tags, void tags -- and its output
  is their rendering.  `Scan` is an independent reader of the rendered string that keeps the stack
  of open elements; the results say what it finds there for every body.  The regular expressions,
  the URL parser and Unicode white space are parameters, so everything holds whatever they say.
 */
module Markdown {

  datatype Option<+T> = None | Some(value: T)

  type Level = n: int | 1 <= n <= 6 witness 1

  /** The fixed set of elements. */
  datatype Tag =
    | Pre | Code | Heading(level: Level) | Table | Thead | Tbody | Tr | Th | Td | Ul | Ol | Li
    | Blockquote | P | Strong | Strike | Em | A

  datatype VoidTag = Br | Hr

  datatype Piece =
    | Escaped(source: string)   // html.EscapeString(source)
    | Open(tag: Tag)
    | OpenLink(href: string)    // <a href="html.EscapeString(href)">
    | Close(tag: Tag)
    | Void(void: VoidTag)

  type Pieces = seq<Piece>

  /** What the renderer takes from regular expressions, net/url and unicode. */
  datatype Recognizers = Recognizers(
    heading: string -> Option<(Level, string)>,   // hashes and text of a heading line
    item: string -> Option<(string, string)>,     // marker and text of a list line
    separator: string -> bool,                    // a table's delimiter row
    scheme: string -> Option<string>,             // the scheme of a URL that parses
    space: char -> bool)

  // ----- nesting of pieces -----

  /** One piece against the open elements, innermost first; None is a mismatch. */
  function Step(p: Piece, open: seq<Tag>): (r: Option<seq<Tag>>) {
    match p
    case Open(t) => Some([t] + open)
    case OpenLink(_) => Some([A] + open)
    case Close(t) => if open != [] && open[0] == t then Some(open[1..]) else None
    case _ => Some(open)
  }

  function Run(ps: Pieces, open: seq<Tag>): (r: Option<seq<Tag>>) {
    if ps == [] then Some(open)
    else
      var o := Step(ps[0], open);
      if o.None? then None else Run(ps[1..], o.value)
  }

  /** Every element opened is closed, innermost first, and no other is closed. */
  ghost predicate Neutral(ps: Pieces) {
    forall open :: Run(ps, open) == Some(open)
  }

  lemma {:induction false} RunConcat(a: Pieces, b: Pieces, open: seq<Tag>)
    ensures Run(a + b, open) == if Run(a, open).None? then None else Run(b, Run(a, open).value)
  {
    if a == [] {
      assert a + b == b;
    } else {
      assert (a + b)[1..] == a[1..] + b;
      var o := Step(a[0], open);
      if o.Some? { RunConcat(a[1..], b, o.value); }
    }
  }

  lemma NeutralConcat(a: Pieces, b: Pieces)
    requires Neutral(a) && Neutral(b)
    ensures Neutral(a + b)
  {
    forall open ensures Run(a + b, open) == Some(open) {
      RunConcat(a, b, open);
    }
  }

  lemma NeutralLeaf(p: Piece)
    requires p.Escaped? || p.Void?
    ensures Neutral([p])
  {
  }

  /** An element around neutral content is neutral. */
  lemma NeutralElement(start: Piece, t: Tag, inner: Pieces)
    requires start == Open(t) || (start.OpenLink? && t == A)
    requires Neutral(inner)
    ensures Neutral([start] + inner + [Close(t)])
  {
    var close := [Close(t)];
    assert [start] + inner + close == [start] + (inner + close);
    forall open ensures Run([start] + inner + close, open) == Some(open) {
      var under := [t] + open;
      RunFirst(start, inner + close, open);
      RunConcat(inner, close, under);
      RunFirst(Close(t), [], under);
      assert close == [Close(t)] + [];
      assert under[1..] == open;
    }
  }

  lemma RunFirst(p: Piece, rest: Pieces, open: seq<Tag>)
    ensures Run([p] + rest, open) == if Step(p, open).None? then None else Run(rest, Step(p, open).value)
  {
    assert ([p] + rest)[1..] == rest;
  }

  // ----- links -----

  predicate NoBreak(s: string) { '\n' !in s }

  /** safeLink: no white space or NUL, and one of three schemes. */
  predicate SafeLink(rec: Recognizers, value: string) {
    && (forall c :: c in value ==> c !in "\r\n\t\0 ")
    && rec.scheme(value) in {Some("https"), Some("http"), Some("mailto")}
  }

  predicate SafeLinks(rec: Recognizers, ps: Pieces) {
    forall p :: p in ps && p.OpenLink? ==> SafeLink(rec, p.href)
  }

  // ----- anchors within anchors -----

  /** Whether ps opens no anchor within another, and whether one is open at its end. */
  function Anchors(ps: Pieces, inside: bool): Option<bool> {
    if ps == [] then Some(inside)
    else if Opens(ps[0]) then (if inside then None else Anchors(ps[1..], true))
    else Anchors(ps[1..], inside && ps[0] != Close(A))
  }

  predicate Opens(p: Piece) { p.OpenLink? || p == Open(A) }

  predicate AnchorsApart(ps: Pieces) { Anchors(ps, false) == Some(false) }

  predicate IsAnchor(p: Piece) { Opens(p) || p == Close(A) }

  predicate NoAnchors(ps: Pieces) { forall p :: p in ps ==> !IsAnchor(p) }

  lemma {:induction false} AnchorsConcat(a: Pieces, b: Pieces, inside: bool)
    requires Anchors(a, inside).Some?
    ensures Anchors(a + b, inside) == Anchors(b, Anchors(a, inside).value)
  {
    if a == [] {
      assert a + b == b;
    } else {
      assert (a + b)[1..] == a[1..] + b;
      AnchorsConcat(a[1..], b, Opens(a[0]) || (inside && a[0] != Close(A)));
    }
  }

  lemma {:induction false} NoAnchorsApart(ps: Pieces, inside: bool)
    requires NoAnchors(ps)
    ensures Anchors(ps, inside) == Some(inside)
  {
    if ps != [] {
      assert ps[0] in ps;
      NoAnchorsApart(ps[1..], inside);
    }
  }

  lemma ApartConcat(a: Pieces, b: Pieces)
    requires AnchorsApart(a) && AnchorsApart(b)
    ensures AnchorsApart(a + b)
  {
    AnchorsConcat(a, b, false);
  }

  lemma ApartOne(p: Piece)
    requires !IsAnchor(p)
    ensures AnchorsApart([p]) && NoAnchors([p])
  {
    NoAnchorsApart([p], false);
  }

  lemma ApartElement(t: Tag, ps: Pieces)
    requires t != A && AnchorsApart(ps)
    ensures AnchorsApart([Open(t)] + ps + [Close(t)])
    ensures NoAnchors(ps) ==> NoAnchors([Open(t)] + ps + [Close(t)])
  {
    ApartOne(Open(t));
    ApartOne(Close(t));
    ApartConcat([Open(t)], ps);
    ApartConcat([Open(t)] + ps, [Close(t)]);
  }

  /** An anchor around content without one. */
  lemma ApartLink(href: string, ps: Pieces)
    requires NoAnchors(ps)
    ensures AnchorsApart([OpenLink(href)] + ps + [Close(A)])
  {
    var open, close := [OpenLink(href)], [Close(A)];
    assert open[1..] == [] && close[1..] == [];
    NoAnchorsApart(ps, true);
    AnchorsConcat(open, ps, false);
    AnchorsConcat(open + ps, close, false);
  }

  // ----- the rendered string -----

  function EscapeChar(c: char): (r: string)
    ensures r != ""
  {
    if c == '<' then "&lt;" else if c == '>' then "&gt;" else if c == '&' then "&amp;"
    else if c == '\'' then "&#39;" else if c == '"' then "&#34;" else [c]
  }

  function EscapeHtml(s: string): (r: string) {
    if s == "" then "" else EscapeChar(s[0]) + EscapeHtml(s[1..])
  }

  function Name(t: Tag): (r: string) {
    match t
    case Pre => "pre" case Code => "code" case Heading(n) => ['h', ('0' as int + n) as char]
    case Table => "table" case Thead => "thead" case Tbody => "tbody" case Tr => "tr" case Th => "th"
    case Td => "td" case Ul => "ul" case Ol => "ol" case Li => "li" case Blockquote => "blockquote"
    case P => "p" case Strong => "strong" case Strike => "s" case Em => "em" case A => "a"
  }

  function VoidName(v: VoidTag): string { if v.Br? then "br" else "hr" }

  /** What stands between < and >. */
  function TagText(p: Piece): string
    requires !p.Escaped?
  {
    match p
    case Open(t) => Name(t)
    case OpenLink(h) => "a href=\"" + EscapeHtml(h) + "\""
    case Close(t) => "/" + Name(t)
    case Void(v) => VoidName(v)
  }

  function RenderPiece(p: Piece): string {
    if p.Escaped? then EscapeHtml(p.source) else "<" + TagText(p) + ">"
  }

  function Render(ps: Pieces): (r: string) {
    if ps == [] then "" else RenderPiece(ps[0]) + Render(ps[1..])
  }

  lemma {:induction false} RenderConcat(a: Pieces, b: Pieces)
    ensures Render(a + b) == Render(a) + Render(b)
  {
    if a == [] {
      assert a + b == b;
    } else {
      assert (a + b)[1..] == a[1..] + b;
      RenderConcat(a[1..], b);
    }
  }

  // ----- reading the string back -----

  /** The characters that may not stand in text. */
  predicate Markup(c: char) { c == '<' || c == '>' || c == '"' || c == '\'' }

  function IndexOf(s: string, c: char): (i: nat)
    ensures i <= |s|
    ensures i < |s| ==> s[i] == c
  {
    if s == "" || s[0] == c then 0 else 1 + IndexOf(s[1..], c)
  }

  lemma {:induction false} IndexOfFirst(a: string, c: char, b: string)
    requires c !in a
    ensures IndexOf(a + [c] + b, c) == |a|
  {
    if a != "" {
      assert (a + [c] + b)[1..] == a[1..] + [c] + b;
      IndexOfFirst(a[1..], c, b);
    }
  }

  /** The element name of a start tag: up to the first space. */
  function StartName(text: string): string { text[..IndexOf(text, ' ')] }

  /**
    A reader that knows nothing of Markdown: tags run from < to >, the void elements are br and
    hr, every other start tag must meet its own end tag, and text may hold no markup character.
   */
  function Scan(s: string, open: seq<string>): (r: Option<seq<string>>)
    decreases |s|
  {
    if s == "" then Some(open)
    else if s[0] == '<' then
      var end := IndexOf(s, '>');
      if end == |s| || end < 2 then None
      else
        var text := s[1..end];
        var rest := s[end + 1..];
        if text[0] == '/' then
          if open != [] && open[0] == text[1..] then Scan(rest, open[1..]) else None
        else if text == "br" || text == "hr" then Scan(rest, open)
        else Scan(rest, [StartName(text)] + open)
    else if Markup(s[0]) then None
    else Scan(s[1..], open)
  }

  function Names(open: seq<Tag>): (r: seq<string>)
    ensures |r| == |open|
    ensures forall i :: 0 <= i < |open| ==> r[i] == Name(open[i])
  {
    seq(|open|, i requires 0 <= i < |open| => Name(open[i]))
  }

  lemma NameShape(t: Tag)
    ensures Name(t) != "" && Name(t) != "br" && Name(t) != "hr" && Name(t)[0] != '/'
    ensures '>' !in Name(t) && ' ' !in Name(t) && NoBreak(Name(t))
    ensures StartName(Name(t)) == Name(t)
  {
    NameChars(t);
    NoSpace(Name(t));
  }

  lemma NameChars(t: Tag)
    ensures '>' !in Name(t) && ' ' !in Name(t) && NoBreak(Name(t))
  {
  }

  lemma {:induction false} NoSpace(s: string)
    requires ' ' !in s
    ensures IndexOf(s, ' ') == |s|
  {
    if s != "" { NoSpace(s[1..]); }
  }

  lemma NameInjective(t: Tag, u: Tag)
    ensures Name(t) == Name(u) <==> t == u
  {
    assert Name(t)[..1] == [Name(t)[0]];
    assert Name(u)[..1] == [Name(u)[0]];
  }

  /** How much of s a reader of HTML takes as one character, and which. */
  function Entity(s: string): (r: (nat, char))
    requires s != ""
    ensures 1 <= r.0 <= |s|
  {
    if s[0] != '&' then (1, s[0])
    else if "&lt;" <= s then (4, '<')
    else if "&gt;" <= s then (4, '>')
    else if "&amp;" <= s then (5, '&')
    else if "&#39;" <= s then (5, '\'')
    else if "&#34;" <= s then (5, '"')
    else (1, s[0])
  }

  function UnescapeHtml(s: string): (r: string)
    decreases |s|
  {
    if s == "" then "" else [Entity(s).1] + UnescapeHtml(s[Entity(s).0..])
  }

  lemma EntityOfEscaped(c: char, rest: string)
    ensures EscapeChar(c) + rest != "" && Entity(EscapeChar(c) + rest) == (|EscapeChar(c)|, c)
  {
    var e := EscapeChar(c);
    var s := e + rest;
    assert s[0] == e[0];
    if |e| > 1 {
      assert e <= s && s[1] == e[1] && s[3] == e[3];
      var lt, gt, amp, one, two := "&lt;", "&gt;", "&amp;", "&#39;", "&#34;";
      assert (lt <= s ==> s[1] == lt[1]) && (gt <= s ==> s[1] == gt[1]) && (amp <= s ==> s[1] == amp[1]);
      assert (one <= s ==> s[3] == one[3]) && (two <= s ==> s[3] == two[3]);
    }
  }

  /** The reader sees the text that was written. */
  lemma {:induction false} UnescapeEscape(s: string)
    ensures UnescapeHtml(EscapeHtml(s)) == s
  {
    if s != "" {
      var e, rest := EscapeChar(s[0]), EscapeHtml(s[1..]);
      EntityOfEscaped(s[0], rest);
      assert (e + rest)[|e|..] == rest;
      UnescapeEscape(s[1..]);
    }
  }

  /** The target a reader finds in a start tag: the text between the first two quotes, unescaped. */
  function Target(tag: string): string
  {
    var i := IndexOf(tag, '"');
    if i == |tag| then "" else UnescapeHtml(tag[i + 1..][..IndexOf(tag[i + 1..], '"')])
  }

  lemma TargetBetween(a: string, b: string)
    requires '"' !in a && '"' !in b
    ensures Target(a + "\"" + b + "\"") == UnescapeHtml(b)
  {
    var tag, rest := a + "\"" + b + "\"", b + "\"";
    IndexOfFirst(a, '"', rest);
    assert a + ['"'] + rest == tag;
    assert tag[|a| + 1..] == rest;
    IndexOfFirst(b, '"', "");
    assert b + ['"'] + "" == rest;
    assert rest[..|b|] == b;
  }

  /** An anchor's target has its quotes escaped, so a reader finds the very href it was written for. */
  lemma TargetIsHref(href: string)
    ensures Target(TagText(OpenLink(href))) == href
  {
    EscapedClean(href);
    TargetBetween("a href=", EscapeHtml(href));
    assert "a href=" + "\"" == "a href=\"";
    UnescapeEscape(href);
  }

  /** A heading of level n is the element hn. */
  lemma HeadingNames()
    ensures Name(Heading(1)) == "h1" && Name(Heading(2)) == "h2" && Name(Heading(3)) == "h3"
    ensures Name(Heading(4)) == "h4" && Name(Heading(5)) == "h5" && Name(Heading(6)) == "h6"
  {
  }

  lemma {:induction false} EscapedClean(s: string)
    ensures forall c :: c in EscapeHtml(s) ==> !Markup(c)
    ensures NoBreak(EscapeHtml(s)) <==> NoBreak(s)
  {
    if s != "" {
      EscapedClean(s[1..]);
      EscapeCharClean(s[0]);
      assert s == [s[0]] + s[1..];
    }
  }

  lemma EscapeCharClean(c: char)
    ensures forall d :: d in EscapeChar(c) ==> !Markup(d)
    ensures NoBreak(EscapeChar(c)) <==> c != '\n'
  {
  }

  lemma {:induction false} ScanText(t: string, rest: string, open: seq<string>)
    requires forall c :: c in t ==> !Markup(c)
    ensures Scan(t + rest, open) == Scan(rest, open)
  {
    if t == "" {
      assert t + rest == rest;
    } else {
      assert t[0] in t;
      assert (t + rest)[1..] == t[1..] + rest;
      ScanText(t[1..], rest, open);
    }
  }

  lemma ScanTag(text: string, rest: string, open: seq<string>)
    requires text != "" && '>' !in text
    ensures Scan("<" + text + ">" + rest, open) ==
            if text[0] == '/' then (if open != [] && open[0] == text[1..] then Scan(rest, open[1..]) else None)
            else if text == "br" || text == "hr" then Scan(rest, open)
            else Scan(rest, [StartName(text)] + open)
  {
    var s := "<" + text + ">" + rest;
    assert s == ("<" + text) + ['>'] + rest;
    IndexOfFirst("<" + text, '>', rest);
    assert s[1..1 + |text|] == text;
    assert s[2 + |text|..] == rest;
  }

  lemma LinkText(h: string)
    ensures var text := TagText(OpenLink(h));
            text != "" && '>' !in text && text[0] != '/' && |text| > 2 && StartName(text) == "a"
  {
    EscapedClean(h);
    var text := TagText(OpenLink(h));
    var tail := "href=\"" + EscapeHtml(h) + "\"";
    assert text == "a" + [' '] + tail;
    IndexOfFirst("a", ' ', tail);
  }

  lemma ScanPiece(p: Piece, rest: string, open: seq<Tag>)
    ensures var o := Step(p, open);
            Scan(RenderPiece(p) + rest, Names(open)) == if o.None? then None else Scan(rest, Names(o.value))
  {
    match p
    case Escaped(source) => EscapedClean(source); ScanText(EscapeHtml(source), rest, Names(open));
    case Void(v) => ScanTag(VoidName(v), rest, Names(open));
    case Open(t) => ScanOpen(t, rest, open);
    case OpenLink(h) => ScanLink(h, rest, open);
    case Close(t) => ScanClose(t, rest, open);
  }

  lemma ScanLink(h: string, rest: string, open: seq<Tag>)
    ensures Scan(RenderPiece(OpenLink(h)) + rest, Names(open)) == Scan(rest, Names([A] + open))
  {
    LinkText(h);
    ScanStart(TagText(OpenLink(h)), rest, Names(open));
    assert Names([A] + open) == ["a"] + Names(open);
  }

  lemma ScanStart(text: string, rest: string, open: seq<string>)
    requires '>' !in text && |text| > 2 && text[0] != '/'
    ensures Scan("<" + text + ">" + rest, open) == Scan(rest, [StartName(text)] + open)
  {
    ScanTag(text, rest, open);
  }

  lemma ScanOpen(t: Tag, rest: string, open: seq<Tag>)
    ensures Scan("<" + Name(t) + ">" + rest, Names(open)) == Scan(rest, Names([t] + open))
  {
    NameShape(t);
    ScanTag(Name(t), rest, Names(open));
    assert Names([t] + open) == [Name(t)] + Names(open);
  }

  lemma ScanClose(t: Tag, rest: string, open: seq<Tag>)
    ensures Scan("<" + ("/" + Name(t)) + ">" + rest, Names(open)) ==
            if open != [] && open[0] == t then Scan(rest, Names(open[1..])) else None
  {
    NameShape(t);
    ScanTag("/" + Name(t), rest, Names(open));
    assert ("/" + Name(t))[1..] == Name(t);
    if open != [] {
      NameInjective(open[0], t);
      assert Names(open)[1..] == Names(open[1..]);
    }
  }

  /** Reading the rendered string finds exactly the nesting of the pieces. */
  lemma {:induction false} ScanRender(ps: Pieces, open: seq<Tag>)
    ensures var o := Run(ps, open);
            Scan(Render(ps), Names(open)) == if o.None? then None else Some(Names(o.value))
  {
    if ps != [] {
      ScanPiece(ps[0], Render(ps[1..]), open);
      var o := Step(ps[0], open);
      if o.Some? { ScanRender(ps[1..], o.value); }
    }
  }

  /** A string whose every element is closed in order. */
  predicate WellNested(s: string) { Scan(s, []) == Some([]) }

  lemma NeutralIsWellNested(ps: Pieces)
    requires Neutral(ps)
    ensures WellNested(Render(ps))
  {
    ScanRender(ps, []);
    assert Names([]) == [];
  }

  // ----- line breaks -----

  /** strings.ReplaceAll(s, "\n", "<br>") */
  function ReplaceBreaks(s: string): string {
    if s == "" then "" else (if s[0] == '\n' then "<br>" else [s[0]]) + ReplaceBreaks(s[1..])
  }

  function SplitBreaks(s: string): (r: Pieces) {
    if s == "" then [] else [if s[0] == '\n' then Void(Br) else Escaped([s[0]])] + SplitBreaks(s[1..])
  }

  function BreakLines(ps: Pieces): (r: Pieces) {
    if ps == [] then []
    else (if ps[0].Escaped? then SplitBreaks(ps[0].source) else [ps[0]]) + BreakLines(ps[1..])
  }

  lemma {:induction false} ReplaceConcat(a: string, b: string)
    ensures ReplaceBreaks(a + b) == ReplaceBreaks(a) + ReplaceBreaks(b)
  {
    if a == "" {
      assert a + b == b;
    } else {
      assert (a + b)[1..] == a[1..] + b;
      ReplaceConcat(a[1..], b);
    }
  }

  lemma {:induction false} ReplaceNothing(s: string)
    requires NoBreak(s)
    ensures ReplaceBreaks(s) == s
  {
    if s != "" {
      ReplaceNothing(s[1..]);
      assert s == [s[0]] + s[1..];
    }
  }

  lemma {:induction false} ReplaceEscaped(s: string)
    ensures ReplaceBreaks(EscapeHtml(s)) == Render(SplitBreaks(s))
  {
    if s != "" {
      ReplaceEscaped(s[1..]);
      ReplaceConcat(EscapeChar(s[0]), EscapeHtml(s[1..]));
      ReplaceOne(s[0]);
      assert SplitBreaks(s)[1..] == SplitBreaks(s[1..]);
    }
  }

  lemma ReplaceOne(c: char)
    ensures ReplaceBreaks(EscapeChar(c)) == RenderPiece(if c == '\n' then Void(Br) else Escaped([c]))
  {
    EscapeCharClean(c);
    if c == '\n' {
      assert ReplaceBreaks("\n"[1..]) == "";
    } else {
      ReplaceNothing(EscapeChar(c));
      assert [c][1..] == "";
      assert EscapeHtml([c]) == EscapeChar(c) + "";
    }
  }

  lemma TagUnbroken(p: Piece)
    requires !p.Escaped? && (p.OpenLink? ==> NoBreak(p.href))
    ensures NoBreak(RenderPiece(p))
  {
    match p
    case Open(t) => NameShape(t);
    case Close(t) => NameShape(t);
    case OpenLink(h) => EscapedClean(h);
    case Void(_) =>
  }

  /** The newline replacement never lands inside a tag: it only turns breaks of text into br elements. */
  lemma {:induction false} BreaksOnlyInText(rec: Recognizers, ps: Pieces)
    requires SafeLinks(rec, ps)
    ensures ReplaceBreaks(Render(ps)) == Render(BreakLines(ps))
  {
    if ps != [] {
      var p := ps[0];
      var q := if p.Escaped? then SplitBreaks(p.source) else [p];
      assert p in ps;
      assert p.OpenLink? ==> NoBreak(p.href);
      BreaksOnlyInText(rec, ps[1..]);
      ReplaceConcat(RenderPiece(p), Render(ps[1..]));
      if p.Escaped? {
        ReplaceEscaped(p.source);
      } else {
        TagUnbroken(p);
        ReplaceNothing(RenderPiece(p));
        assert [p][1..] == [];
        assert Render([p]) == RenderPiece(p) + "";
      }
      RenderConcat(q, BreakLines(ps[1..]));
    }
  }

  lemma {:induction false} NeutralSplit(s: string)
    ensures Neutral(SplitBreaks(s)) && forall p :: p in SplitBreaks(s) ==> !p.OpenLink?
  {
    if s != "" {
      NeutralSplit(s[1..]);
      var p := if s[0] == '\n' then Void(Br) else Escaped([s[0]]);
      NeutralLeaf(p);
      NeutralConcat([p], SplitBreaks(s[1..]));
    }
  }

  lemma {:induction false} RunBreakLines(ps: Pieces, open: seq<Tag>)
    ensures Run(BreakLines(ps), open) == Run(ps, open)
  {
    if ps != [] {
      var q := if ps[0].Escaped? then SplitBreaks(ps[0].source) else [ps[0]];
      RunConcat(q, BreakLines(ps[1..]), open);
      if ps[0].Escaped? { NeutralSplit(ps[0].source); }
      var o := Step(ps[0], open);
      if o.Some? { RunBreakLines(ps[1..], o.value); }
    }
  }

  lemma {:induction false} SplitHasNoAnchors(s: string)
    ensures NoAnchors(SplitBreaks(s))
  {
    if s != "" { SplitHasNoAnchors(s[1..]); }
  }

  lemma {:induction false} AnchorsOfBreakLines(ps: Pieces, inside: bool)
    ensures Anchors(BreakLines(ps), inside) == Anchors(ps, inside)
  {
    if ps != [] {
      if ps[0].Escaped? {
        SplitHasNoAnchors(ps[0].source);
        NoAnchorsApart(SplitBreaks(ps[0].source), inside);
        AnchorsConcat(SplitBreaks(ps[0].source), BreakLines(ps[1..]), inside);
        AnchorsOfBreakLines(ps[1..], inside);
      } else {
        assert ([ps[0]] + BreakLines(ps[1..]))[1..] == BreakLines(ps[1..]);
        if !(Opens(ps[0]) && inside) { AnchorsOfBreakLines(ps[1..], Opens(ps[0]) || (inside && ps[0] != Close(A))); }
      }
    }
  }

  lemma {:induction false} LinksOfBreakLines(rec: Recognizers, ps: Pieces)
    requires SafeLinks(rec, ps)
    ensures SafeLinks(rec, BreakLines(ps))
  {
    if ps != [] {
      LinksOfBreakLines(rec, ps[1..]);
      assert ps[0] in ps;
      if ps[0].Escaped? { NeutralSplit(ps[0].source); }
    }
  }

  // ----- text kept -----

  /** The text a reader sees, unescaped. */
  function Visible(ps: Pieces): (r: string) {
    if ps == [] then "" else (if ps[0].Escaped? then ps[0].source else "") + Visible(ps[1..])
  }

  lemma {:induction false} VisibleConcat(a: Pieces, b: Pieces)
    ensures Visible(a + b) == Visible(a) + Visible(b)
  {
    if a == [] {
      assert a + b == b;
    } else {
      assert (a + b)[1..] == a[1..] + b;
      VisibleConcat(a[1..], b);
    }
  }

  lemma VisibleElement(start: Piece, inner: Pieces, t: Tag)
    requires !start.Escaped?
    ensures Visible([start] + inner + [Close(t)]) == Visible(inner)
  {
    VisibleConcat([start] + inner, [Close(t)]);
    VisibleConcat([start], inner);
    assert [start][1..] == [];
    assert [Close(t)][1..] == [];
    assert Visible([start]) == "" + "" && Visible([Close(t)]) == "" + "";
  }

  /** a is b with characters left out. */
  predicate Sub(a: string, b: string) {
    a == "" || (b != "" && if a[0] == b[0] then Sub(a[1..], b[1..]) else Sub(a, b[1..]))
  }

  lemma {:induction false} SubTail(a: string, b: string)
    requires a != "" && Sub(a, b)
    ensures Sub(a[1..], b)
  {
    if a[0] == b[0] {
      if |a| > 1 {
        if a[1] == b[0] { SubTail(a[1..], b[1..]); }
      }
    } else {
      SubTail(a, b[1..]);
      if |a| > 1 && a[1] == b[0] {
        if |a| > 2 { SubTail(a[1..], b[1..]); }
      }
    }
  }

  lemma {:induction false} SubWiden(a: string, b: string, c: char)
    requires Sub(a, b)
    ensures Sub(a, [c] + b)
  {
    assert ([c] + b)[1..] == b;
    if a != "" && a[0] == c { SubTail(a, b); }
  }

  lemma {:induction false} SubAfter(a: string, x: string, b: string)
    requires Sub(a, b)
    ensures Sub(a, x + b)
  {
    if x == "" {
      assert x + b == b;
    } else {
      SubAfter(a, x[1..], b);
      SubWiden(a, x[1..] + b, x[0]);
      assert [x[0]] + (x[1..] + b) == x + b;
    }
  }

  lemma {:induction false} SubConcat(a: string, b: string, c: string, d: string)
    requires Sub(a, b) && Sub(c, d)
    ensures Sub(a + c, b + d)
    decreases |b|
  {
    if a == "" {
      assert a + c == c;
      SubAfter(c, b, d);
    } else {
      assert (b + d)[1..] == b[1..] + d;
      if a[0] == b[0] {
        SubConcat(a[1..], b[1..], c, d);
        assert (a + c)[1..] == a[1..] + c;
      } else {
        SubConcat(a, b[1..], c, d);
      }
    }
  }

  lemma {:induction false} SubSelf(a: string)
    ensures Sub(a, a)
  {
    if a != "" { SubSelf(a[1..]); }
  }

  /** Text in the middle of a larger text. */
  lemma SubMiddle(a: string, x: string, b: string, y: string)
    requires Sub(a, b)
    ensures Sub(a, x + b + y)
  {
    SubAfter(a, x, b);
    SubConcat(a, x + b, "", y);
    assert a + "" == a;
  }

  /** The characters Markdown takes as emphasis or escapes. */
  predicate Mark(c: char) { c == '\\' || c == '*' || c == '_' || c == '~' || c == '`' }

  function Strip(s: string): (r: string) {
    if s == "" then "" else (if Mark(s[0]) then "" else [s[0]]) + Strip(s[1..])
  }

  lemma {:induction false} StripConcat(a: string, b: string)
    ensures Strip(a + b) == Strip(a) + Strip(b)
  {
    if a == "" {
      assert a + b == b;
    } else {
      assert (a + b)[1..] == a[1..] + b;
      StripConcat(a[1..], b);
    }
  }

  /** Somewhere a label could end and a link target begin. */
  predicate HasLink(s: string) {
    exists i :: 0 <= i < |s| - 1 && s[i] == ']' && s[i + 1] == '('
  }

  /**
    What rendering a stretch of inline text keeps: elements nested, links safe, no character
    invented or moved, no anchor within another, and without link syntax no anchor at all and no
    character lost but the marks themselves.
   */
  ghost predicate Kept(rec: Recognizers, text: string, ps: Pieces) {
    && Neutral(ps) && SafeLinks(rec, ps)
    && Sub(Visible(ps), text)
    && (!HasLink(text) ==> Strip(Visible(ps)) == Strip(text))
    && AnchorsApart(ps) && (!HasLink(text) ==> NoAnchors(ps))
  }

  lemma KeptNothing(rec: Recognizers)
    ensures Kept(rec, "", [])
  {
  }

  lemma LinkWithin(a: string, b: string)
    ensures HasLink(a) || HasLink(b) ==> HasLink(a + b)
  {
    if HasLink(a) {
      var i :| 0 <= i < |a| - 1 && a[i] == ']' && a[i + 1] == '(';
      assert (a + b)[i] == ']' && (a + b)[i + 1] == '(';
    } else if HasLink(b) {
      var i :| 0 <= i < |b| - 1 && b[i] == ']' && b[i + 1] == '(';
      assert (a + b)[|a| + i] == ']' && (a + b)[|a| + i + 1] == '(';
    }
  }

  lemma KeptConcat(rec: Recognizers, a: string, ps: Pieces, b: string, qs: Pieces)
    requires Kept(rec, a, ps) && Kept(rec, b, qs)
    ensures Kept(rec, a + b, ps + qs)
  {
    NeutralConcat(ps, qs);
    VisibleConcat(ps, qs);
    SubConcat(Visible(ps), a, Visible(qs), b);
    LinkWithin(a, b);
    ApartConcat(ps, qs);
    StripConcat(a, b);
    StripConcat(Visible(ps), Visible(qs));
  }

  lemma KeptEscaped(rec: Recognizers, s: string)
    ensures Kept(rec, s, [Escaped(s)])
  {
    NeutralLeaf(Escaped(s));
    ApartOne(Escaped(s));
    assert [Escaped(s)][1..] == [];
    assert Visible([Escaped(s)]) == s + "" == s;
    SubSelf(s);
  }

  lemma KeptBackslash(rec: Recognizers, c: char)
    ensures Kept(rec, ['\\', c], [Escaped([c])])
  {
    KeptEscaped(rec, [c]);
    assert [Escaped([c])][1..] == [];
    assert Visible([Escaped([c])]) == [c] + "" == [c];
    SubAfter([c], ['\\'], [c]);
    assert ['\\'] + [c] == ['\\', c];
    assert ['\\', c][1..] == [c];
  }

  lemma {:induction false} StripMarks(token: string)
    requires forall c :: c in token ==> Mark(c)
    ensures Strip(token) == ""
  {
    if token != "" {
      assert token[0] in token;
      StripMarks(token[1..]);
    }
  }

  lemma KeptMarked(rec: Recognizers, token: string, inner: string, ps: Pieces, t: Tag)
    requires t != A && forall c :: c in token ==> Mark(c)
    requires Kept(rec, inner, ps)
    ensures Kept(rec, token + inner + token, [Open(t)] + ps + [Close(t)])
  {
    NeutralElement(Open(t), t, ps);
    ApartElement(t, ps);
    VisibleElement(Open(t), ps, t);
    SubMiddle(Visible(ps), token, inner, token);
    LinkWithin(token, inner);
    LinkWithin(token + inner, token);
    StripMarks(token);
    StripConcat(token + inner, token);
    StripConcat(token, inner);
  }

  /** The label of a link or image stays, its target does not. */
  lemma KeptLabel(rec: Recognizers, before: string, caption: string, after: string, ps: Pieces)
    requires Kept(rec, caption, ps) && !HasLink(caption) && |after| > 1 && after[0] == ']' && after[1] == '('
    ensures Kept(rec, before + caption + after, ps)
    ensures forall href ::
            SafeLink(rec, href) ==> Kept(rec, before + caption + after, [OpenLink(href)] + ps + [Close(A)])
  {
    SubMiddle(Visible(ps), before, caption, after);
    var s := before + caption + after;
    var i := |before + caption|;
    assert s[i] == ']' && s[i + 1] == '(';
    forall href | SafeLink(rec, href) ensures Kept(rec, s, [OpenLink(href)] + ps + [Close(A)]) {
      NeutralElement(OpenLink(href), A, ps);
      ApartLink(href, ps);
      VisibleElement(OpenLink(href), ps, A);
    }
  }

  // ----- inline rendering -----

  /** The first index of pat in s, or -1. */
  function Find(s: string, pat: string): (r: int)
    requires pat != ""
    ensures r == -1 || (0 <= r && r + |pat| <= |s| && s[r..r + |pat|] == pat)
  {
    if |s| < |pat| then -1
    else if s[..|pat|] == pat then 0
    else
      var r := Find(s[1..], pat);
      if r < 0 then -1
      else
        assert s[1..][r..r + |pat|] == s[r + 1..r + 1 + |pat|];
        r + 1
  }

  /** The first index of a character that may begin markup, or -1. */
  function FindSpecial(s: string): (r: int)
    ensures -1 <= r < |s|
  {
    if s == "" then -1
    else if Mark(s[0]) || s[0] == '[' || s[0] == '!' then 0
    else
      var r := FindSpecial(s[1..]);
      if r < 0 then -1 else r + 1
  }

  predicate HasPrefix(s: string, p: string) { p <= s }

  predicate Punctuation(c: char) {
    '!' <= c <= '/' || ':' <= c <= '@' || '[' <= c <= '`' || '{' <= c <= '~'
  }

  function DropSpace(rec: Recognizers, s: string): string {
    if s != "" && rec.space(s[0]) then DropSpace(rec, s[1..]) else s
  }

  function DropTrailing(rec: Recognizers, s: string): string {
    if s != "" && rec.space(s[|s| - 1]) then DropTrailing(rec, s[..|s| - 1]) else s
  }

  function TrimSpace(rec: Recognizers, s: string): string { DropTrailing(rec, DropSpace(rec, s)) }

  lemma {:induction false} DropSpaceSuffix(rec: Recognizers, s: string)
    ensures |DropSpace(rec, s)| <= |s| && s[|s| - |DropSpace(rec, s)|..] == DropSpace(rec, s)
  {
    if s != "" && rec.space(s[0]) { DropSpaceSuffix(rec, s[1..]); }
  }

  lemma {:induction false} DropTrailingPrefix(rec: Recognizers, s: string)
    ensures DropTrailing(rec, s) <= s
  {
    if s != "" && rec.space(s[|s| - 1]) { DropTrailingPrefix(rec, s[..|s| - 1]); }
  }

  const MARKS: seq<(string, Tag)> :=
    [("**", Strong), ("__", Strong), ("~~", Strike), ("`", Code), ("*", Em), ("_", Em)]

  lemma MarksAreMarks(k: nat)
    requires k < |MARKS|
    ensures MARKS[k].1 != A && MARKS[k].0 != "" && forall c :: c in MARKS[k].0 ==> Mark(c)
  {
  }

  /** ps renders what stands before `rest` in text. */
  ghost predicate Renders(rec: Recognizers, text: string, ps: Pieces, rest: string) {
    |rest| < |text| && text[|text| - |rest|..] == rest && Kept(rec, text[..|text| - |rest|], ps)
  }

  lemma RendersSplit(rec: Recognizers, text: string, before: string, ps: Pieces, rest: string)
    requires text == before + rest && before != "" && Kept(rec, before, ps)
    ensures Renders(rec, text, ps, rest)
  {
    assert text[..|before|] == before;
  }

  lemma RendersAll(rec: Recognizers, text: string)
    requires text != ""
    ensures Renders(rec, text, [Escaped(text)], "")
  {
    KeptEscaped(rec, text);
    RendersSplit(rec, text, text, [Escaped(text)], "");
  }

  /** inlineMarkdown: text is consumed from the front, each turn appending what it stands for. */
  method InlineMarkdown(rec: Recognizers, text: string, depth: nat) returns (out: Pieces)
    ensures Kept(rec, text, out)
    decreases |text|, 2
  {
    if depth > 8 {
      KeptEscaped(rec, text);
      return [Escaped(text)];
    }
    out := [];
    var rest := text;
    KeptNothing(rec);
    ghost var done := "";
    while |rest| > 0
      invariant text == done + rest
      invariant Kept(rec, done, out)
      decreases |rest|
    {
      var ps, next := InlineStep(rec, rest, depth);
      ghost var taken := rest[..|rest| - |next|];
      assert rest == taken + next;
      KeptConcat(rec, done, out, taken, ps);
      assert done + (taken + next) == (done + taken) + next;
      out := out + ps;
      done := done + taken;
      rest := next;
    }
    assert done + "" == done;
  }

  /** One turn of the loop: an escape, a link or image, an emphasis, or a stretch of plain text. */
  method InlineStep(rec: Recognizers, text: string, depth: nat) returns (ps: Pieces, rest: string)
    requires text != "" && depth <= 8
    ensures Renders(rec, text, ps, rest)
    decreases |text|, 1
  {
    if text[0] == '\\' && |text| > 1 && Punctuation(text[1]) {
      KeptBackslash(rec, text[1]);
      rest := text[2..];
      ps := [Escaped([text[1]])];
      assert text == ['\\', text[1]] + rest;
      RendersSplit(rec, text, ['\\', text[1]], ps, rest);
      return;
    }
    if HasPrefix(text, "[") || HasPrefix(text, "![") {
      ps, rest := LinkOrImage(rec, text, depth);
      return;
    }
    var k, close := FindMark(text);
    if k < |MARKS| {
      MarksAreMarks(k);
      ps, rest := Emphasis(rec, text, depth, MARKS[k].0, MARKS[k].1, close);
      return;
    }
    var end := FindSpecial(text[1..]);
    if end < 0 {
      RendersAll(rec, text);
      return [Escaped(text)], "";
    }
    rest := text[end + 1..];
    ps := [Escaped(text[..end + 1])];
    KeptEscaped(rec, text[..end + 1]);
    RendersSplit(rec, text, text[..end + 1], ps, rest);
  }

  /** The first mark that text begins with and that closes again after some content; |MARKS| if there is none. */
  method FindMark(text: string) returns (k: nat, end: nat)
    ensures k <= |MARKS|
    ensures k < |MARKS| ==> MarkAt(text, MARKS[k].0, end)
  {
    k := 0;
    while k < |MARKS|
      invariant k <= |MARKS|
    {
      var token := MARKS[k].0;
      if HasPrefix(text, token) {
        MarksAreMarks(k);
        var at := Find(text[|token|..], token);
        if at > 0 { return k, at; }
      }
      k := k + 1;
    }
    end := 0;
  }

  predicate MarkAt(text: string, token: string, end: nat) {
    && token <= text && 0 < end && |token| + end + |token| <= |text|
    && text[|token| + end..|token| + end + |token|] == token
  }

  method Emphasis(rec: Recognizers, text: string, depth: nat, token: string, t: Tag, end: nat)
    returns (ps: Pieces, rest: string)
    requires depth <= 8 && t != A && token != "" && token <= text && forall c :: c in token ==> Mark(c)
    requires 0 < end && |token| + end + |token| <= |text|
    requires text[|token| + end..|token| + end + |token|] == token
    ensures Renders(rec, text, ps, rest)
    decreases |text|, 0
  {
    var source := text[|token|..|token| + end];
    rest := text[|token| + end + |token|..];
    var inner: Pieces;
    if t == Code {
      inner := [Escaped(source)];
      KeptEscaped(rec, source);
    } else {
      inner := InlineMarkdown(rec, source, depth + 1);
    }
    ps := [Open(t)] + inner + [Close(t)];
    KeptMarked(rec, token, source, inner, t);
    assert text == token + source + token + rest;
    RendersSplit(rec, text, token + source + token, ps, rest);
  }

  method LinkOrImage(rec: Recognizers, text: string, depth: nat) returns (ps: Pieces, rest: string)
    requires depth <= 8 && (HasPrefix(text, "[") || HasPrefix(text, "!["))
    ensures Renders(rec, text, ps, rest)
    decreases |text|, 0
  {
    var image := HasPrefix(text, "![");
    var start := if image then 2 else 1;
    var found, end, close := FindTarget(text, start);
    if !found {
      RendersAll(rec, text);
      return [Escaped(text)], "";
    }
    var target := TrimSpace(rec, text[end + 2..][..close]);
    var inner := InlineMarkdown(rec, text[start..end], depth + 1);
    var linked := !image && SafeLink(rec, target);
    rest := text[end + 2..][close + 1..];
    ps := Anchored(linked, target, inner);
    RendersLink(rec, text, start, end, close, inner, linked, target);
  }

  function Anchored(linked: bool, target: string, inner: Pieces): Pieces {
    if linked then [OpenLink(target)] + inner + [Close(A)] else inner
  }

  /** A label closed by "](" at `end`, and how long the target after it is. */
  predicate TargetAt(text: string, start: nat, end: nat, close: nat) {
    start <= end && end + 2 + close < |text| && text[end..end + 2] == "](" && !HasLink(text[start..end])
  }

  method FindTarget(text: string, start: nat) returns (found: bool, end: nat, close: nat)
    requires start <= |text|
    ensures found ==> TargetAt(text, start, end, close)
  {
    var at := Find(text[start..], "](");
    if at < 0 { return false, 0, 0; }
    end := at + start;
    assert text[start..][at..at + 2] == text[end..end + 2];
    FirstTarget(text[start..]);
    assert text[start..][..at] == text[start..end];
    close := IndexOf(text[end + 2..], ')');
    found := close < |text| - end - 2;
  }

  /** Before the first "](" there is none. */
  lemma FirstTarget(s: string)
    ensures Find(s, "](") >= 0 ==> !HasLink(s[..Find(s, "](")])
  {
    var r := Find(s, "](");
    if r >= 0 {
      forall i | 0 <= i < r - 1 ensures !(s[..r][i] == ']' && s[..r][i + 1] == '(') {
        FindFirst(s, "](", i);
        assert s[i..i + 2] == [s[i], s[i + 1]];
      }
    }
  }

  lemma {:induction false} FindFirst(s: string, pat: string, i: nat)
    requires pat != "" && i < Find(s, pat)
    ensures s[i..i + |pat|] != pat
  {
    if i > 0 {
      var t := s[1..];
      FindFirst(t, pat, i - 1);
      assert i + |pat| <= |s|;
      assert t[i - 1..i - 1 + |pat|] == s[i..i + |pat|];
    }
  }

  lemma RendersLink(rec: Recognizers, text: string, start: nat, end: nat, close: nat, inner: Pieces, linked: bool,
                    target: string)
    requires TargetAt(text, start, end, close) && Kept(rec, text[start..end], inner)
             && (linked ==> SafeLink(rec, target))
    ensures Renders(rec, text, Anchored(linked, target, inner), text[end + 2..][close + 1..])
  {
    var after := text[end..end + 3 + close];
    assert after[0] == text[end..end + 2][0] && after[1] == text[end..end + 2][1];
    KeptLabel(rec, text[..start], text[start..end], after, inner);
    var before := text[..start] + text[start..end] + after;
    assert before == text[..end + 3 + close];
    assert text[end + 2..][close + 1..] == text[end + 3 + close..];
    RendersSplit(rec, text, before, Anchored(linked, target, inner), text[end + 3 + close..]);
  }

  // ----- blocks -----

  lemma {:induction false} SubTrans(a: string, b: string, c: string)
    requires Sub(a, b) && Sub(b, c)
    ensures Sub(a, c)
    decreases |c|
  {
    if a != "" {
      assert c == [c[0]] + c[1..];
      if b[0] != c[0] {
        SubTrans(a, b, c[1..]);
        SubWiden(a, c[1..], c[0]);
      } else if a[0] == b[0] {
        SubTrans(a[1..], b[1..], c[1..]);
      } else {
        SubTrans(a, b[1..], c[1..]);
        SubWiden(a, c[1..], c[0]);
      }
    }
  }

  /** What a pattern captures stands, in order, in the line it matched. */
  ghost predicate Captures(rec: Recognizers) {
    forall line ::
      && (rec.heading(line).Some? ==> Sub(rec.heading(line).value.1, line))
      && (rec.item(line).Some? ==> Sub(rec.item(line).value.1, line))
  }

  /** ps renders (part of) source: nested, with safe links, and with nothing invented or moved. */
  ghost predicate Built(rec: Recognizers, source: string, ps: Pieces) {
    && Neutral(ps) && SafeLinks(rec, ps) && AnchorsApart(ps)
    && (Captures(rec) ==> Sub(Visible(ps), source))
  }

  lemma BuiltConcat(rec: Recognizers, a: string, ps: Pieces, b: string, qs: Pieces)
    requires Built(rec, a, ps) && Built(rec, b, qs)
    ensures Built(rec, a + b, ps + qs)
  {
    NeutralConcat(ps, qs);
    ApartConcat(ps, qs);
    VisibleConcat(ps, qs);
    if Captures(rec) { SubConcat(Visible(ps), a, Visible(qs), b); }
  }

  lemma BuiltElement(rec: Recognizers, source: string, t: Tag, ps: Pieces)
    requires Built(rec, source, ps) && t != A
    ensures Built(rec, source, [Open(t)] + ps + [Close(t)])
  {
    NeutralElement(Open(t), t, ps);
    ApartElement(t, ps);
    VisibleElement(Open(t), ps, t);
  }

  lemma BuiltWithin(rec: Recognizers, a: string, b: string, ps: Pieces)
    requires Built(rec, a, ps) && (Captures(rec) ==> Sub(a, b))
    ensures Built(rec, b, ps)
  {
    if Captures(rec) { SubTrans(Visible(ps), a, b); }
  }

  lemma BuiltVoid(rec: Recognizers, v: VoidTag)
    ensures Built(rec, "", [Void(v)])
  {
    NeutralLeaf(Void(v));
    ApartOne(Void(v));
    assert [Void(v)][1..] == [];
    assert Visible([Void(v)]) == "" + "" == "";
  }

  /** Lines with their line ends. */
  function Flat(lines: seq<string>): string {
    if lines == [] then "" else lines[0] + "\n" + Flat(lines[1..])
  }

  lemma {:induction false} FlatConcat(a: seq<string>, b: seq<string>)
    ensures Flat(a + b) == Flat(a) + Flat(b)
  {
    if a == [] {
      assert a + b == b;
    } else {
      assert (a + b)[1..] == a[1..] + b;
      FlatConcat(a[1..], b);
    }
  }

  /** Any part of one line, among the lines it stands with. */
  lemma SubLine(a: string, lines: seq<string>, i: nat, j: nat)
    requires i < j <= |lines| && Sub(a, lines[i])
    ensures Sub(a, Flat(lines[i..j]))
  {
    SubMiddle(a, "", lines[i], "\n" + Flat(lines[i + 1..j]));
    assert lines[i..j][1..] == lines[i + 1..j];
    assert "" + lines[i] + ("\n" + Flat(lines[i + 1..j])) == lines[i] + "\n" + Flat(lines[i + 1..j]);
  }

  lemma FlatStep(lines: seq<string>, i: nat, j: nat)
    requires i <= j < |lines|
    ensures Flat(lines[i..j + 1]) == Flat(lines[i..j]) + (lines[j] + "\n")
  {
    FlatConcat(lines[i..j], [lines[j]]);
    assert lines[i..j] + [lines[j]] == lines[i..j + 1];
    assert [lines[j]][1..] == [];
    assert Flat([lines[j]]) == lines[j] + "\n" + "";
  }

  function Join(lines: seq<string>): string {
    if lines == [] then "" else if |lines| == 1 then lines[0] else lines[0] + "\n" + Join(lines[1..])
  }

  /** A part of every line, joined by newlines, against the lines themselves. */
  lemma {:induction false} JoinSub(parts: seq<string>, lines: seq<string>)
    requires |parts| == |lines| && forall k :: 0 <= k < |parts| ==> Sub(parts[k], lines[k])
    ensures Sub(Join(parts), Flat(lines))
    decreases |parts|
  {
    if |parts| == 1 {
      SubConcat(parts[0], lines[0], "", "\n" + Flat(lines[1..]));
      assert parts[0] + "" == parts[0];
      assert lines[0] + ("\n" + Flat(lines[1..])) == Flat(lines);
    } else if |parts| > 1 {
      JoinSub(parts[1..], lines[1..]);
      SubSelf("\n");
      SubConcat(parts[0], lines[0], "\n", "\n");
      SubConcat(parts[0] + "\n", lines[0] + "\n", Join(parts[1..]), Flat(lines[1..]));
    }
  }

  /** strings.Split(s, sep) for a one-character separator. */
  function SplitOn(s: string, sep: char): (r: seq<string>)
    ensures |r| > 0
    decreases |s|
  {
    var i := IndexOf(s, sep);
    if i == |s| then [s] else [s[..i]] + SplitOn(s[i + 1..], sep)
  }

  lemma {:induction false} FlatSplit(s: string)
    ensures Flat(SplitOn(s, '\n')) == s + "\n"
    decreases |s|
  {
    var i := IndexOf(s, '\n');
    var r := SplitOn(s, '\n');
    if i == |s| {
      assert r[1..] == [];
      assert Flat(r) == s + "\n" + "";
    } else {
      FlatSplit(s[i + 1..]);
      assert r[1..] == SplitOn(s[i + 1..], '\n');
      assert s == s[..i] + "\n" + s[i + 1..];
    }
  }

  // ----- nothing lost -----

  /** What syntax may use up: emphasis and escapes, white space, and the signs of headings, quotes, lists and rules. */
  predicate Sign(rec: Recognizers, c: char) { Mark(c) || rec.space(c) || c in "\n >#+-" }

  /** A text without signs. */
  function Bare(rec: Recognizers, s: string): (r: string) {
    if s == "" then "" else (if Sign(rec, s[0]) then "" else [s[0]]) + Bare(rec, s[1..])
  }

  lemma {:induction false} BareConcat(rec: Recognizers, a: string, b: string)
    ensures Bare(rec, a + b) == Bare(rec, a) + Bare(rec, b)
  {
    if a == "" {
      assert a + b == b;
    } else {
      assert (a + b)[1..] == a[1..] + b;
      BareConcat(rec, a[1..], b);
    }
  }

  lemma {:induction false} OnlySigns(rec: Recognizers, s: string)
    requires forall c :: c in s ==> Sign(rec, c)
    ensures Bare(rec, s) == ""
  {
    if s != "" {
      assert s[0] in s;
      OnlySigns(rec, s[1..]);
    }
  }

  lemma BareEnd(rec: Recognizers, s: string)
    ensures Bare(rec, s + "\n") == Bare(rec, s)
  {
    BareConcat(rec, s, "\n");
    assert "\n"[1..] == "";
  }

  lemma {:induction false} BareStrip(rec: Recognizers, s: string)
    ensures Bare(rec, Strip(s)) == Bare(rec, s)
  {
    if s != "" {
      BareStrip(rec, s[1..]);
      if Mark(s[0]) {
        assert Strip(s) == "" + Strip(s[1..]) == Strip(s[1..]);
      } else {
        assert Strip(s)[1..] == Strip(s[1..]);
      }
    }
  }

  /** Text without link syntax is whole in what renders it. */
  lemma KeptBare(rec: Recognizers, text: string, ps: Pieces)
    requires Kept(rec, text, ps) && !HasLink(text)
    ensures Bare(rec, Visible(ps)) == Bare(rec, text)
  {
    BareStrip(rec, Visible(ps));
    BareStrip(rec, text);
  }

  lemma {:induction false} SplitBare(rec: Recognizers, s: string)
    ensures Bare(rec, Visible(SplitBreaks(s))) == Bare(rec, s)
  {
    if s != "" {
      SplitBare(rec, s[1..]);
      assert SplitBreaks(s)[1..] == SplitBreaks(s[1..]);
      var shown := if s[0] == '\n' then "" else [s[0]];
      assert Visible(SplitBreaks(s)) == shown + Visible(SplitBreaks(s[1..]));
      BareConcat(rec, shown, Visible(SplitBreaks(s[1..])));
      BareConcat(rec, [s[0]], s[1..]);
      assert [s[0]] + s[1..] == s;
    }
  }

  lemma {:induction false} BreakLinesBare(rec: Recognizers, ps: Pieces)
    ensures Bare(rec, Visible(BreakLines(ps))) == Bare(rec, Visible(ps))
  {
    if ps != [] {
      var q := if ps[0].Escaped? then SplitBreaks(ps[0].source) else [ps[0]];
      var shown := if ps[0].Escaped? then ps[0].source else "";
      BreakLinesBare(rec, ps[1..]);
      VisibleConcat(q, BreakLines(ps[1..]));
      if ps[0].Escaped? {
        SplitBare(rec, ps[0].source);
      } else {
        assert Visible(q[1..]) == "" && Visible(q) == "" + "";
      }
      BareConcat(rec, Visible(q), Visible(BreakLines(ps[1..])));
      BareConcat(rec, shown, Visible(ps[1..]));
    }
  }

  lemma {:induction false} BareDropSpace(rec: Recognizers, s: string)
    ensures Bare(rec, DropSpace(rec, s)) == Bare(rec, s)
  {
    if s != "" && rec.space(s[0]) { BareDropSpace(rec, s[1..]); }
  }

  lemma {:induction false} BareDropTrailing(rec: Recognizers, s: string)
    ensures Bare(rec, DropTrailing(rec, s)) == Bare(rec, s)
  {
    if s != "" && rec.space(s[|s| - 1]) {
      BareDropTrailing(rec, s[..|s| - 1]);
      var last := [s[|s| - 1]];
      assert last[1..] == "";
      BareConcat(rec, s[..|s| - 1], last);
      assert s[..|s| - 1] + last == s;
    }
  }

  lemma BareTrim(rec: Recognizers, s: string)
    ensures Bare(rec, TrimSpace(rec, s)) == Bare(rec, s)
  {
    BareDropSpace(rec, s);
    BareDropTrailing(rec, DropSpace(rec, s));
  }

  /** All of a line is in the text, signs aside, and the text has no link. */
  predicate WholeText(rec: Recognizers, line: string, text: string) {
    !HasLink(text) && Bare(rec, text) == Bare(rec, line)
  }

  /** A line of text: no link, no part of a fence or a table, and whole in what a pattern captures of it. */
  predicate Plain(rec: Recognizers, line: string) {
    && !HasLink(line) && !rec.separator(line)
    && !HasPrefix(TrimSpace(rec, line), "```") && !HasPrefix(TrimSpace(rec, line), "~~~")
    && (rec.heading(line).Some? ==> WholeText(rec, line, rec.heading(line).value.1))
    && (rec.item(line).Some? ==> WholeText(rec, line, rec.item(line).value.1))
  }

  predicate AllPlain(rec: Recognizers, lines: seq<string>) {
    forall k :: 0 <= k < |lines| ==> Plain(rec, lines[k])
  }

  /** Of plain lines everything is shown, in order, but signs. */
  predicate Whole(rec: Recognizers, lines: seq<string>, ps: Pieces) {
    AllPlain(rec, lines) ==> Bare(rec, Visible(ps)) == Bare(rec, Flat(lines))
  }

  lemma WholeConcat(rec: Recognizers, a: seq<string>, ps: Pieces, b: seq<string>, qs: Pieces)
    requires Whole(rec, a, ps) && Whole(rec, b, qs)
    ensures Whole(rec, a + b, ps + qs)
  {
    if AllPlain(rec, a + b) {
      forall k | 0 <= k < |a| ensures Plain(rec, a[k]) { assert a[k] == (a + b)[k]; }
      forall k | 0 <= k < |b| ensures Plain(rec, b[k]) { assert b[k] == (a + b)[|a| + k]; }
      FlatConcat(a, b);
      VisibleConcat(ps, qs);
      BareConcat(rec, Visible(ps), Visible(qs));
      BareConcat(rec, Flat(a), Flat(b));
    }
  }

  /** One line in one element, by its text. */
  lemma WholeLine(rec: Recognizers, line: string, text: string, t: Tag, inner: Pieces)
    requires Kept(rec, text, inner) && (Plain(rec, line) ==> WholeText(rec, line, text))
    ensures Whole(rec, [line], [Open(t)] + inner + [Close(t)])
  {
    VisibleElement(Open(t), inner, t);
    assert [line][1..] == [];
    assert Flat([line]) == line + "\n" + "" == line + "\n";
    BareEnd(rec, line);
    if AllPlain(rec, [line]) {
      assert Plain(rec, [line][0]);
      KeptBare(rec, text, inner);
    }
  }

  lemma {:induction false} JoinBare(rec: Recognizers, parts: seq<string>, lines: seq<string>)
    requires |parts| == |lines| && forall k :: 0 <= k < |parts| ==> WholeText(rec, lines[k], parts[k])
    ensures WholeText(rec, Flat(lines), Join(parts))
    decreases |parts|
  {
    if parts != [] {
      JoinBare(rec, parts[1..], lines[1..]);
      BareEnd(rec, lines[0]);
      BareConcat(rec, lines[0] + "\n", Flat(lines[1..]));
      if |parts| > 1 {
        BareEnd(rec, parts[0]);
        BareConcat(rec, parts[0] + "\n", Join(parts[1..]));
        NoLinkAcross(parts[0], Join(parts[1..]));
      } else {
        assert Flat(lines[1..]) == "";
      }
    }
  }

  lemma NoLinkAcross(a: string, b: string)
    requires !HasLink(a) && !HasLink(b)
    ensures !HasLink(a + "\n" + b)
  {
    var s := a + "\n" + b;
    forall i | 0 <= i < |s| - 1 ensures !(s[i] == ']' && s[i + 1] == '(') {
      if i > |a| {
        assert s[i] == b[i - |a| - 1] && s[i + 1] == b[i - |a|];
      } else if i + 1 < |a| {
        assert s[i] == a[i] && s[i + 1] == a[i + 1];
      }
    }
  }

  lemma UnquotedWhole(rec: Recognizers, line: string)
    requires !HasLink(line)
    ensures WholeText(rec, line, Unquoted(rec, line))
  {
    var t := TrimSpace(rec, line);
    BareTrim(rec, line);
    DropSpaceSuffix(rec, line);
    DropTrailingPrefix(rec, DropSpace(rec, line));
    var u := Unquoted(rec, line);
    var n := |line| - |DropSpace(rec, line)| + |t| - |u|;
    assert u == line[n..n + |u|];
    forall i | 0 <= i < |u| - 1 ensures !(u[i] == ']' && u[i + 1] == '(') {
      assert u[i] == line[n + i] && u[i + 1] == line[n + i + 1];
    }
  }

  /** textInlineParagraph: inline rendering with breaks kept, inside a paragraph. */
  method TextInlineParagraph(rec: Recognizers, text: string) returns (ps: Pieces, ghost inner: Pieces)
    ensures Built(rec, text, ps)
    ensures Kept(rec, text, inner) && Render(ps) == Paragraphed(inner)
    ensures !HasLink(text) ==> Bare(rec, Visible(ps)) == Bare(rec, text)
  {
    var found := InlineMarkdown(rec, text, 0);
    inner := found;
    ps := [Open(P)] + BreakLines(found) + [Close(P)];
    VisibleElement(Open(P), BreakLines(found), P);
    BreakLinesBare(rec, found);
    if !HasLink(text) { KeptBare(rec, text, found); }
    ParagraphBuilt(rec, text, inner);
    ParagraphRendered(rec, text, inner);
  }

  /** The string the code builds: the rendered text with every newline replaced, in a paragraph. */
  function Paragraphed(inner: Pieces): string { "<p>" + ReplaceBreaks(Render(inner)) + "</p>" }

  lemma RenderElement(t: Tag, ps: Pieces)
    ensures Render([Open(t)] + ps + [Close(t)]) == RenderPiece(Open(t)) + Render(ps) + RenderPiece(Close(t))
  {
    RenderOne(Open(t));
    RenderOne(Close(t));
    RenderConcat([Open(t)], ps);
    RenderConcat([Open(t)] + ps, [Close(t)]);
  }

  lemma RenderOne(p: Piece)
    ensures Render([p]) == RenderPiece(p)
  {
    assert [p][1..] == [];
    assert RenderPiece(p) + "" == RenderPiece(p);
  }

  lemma ParagraphTags()
    ensures RenderPiece(Open(P)) == "<p>" && RenderPiece(Close(P)) == "</p>"
  {
  }

  lemma QuoteTags()
    ensures RenderPiece(Open(Blockquote)) == "<blockquote>" && RenderPiece(Close(Blockquote)) == "</blockquote>"
  {
  }

  lemma ParagraphBuilt(rec: Recognizers, text: string, inner: Pieces)
    requires Kept(rec, text, inner)
    ensures Built(rec, text, [Open(P)] + BreakLines(inner) + [Close(P)])
  {
    var broken := BreakLines(inner);
    assert Neutral(broken) by {
      forall open ensures Run(broken, open) == Some(open) { RunBreakLines(inner, open); }
    }
    LinksOfBreakLines(rec, inner);
    AnchorsOfBreakLines(inner, false);
    VisibleBreakLines(inner);
    SubTrans(Visible(broken), Visible(inner), text);
    BuiltElement(rec, text, P, broken);
  }

  lemma ParagraphRendered(rec: Recognizers, text: string, inner: Pieces)
    requires Kept(rec, text, inner)
    ensures Render([Open(P)] + BreakLines(inner) + [Close(P)]) == Paragraphed(inner)
  {
    BreaksOnlyInText(rec, inner);
    RenderElement(P, BreakLines(inner));
    ParagraphTags();
  }

  lemma {:induction false} VisibleSplit(s: string)
    ensures Sub(Visible(SplitBreaks(s)), s)
  {
    if s != "" {
      VisibleSplit(s[1..]);
      var p := if s[0] == '\n' then Void(Br) else Escaped([s[0]]);
      assert SplitBreaks(s)[1..] == SplitBreaks(s[1..]);
      SubSelf([s[0]]);
      SubConcat(if p.Escaped? then p.source else "", [s[0]], Visible(SplitBreaks(s[1..])), s[1..]);
      assert s == [s[0]] + s[1..];
    }
  }

  lemma {:induction false} VisibleBreakLines(ps: Pieces)
    ensures Sub(Visible(BreakLines(ps)), Visible(ps))
  {
    if ps != [] {
      var q := if ps[0].Escaped? then SplitBreaks(ps[0].source) else [ps[0]];
      VisibleBreakLines(ps[1..]);
      VisibleConcat(q, BreakLines(ps[1..]));
      if ps[0].Escaped? {
        VisibleSplit(ps[0].source);
      } else {
        assert q[1..] == [];
        assert Visible(q) == "" + "" == "";
      }
      SubConcat(Visible(q), if ps[0].Escaped? then ps[0].source else "",
                Visible(BreakLines(ps[1..])), Visible(ps[1..]));
    }
  }

  /** A block that starts at line i and ends before line j. */
  ghost predicate Block(rec: Recognizers, lines: seq<string>, i: nat, j: nat, ps: Pieces) {
    i < j <= |lines| && Built(rec, Flat(lines[i..j]), ps)
  }

  method FencedCode(rec: Recognizers, lines: seq<string>, i: nat, fence: string) returns (ps: Pieces, j: nat)
    requires i < |lines|
    ensures Block(rec, lines, i, j, ps)
  {
    j := i + 1;
    var code: seq<string> := [];
    while j < |lines| && !HasPrefix(TrimSpace(rec, lines[j]), fence)
      invariant i < j <= |lines| && code == lines[i + 1..j]
    {
      code := code + [lines[j]];
      j := j + 1;
    }
    ghost var k := j;
    if j < |lines| {
      j := j + 1;
    }
    ps := [Open(Pre)] + ([Open(Code)] + [Escaped(Join(code))] + [Close(Code)]) + [Close(Pre)];
    CodeBuilt(rec, code, ps);
    SubCode(lines, i, k, j);
    BuiltWithin(rec, Flat(code), Flat(lines[i..j]), ps);
  }

  lemma CodeBuilt(rec: Recognizers, code: seq<string>, ps: Pieces)
    requires ps == [Open(Pre)] + ([Open(Code)] + [Escaped(Join(code))] + [Close(Code)]) + [Close(Pre)]
    ensures Built(rec, Flat(code), ps)
  {
    KeptEscaped(rec, Join(code));
    forall k | 0 <= k < |code| ensures Sub(code[k], code[k]) { SubSelf(code[k]); }
    JoinSub(code, code);
    BuiltWithin(rec, Join(code), Flat(code), [Escaped(Join(code))]);
    BuiltElement(rec, Flat(code), Code, [Escaped(Join(code))]);
    BuiltElement(rec, Flat(code), Pre, [Open(Code)] + [Escaped(Join(code))] + [Close(Code)]);
  }

  /** The lines of a fence without its opening and closing line. */
  lemma SubCode(lines: seq<string>, i: nat, k: nat, j: nat)
    requires i < k <= j <= |lines|
    ensures Sub(Flat(lines[i + 1..k]), Flat(lines[i..j]))
  {
    FlatConcat(lines[i..i + 1] + lines[i + 1..k], lines[k..j]);
    FlatConcat(lines[i..i + 1], lines[i + 1..k]);
    assert lines[i..i + 1] + lines[i + 1..k] + lines[k..j] == lines[i..j];
    SubSelf(Flat(lines[i + 1..k]));
    SubMiddle(Flat(lines[i + 1..k]), Flat(lines[i..i + 1]), Flat(lines[i + 1..k]), Flat(lines[k..j]));
  }

  method ListBlock(rec: Recognizers, lines: seq<string>, i: nat) returns (ps: Pieces, j: nat)
    requires i < |lines| && rec.item(lines[i]).Some?
    ensures Block(rec, lines, i, j, ps) && Whole(rec, lines[i..j], ps)
  {
    var ordered := |rec.item(lines[i]).value.0| > 1;
    var t := if ordered then Ol else Ul;
    j := i;
    var items: Pieces := [];
    NothingBuilt(rec, lines, i);
    while j < |lines|
      invariant i <= j <= |lines| && (j == i ==> IsItem(rec, lines[i], ordered))
      invariant ListedSoFar(rec, lines, i, j, items)
    {
      if !IsItem(rec, lines[j], ordered) { break; }
      var inner := InlineMarkdown(rec, rec.item(lines[j]).value.1, 0);
      ItemAdded(rec, lines, i, j, items, inner);
      items := items + ([Open(Li)] + inner + [Close(Li)]);
      j := j + 1;
    }
    ListClosed(rec, lines, i, j, items, t);
    ps := [Open(t)] + items + [Close(t)];
  }

  /** The line is an item of an ordered or an unordered list. */
  predicate IsItem(rec: Recognizers, line: string, ordered: bool) {
    rec.item(line).Some? && (|rec.item(line).value.0| > 1) == ordered
  }

  ghost predicate ListedSoFar(rec: Recognizers, lines: seq<string>, i: nat, j: nat, items: Pieces) {
    i <= j <= |lines| && Built(rec, Flat(lines[i..j]), items) && Whole(rec, lines[i..j], items)
  }

  lemma ListClosed(rec: Recognizers, lines: seq<string>, i: nat, j: nat, items: Pieces, t: Tag)
    requires ListedSoFar(rec, lines, i, j, items) && t != A
    ensures Built(rec, Flat(lines[i..j]), [Open(t)] + items + [Close(t)])
    ensures Whole(rec, lines[i..j], [Open(t)] + items + [Close(t)])
  {
    BuiltElement(rec, Flat(lines[i..j]), t, items);
    VisibleElement(Open(t), items, t);
  }

  lemma ItemAdded(rec: Recognizers, lines: seq<string>, i: nat, j: nat, items: Pieces, inner: Pieces)
    requires j < |lines| && ListedSoFar(rec, lines, i, j, items)
    requires rec.item(lines[j]).Some? && Kept(rec, rec.item(lines[j]).value.1, inner)
    ensures ListedSoFar(rec, lines, i, j + 1, items + ([Open(Li)] + inner + [Close(Li)]))
  {
    var text := rec.item(lines[j]).value.1;
    var item := [Open(Li)] + inner + [Close(Li)];
    ItemBuilt(rec, lines[j], text, inner);
    BuiltConcat(rec, Flat(lines[i..j]), items, lines[j] + "\n", item);
    FlatStep(lines, i, j);
    WholeLine(rec, lines[j], text, Li, inner);
    WholeStep(rec, lines, i, j, items, item);
  }

  lemma WholeStep(rec: Recognizers, lines: seq<string>, i: nat, j: nat, ps: Pieces, qs: Pieces)
    requires i <= j < |lines| && Whole(rec, lines[i..j], ps) && Whole(rec, [lines[j]], qs)
    ensures Whole(rec, lines[i..j + 1], ps + qs)
  {
    WholeConcat(rec, lines[i..j], ps, [lines[j]], qs);
    assert lines[i..j] + [lines[j]] == lines[i..j + 1];
  }

  lemma NothingBuilt(rec: Recognizers, lines: seq<string>, i: nat)
    requires i <= |lines|
    ensures Built(rec, Flat(lines[i..i]), []) && Whole(rec, lines[i..i], [])
  {
    assert lines[i..i] == [];
  }

  lemma ItemBuilt(rec: Recognizers, line: string, text: string, inner: Pieces)
    requires rec.item(line).Some? && rec.item(line).value.1 == text && Kept(rec, text, inner)
    ensures Built(rec, line + "\n", [Open(Li)] + inner + [Close(Li)])
  {
    if Captures(rec) {
      SubConcat(text, line, "", "\n");
      assert text + "" == text;
    }
    BuiltWithin(rec, text, line + "\n", inner);
    BuiltElement(rec, line + "\n", Li, inner);
  }

  function TrimPrefix(s: string, c: char): string { if s != "" && s[0] == c then s[1..] else s }
  function TrimSuffix(s: string, c: char): string { if s != "" && s[|s| - 1] == c then s[..|s| - 1] else s }

  lemma SubSlice(s: string, i: nat, j: nat)
    requires i <= j <= |s|
    ensures Sub(s[i..j], s)
  {
    SubSelf(s[i..j]);
    SubMiddle(s[i..j], s[..i], s[i..j], s[j..]);
    assert s[..i] + s[i..j] + s[j..] == s;
  }

  lemma TrimSub(rec: Recognizers, s: string)
    ensures Sub(TrimSpace(rec, s), s)
  {
    var d := DropSpace(rec, s);
    DropSpaceSuffix(rec, s);
    DropTrailingPrefix(rec, d);
    var k := |s| - |d|;
    var t := DropTrailing(rec, d);
    SubSlice(s, k, k + |t|);
    assert t == d[..|t|] == s[k..k + |t|];
  }

  /** The text of one quoted line: blanks, one >, and one space taken off its front. */
  function Unquoted(rec: Recognizers, line: string): string {
    TrimPrefix(TrimPrefix(TrimSpace(rec, line), '>'), ' ')
  }

  lemma UnquotedSub(rec: Recognizers, line: string)
    ensures Sub(Unquoted(rec, line), line)
  {
    var t := TrimSpace(rec, line);
    TrimSub(rec, line);
    var u := Unquoted(rec, line);
    var k := |t| - |u|;
    assert u == t[k..|t|];
    SubSlice(t, k, |t|);
    SubTrans(u, t, line);
  }

  lemma QuotesSub(rec: Recognizers, quotes: seq<string>, lines: seq<string>)
    requires |quotes| == |lines| && forall k :: 0 <= k < |quotes| ==> quotes[k] == Unquoted(rec, lines[k])
    ensures Sub(Join(quotes), Flat(lines))
  {
    forall k | 0 <= k < |quotes| ensures Sub(quotes[k], lines[k]) { UnquotedSub(rec, lines[k]); }
    JoinSub(quotes, lines);
  }

  method QuoteBlock(rec: Recognizers, lines: seq<string>, i: nat) returns (ps: Pieces, j: nat, ghost text: Pieces)
    requires i < |lines| && HasPrefix(TrimSpace(rec, lines[i]), ">")
    ensures Block(rec, lines, i, j, ps)
    ensures Render(ps) == "<blockquote>" + Paragraphed(text) + "</blockquote>"
    ensures Whole(rec, lines[i..j], ps)
  {
    var quotes;
    quotes, j := TakeQuotes(rec, lines, i);
    QuotesSub(rec, quotes, lines[i..j]);
    var inner;
    inner, text := TextWithin(rec, quotes, lines[i..j]);
    RenderElement(Blockquote, inner);
    QuoteTags();
    BuiltElement(rec, Flat(lines[i..j]), Blockquote, inner);
    ps := [Open(Blockquote)] + inner + [Close(Blockquote)];
    VisibleElement(Open(Blockquote), inner, Blockquote);
    QuotesWhole(rec, quotes, lines[i..j], ps);
  }

  lemma QuotesWhole(rec: Recognizers, quotes: seq<string>, lines: seq<string>, ps: Pieces)
    requires |quotes| == |lines| && forall k :: 0 <= k < |quotes| ==> quotes[k] == Unquoted(rec, lines[k])
    requires !HasLink(Join(quotes)) ==> Bare(rec, Visible(ps)) == Bare(rec, Join(quotes))
    ensures Whole(rec, lines, ps)
  {
    if AllPlain(rec, lines) {
      forall k | 0 <= k < |lines| ensures WholeText(rec, lines[k], quotes[k]) { UnquotedWhole(rec, lines[k]); }
      JoinBare(rec, quotes, lines);
    }
  }

  /** The quoted lines from i on, unquoted. */
  method TakeQuotes(rec: Recognizers, lines: seq<string>, i: nat) returns (quotes: seq<string>, j: nat)
    requires i < |lines| && HasPrefix(TrimSpace(rec, lines[i]), ">")
    ensures i < j <= |lines| && |quotes| == j - i
    ensures forall k :: 0 <= k < |quotes| ==> quotes[k] == Unquoted(rec, lines[i..j][k])
  {
    j, quotes := i, [];
    while j < |lines| && HasPrefix(TrimSpace(rec, lines[j]), ">")
      invariant i <= j <= |lines| && |quotes| == j - i && (j == i ==> HasPrefix(TrimSpace(rec, lines[i]), ">"))
      invariant forall k :: 0 <= k < |quotes| ==> quotes[k] == Unquoted(rec, lines[i + k])
    {
      quotes := quotes + [Unquoted(rec, lines[j])];
      j := j + 1;
    }
  }

  /** The lines of one block joined and set as inline text. */
  method TextWithin(rec: Recognizers, parts: seq<string>, ghost source: seq<string>)
      returns (ps: Pieces, ghost text: Pieces)
    requires Sub(Join(parts), Flat(source))
    ensures Built(rec, Flat(source), ps)
    ensures Kept(rec, Join(parts), text) && Render(ps) == Paragraphed(text)
    ensures !HasLink(Join(parts)) ==> Bare(rec, Visible(ps)) == Bare(rec, Join(parts))
  {
    ps, text := TextInlineParagraph(rec, Join(parts));
    BuiltWithin(rec, Join(parts), Flat(source), ps);
  }

  /** A line at which an open paragraph ends. */
  predicate EndsParagraph(rec: Recognizers, lines: seq<string>, j: nat)
    requires j < |lines|
  {
    || rec.heading(lines[j]).Some? || rec.item(lines[j]).Some?
    || HasPrefix(TrimSpace(rec, lines[j]), ">") || HasPrefix(TrimSpace(rec, lines[j]), "```")
    || (j + 1 < |lines| && rec.separator(lines[j + 1]))
  }

  method Paragraph(rec: Recognizers, lines: seq<string>, i: nat) returns (ps: Pieces, j: nat, ghost text: Pieces)
    requires i < |lines| && TrimSpace(rec, lines[i]) != ""
    ensures Block(rec, lines, i, j, ps)
    ensures Kept(rec, Join(lines[i..j]), text) && Render(ps) == Paragraphed(text)
    ensures Whole(rec, lines[i..j], ps)
  {
    j := TakeParagraph(rec, lines, i);
    JoinSelf(lines[i..j]);
    ps, text := TextWithin(rec, lines[i..j], lines[i..j]);
    if AllPlain(rec, lines[i..j]) { JoinBare(rec, lines[i..j], lines[i..j]); }
  }

  /** Line j goes on with the paragraph before it. */
  predicate Continues(rec: Recognizers, lines: seq<string>, j: nat) {
    j < |lines| && TrimSpace(rec, lines[j]) != "" && !EndsParagraph(rec, lines, j)
  }

  /** Where the paragraph that begins at line i ends. */
  method TakeParagraph(rec: Recognizers, lines: seq<string>, i: nat) returns (j: nat)
    requires i < |lines|
    ensures i < j <= |lines| && !Continues(rec, lines, j)
    ensures forall k :: i < k < j ==> Continues(rec, lines, k)
  {
    j := i + 1;
    while Continues(rec, lines, j)
      invariant i < j <= |lines|
      invariant forall k :: i < k < j ==> Continues(rec, lines, k)
      decreases |lines| - j
    {
      j := j + 1;
    }
  }

  lemma JoinSelf(lines: seq<string>)
    ensures Sub(Join(lines), Flat(lines))
  {
    forall k | 0 <= k < |lines| ensures Sub(lines[k], lines[k]) { SubSelf(lines[k]); }
    JoinSub(lines, lines);
  }

  function Concat(parts: seq<string>): string {
    if parts == [] then "" else parts[0] + Concat(parts[1..])
  }

  lemma {:induction false} ConcatConcat(a: seq<string>, b: seq<string>)
    ensures Concat(a + b) == Concat(a) + Concat(b)
  {
    if a == [] {
      assert a + b == b;
    } else {
      assert (a + b)[1..] == a[1..] + b;
      ConcatConcat(a[1..], b);
    }
  }

  lemma {:induction false} ConcatSub(a: seq<string>, b: seq<string>)
    requires |a| == |b| && forall k :: 0 <= k < |a| ==> Sub(a[k], b[k])
    ensures Sub(Concat(a), Concat(b))
  {
    if a != [] {
      ConcatSub(a[1..], b[1..]);
      SubConcat(a[0], b[0], Concat(a[1..]), Concat(b[1..]));
    }
  }

  lemma {:induction false} SplitSub(s: string, sep: char)
    ensures Sub(Concat(SplitOn(s, sep)), s)
    decreases |s|
  {
    var i := IndexOf(s, sep);
    var r := SplitOn(s, sep);
    if i == |s| {
      assert r[1..] == [];
      assert Concat(r) == s + "" == s;
      SubSelf(s);
    } else {
      SplitSub(s[i + 1..], sep);
      assert r[1..] == SplitOn(s[i + 1..], sep);
      SubRejoined(s[..i], Concat(r[1..]), [sep], s[i + 1..]);
      assert s == s[..i] + ([sep] + s[i + 1..]);
    }
  }

  /** A separator left out. */
  lemma SubRejoined(a: string, b: string, sep: string, rest: string)
    requires Sub(b, rest)
    ensures Sub(a + b, a + (sep + rest))
  {
    SubSelf(a);
    SubAfter(b, sep, rest);
    SubConcat(a, a, b, sep + rest);
  }

  function TrimAll(rec: Recognizers, parts: seq<string>): (r: seq<string>)
    ensures |r| == |parts| && forall k :: 0 <= k < |r| ==> r[k] == TrimSpace(rec, parts[k])
  {
    seq(|parts|, k requires 0 <= k < |parts| => TrimSpace(rec, parts[k]))
  }

  function RowText(rec: Recognizers, line: string): string {
    TrimSuffix(TrimPrefix(TrimSpace(rec, line), '|'), '|')
  }

  /** tableCells: the trimmed texts between the bars, without one outer bar on each side. */
  function TableCells(rec: Recognizers, line: string): (r: seq<string>)
    ensures |r| > 0
  {
    TrimAll(rec, SplitOn(RowText(rec, line), '|'))
  }

  lemma CellsSub(rec: Recognizers, line: string)
    ensures Sub(Concat(TableCells(rec, line)), line)
  {
    var row := RowText(rec, line);
    var parts := SplitOn(row, '|');
    forall k | 0 <= k < |parts| ensures Sub(TrimAll(rec, parts)[k], parts[k]) { TrimSub(rec, parts[k]); }
    ConcatSub(TrimAll(rec, parts), parts);
    SplitSub(row, '|');
    RowTextSub(rec, line);
    SubTrans(Concat(TableCells(rec, line)), Concat(parts), row);
    SubTrans(Concat(TableCells(rec, line)), row, line);
  }

  lemma RowTextSub(rec: Recognizers, line: string)
    ensures Sub(RowText(rec, line), line)
  {
    var t := TrimSpace(rec, line);
    TrimSub(rec, line);
    var u := TrimPrefix(t, '|');
    var v := TrimSuffix(u, '|');
    SubSlice(t, |t| - |u|, |t|);
    assert u == t[|t| - |u|..|t|];
    SubSlice(u, 0, |v|);
    assert v == u[0..|v|];
    SubTrans(v, u, t);
    SubTrans(v, t, line);
  }

  /** A row of exactly `count` cells: missing ones are empty, surplus ones are dropped. */
  method RowCells(rec: Recognizers, cells: seq<string>, count: nat, t: Tag) returns (ps: Pieces)
    requires t == Th || t == Td
    ensures Built(rec, Concat(cells), ps)
  {
    ps := [];
    var j := 0;
    ghost var n := 0;
    while j < count
      invariant 0 <= j <= count && n == (if j < |cells| then j else |cells|)
      invariant Built(rec, Concat(cells[..n]), ps)
    {
      var cell := if j < |cells| then cells[j] else "";
      var inner := InlineMarkdown(rec, cell, 0);
      BuiltElement(rec, cell, t, inner);
      BuiltConcat(rec, Concat(cells[..n]), ps, cell, [Open(t)] + inner + [Close(t)]);
      ps := ps + ([Open(t)] + inner + [Close(t)]);
      if j < |cells| {
        ConcatConcat(cells[..j], [cells[j]]);
        assert cells[..j] + [cells[j]] == cells[..j + 1];
        assert [cells[j]][1..] == [];
        assert Concat([cells[j]]) == cells[j] + "" == cells[j];
        n := n + 1;
      } else {
        assert Concat(cells[..n]) + "" == Concat(cells[..n]);
      }
      j := j + 1;
    }
    ConcatConcat(cells[..n], cells[n..]);
    assert cells[..n] + cells[n..] == cells;
    SubSelf(Concat(cells[..n]));
    SubMiddle(Concat(cells[..n]), "", Concat(cells[..n]), Concat(cells[n..]));
    assert "" + Concat(cells[..n]) + Concat(cells[n..]) == Concat(cells);
    BuiltWithin(rec, Concat(cells[..n]), Concat(cells), ps);
  }

  method TableRow(rec: Recognizers, line: string, count: nat, t: Tag) returns (ps: Pieces)
    requires t == Th || t == Td
    ensures Built(rec, line + "\n", ps)
  {
    var cells := TableCells(rec, line);
    var row := RowCells(rec, cells, count, t);
    CellsSub(rec, line);
    SubConcat(Concat(cells), line, "", "\n");
    assert Concat(cells) + "" == Concat(cells);
    BuiltWithin(rec, Concat(cells), line + "\n", row);
    BuiltElement(rec, line + "\n", Tr, row);
    ps := [Open(Tr)] + row + [Close(Tr)];
  }

  method TableBlock(rec: Recognizers, lines: seq<string>, i: nat) returns (ps: Pieces, j: nat)
    requires i + 1 < |lines|
    ensures Block(rec, lines, i, j, ps) && i + 2 <= j
  {
    var count := |TableCells(rec, lines[i])|;
    var header := TableRow(rec, lines[i], count, Th);
    BuiltElement(rec, lines[i] + "\n", Thead, header);
    j := i + 2;
    var rows: Pieces := [];
    NothingBuilt(rec, lines, j);
    while j < |lines| && '|' in lines[j] && TrimSpace(rec, lines[j]) != ""
      invariant i + 2 <= j <= |lines|
      invariant Built(rec, Flat(lines[i + 2..j]), rows)
    {
      var row := TableRow(rec, lines[j], count, Td);
      BuiltConcat(rec, Flat(lines[i + 2..j]), rows, lines[j] + "\n", row);
      FlatStep(lines, i + 2, j);
      rows := rows + row;
      j := j + 1;
    }
    ps := [Open(Table)]
          + (([Open(Thead)] + header + [Close(Thead)]) + ([Open(Tbody)] + rows + [Close(Tbody)]))
          + [Close(Table)];
    TableBuilt(rec, lines, i, j, [Open(Thead)] + header + [Close(Thead)], rows, ps);
  }

  lemma TableBuilt(rec: Recognizers, lines: seq<string>, i: nat, j: nat, head: Pieces, rows: Pieces, ps: Pieces)
    requires i + 2 <= j <= |lines|
    requires Built(rec, lines[i] + "\n", head) && Built(rec, Flat(lines[i + 2..j]), rows)
    requires ps == [Open(Table)] + (head + ([Open(Tbody)] + rows + [Close(Tbody)])) + [Close(Table)]
    ensures Block(rec, lines, i, j, ps)
  {
    var body := Flat(lines[i + 2..j]);
    BuiltElement(rec, body, Tbody, rows);
    BuiltConcat(rec, lines[i] + "\n", head, body, [Open(Tbody)] + rows + [Close(Tbody)]);
    BuiltElement(rec, lines[i] + "\n" + body, Table, head + ([Open(Tbody)] + rows + [Close(Tbody)]));
    var skipped := lines[i + 1] + "\n";
    SubSelf(lines[i] + "\n");
    SubSelf(body);
    SubAfter(body, skipped, body);
    SubConcat(lines[i] + "\n", lines[i] + "\n", body, skipped + body);
    assert lines[i..j][1..] == lines[i + 1..j] && lines[i + 1..j][1..] == lines[i + 2..j];
    assert Flat(lines[i..j]) == lines[i] + "\n" + (skipped + body);
    BuiltWithin(rec, lines[i] + "\n" + body, Flat(lines[i..j]), ps);
  }

  // ----- the document -----

  /** A line of signs, shown by nothing. */
  lemma BlankWhole(rec: Recognizers, lines: seq<string>, i: nat, ps: Pieces)
    requires i < |lines| && Bare(rec, TrimSpace(rec, lines[i])) == "" && Visible(ps) == ""
    ensures Whole(rec, lines[i..i + 1], ps)
  {
    BareTrim(rec, lines[i]);
    BareEnd(rec, lines[i]);
    assert lines[i..i + 1] == [lines[i]] && [lines[i]][1..] == [];
    assert Flat([lines[i]]) == lines[i] + "\n" + "" == lines[i] + "\n";
  }

  method OneBlock(rec: Recognizers, lines: seq<string>, i: nat) returns (ps: Pieces, j: nat)
    requires i < |lines|
    ensures Block(rec, lines, i, j, ps) && Whole(rec, lines[i..j], ps)
  {
    var line := lines[i];
    var trim := TrimSpace(rec, line);
    if trim == "" {
      assert Visible([]) == "";
      BlankWhole(rec, lines, i, []);
      return [], i + 1;
    }
    if HasPrefix(trim, "```") || HasPrefix(trim, "~~~") {
      ps, j := FencedCode(rec, lines, i, trim[..3]);
      assert !Plain(rec, lines[i..j][0]);
      return;
    }
    if rec.heading(line).Some? {
      var text := rec.heading(line).value.1;
      var inner := InlineMarkdown(rec, text, 0);
      var t := Heading(rec.heading(line).value.0);
      if Captures(rec) { SubLine(text, lines, i, i + 1); }
      BuiltWithin(rec, text, Flat(lines[i..i + 1]), inner);
      BuiltElement(rec, Flat(lines[i..i + 1]), t, inner);
      WholeLine(rec, line, text, t, inner);
      assert lines[i..i + 1] == [line];
      return [Open(t)] + inner + [Close(t)], i + 1;
    }
    if i + 1 < |lines| && '|' in line && rec.separator(lines[i + 1]) {
      ps, j := TableBlock(rec, lines, i);
      assert !Plain(rec, lines[i..j][1]);
      return;
    }
    if rec.item(line).Some? {
      ps, j := ListBlock(rec, lines, i);
      return;
    }
    if HasPrefix(trim, ">") {
      ghost var quoted;
      ps, j, quoted := QuoteBlock(rec, lines, i);
      return;
    }
    if trim == "---" || trim == "***" || trim == "___" {
      BuiltVoid(rec, Hr);
      BuiltWithin(rec, "", Flat(lines[i..i + 1]), [Void(Hr)]);
      assert Visible([Void(Hr)]) == "" + Visible([Void(Hr)][1..]) == "";
      OnlySigns(rec, trim);
      BlankWhole(rec, lines, i, [Void(Hr)]);
      return [Void(Hr)], i + 1;
    }
    ghost var text;
    ps, j, text := Paragraph(rec, lines, i);
  }

  /**
    markdownHTML: for every body the rendered string is well nested, links only to safe targets,
    and shows the body's own characters in the body's order; of plain lines it shows all but signs.
   */
  method MarkdownHtml(rec: Recognizers, body: string) returns (ps: Pieces)
    ensures WellNested(Render(ps))
    ensures SafeLinks(rec, ps) && AnchorsApart(ps)
    ensures forall p :: p in ps && p.OpenLink? ==>
              && rec.scheme(p.href) in {Some("https"), Some("http"), Some("mailto")}
              && ' ' !in p.href && '\t' !in p.href && '\r' !in p.href && '\n' !in p.href && '\0' !in p.href
    ensures Captures(rec) ==> Sub(Visible(ps), body + "\n")
    ensures AllPlain(rec, SplitOn(body, '\n')) ==> Bare(rec, Visible(ps)) == Bare(rec, body)
  {
    var lines := SplitOn(body, '\n');
    ps := [];
    var i := 0;
    NothingBuilt(rec, lines, 0);
    while i < |lines|
      invariant 0 <= i <= |lines|
      invariant Built(rec, Flat(lines[0..i]), ps) && Whole(rec, lines[0..i], ps)
    {
      var block, j := OneBlock(rec, lines, i);
      WholeConcat(rec, lines[0..i], ps, lines[i..j], block);
      BuiltConcat(rec, Flat(lines[0..i]), ps, Flat(lines[i..j]), block);
      FlatConcat(lines[0..i], lines[i..j]);
      assert lines[0..i] + lines[i..j] == lines[0..j];
      ps := ps + block;
      i := j;
    }
    assert lines[0..|lines|] == lines;
    FlatSplit(body);
    BareEnd(rec, body);
    NeutralIsWellNested(ps);
  }
}
