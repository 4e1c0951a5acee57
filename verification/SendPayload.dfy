/**
  The digest an approval is bound to: sendPayloadHash and addrKey of internal/application/send.go,
  with the checks of validateDraftForSend that it relies on.

  SHA-256 in hexadecimal, strings.ToLower and JSON encoding are parameters; a digest is taken to be
  injective and free of line breaks, JSON to be injective.  `scan` is a scanner of the address syntax
  that tells a comma inside an address, as in a quoted local part, from one between addresses.
 */
module SendPayload {
  import opened Text

  datatype Address = Address(name: string, email: string)
  datatype Attachment = Attachment(id: string, name: string, mimeType: string, size: nat, hash: string)
  datatype Account = Account(id: string, email: string)
  datatype Version = Version(number: nat, to: seq<Address>, cc: seq<Address>, bcc: seq<Address>,
                             subject: string, bodyText: string, bodyHtml: string, attachments: seq<Attachment>)

  datatype Lib = Lib(hex: string -> string, lower: string -> string, json: seq<Attachment> -> string,
                     scan: (nat, char) -> nat)

  ghost predicate Collisionless(lib: Lib) {
    && (forall x, y :: lib.hex(x) == lib.hex(y) ==> x == y)
    && (forall x :: Free(lib.hex(x), '\n'))
    && (forall x, y :: lib.json(x) == lib.json(y) ==> x == y)
  }

  function Emails(lib: Lib, list: seq<Address>): (r: seq<string>)
    ensures |r| == |list|
    ensures forall i :: 0 <= i < |list| ==> r[i] == lib.lower(list[i].email)
  {
    seq(|list|, i requires 0 <= i < |list| => lib.lower(list[i].email))
  }

  function AddrKey(lib: Lib, list: seq<Address>): string { Commas(Emails(lib, list)) }

  function BodyKey(v: Version): string { v.bodyText + "\0" + v.bodyHtml }

  function PayloadLines(lib: Lib, acc: Account, v: Version): seq<string> {
    ["account=" + acc.id, "from=" + acc.email, "to=" + AddrKey(lib, v.to), "cc=" + AddrKey(lib, v.cc),
     "bcc=" + AddrKey(lib, v.bcc), "subject=" + v.subject, "body=" + lib.hex(BodyKey(v)),
     "version=" + Decimal(v.number)]
    + if v.attachments == [] then [] else ["attachments=" + lib.hex(lib.json(v.attachments))]
  }

  function PayloadHash(lib: Lib, acc: Account, v: Version): string {
    lib.hex(Lines(PayloadLines(lib, acc, v)))
  }

  // ----- what the digest tells apart -----

  ghost predicate AddressesOk(lib: Lib, list: seq<Address>) {
    forall i :: 0 <= i < |list| ==>
      && lib.lower(list[i].email) != "" && Free(lib.lower(list[i].email), '\n')
      && Whole(lib.scan, 0, lib.lower(list[i].email))
  }

  /** Header fields without line breaks, addresses that are addresses, and a text body without NUL. */
  ghost predicate Sendable(lib: Lib, acc: Account, v: Version) {
    && Free(acc.id, '\n') && Free(acc.email, '\n') && Free(v.subject, '\n') && Free(v.bodyText, '\0')
    && AddressesOk(lib, v.to) && AddressesOk(lib, v.cc) && AddressesOk(lib, v.bcc)
  }

  /** The approved content: everything but display names and the case of addresses. */
  predicate SameMail(lib: Lib, a: Account, v: Version, b: Account, w: Version) {
    && a == b && v.number == w.number
    && Emails(lib, v.to) == Emails(lib, w.to) && Emails(lib, v.cc) == Emails(lib, w.cc)
       && Emails(lib, v.bcc) == Emails(lib, w.bcc)
    && v.subject == w.subject && v.bodyText == w.bodyText && v.bodyHtml == w.bodyHtml && v.attachments == w.attachments
  }

  lemma {:induction false} CommasFree(parts: seq<string>)
    requires forall i :: 0 <= i < |parts| ==> Free(parts[i], '\n')
    ensures Free(Commas(parts), '\n')
  {
    if |parts| > 1 { CommasFree(parts[1..]); }
  }

  lemma AddrKeyInjective(lib: Lib, a: seq<Address>, b: seq<Address>)
    requires AddressesOk(lib, a) && AddressesOk(lib, b)
    ensures AddrKey(lib, a) == AddrKey(lib, b) <==> Emails(lib, a) == Emails(lib, b)
    ensures Free(AddrKey(lib, a), '\n')
  {
    CommasFree(Emails(lib, a));
    if AddrKey(lib, a) == AddrKey(lib, b) { CommasInjective(lib.scan, Emails(lib, a), Emails(lib, b)); }
  }

  lemma LinesFree(lib: Lib, acc: Account, v: Version)
    requires Collisionless(lib) && Sendable(lib, acc, v)
    ensures forall i :: 0 <= i < |PayloadLines(lib, acc, v)| ==> Free(PayloadLines(lib, acc, v)[i], '\n')
  {
    AddrKeyInjective(lib, v.to, v.to);
    AddrKeyInjective(lib, v.cc, v.cc);
    AddrKeyInjective(lib, v.bcc, v.bcc);
    DecimalRoundTrip(v.number);
  }

  lemma After(tag: string, x: string, y: string)
    requires tag + x == tag + y
    ensures x == y
  {
    assert (tag + x)[|tag|..] == x && (tag + y)[|tag|..] == y;
  }

  lemma HeaderLines(lib: Lib, a: Account, v: Version, b: Account, w: Version)
    requires Sendable(lib, a, v) && Sendable(lib, b, w)
    requires PayloadLines(lib, a, v) == PayloadLines(lib, b, w)
    ensures a == b && v.subject == w.subject && Emails(lib, v.to) == Emails(lib, w.to)
    ensures Emails(lib, v.cc) == Emails(lib, w.cc) && Emails(lib, v.bcc) == Emails(lib, w.bcc)
  {
    var p, q := PayloadLines(lib, a, v), PayloadLines(lib, b, w);
    assert p[0] == q[0] && p[1] == q[1] && p[2] == q[2] && p[3] == q[3] && p[4] == q[4] && p[5] == q[5];
    After("account=", a.id, b.id);
    After("from=", a.email, b.email);
    After("to=", AddrKey(lib, v.to), AddrKey(lib, w.to));
    After("cc=", AddrKey(lib, v.cc), AddrKey(lib, w.cc));
    After("bcc=", AddrKey(lib, v.bcc), AddrKey(lib, w.bcc));
    After("subject=", v.subject, w.subject);
    AddrKeyInjective(lib, v.to, w.to);
    AddrKeyInjective(lib, v.cc, w.cc);
    AddrKeyInjective(lib, v.bcc, w.bcc);
  }

  lemma BodyLines(lib: Lib, a: Account, v: Version, b: Account, w: Version)
    requires Collisionless(lib) && Sendable(lib, a, v) && Sendable(lib, b, w)
    requires PayloadLines(lib, a, v) == PayloadLines(lib, b, w)
    ensures v.bodyText == w.bodyText && v.bodyHtml == w.bodyHtml && v.number == w.number
            && v.attachments == w.attachments
  {
    var p, q := PayloadLines(lib, a, v), PayloadLines(lib, b, w);
    assert p[6] == q[6] && p[7] == q[7];
    After("body=", lib.hex(BodyKey(v)), lib.hex(BodyKey(w)));
    SplitFirst(v.bodyText, v.bodyHtml, w.bodyText, w.bodyHtml, '\0');
    After("version=", Decimal(v.number), Decimal(w.number));
    DecimalRoundTrip(v.number);
    DecimalRoundTrip(w.number);
    AttachmentLines(lib, a, v, b, w);
  }

  lemma AttachmentLines(lib: Lib, a: Account, v: Version, b: Account, w: Version)
    requires Collisionless(lib) && PayloadLines(lib, a, v) == PayloadLines(lib, b, w)
    ensures v.attachments == w.attachments
  {
    var p, q := PayloadLines(lib, a, v), PayloadLines(lib, b, w);
    assert |p| == (if v.attachments == [] then 8 else 9) && |q| == if w.attachments == [] then 8 else 9;
    if v.attachments != [] {
      assert p[8] == q[8];
      After("attachments=", lib.hex(lib.json(v.attachments)), lib.hex(lib.json(w.attachments)));
    }
  }

  /** Two sendable payloads have the same digest exactly when they are the same mail. */
  lemma PayloadHashBinds(lib: Lib, a: Account, v: Version, b: Account, w: Version)
    requires Collisionless(lib) && Sendable(lib, a, v) && Sendable(lib, b, w)
    ensures PayloadHash(lib, a, v) == PayloadHash(lib, b, w) <==> SameMail(lib, a, v, b, w)
  {
    if PayloadHash(lib, a, v) == PayloadHash(lib, b, w) {
      LinesFree(lib, a, v);
      LinesFree(lib, b, w);
      LinesInjective(PayloadLines(lib, a, v), PayloadLines(lib, b, w));
      HeaderLines(lib, a, v, b, w);
      BodyLines(lib, a, v, b, w);
    }
  }

  // ----- where the encoding is not injective -----

  /** Another pair of bodies with the same digest input. */
  ghost predicate Ambiguous(text: string, html: string) {
    exists t, h :: (t, h) != (text, html) && t + "\0" + h == text + "\0" + html
  }

  /**
    The two bodies are joined by one NUL that validateDraftForSend does not exclude from either, so
    a pair can be confused with another exactly when one of them holds a NUL.
   */
  lemma BodiesAmbiguousIffNul(text: string, html: string)
    ensures Ambiguous(text, html) <==> '\0' in text || '\0' in html
  {
    if '\0' in text {
      var i :| 0 <= i < |text| && text[i] == '\0';
      var t, h := text[..i], text[i + 1..] + "\0" + html;
      assert text == t + "\0" + text[i + 1..];
      assert t + "\0" + h == text + "\0" + html;
      assert |t| < |text|;
    } else if '\0' in html {
      var i :| 0 <= i < |html| && html[i] == '\0';
      var t, h := text + "\0" + html[..i], html[i + 1..];
      assert html == html[..i] + "\0" + h;
      assert t + "\0" + h == text + "\0" + html;
      assert |t| > |text|;
    } else {
      forall t: string, h: string | t + "\0" + h == text + "\0" + html ensures (t, h) == (text, html) {
        OneNul(t, h, text, html);
      }
    }
  }

  lemma OneNul(t: string, h: string, text: string, html: string)
    requires Free(text, '\0') && Free(html, '\0') && t + "\0" + h == text + "\0" + html
    ensures t == text && h == html
  {
    var s := text + "\0" + html;
    assert s[|t|] == '\0' by { assert (t + "\0" + h)[|t|] == '\0'; }
    assert forall i :: 0 <= i < |s| && i != |text| ==> s[i] != '\0';
    assert (t + "\0" + h)[..|t|] == t && s[..|text|] == text;
    assert (t + "\0" + h)[|t| + 1..] == h && s[|text| + 1..] == html;
  }

  /** No recipients and one empty recipient read the same; validateDraftForSend refuses the latter. */
  lemma EmptyAddressCollides(lib: Lib, name: string)
    requires lib.lower("") == ""
    ensures AddrKey(lib, []) == AddrKey(lib, [Address(name, "")])
  {
    assert Emails(lib, [Address(name, "")]) == [""];
  }

  /** Quoted strings and the backslash in them: 0 outside, 1 inside, 2 after a backslash. */
  function Quotes(st: nat, c: char): nat {
    if st == 0 then (if c == '"' then 1 else 0)
    else if st == 1 then (if c == '"' then 0 else if c == '\\' then 2 else 1)
    else 1
  }

  /** A quoted comma keeps an address whole ... */
  lemma QuotedCommaIsWhole()
    ensures Whole(Quotes, 0, "\"a,b\"@c")
  {
    assert Whole(Quotes, 0, "@c") by { assert "@c"[1..] == "c" && "c"[1..] == ""; }
    var s := "\"a,b\"@c";
    assert s[1..] == "a,b\"@c" && "a,b\"@c"[1..] == ",b\"@c" && ",b\"@c"[1..] == "b\"@c" && "b\"@c"[1..] == "\"@c"
           && "\"@c"[1..] == "@c";
    assert Whole(Quotes, 1, "\"@c");
    assert Whole(Quotes, 1, "b\"@c");
    assert Whole(Quotes, 1, ",b\"@c");
    assert Whole(Quotes, 1, "a,b\"@c");
  }

  /** ... and a bare one would not: two addresses and one with a comma between them read the same. */
  lemma BareCommaCollides(lib: Lib, name: string, a: string, b: string)
    requires lib.lower(a + "," + b) == lib.lower(a) + "," + lib.lower(b)
    ensures AddrKey(lib, [Address(name, a + "," + b)]) == AddrKey(lib, [Address(name, a), Address(name, b)])
  {
    assert Emails(lib, [Address(name, a + "," + b)]) == [lib.lower(a) + "," + lib.lower(b)];
    assert Emails(lib, [Address(name, a), Address(name, b)]) == [lib.lower(a), lib.lower(b)];
    assert [lib.lower(a), lib.lower(b)][1..] == [lib.lower(b)];
    assert Commas([lib.lower(b)]) == lib.lower(b);
    assert Commas([lib.lower(a) + "," + lib.lower(b)]) == lib.lower(a) + "," + lib.lower(b);
  }

  // ----- server deletion shares the approval table -----

  function DeletePreimage(accountId: string, sorted: seq<string>): string {
    "server_delete\n" + accountId + "\n" + Lines(sorted)
  }

  /** An approval to send is never an approval to delete: the two digests start from different text. */
  lemma SendIsNotDelete(lib: Lib, acc: Account, v: Version, accountId: string, sorted: seq<string>)
    requires Collisionless(lib)
    ensures PayloadHash(lib, acc, v) != lib.hex(DeletePreimage(accountId, sorted))
  {
    var p := PayloadLines(lib, acc, v);
    assert p[0][0] == 'a';
    assert Lines(p)[0] == 'a';
    assert DeletePreimage(accountId, sorted)[0] == 's';
  }
}
