/**
  Listing drafts page by page: ListDrafts of internal/application/draft_list.go over the keyset query
  of internal/adapters/persistence/draft_list.go.

  A listed draft is its key, the pair (updated, id); the other columns go with the id.  Encoding a
  cursor (JSON in base64url) is a parameter.
 */
module Paging {
  import opened Sorting
  import opened Text

  datatype Key = Key(updated: int, id: string)
  datatype Row = Row(key: Key, user: string, status: string)
  datatype Option<T> = None | Some(value: T)
  datatype Codec = Codec(encode: Key -> string, decode: string -> Option<Key>)
  datatype Outcome = Page(drafts: seq<Key>, next: string) | Refused

  /** a comes no later than b: newest first, then the greater id. */
  predicate NewestFirst(a: Key, b: Key) {
    a.updated > b.updated || (a.updated == b.updated && Le(b.id, a.id))
  }

  /** x comes strictly after the cursor k: the WHERE clause. */
  predicate Beyond(k: Key, x: Key) {
    x.updated < k.updated || (x.updated == k.updated && x.id != k.id && Le(x.id, k.id))
  }

  const OPEN := "open"

  predicate KnownStatus(status: string) {
    status == OPEN || status == "approved" || status == "sent" || status == "discarded"
  }

  function Matching(rows: seq<Row>, user: string, status: string): seq<Key> {
    if rows == [] then []
    else
      var rest := Matching(rows[1..], user, status);
      if rows[0].user == user && rows[0].status == status then [rows[0].key] + rest else rest
  }

  function After(k: Key, s: seq<Key>): seq<Key> {
    if s == [] then [] else (if Beyond(k, s[0]) then [s[0]] else []) + After(k, s[1..])
  }

  /** The query: `updated` 0 means no cursor. */
  function Query(rows: seq<Row>, user: string, status: string, before: Key, limit: int): seq<Key> {
    var bound := if limit <= 0 || limit > 201 then 201 else limit;
    var keys := Matching(rows, user, status);
    Taken(Sort(NewestFirst, if before.updated == 0 then keys else After(before, keys)), bound)
  }

  function Taken(s: seq<Key>, n: nat): seq<Key> { if |s| <= n then s else s[..n] }

  function Clamp(limit: int): (n: nat)
    ensures 1 <= n <= 200
  {
    if limit <= 0 then 50 else if limit > 200 then 200 else limit
  }

  const NOWHERE := Key(0, "")

  /** The key a cursor stands for, if ListDrafts accepts it. */
  function Start(c: Codec, cursor: string): Option<Key> {
    if cursor == "" then Some(NOWHERE)
    else if |cursor| > 512 then None
    else
      var k := c.decode(cursor);
      if k.None? || k.value.updated <= 0 || k.value.id == "" then None else k
  }

  function ListDrafts(c: Codec, rows: seq<Row>, user: string, status: string, limit: int, cursor: string): Outcome {
    var st := if status == "" then OPEN else status;
    var before := Start(c, cursor);
    if !KnownStatus(st) || before.None? then Refused
    else
      var n := Clamp(limit);
      PageOf(c, Query(rows, user, st, before.value, n + 1), n)
  }

  /** One row more than asked for tells whether there is another page. */
  function PageOf(c: Codec, found: seq<Key>, n: nat): Outcome
    requires n >= 1
  {
    if |found| > n then Page(found[..n], c.encode(found[n - 1])) else Page(found, "")
  }

  // ----- the whole list -----

  function Full(rows: seq<Row>, user: string, status: string): seq<Key> {
    Sort(NewestFirst, Matching(rows, user, status))
  }

  /** id is the primary key. */
  predicate UniqueIds(rows: seq<Row>) { forall i, j :: 0 <= i < j < |rows| ==> rows[i].key.id != rows[j].key.id }

  lemma OrderIsTotal()
    ensures TotalOrder(NewestFirst)
  {
    forall x, y ensures NewestFirst(x, y) || NewestFirst(y, x) { LeTotal(x.id, y.id); }
    forall x, y | NewestFirst(x, y) && NewestFirst(y, x) ensures x == y { LeAntisymmetric(x.id, y.id); }
    forall x, y, z | NewestFirst(x, y) && NewestFirst(y, z) ensures NewestFirst(x, z) {
      if x.updated == y.updated == z.updated { LeTransitive(z.id, y.id, x.id); }
    }
  }

  lemma BeyondIff(k: Key, x: Key)
    ensures Beyond(k, x) <==> !NewestFirst(x, k)
    ensures Beyond(k, x) <==> x != k && NewestFirst(k, x)
  {
    LeTotal(x.id, k.id);
    if Le(x.id, k.id) && Le(k.id, x.id) { LeAntisymmetric(x.id, k.id); }
  }

  lemma {:induction false} AfterElements(k: Key, s: seq<Key>, x: Key)
    ensures multiset(After(k, s))[x] == if Beyond(k, x) then multiset(s)[x] else 0
  {
    if s != [] {
      assert s == [s[0]] + s[1..];
      AfterElements(k, s[1..], x);
    }
  }

  lemma {:induction false} AfterSorted(k: Key, s: seq<Key>)
    requires Sorted(NewestFirst, s)
    ensures Sorted(NewestFirst, After(k, s))
  {
    if s != [] {
      AfterSorted(k, s[1..]);
      forall j | 0 <= j < |After(k, s[1..])| ensures NewestFirst(s[0], After(k, s[1..])[j]) {
        var x := After(k, s[1..])[j];
        assert x in multiset(After(k, s[1..]));
        AfterElements(k, s[1..], x);
        assert x in s[1..];
      }
    }
  }

  /** The query may filter before sorting or after. */
  lemma SortAfter(k: Key, s: seq<Key>)
    ensures Sort(NewestFirst, After(k, s)) == After(k, Sort(NewestFirst, s))
  {
    OrderIsTotal();
    var t := Sort(NewestFirst, s);
    SortSorted(NewestFirst, s);
    SortSorted(NewestFirst, After(k, s));
    AfterSorted(k, t);
    forall x ensures multiset(After(k, s))[x] == multiset(After(k, t))[x] {
      AfterElements(k, s, x);
      AfterElements(k, t, x);
    }
    assert multiset(After(k, s)) == multiset(After(k, t));
    SortedUnique(NewestFirst, Sort(NewestFirst, After(k, s)), After(k, t));
  }

  lemma {:induction false} AfterSuffix(k: Key, a: seq<Key>, b: seq<Key>)
    requires forall i :: 0 <= i < |a| ==> !Beyond(k, a[i])
    requires forall i :: 0 <= i < |b| ==> Beyond(k, b[i])
    ensures After(k, a + b) == b
    decreases |a| + |b|
  {
    if a != [] {
      assert (a + b)[0] == a[0] && (a + b)[1..] == a[1..] + b;
      AfterSuffix(k, a[1..], b);
    } else {
      assert a + b == b;
      AfterAll(k, b);
    }
  }

  lemma {:induction false} AfterAll(k: Key, b: seq<Key>)
    requires forall i :: 0 <= i < |b| ==> Beyond(k, b[i])
    ensures After(k, b) == b
  {
    if b != [] {
      AfterAll(k, b[1..]);
      assert b == [b[0]] + b[1..];
    }
  }

  predicate Distinct(s: seq<Key>) { forall i, j :: 0 <= i < j < |s| ==> s[i] != s[j] }

  predicate Listed(rows: seq<Row>, user: string, status: string, x: Key) { Row(x, user, status) in rows }

  lemma {:induction false} MatchingOnce(rows: seq<Row>, user: string, status: string, x: Key)
    requires UniqueIds(rows)
    ensures multiset(Matching(rows, user, status))[x] == if Listed(rows, user, status, x) then 1 else 0
  {
    if rows != [] {
      MatchingOnce(rows[1..], user, status, x);
      var r := Row(x, user, status);
      assert r in rows <==> r == rows[0] || r in rows[1..];
      assert r == rows[0] ==> r !in rows[1..];
    }
  }

  lemma OnceMeansDistinct(s: seq<Key>)
    requires forall x :: multiset(s)[x] <= 1
    ensures Distinct(s)
  {
    forall i, j | 0 <= i < j < |s| ensures s[i] != s[j] {
      assert s == s[..j] + s[j..];
      assert s[i] in s[..j] && s[j] in s[j..];
      assert multiset(s)[s[i]] == multiset(s[..j])[s[i]] + multiset(s[j..])[s[i]];
    }
  }

  lemma FullDistinct(rows: seq<Row>, user: string, status: string)
    requires UniqueIds(rows)
    ensures Distinct(Full(rows, user, status)) && Sorted(NewestFirst, Full(rows, user, status))
  {
    var s := Full(rows, user, status);
    OrderIsTotal();
    SortSorted(NewestFirst, Matching(rows, user, status));
    forall x ensures multiset(s)[x] <= 1 { MatchingOnce(rows, user, status, x); }
    OnceMeansDistinct(s);
  }

  /** The full list holds each matching draft once and nothing else, newest first. */
  lemma FullIsTheListing(rows: seq<Row>, user: string, status: string, x: Key)
    requires UniqueIds(rows)
    ensures Distinct(Full(rows, user, status)) && Sorted(NewestFirst, Full(rows, user, status))
    ensures x in Full(rows, user, status) <==> Row(x, user, status) in rows
  {
    FullDistinct(rows, user, status);
    MatchingOnce(rows, user, status, x);
    assert x in Full(rows, user, status) <==> x in multiset(Full(rows, user, status));
  }

  lemma AfterAt(s: seq<Key>, j: nat)
    requires Distinct(s) && Sorted(NewestFirst, s) && j < |s|
    ensures After(s[j], s) == s[j + 1..]
  {
    forall i | 0 <= i < |s| ensures Beyond(s[j], s[i]) <==> i > j { BeyondIff(s[j], s[i]); }
    var a, b := s[..j + 1], s[j + 1..];
    assert s == a + b;
    assert forall i :: 0 <= i < |a| ==> a[i] == s[i];
    assert forall i :: 0 <= i < |b| ==> b[i] == s[j + 1 + i];
    AfterSuffix(s[j], a, b);
  }

  /** From the j-th key the query goes on with the next. */
  lemma QueryContinues(rows: seq<Row>, user: string, status: string, j: nat)
    requires UniqueIds(rows) && j < |Full(rows, user, status)|
    ensures var full := Full(rows, user, status);
            Sort(NewestFirst, After(full[j], Matching(rows, user, status))) == full[j + 1..]
  {
    var full := Full(rows, user, status);
    FullDistinct(rows, user, status);
    SortAfter(full[j], Matching(rows, user, status));
    AfterAt(full, j);
  }

  // ----- pages -----

  ghost predicate Faithful(c: Codec) { forall k :: c.encode(k) != "" && c.decode(c.encode(k)) == Some(k) }

  /** ListDrafts accepts this key back as a cursor. */
  predicate Presentable(c: Codec, k: Key) { k.updated > 0 && k.id != "" && |c.encode(k)| <= 512 }

  ghost predicate AllPresentable(c: Codec, s: seq<Key>) { forall i :: 0 <= i < |s| ==> Presentable(c, s[i]) }

  /** The cursor of a list of which j keys have been shown. */
  function CursorAt(c: Codec, s: seq<Key>, j: nat): string
    requires j <= |s|
  {
    if j == 0 then "" else c.encode(s[j - 1])
  }

  function Least(a: nat, b: nat): nat { if a <= b then a else b }

  lemma PageOfSlice(c: Codec, full: seq<Key>, j: nat, n: nat)
    requires j <= |full| && n >= 1
    ensures PageOf(c, Taken(full[j..], n + 1), n) == SliceAt(c, full, j, n)
  {
    var found := Taken(full[j..], n + 1);
    var end := Least(j + n, |full|);
    if |found| > n {
      assert found[..n] == full[j..end];
      assert found[n - 1] == full[end - 1];
    } else {
      assert found == full[j..end];
    }
  }

  /** The next slice of the list and the cursor where it ends, if anything is left. */
  function SliceAt(c: Codec, full: seq<Key>, j: nat, n: nat): Outcome
    requires j <= |full| && n >= 1
  {
    var end := Least(j + n, |full|);
    Page(full[j..end], if end < |full| then CursorAt(c, full, end) else "")
  }

  lemma QueryAt(rows: seq<Row>, user: string, status: string, before: Key, n: nat, j: nat)
    requires UniqueIds(rows) && 1 <= n <= 200 && j <= |Full(rows, user, status)|
    requires if j == 0 then before.updated == 0 else before.updated != 0 && before == Full(rows, user, status)[j - 1]
    ensures Query(rows, user, status, before, n + 1) == Taken(Full(rows, user, status)[j..], n + 1)
  {
    var full := Full(rows, user, status);
    if j > 0 { QueryContinues(rows, user, status, j - 1); } else { assert full[0..] == full; }
  }

  /** Every page is the next slice of the full list. */
  lemma PageIsSlice(c: Codec, rows: seq<Row>, user: string, status: string, limit: int, j: nat)
    requires UniqueIds(rows) && Faithful(c) && KnownStatus(status) && j <= |Full(rows, user, status)|
    requires j > 0 ==> Presentable(c, Full(rows, user, status)[j - 1])
    ensures var full := Full(rows, user, status);
            ListDrafts(c, rows, user, status, limit, CursorAt(c, full, j)) == SliceAt(c, full, j, Clamp(limit))
  {
    var full := Full(rows, user, status);
    var cursor, before := CursorAt(c, full, j), if j == 0 then NOWHERE else full[j - 1];
    StartAt(c, full, j);
    QueryAt(rows, user, status, before, Clamp(limit), j);
    PageFrom(c, rows, user, status, limit, cursor, before, full, j);
  }

  lemma PageFrom(c: Codec, rows: seq<Row>, user: string, status: string, limit: int, cursor: string, before: Key,
                 full: seq<Key>, j: nat)
    requires KnownStatus(status) && Start(c, cursor) == Some(before) && j <= |full|
    requires Query(rows, user, status, before, Clamp(limit) + 1) == Taken(full[j..], Clamp(limit) + 1)
    ensures ListDrafts(c, rows, user, status, limit, cursor) == SliceAt(c, full, j, Clamp(limit))
  {
    PageOfSlice(c, full, j, Clamp(limit));
  }

  lemma StartAt(c: Codec, full: seq<Key>, j: nat)
    requires Faithful(c) && j <= |full| && (j > 0 ==> Presentable(c, full[j - 1]))
    ensures Start(c, CursorAt(c, full, j)) == Some(if j == 0 then NOWHERE else full[j - 1])
  {
    if j > 0 { assert c.encode(full[j - 1]) != ""; }
  }

  /** A cursor ListDrafts has handed out is refused exactly when its key has no positive time, no id or is too long. */
  lemma CursorRefusedIff(c: Codec, rows: seq<Row>, user: string, status: string, limit: int, k: Key)
    requires Faithful(c) && KnownStatus(status)
    ensures ListDrafts(c, rows, user, status, limit, c.encode(k)) == Refused <==> !Presentable(c, k)
  {
  }

  /**
    Following NextCursor with any page sizes over an unchanging store ends, and the pages one after the
    other are the full list: nothing skipped, nothing repeated.
   */
  method FollowCursors(c: Codec, rows: seq<Row>, user: string, status: string, limits: nat -> int)
    returns (all: seq<Key>, pages: nat)
    requires UniqueIds(rows) && Faithful(c) && KnownStatus(status) && AllPresentable(c, Full(rows, user, status))
    ensures all == Full(rows, user, status)
    ensures pages <= |all| + 1
  {
    ghost var full := Full(rows, user, status);
    PageIsSlice(c, rows, user, status, limits(0), 0);
    SliceGrows(c, full, 0, Clamp(limits(0)));
    var page := ListDrafts(c, rows, user, status, limits(0), "");
    all, pages := page.drafts, 1;
    while page.next != ""
      invariant ShownTo(c, full, all, page) && 1 <= pages <= |all| + 1
      decreases |full| - |all|
    {
      PageIsSlice(c, rows, user, status, limits(pages), |all|);
      SliceGrows(c, full, |all|, Clamp(limits(pages)));
      page := ListDrafts(c, rows, user, status, limits(pages), page.next);
      all, pages := all + page.drafts, pages + 1;
    }
  }

  /** Everything up to some point of the list has been shown, and the page's cursor is that point. */
  ghost predicate ShownTo(c: Codec, full: seq<Key>, all: seq<Key>, page: Outcome) {
    && |all| <= |full| && all == full[..|all|] && page.Page?
    && page.next == (if |all| < |full| then CursorAt(c, full, |all|) else "")
  }

  lemma SliceGrows(c: Codec, full: seq<Key>, j: nat, n: nat)
    requires j <= |full| && n >= 1
    ensures var page := SliceAt(c, full, j, n);
            ShownTo(c, full, full[..j] + page.drafts, page) && (j < |full| ==> page.drafts != [])
  {
    var end := Least(j + n, |full|);
    assert full[..j] + full[j..end] == full[..end];
  }

  /** Any listing is refused only for a status that does not exist or a cursor that stands for no draft. */
  lemma RefusedIff(c: Codec, rows: seq<Row>, user: string, status: string, limit: int, cursor: string)
    ensures ListDrafts(c, rows, user, status, limit, cursor) == Refused <==>
              || status !in {"", "open", "approved", "sent", "discarded"}
              || (cursor != "" && |cursor| > 512)
              || (cursor != "" && (c.decode(cursor) == None || c.decode(cursor).value.updated <= 0
                                   || c.decode(cursor).value.id == ""))
  {
  }

  /** A page holds at most fifty drafts, or as many as asked for up to two hundred, and is full if another follows. */
  lemma PageSize(c: Codec, rows: seq<Row>, user: string, status: string, limit: int, cursor: string)
    ensures var page := ListDrafts(c, rows, user, status, limit, cursor);
            var size := if limit < 1 then 50 else if limit < 200 then limit else 200;
            page != Refused ==> |page.drafts| <= size && (page.next != "" ==> |page.drafts| == size)
  {
  }
}
