/**
  Mailbox ingestion: runSync, syncSentFolder, ingestOne and storeMessage of
  internal/application/sync.go, over the store contract of internal/adapters/persistence/store.go.

  A run is any sequence of inbox passes, Sent-folder passes, sent copies recorded at send time and
  local deletions.  Each message visited brings its own faults: the pass may be cut off there, any
  dedup read may fail (the code then treats the message as new), the download or a write may fail,
  and a failed checkpoint write is ignored, as in the source.  A crash between the insert and the
  checkpoint is a failed checkpoint write followed by a cut.

  SHA-256 is symbolic: a digest is its preimage.
 */
module Ingestion {

  type Octet = x: int | 0 <= x < 256
  type Raw = seq<Octet>

  datatype Digest = Sha256(preimage: Raw)
  datatype Mailbox = Inbox | SentBox

  /** The identity a message is checkpointed under: the server's, or one derived from its content. */
  datatype Key = Uidl(id: string) | Fallback(content: Digest)

  datatype Message = Message(digest: Digest, messageId: string, mailbox: Mailbox)

  /** `messages` and `checkpoints` are the tables; `everStored` is every row ever inserted. */
  datatype Store = Store(messages: seq<Message>, checkpoints: set<Key>, everStored: seq<Message>)

  const EMPTY := Store([], {}, [])
  const MAX_INT64: int := 0x7FFF_FFFF_FFFF_FFFF
  const SENT_PREFIX := "sent:"

  /** One entry of the server's listing, with what RETR would return for its number. */
  datatype Remote = Remote(uidl: string, size: int, raw: Raw)

  /** What goes wrong around one message; true means the step works. */
  datatype Faults = Faults(
    goOn: bool,             // the context is not cancelled at the loop head
    checkpointRead: bool,
    retrieve: bool,
    hashRead: bool,
    sentRead: bool,
    put: bool,              // the object store takes the raw bytes
    insert: bool,
    checkpointWrite: bool)

  datatype Outcome = New | Duplicate | Oversize | Failed

  /** The message size limit and the Message-ID a raw message parses to. */
  datatype Config = Config(maxBytes: int, messageId: Raw -> string)

  // ----- reading one message -----

  function RawReadLimit(maxBytes: int): int {
    if maxBytes <= 0 || maxBytes == MAX_INT64 then MAX_INT64 else maxBytes + 1
  }

  /** io.ReadAll over an io.LimitReader. */
  function ReadLimited(raw: Raw, limit: int): Raw {
    if limit <= 0 then [] else if |raw| <= limit then raw else raw[..limit]
  }

  predicate TooLarge(raw: Raw, maxBytes: int) { maxBytes > 0 && |raw| > maxBytes }

  /**
    For every limit, what passes the size check is the whole message; what fails it is too large; and never
    more than one octet over the limit is read.
   */
  lemma ReadIsExact(raw: Raw, maxBytes: int)
    requires |raw| <= MAX_INT64 && maxBytes <= MAX_INT64
    ensures var got := ReadLimited(raw, RawReadLimit(maxBytes));
            && (TooLarge(got, maxBytes) <==> TooLarge(raw, maxBytes))
            && (!TooLarge(got, maxBytes) ==> got == raw)
            && (maxBytes > 0 ==> |got| <= maxBytes + 1) && 0 < RawReadLimit(maxBytes) <= MAX_INT64
  {
  }

  // ----- the store contract -----

  predicate HasDigest(rows: seq<Message>, d: Digest) {
    exists i :: 0 <= i < |rows| && rows[i].digest == d
  }

  predicate HasSentCopy(rows: seq<Message>, id: string) {
    id != "" && exists i :: 0 <= i < |rows| && rows[i].mailbox == SentBox && rows[i].messageId == id
  }

  /** AddCheckpoint: on conflict do nothing; a failed write is ignored by every caller. */
  function AddCheckpoint(s: Store, k: Key, ok: bool): Store {
    if ok then s.(checkpoints := s.checkpoints + {k}) else s
  }

  /** InsertMessage under the unique index on (account, raw_hash). */
  function Insert(s: Store, m: Message): Store {
    s.(messages := s.messages + [m], everStored := s.everStored + [m])
  }

  function StoreMessage(cfg: Config, s: Store, raw: Raw, key: Key, box: Mailbox, f: Faults): (Store, Outcome) {
    if !f.put || !f.insert then (s, Failed)
    else if HasDigest(s.messages, Sha256(raw)) then (AddCheckpoint(s, key, f.checkpointWrite), Duplicate)
    else (AddCheckpoint(Insert(s, Message(Sha256(raw), cfg.messageId(raw), box)), key, f.checkpointWrite), New)
  }

  /** ingestOne, after the caller's checkpoint and size checks; uidl is "" when the server has none. */
  function IngestOne(cfg: Config, s: Store, uidl: string, body: Raw, box: Mailbox, f: Faults): (Store, Outcome) {
    if !f.retrieve then (s, Failed)
    else
      var raw := ReadLimited(body, RawReadLimit(cfg.maxBytes));
      if TooLarge(raw, cfg.maxBytes) then (s, Oversize)
      else if f.hashRead && HasDigest(s.messages, Sha256(raw)) then
        (AddCheckpoint(s, Uidl(uidl), f.checkpointWrite && uidl != ""), Duplicate)
      else if box == SentBox && f.sentRead && HasSentCopy(s.messages, cfg.messageId(raw)) then
        (AddCheckpoint(s, Uidl(uidl), f.checkpointWrite), Duplicate)
      else if uidl == "" && f.checkpointRead && Fallback(Sha256(raw)) in s.checkpoints then (s, Duplicate)
      else StoreMessage(cfg, s, raw, if uidl == "" then Fallback(Sha256(raw)) else Uidl(uidl), box, f)
  }

  // ----- a pass -----

  datatype Stats = Stats(seen: nat, added: nat, duplicate: nat, failed: nat, oversize: nat)

  const ZERO := Stats(0, 0, 0, 0, 0)

  datatype Pass = Pass(store: Store, stats: Stats, fetched: nat, attempted: nat, cancelled: bool)

  /** A pass over one folder: its cap (0 for none), and whether UIDL answered. */
  datatype Folder = Folder(box: Mailbox, maxN: int, uidls: bool)

  /** The identity the pass uses: Sent-folder ids are prefixed, and without UIDL there is none. */
  function KeyId(folder: Folder, rm: Remote): string {
    if folder.box == SentBox then SENT_PREFIX + rm.uidl else if folder.uidls then rm.uidl else ""
  }

  predicate Skips(folder: Folder, rm: Remote) { folder.box == SentBox && rm.uidl == "" }

  predicate Capped(folder: Folder, p: Pass) { folder.maxN > 0 && p.fetched >= folder.maxN }

  /** The counters after one decision; only an attempted message can count as fetched or failed. */
  function Counted(p: Pass, o: Outcome, tried: bool): Pass {
    var t := p.stats;
    var stats := Stats(t.seen + 1, t.added + Tick(o == New), t.duplicate + Tick(o == Duplicate),
                       t.failed + Tick(o == Failed), t.oversize + Tick(o == Oversize));
    p.(stats := stats, attempted := p.attempted + Tick(tried), fetched := p.fetched + Tick(tried && o != Failed))
  }

  function Tick(b: bool): nat { if b then 1 else 0 }

  /** One message of the loop, once the pass was neither cancelled nor capped before it. */
  function Visit(cfg: Config, folder: Folder, p: Pass, rm: Remote, f: Faults): Pass {
    var id := KeyId(folder, rm);
    if Skips(folder, rm) then p
    else if id != "" && f.checkpointRead && Uidl(id) in p.store.checkpoints then Counted(p, Duplicate, false)
    else if cfg.maxBytes > 0 && rm.size > cfg.maxBytes then Counted(p, Oversize, false)
    else
      var (s, o) := IngestOne(cfg, p.store, id, rm.raw, folder.box, f);
      Counted(p.(store := s), o, true)
  }

  function RunPass(cfg: Config, folder: Folder, p: Pass, remote: seq<Remote>, faults: seq<Faults>): Pass
    requires |remote| == |faults|
    decreases |remote|
  {
    if remote == [] then p
    else if !faults[0].goOn then p.(cancelled := true)
    else if Capped(folder, p) then p
    else RunPass(cfg, folder, Visit(cfg, folder, p, remote[0], faults[0]), remote[1..], faults[1..])
  }

  /** Seen is exactly what was decided, and only attempted messages can fail or be stored. */
  predicate Exact(folder: Folder, p: Pass) {
    && p.stats.seen == p.stats.added + p.stats.duplicate + p.stats.failed + p.stats.oversize
    && p.attempted == p.fetched + p.stats.failed
    && p.stats.added <= p.fetched
    && (folder.maxN > 0 ==> p.fetched <= folder.maxN)
  }

  lemma VisitExact(cfg: Config, folder: Folder, p: Pass, rm: Remote, f: Faults)
    requires Exact(folder, p) && !Capped(folder, p)
    ensures Exact(folder, Visit(cfg, folder, p, rm, f))
  {
    if !Skips(folder, rm) {
      var (s, o) := IngestOne(cfg, p.store, KeyId(folder, rm), rm.raw, folder.box, f);
      CountedExact(folder, p.(store := s), o, true);
      CountedExact(folder, p, Duplicate, false);
      CountedExact(folder, p, Oversize, false);
    }
  }

  lemma CountedExact(folder: Folder, p: Pass, o: Outcome, tried: bool)
    requires Exact(folder, p) && !Capped(folder, p) && (tried || o == Duplicate || o == Oversize)
    ensures Exact(folder, Counted(p, o, tried))
  {
  }

  lemma {:induction false} PassExact(cfg: Config, folder: Folder, p: Pass, remote: seq<Remote>, faults: seq<Faults>)
    requires |remote| == |faults| && Exact(folder, p)
    ensures Exact(folder, RunPass(cfg, folder, p, remote, faults))
    decreases |remote|
  {
    if remote != [] && faults[0].goOn && !Capped(folder, p) {
      VisitExact(cfg, folder, p, remote[0], faults[0]);
      PassExact(cfg, folder, Visit(cfg, folder, p, remote[0], faults[0]), remote[1..], faults[1..]);
    }
  }

  datatype JobStatus = Succeeded | Partial | JobFailed | Cancelled

  function JobStatusOf(inbox: Pass, sentNew: nat, sentCancelled: bool): JobStatus {
    if inbox.cancelled || sentCancelled then Cancelled
    else if inbox.stats.failed > 0 then
      if inbox.stats.failed == inbox.attempted && sentNew == 0 then JobFailed else Partial
    else Succeeded
  }

  /** A job ends failed exactly when it lost something and got nothing at all through. */
  lemma FailedMeansNothingGotThrough(folder: Folder, inbox: Pass, sentNew: nat, sentCancelled: bool)
    requires Exact(folder, inbox)
    ensures var st := JobStatusOf(inbox, sentNew, sentCancelled);
            && (st == JobFailed
                <==> !inbox.cancelled && !sentCancelled && inbox.stats.failed > 0 && inbox.fetched == 0 && sentNew == 0)
            && (st == JobFailed ==> inbox.stats.added == 0)
            && (st == Cancelled <==> inbox.cancelled || sentCancelled)
            && (st == Succeeded <==> !inbox.cancelled && !sentCancelled && inbox.stats.failed == 0)
            && (st == Partial ==> inbox.stats.failed > 0 && (inbox.fetched > 0 || sentNew > 0))
  {
  }

  // ----- what the counters say -----

  /** The account had the message when the visit began: its row, its checkpoint, or the copy kept when it was sent. */
  predicate Known(mid: Raw -> string, folder: Folder, s: Store, rm: Remote) {
    || HasDigest(s.messages, Sha256(rm.raw))
    || (KeyId(folder, rm) != "" && Uidl(KeyId(folder, rm)) in s.checkpoints)
    || (KeyId(folder, rm) == "" && Fallback(Sha256(rm.raw)) in s.checkpoints)
    || (folder.box == SentBox && HasSentCopy(s.messages, mid(rm.raw)))
  }

  predicate Bounded(cfg: Config, rm: Remote) { cfg.maxBytes <= MAX_INT64 && |rm.raw| <= MAX_INT64 }

  /** The visit stored the whole message, which the account did not hold, as a new row. */
  predicate StoresIt(cfg: Config, folder: Folder, s: Store, t: Store, rm: Remote) {
    && t.messages == s.messages + [Message(Sha256(rm.raw), cfg.messageId(rm.raw), folder.box)]
    && !HasDigest(s.messages, Sha256(rm.raw))
  }

  /**
    What a visit counts is what it did: new is exactly one row more, of the message visited; a duplicate was
    known and adds no row; failed and oversize change nothing, and have their reason; one counter goes up by one.
   */
  lemma VisitTells(cfg: Config, folder: Folder, p: Pass, rm: Remote, f: Faults)
    requires Bounded(cfg, rm)
    ensures var q := Visit(cfg, folder, p, rm, f);
            && q.stats.seen == p.stats.seen + (if folder.box == SentBox && rm.uidl == "" then 0 else 1)
            && q.attempted == p.attempted + (if Tries(cfg, folder, p.store, rm, f) then 1 else 0)
            && (q.stats.added != p.stats.added ==>
                  q.stats == p.stats.(seen := p.stats.seen + 1, added := p.stats.added + 1)
                  && StoresIt(cfg, folder, p.store, q.store, rm))
            && (q.stats.added == p.stats.added ==> q.store.messages == p.store.messages)
            && (q.stats.duplicate != p.stats.duplicate ==>
                  q.stats == p.stats.(seen := p.stats.seen + 1, duplicate := p.stats.duplicate + 1)
                  && Known(cfg.messageId, folder, p.store, rm))
            && (q.stats.failed != p.stats.failed ==>
                  q.stats == p.stats.(seen := p.stats.seen + 1, failed := p.stats.failed + 1)
                  && q.store == p.store && (!f.retrieve || !f.put || !f.insert))
            && (q.stats.oversize != p.stats.oversize ==>
                  q.stats == p.stats.(seen := p.stats.seen + 1, oversize := p.stats.oversize + 1)
                  && q.store == p.store && 0 < cfg.maxBytes && (cfg.maxBytes < rm.size || cfg.maxBytes < |rm.raw|))
  {
    ReadIsExact(rm.raw, cfg.maxBytes);
  }

  /** A download is attempted: the message has an id to be known by, no checkpoint is read for it, its size may pass. */
  predicate Tries(cfg: Config, folder: Folder, s: Store, rm: Remote, f: Faults) {
    && (folder.box == Inbox || rm.uidl != "")
    && !(f.checkpointRead && Uidl(KeyId(folder, rm)) in s.checkpoints && KeyId(folder, rm) != "")
    && (cfg.maxBytes <= 0 || rm.size <= cfg.maxBytes)
  }

  /** A row of the Sent folder carries this Message-ID. */
  predicate SentBefore(rows: seq<Message>, id: string) {
    id != "" && exists m :: m in rows && m.mailbox == SentBox && m.messageId == id
  }

  lemma SentCopyIsSent(rows: seq<Message>, id: string)
    ensures HasSentCopy(rows, id) <==> SentBefore(rows, id)
  {
  }

  /**
    When nothing but the dedup reads may fail, a visit stores its message exactly if the account does not
    hold it, no checkpoint read for it stops it, and, in the Sent folder, no sent copy was found.
   */
  lemma VisitStoresIff(cfg: Config, folder: Folder, p: Pass, rm: Remote, f: Faults)
    requires Bounded(cfg, rm) && Fetchable(cfg.maxBytes, rm, f)
    ensures var id := KeyId(folder, rm);
            Visit(cfg, folder, p, rm, f).store.messages != p.store.messages <==>
              && Tries(cfg, folder, p.store, rm, f) && !HasDigest(p.store.messages, Sha256(rm.raw))
              && !(folder.box == SentBox && f.sentRead && SentBefore(p.store.messages, cfg.messageId(rm.raw)))
              && !(id == "" && f.checkpointRead && Fallback(Sha256(rm.raw)) in p.store.checkpoints)
  {
    ReadIsExact(rm.raw, cfg.maxBytes);
    SentCopyIsSent(p.store.messages, cfg.messageId(rm.raw));
  }

  /** A visit checkpoints nothing but its message, and does so when the write works and nothing else failed. */
  lemma VisitCheckpoints(cfg: Config, folder: Folder, p: Pass, rm: Remote, f: Faults)
    requires Bounded(cfg, rm)
    ensures var id := KeyId(folder, rm);
            var key := if id == "" then Fallback(Sha256(rm.raw)) else Uidl(id);
            var q := Visit(cfg, folder, p, rm, f);
            && p.store.checkpoints <= q.store.checkpoints <= p.store.checkpoints + {key}
            && (!f.checkpointWrite ==> q.store.checkpoints == p.store.checkpoints)
            && (f.checkpointWrite && Fetchable(cfg.maxBytes, rm, f) && id != "" && !Skips(folder, rm) ==>
                  key in q.store.checkpoints)
            && (id == "" && f.hashRead && HasDigest(p.store.messages, Sha256(rm.raw)) ==>
                  q.store.checkpoints == p.store.checkpoints)
  {
    ReadIsExact(rm.raw, cfg.maxBytes);
  }

  /** How many messages of a listing have an id to be known by. */
  function Countable(folder: Folder, remote: seq<Remote>): nat {
    if remote == [] then 0
    else (if folder.box == SentBox && remote[0].uidl == "" then 0 else 1) + Countable(folder, remote[1..])
  }

  /** A pass goes through the whole listing unless it is cancelled or has fetched as many as it may. */
  lemma {:induction false} PassEnds(cfg: Config, folder: Folder, p: Pass, remote: seq<Remote>, faults: seq<Faults>)
    requires |remote| == |faults| && forall i :: 0 <= i < |remote| ==> Bounded(cfg, remote[i])
    ensures var q := RunPass(cfg, folder, p, remote, faults);
            && q.stats.seen - p.stats.seen <= Countable(folder, remote)
            && (q.stats.seen - p.stats.seen < Countable(folder, remote) ==>
                  q.cancelled || 0 < folder.maxN <= q.fetched)
            && (q.cancelled && !p.cancelled ==> exists i :: 0 <= i < |faults| && !faults[i].goOn)
    decreases |remote|
  {
    if remote != [] && faults[0].goOn && !Capped(folder, p) {
      var m := Visit(cfg, folder, p, remote[0], faults[0]);
      VisitTells(cfg, folder, p, remote[0], faults[0]);
      PassEnds(cfg, folder, m, remote[1..], faults[1..]);
    }
  }

  /** A row is of a message the pass listed. */
  predicate Listed(cfg: Config, folder: Folder, remote: seq<Remote>, m: Message) {
    exists i :: 0 <= i < |remote| && m == Message(Sha256(remote[i].raw), cfg.messageId(remote[i].raw), folder.box)
  }

  /** A pass stores exactly as many rows as it counts new, each of a listed message, and removes none. */
  lemma {:induction false} PassStoresNew(cfg: Config, folder: Folder, p: Pass, remote: seq<Remote>, faults: seq<Faults>)
    requires |remote| == |faults| && forall i :: 0 <= i < |remote| ==> Bounded(cfg, remote[i])
    ensures var q := RunPass(cfg, folder, p, remote, faults);
            && p.store.messages <= q.store.messages
            && q.stats.added - p.stats.added == |q.store.messages| - |p.store.messages|
            && forall k :: |p.store.messages| <= k < |q.store.messages|
                 ==> Listed(cfg, folder, remote, q.store.messages[k])
    decreases |remote|
  {
    if remote != [] && faults[0].goOn && !Capped(folder, p) {
      var m := Visit(cfg, folder, p, remote[0], faults[0]);
      var q := RunPass(cfg, folder, p, remote, faults);
      VisitTells(cfg, folder, p, remote[0], faults[0]);
      PassStoresNew(cfg, folder, m, remote[1..], faults[1..]);
      forall k | |p.store.messages| <= k < |q.store.messages|
        ensures Listed(cfg, folder, remote, q.store.messages[k])
      {
        if k >= |m.store.messages| {
          assert Listed(cfg, folder, remote[1..], q.store.messages[k]);
        } else {
          assert q.store.messages[k] == m.store.messages[k];
        }
      }
    }
  }

  // ----- what every step keeps -----

  predicate UniqueDigests(rows: seq<Message>) {
    forall i, j :: 0 <= i < j < |rows| ==> rows[i].digest != rows[j].digest
  }

  /** The content under a key has been stored, or the sent copy that carries its Message-ID has. */
  ghost predicate Accounted(mid: Raw -> string, content: string -> Raw, rows: seq<Message>, k: Key) {
    match k
    case Fallback(d) => HasDigest(rows, d)
    case Uidl(id) => HasDigest(rows, Sha256(content(id))) || (SENT_PREFIX <= id && HasSentCopy(rows, mid(content(id))))
  }

  ghost predicate Inv(mid: Raw -> string, content: string -> Raw, s: Store) {
    && UniqueDigests(s.messages)
    && (forall i :: 0 <= i < |s.messages| ==> s.messages[i] in s.everStored)
    && (forall k :: k in s.checkpoints ==> Accounted(mid, content, s.everStored, k))
  }

  /** A server keeps its unique-ids (section 7 of RFC 1939): the same id always names the same bytes. */
  ghost predicate Persistent(content: string -> Raw, folder: Folder, rm: Remote) {
    |rm.raw| <= MAX_INT64 && (KeyId(folder, rm) != "" ==> content(KeyId(folder, rm)) == rm.raw)
  }

  /** Same configuration, more rows: nothing accounted for is forgotten. */
  lemma AccountedMono(mid: Raw -> string, content: string -> Raw, a: seq<Message>, b: seq<Message>, k: Key)
    requires a <= b && Accounted(mid, content, a, k)
    ensures Accounted(mid, content, b, k)
  {
    assert forall i :: 0 <= i < |a| ==> b[i] == a[i];
  }

  lemma CheckpointKeeps(mid: Raw -> string, content: string -> Raw, s: Store, k: Key, ok: bool)
    requires Inv(mid, content, s) && (ok ==> Accounted(mid, content, s.everStored, k))
    ensures Inv(mid, content, AddCheckpoint(s, k, ok))
  {
  }

  lemma InsertKeeps(mid: Raw -> string, content: string -> Raw, s: Store, m: Message)
    requires Inv(mid, content, s) && !HasDigest(s.messages, m.digest)
    ensures Inv(mid, content, Insert(s, m))
  {
    var t := Insert(s, m);
    forall k | k in t.checkpoints ensures Accounted(mid, content, t.everStored, k) {
      AccountedMono(mid, content, s.everStored, t.everStored, k);
    }
  }

  /** A row held is a row ever stored. */
  lemma HeldWasStored(mid: Raw -> string, content: string -> Raw, s: Store, d: Digest, id: string)
    requires Inv(mid, content, s)
    ensures HasDigest(s.messages, d) ==> HasDigest(s.everStored, d)
    ensures HasSentCopy(s.messages, id) ==> HasSentCopy(s.everStored, id)
  {
    forall i | 0 <= i < |s.messages| ensures exists j :: 0 <= j < |s.everStored| && s.everStored[j] == s.messages[i] {
      assert s.messages[i] in s.everStored;
    }
  }

  lemma StoreMessageKeeps(cfg: Config, content: string -> Raw, s: Store, raw: Raw, key: Key, box: Mailbox, f: Faults)
    requires Inv(cfg.messageId, content, s)
    requires key == Fallback(Sha256(raw)) || (key.Uidl? && content(key.id) == raw)
    ensures Inv(cfg.messageId, content, StoreMessage(cfg, s, raw, key, box, f).0)
  {
    if f.put && f.insert {
      var m := Message(Sha256(raw), cfg.messageId(raw), box);
      if HasDigest(s.messages, Sha256(raw)) {
        HeldWasStored(cfg.messageId, content, s, Sha256(raw), "");
        CheckpointKeeps(cfg.messageId, content, s, key, f.checkpointWrite);
      } else {
        InsertKeeps(cfg.messageId, content, s, m);
        assert Insert(s, m).everStored[|s.everStored|] == m;
        CheckpointKeeps(cfg.messageId, content, Insert(s, m), key, f.checkpointWrite);
      }
    }
  }

  lemma IngestKeeps(cfg: Config, content: string -> Raw, s: Store, uidl: string, body: Raw, box: Mailbox, f: Faults)
    requires Inv(cfg.messageId, content, s) && cfg.maxBytes <= MAX_INT64 && |body| <= MAX_INT64
    requires uidl != "" ==> content(uidl) == body
    requires box == SentBox ==> SENT_PREFIX <= uidl
    ensures Inv(cfg.messageId, content, IngestOne(cfg, s, uidl, body, box, f).0)
  {
    ReadIsExact(body, cfg.maxBytes);
    var raw := ReadLimited(body, RawReadLimit(cfg.maxBytes));
    if f.retrieve && !TooLarge(raw, cfg.maxBytes) {
      HeldWasStored(cfg.messageId, content, s, Sha256(raw), cfg.messageId(raw));
      if f.hashRead && HasDigest(s.messages, Sha256(raw)) {
        CheckpointKeeps(cfg.messageId, content, s, Uidl(uidl), f.checkpointWrite && uidl != "");
      } else if box == SentBox && f.sentRead && HasSentCopy(s.messages, cfg.messageId(raw)) {
        CheckpointKeeps(cfg.messageId, content, s, Uidl(uidl), f.checkpointWrite);
      } else {
        StoreMessageKeeps(cfg, content, s, raw, if uidl == "" then Fallback(Sha256(raw)) else Uidl(uidl), box, f);
      }
    }
  }

  lemma VisitKeeps(cfg: Config, content: string -> Raw, folder: Folder, p: Pass, rm: Remote, f: Faults)
    requires Inv(cfg.messageId, content, p.store) && cfg.maxBytes <= MAX_INT64 && Persistent(content, folder, rm)
    ensures Inv(cfg.messageId, content, Visit(cfg, folder, p, rm, f).store)
  {
    if !Skips(folder, rm) {
      IngestKeeps(cfg, content, p.store, KeyId(folder, rm), rm.raw, folder.box, f);
    }
  }

  lemma {:induction false} PassKeeps(cfg: Config, content: string -> Raw, folder: Folder, p: Pass, remote: seq<Remote>,
                                     faults: seq<Faults>)
    requires Inv(cfg.messageId, content, p.store) && cfg.maxBytes <= MAX_INT64 && |remote| == |faults|
    requires forall i :: 0 <= i < |remote| ==> Persistent(content, folder, remote[i])
    ensures Inv(cfg.messageId, content, RunPass(cfg, folder, p, remote, faults).store)
    decreases |remote|
  {
    if remote != [] && faults[0].goOn && !Capped(folder, p) {
      VisitKeeps(cfg, content, folder, p, remote[0], faults[0]);
      PassKeeps(cfg, content, folder, Visit(cfg, folder, p, remote[0], faults[0]), remote[1..], faults[1..]);
    }
  }

  // ----- runs -----

  datatype Op =
    | Sync(maxBytes: int, folder: Folder, remote: seq<Remote>, faults: seq<Faults>)
    | RecordSent(outboundId: string, raw: Raw, sentFaults: Faults)
    | LocalDelete(row: nat)

  function OutboundKey(outboundId: string): string { SENT_PREFIX + "outbound:" + outboundId }

  /** recordSentCopy: keeps what was delivered, unless the content or its Message-ID is already there. */
  function RecordSentCopy(cfg: Config, s: Store, outboundId: string, raw: Raw, f: Faults): Store {
    if f.hashRead && HasDigest(s.messages, Sha256(raw)) then s
    else if f.sentRead && HasSentCopy(s.messages, cfg.messageId(raw)) then s
    else StoreMessage(cfg, s, raw, Uidl(OutboundKey(outboundId)), SentBox, f).0
  }

  /** DeleteMessage removes the row and leaves its checkpoint. */
  function DeleteRow(s: Store, row: nat): Store {
    if row < |s.messages| then s.(messages := s.messages[..row] + s.messages[row + 1..]) else s
  }

  function Apply(mid: Raw -> string, s: Store, op: Op): Store {
    match op
    case Sync(maxBytes, folder, remote, faults) =>
      if |remote| == |faults| then RunPass(Config(maxBytes, mid), folder, Start(s), remote, faults).store else s
    case RecordSent(outboundId, raw, f) => RecordSentCopy(Config(0, mid), s, outboundId, raw, f)
    case LocalDelete(row) => DeleteRow(s, row)
  }

  function Start(s: Store): Pass { Pass(s, ZERO, 0, 0, false) }

  function Run(mid: Raw -> string, s: Store, ops: seq<Op>): Store {
    if ops == [] then s else Apply(mid, Run(mid, s, ops[..|ops| - 1]), ops[|ops| - 1])
  }

  /** One sync at a time over servers that keep their unique-ids. */
  ghost predicate Lawful(content: string -> Raw, op: Op) {
    match op
    case Sync(maxBytes, folder, remote, faults) =>
      && maxBytes <= MAX_INT64 && |remote| == |faults|
      && forall i :: 0 <= i < |remote| ==> Persistent(content, folder, remote[i])
    case RecordSent(outboundId, raw, _) => content(OutboundKey(outboundId)) == raw
    case LocalDelete(_) => true
  }

  lemma ApplyKeeps(mid: Raw -> string, content: string -> Raw, s: Store, op: Op)
    requires Inv(mid, content, s) && Lawful(content, op)
    ensures Inv(mid, content, Apply(mid, s, op))
  {
    match op
    case Sync(maxBytes, folder, remote, faults) =>
      PassKeeps(Config(maxBytes, mid), content, folder, Start(s), remote, faults);
    case RecordSent(outboundId, raw, f) =>
      if Apply(mid, s, op) != s {
        StoreMessageKeeps(Config(0, mid), content, s, raw, Uidl(OutboundKey(outboundId)), SentBox, f);
      }
    case LocalDelete(row) =>
  }

  /** In every run no raw hash is held twice, and a checkpoint always stands for content that was stored. */
  lemma {:induction false} EveryRunKeeps(mid: Raw -> string, content: string -> Raw, ops: seq<Op>)
    requires forall i :: 0 <= i < |ops| ==> Lawful(content, ops[i])
    ensures Inv(mid, content, Run(mid, EMPTY, ops))
  {
    if ops != [] {
      var before := ops[..|ops| - 1];
      assert forall i :: 0 <= i < |before| ==> before[i] == ops[i];
      EveryRunKeeps(mid, content, before);
      ApplyKeeps(mid, content, Run(mid, EMPTY, before), ops[|ops| - 1]);
    }
  }

  /**
    The copy kept of what was sent becomes a row of the Sent folder unless there is a row of that content,
    found or not, or a sent copy of that Message-ID is found; and one or the other is there afterwards.
   */
  lemma SentIsRecorded(cfg: Config, s: Store, outboundId: string, raw: Raw, f: Faults)
    requires f.put && f.insert
    ensures var t := RecordSentCopy(cfg, s, outboundId, raw, f);
            && t.messages == s.messages
                 + (if HasDigest(s.messages, Sha256(raw)) || (f.sentRead && SentBefore(s.messages, cfg.messageId(raw)))
                    then []
                    else [Message(Sha256(raw), cfg.messageId(raw), SentBox)])
            && (HasDigest(t.messages, Sha256(raw)) || SentBefore(t.messages, cfg.messageId(raw)))
  {
    SentCopyIsSent(s.messages, cfg.messageId(raw));
    var m := Message(Sha256(raw), cfg.messageId(raw), SentBox);
    assert (s.messages + [m])[|s.messages|] == m;
  }

  /** What failing reads may add is stopped by the table: no content is ever kept twice. */
  lemma RecordedOnce(cfg: Config, s: Store, outboundId: string, raw: Raw, f: Faults)
    ensures var t := RecordSentCopy(cfg, s, outboundId, raw, f);
            && s.messages <= t.messages && |t.messages| <= |s.messages| + 1
            && (!f.put || !f.insert || HasDigest(s.messages, Sha256(raw)) ==> t.messages == s.messages)
  {
  }

  // ----- convergence -----

  /** The download and the writes work, and neither the announced nor the real size is over the limit. */
  predicate Fetchable(maxBytes: int, rm: Remote, f: Faults) {
    f.retrieve && f.put && f.insert && !(maxBytes > 0 && rm.size > maxBytes) && !TooLarge(rm.raw, maxBytes)
  }

  /** The message's bytes were stored, or (for the Sent folder) the sent copy with its Message-ID. */
  ghost predicate Saved(mid: Raw -> string, folder: Folder, rows: seq<Message>, rm: Remote) {
    HasDigest(rows, Sha256(rm.raw)) || (SENT_PREFIX <= KeyId(folder, rm) && HasSentCopy(rows, mid(rm.raw)))
  }

  lemma SavedMono(mid: Raw -> string, folder: Folder, a: seq<Message>, b: seq<Message>, rm: Remote)
    requires a <= b && Saved(mid, folder, a, rm)
    ensures Saved(mid, folder, b, rm)
  {
    assert forall i :: 0 <= i < |a| ==> b[i] == a[i];
  }

  lemma VisitGrows(cfg: Config, folder: Folder, p: Pass, rm: Remote, f: Faults)
    ensures p.store.everStored <= Visit(cfg, folder, p, rm, f).store.everStored
  {
  }

  lemma {:induction false} PassGrows(cfg: Config, folder: Folder, p: Pass, remote: seq<Remote>, faults: seq<Faults>)
    requires |remote| == |faults|
    ensures p.store.everStored <= RunPass(cfg, folder, p, remote, faults).store.everStored
    decreases |remote|
  {
    if remote != [] && faults[0].goOn && !Capped(folder, p) {
      VisitGrows(cfg, folder, p, remote[0], faults[0]);
      PassGrows(cfg, folder, Visit(cfg, folder, p, remote[0], faults[0]), remote[1..], faults[1..]);
    }
  }

  /** Whatever the dedup reads answer or fail to answer, a visited fetchable message ends up saved. */
  lemma VisitSaves(cfg: Config, content: string -> Raw, folder: Folder, p: Pass, rm: Remote, f: Faults)
    requires Inv(cfg.messageId, content, p.store) && cfg.maxBytes <= MAX_INT64 && Persistent(content, folder, rm)
    requires Fetchable(cfg.maxBytes, rm, f) && !Skips(folder, rm)
    ensures Saved(cfg.messageId, folder, Visit(cfg, folder, p, rm, f).store.everStored, rm)
  {
    var id := KeyId(folder, rm);
    if id != "" && Uidl(id) in p.store.checkpoints {
      assert Accounted(cfg.messageId, content, p.store.everStored, Uidl(id));
    }
    if id == "" && Fallback(Sha256(rm.raw)) in p.store.checkpoints {
      assert Accounted(cfg.messageId, content, p.store.everStored, Fallback(Sha256(rm.raw)));
    }
    ReadIsExact(rm.raw, cfg.maxBytes);
    HeldWasStored(cfg.messageId, content, p.store, Sha256(rm.raw), cfg.messageId(rm.raw));
    var m := Message(Sha256(rm.raw), cfg.messageId(rm.raw), folder.box);
    assert Insert(p.store, m).everStored[|p.store.everStored|] == m;
    VisitGrows(cfg, folder, p, rm, f);
  }

  lemma {:induction false} CompletePassSaves(cfg: Config, content: string -> Raw, folder: Folder, p: Pass,
                                             remote: seq<Remote>, faults: seq<Faults>, i: nat)
    requires Inv(cfg.messageId, content, p.store) && cfg.maxBytes <= MAX_INT64 && |remote| == |faults|
    requires forall k :: 0 <= k < |remote| ==> Persistent(content, folder, remote[k]) && faults[k].goOn
    requires folder.maxN <= 0
    requires i < |remote| && Fetchable(cfg.maxBytes, remote[i], faults[i]) && !Skips(folder, remote[i])
    ensures Saved(cfg.messageId, folder, RunPass(cfg, folder, p, remote, faults).store.everStored, remote[i])
    decreases |remote|
  {
    var q := Visit(cfg, folder, p, remote[0], faults[0]);
    if i == 0 {
      VisitSaves(cfg, content, folder, p, remote[0], faults[0]);
      PassGrows(cfg, folder, q, remote[1..], faults[1..]);
      SavedMono(cfg.messageId, folder, q.store.everStored,
                RunPass(cfg, folder, q, remote[1..], faults[1..]).store.everStored, remote[0]);
    } else {
      VisitKeeps(cfg, content, folder, p, remote[0], faults[0]);
      CompletePassSaves(cfg, content, folder, q, remote[1..], faults[1..], i - 1);
    }
  }

  /**
    After any run, however it was cut and whatever writes it lost, one more pass that is neither
    cancelled nor capped saves every fetchable message the server lists.
   */
  lemma Converges(mid: Raw -> string, content: string -> Raw, ops: seq<Op>, last: Op)
    requires forall i :: 0 <= i < |ops| ==> Lawful(content, ops[i])
    requires last.Sync? && Lawful(content, last) && last.folder.maxN <= 0
    requires forall k :: 0 <= k < |last.faults| ==> last.faults[k].goOn
    ensures forall i :: 0 <= i < |last.remote| && Fetchable(last.maxBytes, last.remote[i], last.faults[i])
              && !Skips(last.folder, last.remote[i])
              ==> Saved(mid, last.folder, Apply(mid, Run(mid, EMPTY, ops), last).everStored, last.remote[i])
  {
    EveryRunKeeps(mid, content, ops);
    forall i | 0 <= i < |last.remote| && Fetchable(last.maxBytes, last.remote[i], last.faults[i])
               && !Skips(last.folder, last.remote[i])
      ensures Saved(mid, last.folder, Apply(mid, Run(mid, EMPTY, ops), last).everStored, last.remote[i])
    {
      CompletePassSaves(Config(last.maxBytes, mid), content, last.folder, Start(Run(mid, EMPTY, ops)),
                        last.remote, last.faults, i);
    }
  }

  // ----- deletion -----

  lemma {:induction false} PassHoldsAll(cfg: Config, folder: Folder, p: Pass, remote: seq<Remote>, faults: seq<Faults>)
    requires |remote| == |faults| && p.store.messages == p.store.everStored
    ensures var q := RunPass(cfg, folder, p, remote, faults); q.store.messages == q.store.everStored
    decreases |remote|
  {
    if remote != [] && faults[0].goOn && !Capped(folder, p) {
      PassHoldsAll(cfg, folder, Visit(cfg, folder, p, remote[0], faults[0]), remote[1..], faults[1..]);
    }
  }

  /** Unless the user deletes locally, everything ever stored is still held. */
  lemma {:induction false} WithoutDeletionAllHeld(mid: Raw -> string, ops: seq<Op>)
    requires forall i :: 0 <= i < |ops| ==> !ops[i].LocalDelete?
    ensures Run(mid, EMPTY, ops).messages == Run(mid, EMPTY, ops).everStored
  {
    if ops != [] {
      var before := ops[..|ops| - 1];
      assert forall i :: 0 <= i < |before| ==> before[i] == ops[i];
      WithoutDeletionAllHeld(mid, before);
      var op := ops[|ops| - 1];
      if op.Sync? && |op.remote| == |op.faults| {
        PassHoldsAll(Config(op.maxBytes, mid), op.folder, Start(Run(mid, EMPTY, before)), op.remote, op.faults);
      }
    }
  }

  /** An inbox message that passes is held after its visit exactly if it was held or its checkpoint did not stop it. */
  lemma HeldAfterVisit(cfg: Config, folder: Folder, p: Pass, rm: Remote, f: Faults)
    requires folder.box == Inbox && Fetchable(cfg.maxBytes, rm, f)
    requires cfg.maxBytes <= MAX_INT64 && |rm.raw| <= MAX_INT64
    ensures var id := KeyId(folder, rm);
            var key := if id == "" then Fallback(Sha256(rm.raw)) else Uidl(id);
            HasDigest(Visit(cfg, folder, p, rm, f).store.messages, Sha256(rm.raw)) <==>
              (HasDigest(p.store.messages, Sha256(rm.raw)) || !f.checkpointRead || key !in p.store.checkpoints)
  {
    ReadIsExact(rm.raw, cfg.maxBytes);
    var m := Message(Sha256(rm.raw), cfg.messageId(rm.raw), folder.box);
    assert Insert(p.store, m).messages[|p.store.messages|] == m;
  }

  const WORKING := Faults(true, true, true, true, true, true, true, true)

  /** A message deleted locally is not fetched again: its checkpoint answers for it although it is gone. */
  lemma DeletedStaysDeleted(mid: Raw -> string)
    ensures var rm := Remote("u1", 1, [65]);
            var sync := Sync(0, Folder(Inbox, 0, true), [rm], [WORKING]);
            var s := Run(mid, EMPTY, [sync, LocalDelete(0), sync]);
            && Uidl("u1") in s.checkpoints && s.messages == []
            && HasDigest(s.everStored, Sha256(rm.raw))
  {
    var rm := Remote("u1", 1, [65]);
    var folder := Folder(Inbox, 0, true);
    var sync := Sync(0, folder, [rm], [WORKING]);
    var m := Message(Sha256([65]), mid([65]), Inbox);
    var s1 := Store([m], {Uidl("u1")}, [m]);
    var s2 := Store([], {Uidl("u1")}, [m]);
    OneMessagePass(mid, EMPTY, rm);
    OneMessagePass(mid, s2, rm);
    assert Apply(mid, EMPTY, sync) == s1;
    assert Apply(mid, s2, sync) == s2;
    assert s2.everStored[0].digest == Sha256(rm.raw);
    var ops := [sync, LocalDelete(0), sync];
    assert ops[..2] == [sync, LocalDelete(0)] && ops[..2][..1] == [sync] && [sync][..0] == [];
    assert Run(mid, EMPTY, [sync]) == Apply(mid, EMPTY, sync);
    assert Run(mid, EMPTY, ops[..2]) == Apply(mid, s1, LocalDelete(0)) == s2;
  }

  lemma OneMessagePass(mid: Raw -> string, s: Store, rm: Remote)
    ensures Apply(mid, s, Sync(0, Folder(Inbox, 0, true), [rm], [WORKING])) ==
            Visit(Config(0, mid), Folder(Inbox, 0, true), Start(s), rm, WORKING).store
  {
    var folder := Folder(Inbox, 0, true);
    var v := Visit(Config(0, mid), folder, Start(s), rm, WORKING);
    assert [rm][1..] == [] && [WORKING][1..] == [];
    assert RunPass(Config(0, mid), folder, v, [], []) == v;
  }
}
