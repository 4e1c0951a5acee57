/**
  The code of internal/application/sync.go as it runs: loops that update the tables of one account,
  each method proved to do exactly what the functions of Ingestion say.
 */
module AccountSync {
  import opened Ingestion

  /** The tables of one account and the code that writes them, step by step. */
  class Account {
    var messages: seq<Message>
    var checkpoints: set<Key>
    ghost var everStored: seq<Message>

    ghost function View(): Store
      reads this
    {
      Store(messages, checkpoints, everStored)
    }

    constructor ()
      ensures View() == EMPTY
    {
      messages, checkpoints, everStored := [], {}, [];
    }

    method AddCheckpoint(k: Key, ok: bool)
      modifies this
      ensures View() == Ingestion.AddCheckpoint(old(View()), k, ok)
    {
      if ok {
        checkpoints := checkpoints + {k};
      }
    }

    method IsDuplicateHash(d: Digest) returns (dup: bool)
      ensures dup == HasDigest(messages, d)
    {
      dup := false;
      for i := 0 to |messages|
        invariant dup == HasDigest(messages[..i], d)
      {
        assert messages[..i + 1] == messages[..i] + [messages[i]];
        HasDigestStep(messages[..i], messages[i], d);
        if messages[i].digest == d {
          dup := true;
        }
      }
      assert messages[..|messages|] == messages;
    }

    method HasSentCopy(id: string) returns (dup: bool)
      ensures dup == Ingestion.HasSentCopy(messages, id)
    {
      dup := false;
      if id == "" {
        return;
      }
      for i := 0 to |messages|
        invariant dup == Ingestion.HasSentCopy(messages[..i], id)
      {
        assert messages[..i + 1] == messages[..i] + [messages[i]];
        HasSentStep(messages[..i], messages[i], id);
        if messages[i].mailbox == SentBox && messages[i].messageId == id {
          dup := true;
        }
      }
      assert messages[..|messages|] == messages;
    }

    /** storeMessage: the object, the row under the unique index, then the checkpoint. */
    method StoreMessage(cfg: Config, raw: Raw, key: Key, box: Mailbox, f: Faults) returns (o: Outcome)
      modifies this
      ensures (View(), o) == Ingestion.StoreMessage(cfg, old(View()), raw, key, box, f)
      ensures messages == old(messages) + if o == New then [Message(Sha256(raw), cfg.messageId(raw), box)] else []
      ensures o == Duplicate <==> f.put && f.insert && HasDigest(old(messages), Sha256(raw))
      ensures o == Failed ==> View() == old(View())
    {
      if !f.put || !f.insert {
        return Failed;
      }
      var taken := IsDuplicateHash(Sha256(raw));
      if taken {
        AddCheckpoint(key, f.checkpointWrite);
        return Duplicate;
      }
      var m := Message(Sha256(raw), cfg.messageId(raw), box);
      messages := messages + [m];
      everStored := everStored + [m];
      AddCheckpoint(key, f.checkpointWrite);
      o := New;
    }

    method IngestOne(cfg: Config, uidl: string, body: Raw, box: Mailbox, f: Faults) returns (o: Outcome)
      modifies this
      ensures (View(), o) == Ingestion.IngestOne(cfg, old(View()), uidl, body, box, f)
    {
      if !f.retrieve {
        return Failed;
      }
      var raw := ReadLimited(body, RawReadLimit(cfg.maxBytes));
      if TooLarge(raw, cfg.maxBytes) {
        return Oversize;
      }
      var dup := IsDuplicateHash(Sha256(raw));
      if f.hashRead && dup {
        AddCheckpoint(Uidl(uidl), f.checkpointWrite && uidl != "");
        return Duplicate;
      }
      if box == SentBox {
        var sent := HasSentCopy(cfg.messageId(raw));
        if f.sentRead && sent {
          AddCheckpoint(Uidl(uidl), f.checkpointWrite);
          return Duplicate;
        }
      }
      var key := Uidl(uidl);
      if uidl == "" {
        key := Fallback(Sha256(raw));
        if f.checkpointRead && key in checkpoints {
          return Duplicate;
        }
      }
      o := StoreMessage(cfg, raw, key, box, f);
    }

    /** The loop of runSync and of syncSentFolder over an enumerated folder. */
    method SyncFolder(cfg: Config, folder: Folder, remote: seq<Remote>, faults: seq<Faults>)
      returns (stats: Stats, fetched: nat, attempted: nat, cancelled: bool)
      requires |remote| == |faults|
      modifies this
      ensures Pass(View(), stats, fetched, attempted, cancelled)
              == RunPass(cfg, folder, Start(old(View())), remote, faults)
      ensures Exact(folder, Pass(View(), stats, fetched, attempted, cancelled))
      ensures (forall i :: 0 <= i < |remote| ==> Bounded(cfg, remote[i])) ==>
                old(messages) <= messages && |messages| == |old(messages)| + stats.added
    {
      ghost var result := RunPass(cfg, folder, Start(View()), remote, faults);
      PassExact(cfg, folder, Start(View()), remote, faults);
      if forall i :: 0 <= i < |remote| ==> Bounded(cfg, remote[i]) {
        PassStoresNew(cfg, folder, Start(View()), remote, faults);
      }
      stats, fetched, attempted, cancelled := ZERO, 0, 0, false;
      assert remote[0..] == remote && faults[0..] == faults;
      for i := 0 to |remote|
        invariant !cancelled
        invariant result
                  == RunPass(cfg, folder, Pass(View(), stats, fetched, attempted, false), remote[i..], faults[i..])
      {
        ghost var p := Pass(View(), stats, fetched, attempted, false);
        assert remote[i..][1..] == remote[i + 1..] && faults[i..][1..] == faults[i + 1..];
        var rm, f := remote[i], faults[i];
        if !f.goOn {
          cancelled := true;
          return;
        }
        if folder.maxN > 0 && fetched >= folder.maxN {
          return;
        }
        if folder.box == SentBox && rm.uidl == "" {
          continue;
        }
        var id := KeyId(folder, rm);
        var o, tried := Duplicate, false;
        if id != "" && f.checkpointRead && Uidl(id) in checkpoints {
        } else if cfg.maxBytes > 0 && rm.size > cfg.maxBytes {
          o := Oversize;
        } else {
          tried := true;
          o := IngestOne(cfg, id, rm.raw, folder.box, f);
        }
        stats, fetched, attempted := Count(stats, fetched, attempted, o, tried);
        assert Pass(View(), stats, fetched, attempted, false) == Visit(cfg, folder, p, rm, f);
      }
    }
  }

  method Count(stats: Stats, fetched: nat, attempted: nat, o: Outcome, tried: bool)
    returns (stats': Stats, fetched': nat, attempted': nat)
    ensures forall s ::
            Pass(s, stats', fetched', attempted', false) == Counted(Pass(s, stats, fetched, attempted, false), o, tried)
  {
    stats' := stats.(seen := stats.seen + 1);
    attempted' := if tried then attempted + 1 else attempted;
    fetched' := if tried && o != Failed then fetched + 1 else fetched;
    match o
    case New => stats' := stats'.(added := stats.added + 1);
    case Duplicate => stats' := stats'.(duplicate := stats.duplicate + 1);
    case Failed => stats' := stats'.(failed := stats.failed + 1);
    case Oversize => stats' := stats'.(oversize := stats.oversize + 1);
  }

  lemma HasDigestStep(rows: seq<Message>, m: Message, d: Digest)
    ensures HasDigest(rows + [m], d) <==> HasDigest(rows, d) || m.digest == d
  {
    assert (rows + [m])[|rows|] == m;
    assert forall i :: 0 <= i < |rows| ==> (rows + [m])[i] == rows[i];
  }

  lemma HasSentStep(rows: seq<Message>, m: Message, id: string)
    requires id != ""
    ensures HasSentCopy(rows + [m], id) <==> HasSentCopy(rows, id) || (m.mailbox == SentBox && m.messageId == id)
  {
    assert (rows + [m])[|rows|] == m;
    assert forall i :: 0 <= i < |rows| ==> (rows + [m])[i] == rows[i];
  }
}
