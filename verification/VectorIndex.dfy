/**
  Filing a batch of vectors: embedMessagesBatch of internal/application/semantic.go, on the index it
  writes.
 */
module VectorIndex {
  import opened Embedding

  type Id = string

  /** A message as the batch reads it; `text` is what is left of it to embed. */
  datatype Message = Message(id: Id, account: Id, found: bool, text: string)
  datatype Entry = Entry(vector: Vector, model: string)
  datatype Filed = Filed(id: Id, vector: Vector)
  datatype Reply = Reply(model: string, vectors: seq<Vector>)

  type Index = map<(Id, Id), Entry>

  const UNEMBEDDED := Entry([], "none")

  predicate Embeddable(m: Message) { m.found && m.text != "" }

  function Valid(messages: seq<Message>): (r: seq<Message>)
    ensures forall i :: 0 <= i < |r| ==> Embeddable(r[i])
  {
    if messages == [] then []
    else
      var n := |messages| - 1;
      if Embeddable(messages[n]) then Valid(messages[..n]) + [messages[n]] else Valid(messages[..n])
  }

  function AccountOf(account: Id, m: Message): Id { if account == "" then m.account else account }

  /** The index with every message that has nothing to embed marked as done. */
  function Marked(index: Index, messages: seq<Message>): Index {
    if messages == [] then index
    else
      var n := |messages| - 1;
      var m := messages[n];
      var before := Marked(index, messages[..n]);
      if m.found && m.text == "" then before[(m.account, m.id) := UNEMBEDDED] else before
  }

  /** The first k vectors that belong to account acc, in order. */
  function Group(account: Id, valid: seq<Message>, vectors: seq<Vector>, acc: Id, k: nat): seq<Filed>
    requires k <= |valid| == |vectors|
  {
    if k == 0 then []
    else
      var before := Group(account, valid, vectors, acc, k - 1);
      if AccountOf(account, valid[k - 1]) == acc then before + [Filed(valid[k - 1].id, vectors[k - 1])] else before
  }

  function Saved(index: Index, acc: Id, model: string, items: seq<Filed>): Index {
    if items == [] then index
    else
      var n := |items| - 1;
      Saved(index, acc, model, items[..n])[(acc, items[n].id) := Entry(items[n].vector, model)]
  }

  /** No later message of the batch has the id of message i. */
  ghost predicate LastOf(valid: seq<Message>, i: nat, k: nat) {
    i < k <= |valid| && forall j :: i < j < k ==> valid[j].id != valid[i].id
  }

  lemma SavedOne(index: Index, acc: Id, model: string, items: seq<Filed>, x: Filed)
    ensures Saved(index, acc, model, items + [x])
            == Saved(index, acc, model, items)[(acc, x.id) := Entry(x.vector, model)]
  {
    assert (items + [x])[..|items|] == items;
  }

  /** The key of message i and what belongs there. */
  function KeyOf(account: Id, valid: seq<Message>, i: nat): (Id, Id)
    requires i < |valid|
  {
    (AccountOf(account, valid[i]), valid[i].id)
  }

  /** Saving one account's vectors files each under its own message. */
  lemma {:induction false} GroupFiled(index: Index, account: Id, valid: seq<Message>, vectors: seq<Vector>,
                                      model: string, acc: Id, k: nat, i: nat)
    requires k <= |valid| == |vectors| && LastOf(valid, i, k) && AccountOf(account, valid[i]) == acc
    ensures KeyOf(account, valid, i) in Saved(index, acc, model, Group(account, valid, vectors, acc, k))
    ensures Saved(index, acc, model, Group(account, valid, vectors, acc, k))[KeyOf(account, valid, i)]
            == Entry(vectors[i], model)
  {
    var before := Group(account, valid, vectors, acc, k - 1);
    if AccountOf(account, valid[k - 1]) == acc {
      SavedOne(index, acc, model, before, Filed(valid[k - 1].id, vectors[k - 1]));
    }
    if i < k - 1 { GroupFiled(index, account, valid, vectors, model, acc, k - 1, i); }
  }

  /** Some message of the batch has this key and this vector. */
  ghost predicate Belongs(account: Id, valid: seq<Message>, vectors: seq<Vector>, model: string, key: (Id, Id),
                          e: Entry) {
    && |vectors| == |valid|
    && exists i :: 0 <= i < |valid| && KeyOf(account, valid, i) == key && e == Entry(vectors[i], model)
  }

  /** The entry at key is the old one, or one of this account that belongs there. */
  ghost predicate Explained(index: Index, account: Id, valid: seq<Message>, vectors: seq<Vector>, model: string,
                            acc: Id, key: (Id, Id), t: Index) {
    && (key in index ==> key in t)
    && (key in t ==>
        (key in index && t[key] == index[key])
            || (key.0 == acc && Belongs(account, valid, vectors, model, key, t[key])))
  }

  lemma ExplainedNext(index: Index, account: Id, valid: seq<Message>, vectors: seq<Vector>, model: string, acc: Id,
                      key: (Id, Id), t: Index, i: nat)
    requires i < |valid| == |vectors| && AccountOf(account, valid[i]) == acc
    requires Explained(index, account, valid, vectors, model, acc, key, t)
    ensures Explained(index, account, valid, vectors, model, acc, key,
                      t[(acc, valid[i].id) := Entry(vectors[i], model)])
  {
    assert KeyOf(account, valid, i) == (acc, valid[i].id);
  }

  /** Nothing else is written. */
  lemma {:induction false} GroupOnly(index: Index, account: Id, valid: seq<Message>, vectors: seq<Vector>,
                                     model: string, acc: Id, k: nat, key: (Id, Id))
    requires k <= |valid| == |vectors|
    ensures Explained(index, account, valid, vectors, model, acc, key,
                      Saved(index, acc, model, Group(account, valid, vectors, acc, k)))
  {
    if k > 0 {
      GroupOnly(index, account, valid, vectors, model, acc, k - 1, key);
      if AccountOf(account, valid[k - 1]) == acc {
        var before := Group(account, valid, vectors, acc, k - 1);
        SavedOne(index, acc, model, before, Filed(valid[k - 1].id, vectors[k - 1]));
        ExplainedNext(index, account, valid, vectors, model, acc, key, Saved(index, acc, model, before), k - 1);
      }
    }
  }

  function Accounts(account: Id, valid: seq<Message>, k: nat): (accs: set<Id>)
    requires k <= |valid|
    ensures forall i :: 0 <= i < k ==> AccountOf(account, valid[i]) in accs
  {
    if k == 0 then {} else Accounts(account, valid, k - 1) + {AccountOf(account, valid[k - 1])}
  }

  /** Every entry is as before or the vector of its own message. */
  ghost predicate Honest(before: Index, account: Id, valid: seq<Message>, reply: Reply, after: Index) {
    forall key :: key in after ==>
      (key in before && after[key] == before[key])
          || Belongs(account, valid, reply.vectors, reply.model, key, after[key])
  }

  /** Vector i is filed under message i, for the messages of these accounts. */
  ghost predicate FiledFor(account: Id, valid: seq<Message>, reply: Reply, accs: set<Id>, index: Index) {
    |reply.vectors| == |valid| && forall i :: 0 <= i < |valid| ==> FiledAt(account, valid, reply, accs, index, i)
  }

  ghost predicate FiledAt(account: Id, valid: seq<Message>, reply: Reply, accs: set<Id>, index: Index, i: nat)
    requires i < |valid| == |reply.vectors|
  {
    LastOf(valid, i, |valid|) && AccountOf(account, valid[i]) in accs ==>
      KeyOf(account, valid, i) in index && index[KeyOf(account, valid, i)] == Entry(reply.vectors[i], reply.model)
  }

  lemma SaveHonest(before: Index, index: Index, account: Id, valid: seq<Message>, reply: Reply, acc: Id)
    requires |reply.vectors| == |valid| && Honest(before, account, valid, reply, index)
    ensures Honest(before, account, valid, reply,
                   Saved(index, acc, reply.model, Group(account, valid, reply.vectors, acc, |valid|)))
  {
    var t := Saved(index, acc, reply.model, Group(account, valid, reply.vectors, acc, |valid|));
    forall key | key in t
      ensures (key in before && t[key] == before[key])
              || Belongs(account, valid, reply.vectors, reply.model, key, t[key])
    {
      GroupOnly(index, account, valid, reply.vectors, reply.model, acc, |valid|, key);
    }
  }

  lemma SaveFiles(index: Index, account: Id, valid: seq<Message>, reply: Reply, accs: set<Id>, acc: Id)
    requires FiledFor(account, valid, reply, accs, index) && acc !in accs
    ensures FiledFor(account, valid, reply, accs + {acc},
                     Saved(index, acc, reply.model, Group(account, valid, reply.vectors, acc, |valid|)))
  {
    var t := Saved(index, acc, reply.model, Group(account, valid, reply.vectors, acc, |valid|));
    forall i: nat | i < |valid| ensures FiledAt(account, valid, reply, accs + {acc}, t, i) {
      assert FiledAt(account, valid, reply, accs, index, i);
      if LastOf(valid, i, |valid|) && AccountOf(account, valid[i]) in accs + {acc} {
        if AccountOf(account, valid[i]) == acc {
          GroupFiled(index, account, valid, reply.vectors, reply.model, acc, |valid|, i);
        } else {
          GroupOnly(index, account, valid, reply.vectors, reply.model, acc, |valid|, KeyOf(account, valid, i));
        }
      }
    }
  }

  /** The first i items, by account. */
  ghost predicate Grouped(account: Id, valid: seq<Message>, vectors: seq<Vector>, i: nat,
                          byAccount: map<Id, seq<Filed>>) {
    && i <= |valid| == |vectors| && byAccount.Keys == Accounts(account, valid, i)
    && forall acc :: Group(account, valid, vectors, acc, i) == if acc in byAccount then byAccount[acc] else []
  }

  lemma GroupedNext(account: Id, valid: seq<Message>, vectors: seq<Vector>, i: nat, byAccount: map<Id, seq<Filed>>)
    requires i < |valid| && Grouped(account, valid, vectors, i, byAccount)
    ensures var acc := AccountOf(account, valid[i]);
            var items := if acc in byAccount then byAccount[acc] else [];
            Grouped(account, valid, vectors, i + 1, byAccount[acc := items + [Filed(valid[i].id, vectors[i])]])
  {
  }

  /** What is embedded is exactly what was found and has text. */
  lemma {:induction false} ValidExactly(messages: seq<Message>, m: Message)
    ensures m in Valid(messages) <==> m in messages && m.found && m.text != ""
  {
    if messages != [] {
      var n := |messages| - 1;
      ValidExactly(messages[..n], m);
      assert messages == messages[..n] + [messages[n]];
    }
  }

  /** What was found without text is marked as done, and no other key is touched. */
  lemma {:induction false} MarkedExactly(index: Index, messages: seq<Message>, key: (Id, Id))
    ensures var t := Marked(index, messages);
            if exists m :: m in messages && m.found && m.text == "" && key == (m.account, m.id) then
              key in t && t[key] == Entry([], "none")
            else (key in t <==> key in index) && (key in t ==> t[key] == index[key])
  {
    if messages != [] {
      var n := |messages| - 1;
      MarkedExactly(index, messages[..n], key);
      assert messages == messages[..n] + [messages[n]];
      assert messages[n] in messages;
    }
  }

  /** So every message with text has its vector: under the account asked for, or else under its own. */
  lemma AllFiled(account: Id, valid: seq<Message>, reply: Reply, index: Index, i: nat)
    requires FiledFor(account, valid, reply, Accounts(account, valid, |valid|), index)
    requires i < |valid| && forall j :: i < j < |valid| ==> valid[j].id != valid[i].id
    ensures var key := (if account != "" then account else valid[i].account, valid[i].id);
            key in index && index[key] == Entry(reply.vectors[i], reply.model)
  {
    assert LastOf(valid, i, |valid|) && FiledAt(account, valid, reply, Accounts(account, valid, |valid|), index, i);
  }

  class Vectors {
    var index: Index

    /** One account's vectors, all or none. */
    method SaveEmbeddingsBatch(acc: Id, model: string, items: seq<Filed>, broken: set<Id>) returns (ok: bool)
      modifies this
      ensures ok == (acc !in broken)
      ensures index == if ok then Saved(old(index), acc, model, items) else old(index)
    {
      if acc in broken { return false; }
      for i := 0 to |items|
        invariant index == Saved(old(index), acc, model, items[..i])
      {
        assert items[..i + 1] == items[..i] + [items[i]];
        SavedOne(old(index), acc, model, items[..i], items[i]);
        index := index[(acc, items[i].id) := Entry(items[i].vector, model)];
      }
      assert items[..|items|] == items;
      return true;
    }

    /** The first loop: what to embed, with empty messages marked on the way. */
    method Collect(messages: seq<Message>) returns (valid: seq<Message>)
      modifies this
      ensures valid == Valid(messages) && index == Marked(old(index), messages)
    {
      valid := [];
      for i := 0 to |messages|
        invariant valid == Valid(messages[..i]) && index == Marked(old(index), messages[..i])
      {
        var m := messages[i];
        assert messages[..i + 1][..i] == messages[..i];
        if m.found {
          if m.text == "" { index := index[(m.account, m.id) := UNEMBEDDED]; } else { valid := valid + [m]; }
        }
      }
      assert messages[..|messages|] == messages;
    }

    /** The second: items by account. */
    method GroupByAccount(account: Id, valid: seq<Message>, vectors: seq<Vector>)
        returns (byAccount: map<Id, seq<Filed>>)
      requires |vectors| == |valid|
      ensures Grouped(account, valid, vectors, |valid|, byAccount)
    {
      byAccount := map[];
      for i := 0 to |valid|
        invariant Grouped(account, valid, vectors, i, byAccount)
      {
        var acc := AccountOf(account, valid[i]);
        var items := if acc in byAccount then byAccount[acc] else [];
        GroupedNext(account, valid, vectors, i, byAccount);
        byAccount := byAccount[acc := items + [Filed(valid[i].id, vectors[i])]];
      }
    }

    /**
      No vector is written unless the whole reply is usable; whatever happens after that, a vector is only
      ever filed under its own message and account, and on success every message has its vector.
     */
    method EmbedMessagesBatch(account: Id, messages: seq<Message>, reply: Option<Reply>, broken: set<Id>)
        returns (ok: bool)
      modifies this
      ensures var valid := Valid(messages);
              var usable := reply.Some? && Usable(reply.value.vectors, |valid|);
              && (!usable ==> index == Marked(old(index), messages) && (ok <==> valid == []))
              && (usable ==> Honest(Marked(old(index), messages), account, valid, reply.value, index))
              && (usable && ok ==> FiledFor(account, valid, reply.value, Accounts(account, valid, |valid|), index))
    {
      var valid := Collect(messages);
      if |valid| == 0 { return true; }
      if reply.None? { return false; }
      var usable := ValidateEmbeddingVectors(reply.value.vectors, |valid|);
      if !usable { return false; }
      ok := FileAll(account, valid, reply.value, broken);
    }

    method FileAll(account: Id, valid: seq<Message>, reply: Reply, broken: set<Id>) returns (ok: bool)
      requires |reply.vectors| == |valid|
      modifies this
      ensures Honest(old(index), account, valid, reply, index)
      ensures ok ==> FiledFor(account, valid, reply, Accounts(account, valid, |valid|), index)
    {
      var byAccount := GroupByAccount(account, valid, reply.vectors);
      var left := byAccount.Keys;
      while left != {}
        invariant left <= byAccount.Keys
        invariant Honest(old(index), account, valid, reply, index)
        invariant FiledFor(account, valid, reply, byAccount.Keys - left, index)
        decreases left
      {
        var acc :| acc in left;
        SaveHonest(old(index), index, account, valid, reply, acc);
        SaveFiles(index, account, valid, reply, byAccount.Keys - left, acc);
        var saved := SaveEmbeddingsBatch(acc, reply.model, byAccount[acc], broken);
        if !saved { return false; }
        assert byAccount.Keys - (left - {acc}) == byAccount.Keys - left + {acc};
        left := left - {acc};
      }
      assert byAccount.Keys - left == Accounts(account, valid, |valid|);
      return true;
    }
  }
}
