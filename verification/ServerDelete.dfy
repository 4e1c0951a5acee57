/**
  Destructive deletion on the mail server: serverDeletePayloadHash and ServerDelete of
  internal/application/delete.go, over the checkpoints of Ingestion.
 */
module ServerDelete {
  import opened Text
  import opened Sorting
  import opened SendPayload
  import Ingestion

  // ----- the digest of an approved list -----

  function SortedUidls(uidls: seq<string>): seq<string> { Sort(Le, uidls) }

  function DeleteHash(lib: Lib, accountId: string, uidls: seq<string>): string {
    lib.hex(DeletePreimage(accountId, SortedUidls(uidls)))
  }

  lemma LeIsTotalOrder()
    ensures TotalOrder(Le)
  {
    forall x: string, y: string ensures Le(x, y) || Le(y, x) { LeTotal(x, y); }
    forall x: string, y: string | Le(x, y) && Le(y, x) ensures x == y { LeAntisymmetric(x, y); }
    forall x: string, y: string, z: string | Le(x, y) && Le(y, z) ensures Le(x, z) { LeTransitive(x, y, z); }
  }

  ghost predicate NewlineFree(uidls: seq<string>) {
    forall i :: 0 <= i < |uidls| ==> Free(uidls[i], '\n')
  }

  lemma SortedFree(uidls: seq<string>)
    requires NewlineFree(uidls)
    ensures NewlineFree(SortedUidls(uidls))
  {
    var s := SortedUidls(uidls);
    forall i | 0 <= i < |s| ensures Free(s[i], '\n') {
      assert s[i] in multiset(s);
      assert s[i] in multiset(uidls);
    }
  }

  /** The digest is the same exactly for the same account and the same list, in any order. */
  lemma DeleteHashBinds(lib: Lib, a: string, us: seq<string>, b: string, vs: seq<string>)
    requires Collisionless(lib) && Free(a, '\n') && Free(b, '\n') && NewlineFree(us) && NewlineFree(vs)
    ensures DeleteHash(lib, a, us) == DeleteHash(lib, b, vs) <==> a == b && multiset(us) == multiset(vs)
  {
    LeIsTotalOrder();
    SortSame(Le, us, vs);
    if DeleteHash(lib, a, us) == DeleteHash(lib, b, vs) {
      SortedFree(us);
      SortedFree(vs);
      PreimageParts(a, SortedUidls(us), b, SortedUidls(vs));
    }
  }

  lemma PreimageParts(a: string, us: seq<string>, b: string, vs: seq<string>)
    requires Free(a, '\n') && Free(b, '\n') && NewlineFree(us) && NewlineFree(vs)
    requires DeletePreimage(a, us) == DeletePreimage(b, vs)
    ensures a == b && us == vs
  {
    var x, y := a + "\n" + Lines(us), b + "\n" + Lines(vs);
    assert DeletePreimage(a, us) == "server_delete\n" + x && DeletePreimage(b, vs) == "server_delete\n" + y;
    After("server_delete\n", x, y);
    SplitFirst(a, Lines(us), b, Lines(vs), '\n');
    LinesInjective(us, vs);
  }

  // ----- the deletion itself -----

  datatype Remote = Remote(number: nat, uidl: string)
  datatype Result = Result(deleted: seq<string>, uncertain: seq<string>, skipped: seq<string>)
  datatype Option<+T> = None | Some(value: T)

  /** The listed messages DELE is sent for, in the order of the listing. */
  function Targets(remote: seq<Remote>, want: set<string>): (r: seq<Remote>) {
    if remote == [] then []
    else
      var n := |remote| - 1;
      Targets(remote[..n], want) + if remote[n].uidl in want then [remote[n]] else []
  }

  /** Those of them the server answered with `ok`. */
  function Answered(remote: seq<Remote>, answers: seq<bool>, want: set<string>, ok: bool): (r: seq<string>)
    requires |answers| == |remote|
  {
    if remote == [] then []
    else
      var n := |remote| - 1;
      Answered(remote[..n], answers[..n], want, ok)
      + if remote[n].uidl in want && answers[n] == ok then [remote[n].uidl] else []
  }

  function Uidls(rs: seq<Remote>): (r: seq<string>) {
    if rs == [] then [] else Uidls(rs[..|rs| - 1]) + [rs[|rs| - 1].uidl]
  }

  lemma {:induction false} TargetsExact(remote: seq<Remote>, want: set<string>, r: Remote)
    ensures r in Targets(remote, want) <==> r in remote && r.uidl in want
  {
    if remote != [] {
      var n := |remote| - 1;
      TargetsExact(remote[..n], want, r);
      assert remote == remote[..n] + [remote[n]];
    }
  }

  lemma UidlsLast(rs: seq<Remote>, r: Remote)
    ensures Uidls(rs + [r]) == Uidls(rs) + [r.uidl]
  {
    assert (rs + [r])[..|rs|] == rs;
  }

  /** Every message DELE was sent for is reported once, by the answer it got. */
  lemma {:induction false} AnsweredPartition(remote: seq<Remote>, answers: seq<bool>, want: set<string>)
    requires |answers| == |remote|
    ensures multiset(Answered(remote, answers, want, true)) + multiset(Answered(remote, answers, want, false))
            == multiset(Uidls(Targets(remote, want)))
  {
    if remote != [] {
      var n := |remote| - 1;
      AnsweredPartition(remote[..n], answers[..n], want);
      var a, b := Answered(remote[..n], answers[..n], want, true), Answered(remote[..n], answers[..n], want, false);
      var before := Targets(remote[..n], want);
      if remote[n].uidl !in want {
        assert Answered(remote, answers, want, true) == a && Answered(remote, answers, want, false) == b;
        assert Targets(remote, want) == before;
      } else {
        UidlsLast(before, remote[n]);
        if answers[n] {
          assert Answered(remote, answers, want, true) == a + [remote[n].uidl]
                 && Answered(remote, answers, want, false) == b;
        } else {
          assert Answered(remote, answers, want, true) == a
                 && Answered(remote, answers, want, false) == b + [remote[n].uidl];
        }
      }
    }
  }

  /** An id is reported under an answer exactly if some wanted message of that id got it. */
  lemma {:induction false} AnsweredExact(remote: seq<Remote>, answers: seq<bool>, want: set<string>, ok: bool,
                                         u: string)
    requires |answers| == |remote|
    ensures u in Answered(remote, answers, want, ok) <==>
              u in want && exists i :: 0 <= i < |remote| && remote[i].uidl == u && answers[i] == ok
  {
    if remote != [] {
      var n := |remote| - 1;
      AnsweredExact(remote[..n], answers[..n], want, ok, u);
      assert forall i :: 0 <= i < n ==> remote[..n][i] == remote[i] && answers[..n][i] == answers[i];
    }
  }

  method MarkAll(remote: seq<Remote>, answers: seq<bool>, want: set<string>)
    returns (dele: seq<Remote>, marked: seq<string>, skipped: seq<string>)
    requires |answers| == |remote|
    ensures dele == Targets(remote, want)
    ensures marked == Answered(remote, answers, want, true)
    ensures skipped == Answered(remote, answers, want, false)
    ensures forall u :: u in marked <==>
              u in want && exists i :: 0 <= i < |remote| && remote[i].uidl == u && answers[i]
    ensures forall u :: u in skipped <==>
              u in want && exists i :: 0 <= i < |remote| && remote[i].uidl == u && !answers[i]
  {
    forall u
      ensures u in Answered(remote, answers, want, true) <==>
                u in want && exists i :: 0 <= i < |remote| && remote[i].uidl == u && answers[i]
      ensures u in Answered(remote, answers, want, false) <==>
                u in want && exists i :: 0 <= i < |remote| && remote[i].uidl == u && !answers[i]
    {
      AnsweredExact(remote, answers, want, true, u);
      AnsweredExact(remote, answers, want, false, u);
    }
    dele, marked, skipped := [], [], [];
    for i := 0 to |remote|
      invariant dele == Targets(remote[..i], want)
      invariant marked == Answered(remote[..i], answers[..i], want, true)
      invariant skipped == Answered(remote[..i], answers[..i], want, false)
    {
      assert remote[..i + 1][..i] == remote[..i] && answers[..i + 1][..i] == answers[..i];
      if remote[i].uidl !in want {
        continue;
      }
      dele := dele + [remote[i]];
      if !answers[i] {
        skipped := skipped + [remote[i].uidl];
        continue;
      }
      marked := marked + [remote[i].uidl];
    }
    assert remote[..|remote|] == remote && answers[..|remote|] == answers;
  }

  /**
    ServerDelete: the token's digest must be that of the list, then only listed messages that are
    both approved and stored are marked, and QUIT decides whether the marks are known to hold.
    `approval` is the digest of the pending approval under the token, `reachable` says that the stored
    set, the connection and the listing could be had (an error there ends the call), `answers` holds the
    server's answer to a DELE of each listed message; `dele` records the messages DELE was sent for.
   */
  method Delete(lib: Lib, accountId: string, uidls: seq<string>, approval: Option<string>, stored: set<string>,
                reachable: bool, remote: seq<Remote>, answers: seq<bool>, quitOk: bool)
    returns (result: Option<Result>, dele: seq<Remote>)
    requires |answers| == |remote|
    ensures result.Some? <==> approval == Some(DeleteHash(lib, accountId, uidls)) && reachable
    ensures forall r :: r in dele <==> result.Some? && r in remote && r.uidl in uidls && r.uidl in stored
    ensures result.Some? ==>
              multiset(result.value.deleted) + multiset(result.value.uncertain) + multiset(result.value.skipped)
              == multiset(Uidls(dele))
    ensures result.Some? ==> (if quitOk then result.value.uncertain else result.value.deleted) == []
    ensures result.Some? ==> forall u :: u in result.value.deleted || u in result.value.uncertain ==>
              exists i :: 0 <= i < |remote| && remote[i].uidl == u && answers[i]
    ensures result.Some? ==> forall u :: u in result.value.skipped ==>
              exists i :: 0 <= i < |remote| && remote[i].uidl == u && !answers[i]
    ensures result.Some? ==> forall i :: 0 <= i < |remote| && remote[i].uidl in uidls && remote[i].uidl in stored ==>
              remote[i].uidl in if !answers[i] then result.value.skipped
                                else if quitOk then result.value.deleted else result.value.uncertain
  {
    if approval != Some(DeleteHash(lib, accountId, uidls)) || !reachable {
      return None, [];
    }
    var want := set u | u in uidls && u in stored;
    var marked, skipped;
    dele, marked, skipped := MarkAll(remote, answers, want);
    forall r ensures r in dele <==> r in remote && r.uidl in uidls && r.uidl in stored {
      TargetsExact(remote, want, r);
    }
    AnsweredPartition(remote, answers, want);
    if !quitOk {
      return Some(Result([], marked, skipped)), dele;
    }
    result := Some(Result(marked, [], skipped));
  }

  /** Under one token only the list that was previewed can be deleted from: it cannot be widened. */
  lemma ApprovedListOnly(lib: Lib, accountId: string, previewed: seq<string>, requested: seq<string>, u: string)
    requires Collisionless(lib) && Free(accountId, '\n') && NewlineFree(previewed) && NewlineFree(requested)
    requires DeleteHash(lib, accountId, requested) == DeleteHash(lib, accountId, previewed)
    ensures u in requested <==> u in previewed
  {
    DeleteHashBinds(lib, accountId, requested, accountId, previewed);
    assert u in requested <==> u in multiset(requested);
    assert u in previewed <==> u in multiset(previewed);
  }

  // ----- "stored" means checkpointed -----

  function StoredUidls(s: Ingestion.Store): set<string> {
    set k | k in s.checkpoints && k.Uidl? :: k.id
  }

  /** In every run, what ServerDelete takes as stored has been stored. */
  lemma DeletableWasStored(mid: Ingestion.Raw -> string, content: string -> Ingestion.Raw, ops: seq<Ingestion.Op>,
                           u: string)
    requires forall i :: 0 <= i < |ops| ==> Ingestion.Lawful(content, ops[i])
    requires u in StoredUidls(Ingestion.Run(mid, Ingestion.EMPTY, ops))
    ensures Ingestion.Accounted(mid, content, Ingestion.Run(mid, Ingestion.EMPTY, ops).everStored, Ingestion.Uidl(u))
    ensures (forall i :: 0 <= i < |ops| ==> !ops[i].LocalDelete?) ==>
              Ingestion.Accounted(mid, content, Ingestion.Run(mid, Ingestion.EMPTY, ops).messages, Ingestion.Uidl(u))
  {
    Ingestion.EveryRunKeeps(mid, content, ops);
    if forall i :: 0 <= i < |ops| ==> !ops[i].LocalDelete? {
      Ingestion.WithoutDeletionAllHeld(mid, ops);
    }
  }

  /**
    The promise is about having been stored, not about being held: a message deleted locally keeps
    its checkpoint, so its server copy stays deletable although no local copy is left.
   */
  lemma DeletableButGone(mid: Ingestion.Raw -> string)
    ensures var rm := Ingestion.Remote("u1", 1, [65]);
            var sync := Ingestion.Sync(0, Ingestion.Folder(Ingestion.Inbox, 0, true), [rm], [Ingestion.WORKING]);
            var s := Ingestion.Run(mid, Ingestion.EMPTY, [sync, Ingestion.LocalDelete(0), sync]);
            "u1" in StoredUidls(s) && s.messages == []
  {
    Ingestion.DeletedStaysDeleted(mid);
  }
}
