/**
  One tick of a retry worker, ProcessRetries of internal/application/scheduler.go, with the query
  behind ListDueRetries (internal/adapters/persistence/store.go) and applySendResult of
  internal/application/send.go, on the rows it updates.  A tick that nothing interrupts is a run of
  module Outbox, so what holds of every run holds after every tick.
 */
module RetryWorker {
  import opened Outbox
  import opened SendPayload

  const LIMIT := 50

  /** What the store and the SMTP server answer while one row is handled. */
  datatype Answer = Answer(draftRead: bool, versionRead: bool, accountRead: bool, verdict: Verdict, written: bool)

  predicate CanRead(s: System, r: Row, a: Answer) { a.draftRead && a.accountRead && Reads(s, r.draft) }

  /** One row's turn as steps. */
  function Dispatch(s: System, w: Id, out: Id, a: Answer): seq<Op>
    requires out in s.rows
  {
    if CanRead(s, s.rows[out], a) then [Pick(w, out, a.versionRead, a.verdict), Settle(w, a.written)]
    else [Abandon(w, out, a.written)]
  }

  predicate AllIn(s: System, due: seq<Id>) { forall i :: 0 <= i < |due| ==> due[i] in s.rows }

  function Turns(s: System, w: Id, due: seq<Id>, answers: Id -> Answer): seq<Op>
    requires AllIn(s, due)
  {
    if due == [] then []
    else
      var n := |due| - 1;
      Turns(s, w, due[..n], answers) + Dispatch(s, w, due[n], answers(due[n]))
  }

  function Elements(due: seq<Id>): set<Id> { set o | o in due }

  /** The tick up to its k-th row. */
  function TickOps(s: System, w: Id, due: seq<Id>, answers: Id -> Answer, k: nat): seq<Op>
    requires AllIn(s, due) && k <= |due|
  {
    [List(w, Elements(due))] + Turns(s, w, due[..k], answers)
  }

  lemma TickBegins(env: Env, s: System, w: Id, due: seq<Id>, answers: Id -> Answer)
    requires AllIn(s, due)
    ensures Exec(env, s, TickOps(s, w, due, answers, 0)) == Step(env, s, List(w, Elements(due)))
  {
    var op := List(w, Elements(due));
    assert TickOps(s, w, due, answers, 0) == [op];
    ExecTwo(env, s, op, op);
  }

  lemma TickGoesOn(env: Env, s: System, w: Id, due: seq<Id>, answers: Id -> Answer, k: nat)
    requires AllIn(s, due) && k < |due|
    ensures Exec(env, s, TickOps(s, w, due, answers, k + 1))
            == Exec(env, Exec(env, s, TickOps(s, w, due, answers, k)), Dispatch(s, w, due[k], answers(due[k])))
  {
    assert due[..k + 1][..k] == due[..k];
    var turn := Dispatch(s, w, due[k], answers(due[k]));
    assert TickOps(s, w, due, answers, k + 1) == TickOps(s, w, due, answers, k) + turn;
    ExecAppend(env, s, TickOps(s, w, due, answers, k), turn);
  }

  /** The row after its turn. */
  function Turned(env: Env, s: System, r: Row, a: Answer): Row {
    if !a.written then r
    else if CanRead(s, r, a) then AfterResult(env, r, a.verdict, s.now)
    else r.(status := Failed, due := 0)
  }

  /** What one turn logs. */
  function Logs(s: System, out: Id, a: Answer): seq<Submission>
    requires out in s.rows
  {
    var r := s.rows[out];
    if !CanRead(s, r, a) then s.smtp
    else
      var d := s.drafts[r.draft];
      Submitted(s.smtp, out, RetryVersion(d, r.number, a.versionRead), s.accounts[d.account].email, a.verdict)
  }

  /** Worker w comes to row out, which is as it was listed. */
  predicate Ready(s: System, w: Id, out: Id) { Listed(s, w, out) && s.rows[out] == Snapshot(s, w, out) }

  function AfterTurn(env: Env, s: System, w: Id, out: Id, a: Answer): System
    requires Ready(s, w, out)
  {
    WithWorker(s, w, Worker(WorkerOf(s, w).todo - {out}, Resting))
    .(rows := s.rows[out := Turned(env, s, s.rows[out], a)], smtp := Logs(s, out, a))
  }

  lemma SameRow(s: System, out: Id)
    requires out in s.rows
    ensures s.rows[out := s.rows[out]] == s.rows
  {
  }

  lemma RetryTurn(env: Env, s: System, w: Id, out: Id, a: Answer)
    requires Ready(s, w, out) && CanRead(s, s.rows[out], a)
    ensures Exec(env, s, Dispatch(s, w, out, a)) == AfterTurn(env, s, w, out, a)
  {
    var x := WorkerOf(s, w);
    var m := PickStep(s, w, out, a.versionRead, a.verdict);
    ExecTwo(env, s, Pick(w, out, a.versionRead, a.verdict), Settle(w, a.written));
    assert m == WithWorker(s, w, x.(turn := Attempting(out, a.verdict))).(smtp := Logs(s, out, a));
    SameRow(s, out);
    assert s.workers[w := x.(turn := Attempting(out, a.verdict))][w := Worker(x.todo - {out}, Resting)]
           == s.workers[w := Worker(x.todo - {out}, Resting)];
  }

  lemma TurnEffect(env: Env, s: System, w: Id, out: Id, a: Answer)
    requires Ready(s, w, out)
    ensures Exec(env, s, Dispatch(s, w, out, a)) == AfterTurn(env, s, w, out, a)
  {
    if CanRead(s, s.rows[out], a) {
      RetryTurn(env, s, w, out, a);
    } else {
      SameRow(s, out);
      ExecTwo(env, s, Abandon(w, out, a.written), Settle(w, a.written));
    }
  }

  // ----- the rows of a tick -----

  /** ORDER BY next_attempt_at LIMIT: due rows, the earliest first, and all of them if the limit allows. */
  ghost predicate DueList(s: System, due: seq<Id>, limit: nat) {
    && |due| <= limit
    && (forall i, j :: 0 <= i < j < |due| ==> due[i] != due[j])
    && (forall i :: 0 <= i < |due| ==> Due(s, due[i]))
    && (forall i, j :: 0 <= i < j < |due| ==> s.rows[due[i]].due <= s.rows[due[j]].due)
    && (forall o ::
        Due(s, o) && o !in due ==> |due| == limit && forall i :: 0 <= i < |due| ==> s.rows[due[i]].due <= s.rows[o].due)
  }

  /** The first k rows have had their turn, and no other row changed. */
  ghost predicate TurnsDone(env: Env, s: System, due: seq<Id>, answers: Id -> Answer, k: nat, rows: map<Id, Row>) {
    && k <= |due| && rows.Keys == s.rows.Keys
    && (forall o :: o in s.rows && o !in due[..k] ==> rows[o] == s.rows[o])
    && (forall i :: 0 <= i < k ==> due[i] in s.rows && rows[due[i]] == Turned(env, s, s.rows[due[i]], answers(due[i])))
  }

  /** The rest of the list, as it was listed. */
  ghost predicate TurnsLeft(s: System, due: seq<Id>, k: nat, todo: map<Id, Row>) {
    && k <= |due| && (forall o :: o in todo <==> o in due[k..])
    && (forall o :: o in todo ==> o in s.rows && todo[o] == s.rows[o])
  }

  /** The k-th turn of a tick begins; only the worker, its rows and the log have changed. */
  ghost predicate Ticked(env: Env, s: System, w: Id, due: seq<Id>, answers: Id -> Answer, k: nat, t: System) {
    && t == WithWorker(s, w, WorkerOf(t, w)).(rows := t.rows, smtp := t.smtp) && WorkerOf(t, w).turn == Resting
    && TurnsDone(env, s, due, answers, k, t.rows) && TurnsLeft(s, due, k, WorkerOf(t, w).todo)
  }

  predicate Distinct(due: seq<Id>) { forall i, j :: 0 <= i < j < |due| ==> due[i] != due[j] }

  lemma ListTicks(env: Env, s: System, w: Id, due: seq<Id>, answers: Id -> Answer)
    requires WorkerOf(s, w).turn == Resting && forall i :: 0 <= i < |due| ==> Due(s, due[i])
    ensures Ticked(env, s, w, due, answers, 0, Step(env, s, List(w, Elements(due))))
  {
    assert due[0..] == due;
    var t := ListStep(s, w, Elements(due));
    assert WorkerOf(t, w).todo == DueRows(s, Elements(due));
  }

  lemma NextReady(env: Env, s: System, w: Id, due: seq<Id>, answers: Id -> Answer, k: nat, m: System)
    requires Ticked(env, s, w, due, answers, k, m) && k < |due| && Distinct(due) && AllIn(s, due)
    ensures Ready(m, w, due[k]) && m.rows[due[k]] == s.rows[due[k]]
    ensures Dispatch(m, w, due[k], answers(due[k])) == Dispatch(s, w, due[k], answers(due[k]))
    ensures Turned(env, m, m.rows[due[k]], answers(due[k])) == Turned(env, s, s.rows[due[k]], answers(due[k]))
  {
    assert due[k] !in due[..k];
    assert due[k] in due[k..] by { assert due[k..][0] == due[k]; }
  }

  lemma OneMoreDone(env: Env, s: System, due: seq<Id>, answers: Id -> Answer, k: nat, rows: map<Id, Row>)
    requires TurnsDone(env, s, due, answers, k, rows) && k < |due| && Distinct(due) && AllIn(s, due)
    ensures TurnsDone(env, s, due, answers, k + 1, rows[due[k] := Turned(env, s, s.rows[due[k]], answers(due[k]))])
  {
    assert due[..k + 1] == due[..k] + [due[k]];
  }

  lemma OneFewerLeft(s: System, due: seq<Id>, k: nat, todo: map<Id, Row>)
    requires TurnsLeft(s, due, k, todo) && k < |due| && Distinct(due)
    ensures TurnsLeft(s, due, k + 1, todo - {due[k]})
  {
    assert due[k..] == [due[k]] + due[k + 1..];
    assert due[k] !in due[k + 1..];
  }

  lemma TurnTicks(env: Env, s: System, w: Id, due: seq<Id>, answers: Id -> Answer, k: nat, m: System)
    requires Ticked(env, s, w, due, answers, k, m) && k < |due| && Distinct(due) && AllIn(s, due) && Ready(m, w, due[k])
    ensures Ticked(env, s, w, due, answers, k + 1, AfterTurn(env, m, w, due[k], answers(due[k])))
  {
    NextReady(env, s, w, due, answers, k, m);
    OneMoreDone(env, s, due, answers, k, m.rows);
    OneFewerLeft(s, due, k, WorkerOf(m, w).todo);
    var x := Worker(WorkerOf(m, w).todo - {due[k]}, Resting);
    assert m.workers[w := x] == s.workers[w := x];
  }

  lemma Listing(env: Env, s: System, w: Id, due: seq<Id>, answers: Id -> Answer)
    requires DueList(s, due, LIMIT) && WorkerOf(s, w).turn == Resting
    ensures AllIn(s, due) && Distinct(due)
    ensures var t := WithWorker(s, w, Worker(DueRows(s, Elements(due)), Resting));
            Ticked(env, s, w, due, answers, 0, t) && t == Exec(env, s, TickOps(s, w, due, answers, 0))
  {
    ListTicks(env, s, w, due, answers);
    TickBegins(env, s, w, due, answers);
  }

  lemma TickAdvances(env: Env, s: System, w: Id, due: seq<Id>, answers: Id -> Answer, k: nat, m: System)
    requires Ticked(env, s, w, due, answers, k, m) && k < |due| && Distinct(due) && AllIn(s, due)
    requires m == Exec(env, s, TickOps(s, w, due, answers, k))
    ensures Ready(m, w, due[k])
    ensures Ticked(env, s, w, due, answers, k + 1, AfterTurn(env, m, w, due[k], answers(due[k])))
    ensures AfterTurn(env, m, w, due[k], answers(due[k])) == Exec(env, s, TickOps(s, w, due, answers, k + 1))
  {
    NextReady(env, s, w, due, answers, k, m);
    TurnTicks(env, s, w, due, answers, k, m);
    TickGoesOn(env, s, w, due, answers, k);
    TurnEffect(env, m, w, due[k], answers(due[k]));
  }

  class Outgoing {
    const id: Id
    const clock: int
    const drafts: map<Id, Draft>
    const accounts: map<Id, Account>
    var rows: map<Id, Row>
    var smtp: seq<Submission>
    ghost var todo: map<Id, Row>   // the rows listed and not yet handled, as they were listed

    constructor (w: Id, s: System)
      ensures id == w && View(s) == WithWorker(s, w, Worker(map[], Resting)) && todo == map[]
    {
      id, clock, drafts, accounts, rows, smtp := w, s.now, s.drafts, s.accounts, s.rows, s.smtp;
      todo := map[];
    }

    /** The whole system, what the worker does not see taken from `rest`. */
    ghost function View(rest: System): System
      reads this
    {
      rest.(now := clock, drafts := drafts, accounts := accounts, rows := rows, smtp := smtp,
            workers := rest.workers[id := Worker(todo, Resting)])
    }

    predicate IsDue(o: Id)
      reads this
    {
      o in rows && rows[o].status == RetryWait && rows[o].due <= clock
    }

    /** The earliest due row among those left. */
    method Earliest(left: set<Id>) returns (o: Id)
      requires left != {} && left <= rows.Keys
      ensures o in left && forall p :: p in left ==> rows[o].due <= rows[p].due
    {
      o :| o in left;
      var rest := left - {o};
      while rest != {}
        invariant o in left && rest <= left
        invariant forall p :: p in left - rest ==> rows[o].due <= rows[p].due
        decreases rest
      {
        var p :| p in rest;
        if rows[p].due < rows[o].due { o := p; }
        rest := rest - {p};
      }
    }

    method ListDueRetries(ghost rest: System, limit: nat) returns (due: seq<Id>)
      ensures DueList(View(rest), due, limit)
    {
      due := [];
      var left := set o | o in rows && IsDue(o);
      while |due| < limit && left != {}
        invariant |due| <= limit && left <= rows.Keys
        invariant forall o :: o in rows && IsDue(o) <==> o in left || o in due
        invariant forall o :: o in left ==> o !in due
        invariant forall i, j :: 0 <= i < j < |due| ==> due[i] != due[j] && rows[due[i]].due <= rows[due[j]].due
        invariant forall i, o :: 0 <= i < |due| && o in left ==> rows[due[i]].due <= rows[o].due
        decreases left
      {
        var o := Earliest(left);
        due, left := due + [o], left - {o};
      }
      assert forall o :: Due(View(rest), o) <==> o in rows && IsDue(o);
    }

    /** Records the outcome of an attempt; the store may lose the update, and the caller is not told. */
    method ApplySendResult(env: Env, out: Id, verdict: Verdict, written: bool) returns (status: Status)
      requires out in rows
      modifies this`rows
      ensures rows == if written then old(rows)[out := AfterResult(env, old(rows)[out], verdict, clock)] else old(rows)
      ensures status == AfterResult(env, old(rows)[out], verdict, clock).status
      ensures (status == Sent <==> verdict == Accepted) && (status == Uncertain <==> verdict == AnswerLost)
      ensures status == RetryWait <==> verdict == Temporary && old(rows)[out].attempts + 1 < env.maxRetries
      ensures written ==> rows[out].status == status && rows[out].attempts == old(rows)[out].attempts + 1
      ensures written && status == RetryWait ==> rows[out].due == clock + env.backoff(rows[out].attempts)
    {
      var attempts := rows[out].attempts + 1;
      var due := 0;
      var maxRetries := env.maxRetries;
      if maxRetries <= 0 { maxRetries := 1; }
      if verdict == Temporary && attempts < maxRetries {
        status, due := RetryWait, clock + env.backoff(attempts);
      } else if verdict == Temporary || verdict == Permanent || verdict == Blocked {
        status := Failed;
      } else if verdict == AnswerLost {
        status := Uncertain;
      } else {
        status := Sent;
      }
      if written { rows := rows[out := rows[out].(status := status, attempts := attempts, due := due)]; }
    }

    /** Hands the version to SMTP: the recorded one, or the current one if that cannot be read. */
    method Deliver(out: Id, d: Draft, number: nat, readable: bool, verdict: Verdict)
      requires d.versions != [] && d.account in accounts
      modifies this`smtp
      ensures smtp == Submitted(old(smtp), out, RetryVersion(d, number, readable), accounts[d.account].email, verdict)
    {
      var version := Current(d);
      if readable && 1 <= number <= |d.versions| { version := d.versions[number - 1]; }
      if verdict != Blocked { smtp := smtp + [Submission(out, version, accounts[d.account].email, verdict)]; }
    }

    /** One row's turn in the loop. */
    method Attempt(env: Env, ghost rest: System, out: Id, a: Answer)
      requires Ready(View(rest), id, out)
      modifies this`rows, this`smtp, this`todo
      ensures View(rest) == AfterTurn(env, old(View(rest)), id, out, a)
    {
      var r := rows[out];
      ghost var s := View(rest);
      SameRow(s, out);
      todo := todo - {out};
      if !a.draftRead || !a.accountRead
          || !(r.draft in drafts && drafts[r.draft].versions != [] && drafts[r.draft].account in accounts) {
        if a.written { rows := rows[out := r.(status := Failed, due := 0)]; }
      } else {
        Deliver(out, drafts[r.draft], r.number, a.versionRead, a.verdict);
        var _ := ApplySendResult(env, out, a.verdict, a.written);
      }
      assert s.workers[id := Worker(todo, Resting)] == rest.workers[id := Worker(todo, Resting)];
    }

    /**
      The tick is a run of the system: it lists the earliest due rows, all of them if they are at most
      fifty, gives each one turn in that order, and changes no other row.
     */
    method ProcessRetries(env: Env, ghost rest: System, answers: Id -> Answer) returns (due: seq<Id>)
      requires todo == map[]
      modifies this`rows, this`smtp, this`todo
      ensures DueList(old(View(rest)), due, LIMIT)
      ensures AllIn(old(View(rest)), due)
      ensures View(rest) == Exec(env, old(View(rest)), TickOps(old(View(rest)), id, due, answers, |due|))
      ensures Ticked(env, old(View(rest)), id, due, answers, |due|, View(rest))
    {
      ghost var s := View(rest);
      due := ListDueRetries(rest, LIMIT);
      Listing(env, s, id, due, answers);
      todo := DueRows(s, Elements(due));
      assert View(rest) == WithWorker(s, id, Worker(todo, Resting));
      WorkThrough(env, rest, s, due, answers);
    }

    /** The loop over the listed rows. */
    method WorkThrough(env: Env, ghost rest: System, ghost s: System, due: seq<Id>, answers: Id -> Answer)
      requires Distinct(due) && AllIn(s, due)
      requires Ticked(env, s, id, due, answers, 0, View(rest))
               && View(rest) == Exec(env, s, TickOps(s, id, due, answers, 0))
      modifies this`rows, this`smtp, this`todo
      ensures View(rest) == Exec(env, s, TickOps(s, id, due, answers, |due|))
      ensures Ticked(env, s, id, due, answers, |due|, View(rest))
    {
      for k := 0 to |due|
        invariant Ticked(env, s, id, due, answers, k, View(rest))
        invariant View(rest) == Exec(env, s, TickOps(s, id, due, answers, k))
      {
        TickAdvances(env, s, id, due, answers, k, View(rest));
        Attempt(env, rest, due[k], answers(due[k]));
      }
    }
  }

  /** Every row listed has its one turn, in every uninterrupted tick, and no other row changes. */
  lemma {:induction false} TickEffect(env: Env, s: System, w: Id, due: seq<Id>, answers: Id -> Answer, k: nat)
    requires AllIn(s, due) && Distinct(due) && k <= |due| && WorkerOf(s, w).turn == Resting
    requires forall i :: 0 <= i < |due| ==> Due(s, due[i])
    ensures Ticked(env, s, w, due, answers, k, Exec(env, s, TickOps(s, w, due, answers, k)))
  {
    if k == 0 {
      TickBegins(env, s, w, due, answers);
      ListTicks(env, s, w, due, answers);
    } else {
      var m := Exec(env, s, TickOps(s, w, due, answers, k - 1));
      TickEffect(env, s, w, due, answers, k - 1);
      TickAdvances(env, s, w, due, answers, k - 1, m);
    }
  }
}
