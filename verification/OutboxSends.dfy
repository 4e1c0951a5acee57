/**
  What a send does when nothing comes in between, what its idempotency key rules out, and what a closed
  draft keeps: Send of internal/application/send.go over CreateOutbound, GetOutboundByIdemKey and
  AddDraftVersion of internal/adapters/persistence/store.go.
 */
module OutboxSends {
  import opened Outbox
  import opened SendPayload

  // ----- the idempotency key -----

  ghost predicate KeysApart(s: System) {
    forall o, p :: o in s.rows && p in s.rows && s.rows[o].key == s.rows[p].key ==> o == p
  }

  /** A row that a step adds has a key that no row had. */
  lemma NewKey(env: Env, s: System, op: Op, o: Id)
    requires o in Step(env, s, op).rows && o !in s.rows
    ensures op == Create(op.sid, o) && !KeyTaken(s, Step(env, s, op).rows[o].key)
  {
    if op.Create? || op.Finish? || op.Settle? || op.Abandon? { RowSteps(env, s, op); } else { SameRows(env, s, op); }
  }

  lemma StepKeysApart(env: Env, s: System, op: Op)
    requires KeysApart(s)
    ensures KeysApart(Step(env, s, op))
  {
    var t := Step(env, s, op);
    forall o, p | o in t.rows && p in t.rows && t.rows[o].key == t.rows[p].key ensures o == p {
      RowsKept(env, s, op, o);
      RowsKept(env, s, op, p);
      if o !in s.rows { NewKey(env, s, op, o); }
      if p !in s.rows { NewKey(env, s, op, p); }
    }
  }

  lemma {:induction false} ExecKeysApart(env: Env, s: System, ops: seq<Op>)
    requires KeysApart(s)
    ensures KeysApart(Exec(env, s, ops))
  {
    if ops != [] {
      ExecKeysApart(env, s, ops[..|ops| - 1]);
      StepKeysApart(env, Exec(env, s, ops[..|ops| - 1]), ops[|ops| - 1]);
    }
  }

  /** However often and however interleaved a send is repeated under one key, it has one row, the first. */
  lemma OneRowPerKey(env: Env, ops: seq<Op>, more: seq<Op>, o: Id, p: Id)
    requires o in Run(env, ops).rows && p in Run(env, ops + more).rows
    requires Run(env, ops + more).rows[p].key == Run(env, ops).rows[o].key
    ensures p == o
  {
    ExecKeysApart(env, EMPTY, ops + more);
    ExecAppend(env, EMPTY, ops, more);
    ExecKept(env, Run(env, ops), more);
    assert RowKept(Run(env, ops), Run(env, ops + more), o);
  }

  /** And such a repetition is stopped at its start: no approval is used up and nothing is sent. */
  lemma ReplayDoesNothing(env: Env, s: System, o: Id, op: Op)
    requires o in s.rows && op.StartSend? && op.key == s.rows[o].key
    ensures Step(env, s, op) == s
  {
  }

  // ----- a send that nothing disturbs -----

  /** The approval is issued and, some time later, the draft is sent with it. */
  datatype Mailing = Mailing(draft: Id, token: Id, ttl: int, wait: nat, sid: Id, key: string, out: Id, verdict: Verdict)

  function Beginning(m: Mailing): seq<Op> {
    [Approve(m.token, m.draft, m.ttl), Advance(m.wait), StartSend(m.sid, m.draft, m.token, m.key)]
  }

  function Ending(m: Mailing): seq<Op> { [Consume(m.sid), Create(m.sid, m.out), Deliver(m.sid, m.verdict)] }

  function Steps(m: Mailing): seq<Op> { Beginning(m) + Ending(m) + [Finish(m.sid, true)] }

  /** The token, the send, the row and the key are new, and the draft may be sent as it is. */
  predicate Fresh(env: Env, s: System, m: Mailing) {
    && m.token !in s.approvals && m.sid !in s.sends && m.out !in s.rows && !KeyTaken(s, m.key)
    && Reads(s, m.draft) && env.sendable(s.accounts[s.drafts[m.draft].account], Current(s.drafts[m.draft]))
  }

  /** Ten minutes unless the request says otherwise. */
  predicate InTime(m: Mailing) { m.wait < (if m.ttl <= 0 then 600 else m.ttl) }

  /** The state in which the send has read what it sends. */
  predicate Started(env: Env, s: System, m: Mailing, t: System) {
    && Reads(s, m.draft)
    && var a, v := s.accounts[s.drafts[m.draft].account], Current(s.drafts[m.draft]);
       && t.now == s.now + m.wait && t.rows == s.rows && t.smtp == s.smtp
       && t.sends == s.sends[m.sid := Sending(m.draft, a, v, m.key, m.token, Reading)]
       && m.token in t.approvals && !t.approvals[m.token].used && t.approvals[m.token].hash == env.hash(a, v)
       && t.approvals[m.token].expiresAt == s.now + (if m.ttl <= 0 then 600 else m.ttl)
  }

  lemma ExecThree(env: Env, s: System, ops: seq<Op>)
    requires |ops| == 3
    ensures Exec(env, s, ops) == Step(env, Step(env, Step(env, s, ops[0]), ops[1]), ops[2])
  {
    ExecTwo(env, s, ops[0], ops[1]);
    assert ops[..2] == [ops[0], ops[1]];
  }

  lemma Starts(env: Env, s: System, m: Mailing)
    requires Fresh(env, s, m)
    ensures Started(env, s, m, Exec(env, s, Beginning(m)))
  {
    ExecThree(env, s, Beginning(m));
  }

  /** The approval is used up exactly if it still stands. */
  lemma Consumes(env: Env, s: System, m: Mailing, t: System)
    requires Fresh(env, s, m) && Started(env, s, m, t)
    ensures var c := ConsumeStep(env, t, m.sid);
            && c.now == t.now && c.rows == t.rows && c.smtp == t.smtp
            && (if InTime(m) then c.sends == s.sends[m.sid := t.sends[m.sid].(stage := Consumed)]
                else c.sends == s.sends)
  {
    assert m.sid in t.sends;
    assert ConsumeOk(env, t, t.sends[m.sid]) <==> InTime(m);
  }

  /** Then the row is created and the message handed over. */
  lemma GoesOut(s: System, m: Mailing, c: System, x: Sending)
    requires m.out !in s.rows && !KeyTaken(s, m.key) && c.rows == s.rows && c.sends == s.sends[m.sid := x]
    requires x.stage == Consumed && x.key == m.key
    ensures var u := DeliverStep(CreateStep(c, m.sid, m.out), m.sid, m.verdict);
            && u.now == c.now
            && u.rows == s.rows[m.out :=
                 Row(x.draft, x.version.number, m.key, Queued, 0, 0, x.token, x.account, x.version)]
            && u.smtp == Submitted(c.smtp, m.out, x.version, x.account.email, m.verdict)
            && u.sends == s.sends[m.sid := x.(stage := Delivered(m.out, m.verdict))]
  {
    assert !KeyTaken(c, m.key);
    var d := CreateStep(c, m.sid, m.out);
    assert d.sends == s.sends[m.sid := x.(stage := Created(m.out))];
  }

  /** A send that is not there any more takes no further step. */
  lemma Stops(s: System, m: Mailing)
    requires m.sid !in s.sends
    ensures DeliverStep(CreateStep(s, m.sid, m.out), m.sid, m.verdict) == s
  {
  }

  lemma Ends(env: Env, s: System, m: Mailing, t: System)
    requires Fresh(env, s, m) && Started(env, s, m, t)
    ensures var (u, d) := (Exec(env, t, Ending(m)), s.drafts[m.draft]);
            var a, v := s.accounts[d.account], Current(d);
            if InTime(m) then
              && u.rows == s.rows[m.out := Row(m.draft, v.number, m.key, Queued, 0, 0, m.token, a, v)]
              && u.smtp == s.smtp + (if m.verdict == Blocked then [] else [Submission(m.out, v, a.email, m.verdict)])
              && u.sends == s.sends[m.sid := Sending(m.draft, a, v, m.key, m.token, Delivered(m.out, m.verdict))]
              && u.now == t.now
            else u.rows == s.rows && u.smtp == s.smtp && u.sends == s.sends
  {
    ExecThree(env, t, Ending(m));
    Consumes(env, s, m, t);
    var c := ConsumeStep(env, t, m.sid);
    assert Exec(env, t, Ending(m)) == DeliverStep(CreateStep(c, m.sid, m.out), m.sid, m.verdict);
    if InTime(m) { GoesOut(s, m, c, c.sends[m.sid]); } else { Stops(c, m); }
  }

  /** What an outcome of the first attempt makes of its row. */
  function FirstStatus(env: Env, verdict: Verdict): Status {
    match verdict
    case Accepted => Sent
    case AnswerLost => Uncertain
    case Temporary => if env.maxRetries > 1 then RetryWait else Failed
    case Permanent => Failed
    case Blocked => Failed
  }

  /**
    A draft that is approved and then sent under a new key goes out exactly if the approval has not
    expired: once, the version and sender approved, and its row tells how that went.  Otherwise nothing
    is sent and no row changes.
   */
  lemma ApprovedGoesOut(env: Env, s: System, m: Mailing)
    requires Fresh(env, s, m)
    ensures var (t, d) := (Exec(env, s, Steps(m)), s.drafts[m.draft]);
            var a, v := s.accounts[d.account], Current(d);
            && t.sends == s.sends
            && (if InTime(m) then
                  && t.smtp == s.smtp
                       + (if m.verdict == Blocked then [] else [Submission(m.out, v, a.email, m.verdict)])
                  && t.rows.Keys == s.rows.Keys + {m.out} && (forall o :: o in s.rows ==> t.rows[o] == s.rows[o])
                  && t.rows[m.out].status == FirstStatus(env, m.verdict) && t.rows[m.out].attempts == 1
                  && t.rows[m.out].draft == m.draft && t.rows[m.out].number == v.number && t.rows[m.out].key == m.key
                  && (m.verdict == Temporary && env.maxRetries > 1 ==> t.rows[m.out].due == t.now + env.backoff(1))
                else t.smtp == s.smtp && t.rows == s.rows)
  {
    var b, e := Beginning(m), Ending(m);
    Starts(env, s, m);
    var t := Exec(env, s, b);
    Ends(env, s, m, t);
    ExecAppend(env, s, b, e);
    var u := Exec(env, t, e);
    assert Steps(m)[..|b| + |e|] == b + e;
    assert Exec(env, s, Steps(m)) == FinishStep(env, u, m.sid, true);
  }

  // ----- closed drafts -----

  lemma ClosedStep(env: Env, s: System, id: Id, op: Op)
    requires id in s.drafts && !s.drafts[id].open
    ensures id in Step(env, s, op).drafts && Step(env, s, op).drafts[id] == s.drafts[id]
  {
  }

  lemma {:induction false} StaysClosed(env: Env, s: System, id: Id, ops: seq<Op>)
    requires id in s.drafts && !s.drafts[id].open
    ensures id in Exec(env, s, ops).drafts && Exec(env, s, ops).drafts[id] == s.drafts[id]
  {
    if ops != [] {
      StaysClosed(env, s, id, ops[..|ops| - 1]);
      ClosedStep(env, Exec(env, s, ops[..|ops| - 1]), id, ops[|ops| - 1]);
    }
  }

  /** A draft that was closed, as by a delivery, is never edited again. */
  lemma ClosedIsFrozen(env: Env, s: System, id: Id, ops: seq<Op>)
    requires id in s.drafts
    ensures var t := Exec(env, Step(env, s, Close(id)), ops);
            id in t.drafts && t.drafts[id].versions == s.drafts[id].versions && !t.drafts[id].open
  {
    StaysClosed(env, Step(env, s, Close(id)), id, ops);
  }

  /** An open one takes an edit, under the next number. */
  lemma OpenTakesEdits(env: Env, s: System, id: Id, accountId: Id, first: Version, content: Version)
    requires id !in s.drafts
    ensures var t := Step(env, Step(env, s, NewDraft(id, accountId, first)), Edit(id, content));
            id in t.drafts && t.drafts[id] == Draft(accountId, true, [first.(number := 1), content.(number := 2)])
  {
  }
}
