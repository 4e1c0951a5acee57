/**
  What becomes of an outbound row: the statuses of applySendResult (internal/application/send.go) and
  the retries of ProcessRetries (internal/application/scheduler.go), over the runs of module Outbox.
 */
module OutboxFlow {
  import opened Outbox

  predicate Final(st: Status) { st == Sent || st == Failed || st == Uncertain }

  predicate Submits(x: Sending) { x.stage.Created? || x.stage.Delivered? }

  // ----- sends and workers keep out of each other's rows -----

  /** A send that created a row is the only one on it, and the row waits for it in `Queued`. */
  predicate SendHolds(s: System, x: Id) {
    x in s.sends && Submits(s.sends[x]) ==>
      s.sends[x].stage.out in s.rows && s.rows[s.sends[x].stage.out].status == Queued
  }

  predicate OneSend(s: System, x: Id, y: Id) {
    x in s.sends && y in s.sends && x != y && Submits(s.sends[x]) && Submits(s.sends[y]) ==>
      s.sends[x].stage.out != s.sends[y].stage.out
  }

  /** A listed row was due when it was listed, and is no longer queued. */
  predicate TodoHolds(s: System, w: Id, o: Id) {
    o in WorkerOf(s, w).todo ==>
      && o in s.rows && s.rows[o].status != Queued
      && Snapshot(s, w, o).status == RetryWait && Snapshot(s, w, o).due <= s.now
  }

  predicate TurnHolds(s: System, w: Id) {
    WorkerOf(s, w).turn.Attempting? ==> Attempts(s, w, WorkerOf(s, w).turn.out)
  }

  ghost predicate Flow(s: System) {
    && (forall x :: SendHolds(s, x)) && (forall x, y :: OneSend(s, x, y))
    && (forall w, o :: TodoHolds(s, w, o)) && (forall w :: TurnHolds(s, w))
  }

  /** The step writes row o: its send finishes, or a worker records or abandons it. */
  predicate Touches(s: System, op: Op, o: Id) {
    || (op.Finish? && op.written && op.sid in s.sends && s.sends[op.sid].stage.Delivered?
        && s.sends[op.sid].stage.out == o)
    || (op.Settle? && op.written && Attempts(s, op.w, o))
    || (op.Abandon? && op.written && op.out == o && Listed(s, op.w, o))
  }

  lemma RowUntouched(env: Env, s: System, op: Op, o: Id)
    requires o in s.rows && !Touches(s, op, o)
    ensures o in Step(env, s, op).rows && Step(env, s, op).rows[o] == s.rows[o]
  {
    if op.Create? || op.Finish? || op.Settle? || op.Abandon? { RowSteps(env, s, op); } else { SameRows(env, s, op); }
  }

  lemma NotRequeued(env: Env, s: System, op: Op, o: Id)
    requires o in s.rows && s.rows[o].status != Queued
    ensures o in Step(env, s, op).rows && Step(env, s, op).rows[o].status != Queued
  {
    if op.Create? || op.Finish? || op.Settle? || op.Abandon? { RowSteps(env, s, op); } else { SameRows(env, s, op); }
  }

  /** How one step can change a worker. */
  lemma TurnStep(env: Env, s: System, op: Op, w: Id)
    ensures var a, b := WorkerOf(s, w), WorkerOf(Step(env, s, op), w);
            || b == a
            || (op.List? && op.w == w && a.turn == Resting && b.turn == Resting)
            || (op.Pick? && op.w == w && Listed(s, w, op.out) && b == a.(turn := Attempting(op.out, op.verdict)))
            || (op.Settle? && op.w == w && a.turn.Attempting? && b == Worker(a.todo - {a.turn.out}, Resting))
            || (op.Abandon? && op.w == w && a.turn == Resting && b == Worker(a.todo - {op.out}, Resting))
  {
    if !op.List? && !op.Pick? && !op.Settle? && !op.Abandon? { SameWorkers(env, s, op); }
  }

  lemma StepFlow(env: Env, s: System, op: Op)
    requires Flow(s)
    ensures Flow(Step(env, s, op))
  {
    var t := Step(env, s, op);
    forall x ensures SendHolds(t, x) { StepSendHolds(env, s, op, x); }
    forall x, y ensures OneSend(t, x, y) { StepOneSend(env, s, op, x, y); }
    forall w, o ensures TodoHolds(t, w, o) { assert TodoHolds(s, w, o); StepTodoHolds(env, s, op, w, o); }
    forall w ensures TurnHolds(t, w) { assert TurnHolds(s, w); StepTurnHolds(env, s, op, w); }
  }

  lemma StepTodoHolds(env: Env, s: System, op: Op, w: Id, o: Id)
    requires TodoHolds(s, w, o)
    ensures TodoHolds(Step(env, s, op), w, o)
  {
    if o in WorkerOf(Step(env, s, op), w).todo {
      TodoStep(env, s, op, w, o);
      NotRequeued(env, s, op, o);
      ClockRuns(env, s, op);
    }
  }

  lemma ClockRuns(env: Env, s: System, op: Op)
    ensures s.now <= Step(env, s, op).now
  {
  }

  lemma StepTurnHolds(env: Env, s: System, op: Op, w: Id)
    requires TurnHolds(s, w)
    ensures TurnHolds(Step(env, s, op), w)
  {
    TurnStep(env, s, op, w);
    var b := WorkerOf(Step(env, s, op), w);
    if b.turn.Attempting? { RowsKept(env, s, op, b.turn.out); }
  }

  /** A send holding a row has just created it, has just delivered it, or stands where it stood. */
  lemma SendProgress(env: Env, s: System, op: Op, x: Id)
    requires var t := Step(env, s, op); x in t.sends && Submits(t.sends[x])
    ensures var t := Step(env, s, op);
            var st := t.sends[x].stage;
            || (op.Create? && op.sid == x && st == Created(op.out) && op.out !in s.rows && op.out in t.rows
                && t.rows[op.out].status == Queued)
            || (op.Deliver? && op.sid == x && x in s.sends && s.sends[x].stage == Created(st.out)
                && st == Delivered(st.out, op.verdict))
            || (x in s.sends && t.sends[x] == s.sends[x] && !(op.Deliver? && op.sid == x && s.sends[x].stage.Created?)
                && !(op.Finish? && op.sid == x && s.sends[x].stage.Delivered? && s.sends[x].stage.out in s.rows))
  {
    match op
    case Create(sid, out) => CreateProgress(s, sid, out, x);
    case Deliver(sid, verdict) => DeliverProgress(s, sid, verdict, x);
    case Finish(sid, written) => FinishProgress(env, s, sid, written, x);
    case _ => OtherSends(env, s, op, x);
  }

  lemma CreateProgress(s: System, sid: Id, out: Id, x: Id)
    requires x in CreateStep(s, sid, out).sends && Submits(CreateStep(s, sid, out).sends[x])
    ensures var t := CreateStep(s, sid, out);
            || (sid == x && t.sends[x].stage == Created(out) && out !in s.rows && out in t.rows
                && t.rows[out].status == Queued)
            || (x in s.sends && t.sends[x] == s.sends[x])
  {
  }

  lemma DeliverProgress(s: System, sid: Id, verdict: Verdict, x: Id)
    requires x in DeliverStep(s, sid, verdict).sends && Submits(DeliverStep(s, sid, verdict).sends[x])
    ensures var t := DeliverStep(s, sid, verdict);
            var st := t.sends[x].stage;
            || (sid == x && x in s.sends && s.sends[x].stage == Created(st.out) && st == Delivered(st.out, verdict))
            || (x in s.sends && t.sends[x] == s.sends[x] && !(sid == x && s.sends[x].stage.Created?))
  {
  }

  lemma FinishProgress(env: Env, s: System, sid: Id, written: bool, x: Id)
    requires x in FinishStep(env, s, sid, written).sends && Submits(FinishStep(env, s, sid, written).sends[x])
    ensures x in s.sends && FinishStep(env, s, sid, written).sends[x] == s.sends[x]
    ensures !(sid == x && s.sends[x].stage.Delivered? && s.sends[x].stage.out in s.rows)
  {
  }

  lemma OtherSends(env: Env, s: System, op: Op, x: Id)
    requires !op.Create? && !op.Deliver? && !op.Finish?
    ensures var t := Step(env, s, op); x in t.sends && Submits(t.sends[x]) ==> x in s.sends && t.sends[x] == s.sends[x]
  {
    if op.StartSend? {
      assert Step(env, s, op) == StartStep(env, s, op.sid, op.draft, op.token, op.key);
    } else if op.Consume? {
      assert Step(env, s, op) == ConsumeStep(env, s, op.sid);
    } else {
      SameSends(env, s, op);
    }
  }

  lemma StepSendHolds(env: Env, s: System, op: Op, x: Id)
    requires Flow(s)
    ensures SendHolds(Step(env, s, op), x)
  {
    assert SendHolds(s, x);
    var t := Step(env, s, op);
    if x in t.sends && Submits(t.sends[x]) {
      SendProgress(env, s, op, x);
      if x in s.sends && Submits(s.sends[x]) { HeldRow(env, s, op, x); }
    }
  }

  /** Only its own send moves a row out of Queued. */
  lemma HeldRow(env: Env, s: System, op: Op, x: Id)
    requires Flow(s) && x in s.sends && Submits(s.sends[x]) && SendHolds(s, x)
    requires !(op.Finish? && op.sid == x && s.sends[x].stage.Delivered?)
    ensures var o := s.sends[x].stage.out; o in Step(env, s, op).rows && Step(env, s, op).rows[o] == s.rows[o]
  {
    var o := s.sends[x].stage.out;
    if op.Finish? { assert OneSend(s, x, op.sid); } else if op.Settle? || op.Abandon? { assert TodoHolds(s, op.w, o); }
    RowUntouched(env, s, op, o);
  }

  lemma StepOneSend(env: Env, s: System, op: Op, x: Id, y: Id)
    requires Flow(s)
    ensures OneSend(Step(env, s, op), x, y)
  {
    assert OneSend(s, x, y) && SendHolds(s, x) && SendHolds(s, y);
    var t := Step(env, s, op);
    if x in t.sends && y in t.sends && Submits(t.sends[x]) && Submits(t.sends[y]) {
      SendProgress(env, s, op, x);
      SendProgress(env, s, op, y);
    }
  }

  lemma {:induction false} RunFlow(env: Env, ops: seq<Op>)
    ensures Flow(Run(env, ops))
  {
    if ops != [] {
      RunFlow(env, ops[..|ops| - 1]);
      StepFlow(env, Run(env, ops[..|ops| - 1]), ops[|ops| - 1]);
    }
  }

  // ----- workers that keep out of each other's rows -----

  /** Worker w's next row is as it read it, and no other worker is at it. */
  ghost predicate Alone(s: System, w: Id, out: Id) {
    Listed(s, w, out) ==> s.rows[out] == Snapshot(s, w, out) && forall v :: v != w ==> !Attempts(s, v, out)
  }

  /** No worker takes up a row that another is at or has been at since it was listed. */
  ghost predicate Solo(s: System, op: Op) {
    (op.Pick? ==> Alone(s, op.w, op.out)) && (op.Abandon? ==> Alone(s, op.w, op.out))
  }

  ghost predicate SoloRun(env: Env, s: System, ops: seq<Op>) {
    forall i :: 0 <= i < |ops| ==> Solo(Exec(env, s, ops[..i]), ops[i])
  }

  /** The row under an attempt is as its worker read it. */
  predicate AsRead(s: System, w: Id, o: Id) { Attempts(s, w, o) ==> s.rows[o] == Snapshot(s, w, o) }

  predicate OneWorker(s: System, w: Id, v: Id, o: Id) { Attempts(s, w, o) && Attempts(s, v, o) ==> w == v }

  ghost predicate Exclusive(s: System) {
    (forall w, o :: AsRead(s, w, o)) && (forall w, v, o :: OneWorker(s, w, v, o))
  }

  /** A worker at row o was at it before, undisturbed, or has just taken it up. */
  lemma AttemptStep(env: Env, s: System, op: Op, w: Id, o: Id)
    requires Flow(s) && Exclusive(s) && Solo(s, op) && Attempts(Step(env, s, op), w, o)
    ensures o in s.rows && Step(env, s, op).rows[o] == s.rows[o] == Snapshot(Step(env, s, op), w, o)
    ensures || (Attempts(s, w, o) && WorkerOf(Step(env, s, op), w) == WorkerOf(s, w) && !(op.Settle? && op.w == w)
                && !(op.Pick? && op.out == o && Listed(s, op.w, o)))
            || (op.Pick? && op.w == w && op.out == o && Listed(s, w, o)
                && WorkerOf(Step(env, s, op), w).turn == Attempting(o, op.verdict))
  {
    TurnStep(env, s, op, w);
    assert TodoHolds(s, w, o) && AsRead(s, w, o) && TurnHolds(s, w);
    if op.Settle? {
      assert OneWorker(s, w, op.w, o);
      if op.w == w { SettleLeaves(env, s, op, w); }
    } else if op.Finish? {
      assert SendHolds(s, op.sid);
    }
    RowUntouched(env, s, op, o);
  }

  lemma SettleLeaves(env: Env, s: System, op: Op, w: Id)
    requires op.Settle? && op.w == w && TurnHolds(s, w)
    ensures WorkerOf(Step(env, s, op), w).turn == Resting
  {
  }

  lemma StepExclusive(env: Env, s: System, op: Op)
    requires Flow(s) && Exclusive(s) && Solo(s, op)
    ensures Exclusive(Step(env, s, op))
  {
    var t := Step(env, s, op);
    forall w, o ensures AsRead(t, w, o) {
      if Attempts(t, w, o) { AttemptStep(env, s, op, w, o); }
    }
    forall w, v, o ensures OneWorker(t, w, v, o) {
      if Attempts(t, w, o) && Attempts(t, v, o) {
        AttemptStep(env, s, op, w, o);
        AttemptStep(env, s, op, v, o);
        assert OneWorker(s, w, v, o);
      }
    }
  }

  // ----- final statuses -----

  lemma FinalStep(env: Env, s: System, op: Op, o: Id)
    requires Flow(s) && Exclusive(s) && Solo(s, op) && o in s.rows && Final(s.rows[o].status)
    ensures o in Step(env, s, op).rows && Step(env, s, op).rows[o] == s.rows[o]
    ensures Verdicts(Step(env, s, op).smtp, o) == Verdicts(s.smtp, o)
  {
    if op.Finish? || op.Deliver? { assert SendHolds(s, op.sid); }
    if op.Settle? || op.Abandon? || op.Pick? { assert TodoHolds(s, op.w, o) && AsRead(s, op.w, o); }
    RowUntouched(env, s, op, o);
    SubmitsOnce(env, s, op, o);
  }

  lemma {:induction false} FinalExec(env: Env, s: System, ops: seq<Op>, o: Id)
    requires Flow(s) && Exclusive(s) && SoloRun(env, s, ops) && o in s.rows && Final(s.rows[o].status)
    ensures var t := Exec(env, s, ops);
            Flow(t) && Exclusive(t) && o in t.rows && t.rows[o] == s.rows[o]
                && Verdicts(t.smtp, o) == Verdicts(s.smtp, o)
  {
    if ops != [] {
      var n := |ops| - 1;
      var m := Exec(env, s, ops[..n]);
      Prefixes(ops);
      FinalExec(env, s, ops[..n], o);
      StepFlow(env, m, ops[n]);
      StepExclusive(env, m, ops[n]);
      FinalStep(env, m, ops[n], o);
    }
  }

  lemma {:induction false} RunExclusive(env: Env, ops: seq<Op>)
    requires SoloRun(env, EMPTY, ops)
    ensures Exclusive(Run(env, ops))
  {
    if ops != [] {
      var n := |ops| - 1;
      Prefixes(ops);
      RunExclusive(env, ops[..n]);
      RunFlow(env, ops[..n]);
      StepExclusive(env, Run(env, ops[..n]), ops[n]);
    }
  }

  /**
    Sent, failed and uncertain are final in every run in which workers keep out of each other's rows,
    even one that loses writes, and nothing more is submitted.
   */
  lemma FinalIsFinal(env: Env, before: seq<Op>, after: seq<Op>, o: Id)
    requires SoloRun(env, EMPTY, before) && SoloRun(env, Run(env, before), after)
    requires o in Run(env, before).rows && Final(Run(env, before).rows[o].status)
    ensures var t := Exec(env, Run(env, before), after); o in t.rows && t.rows[o] == Run(env, before).rows[o]
    ensures Verdicts(Exec(env, Run(env, before), after).smtp, o) == Verdicts(Run(env, before).smtp, o)
  {
    RunFlow(env, before);
    RunExclusive(env, before);
    FinalExec(env, Run(env, before), after, o);
  }

  /** In any run at all, a final row is changed only by a worker that listed it while it was still waiting. */
  lemma OnlyStaleListsUndo(env: Env, ops: seq<Op>, op: Op, o: Id)
    requires o in Run(env, ops).rows && Final(Run(env, ops).rows[o].status)
    requires Step(env, Run(env, ops), op).rows[o] != Run(env, ops).rows[o]
    ensures op.Settle? || op.Abandon?
    ensures var s := Run(env, ops); o in WorkerOf(s, op.w).todo && Snapshot(s, op.w, o).status == RetryWait
  {
    var s := Run(env, ops);
    RunFlow(env, ops);
    assert op.Finish? ==> SendHolds(s, op.sid);
    assert op.Settle? || op.Abandon? ==> TodoHolds(s, op.w, o);
    if !Touches(s, op, o) { RowUntouched(env, s, op, o); }
  }

  // ----- ticks that do not overlap -----

  /** A worker lists rows only when every other one is through with its own. */
  ghost predicate NoOverlap(s: System, op: Op) {
    op.List? ==> forall v :: v != op.w ==> WorkerOf(s, v).todo == map[]
  }

  predicate Busyless(s: System, w: Id, v: Id) {
    w != v ==> WorkerOf(s, w).todo == map[] || WorkerOf(s, v).todo == map[]
  }

  predicate Fresh(s: System, w: Id, o: Id) {
    o in WorkerOf(s, w).todo ==> o in s.rows && Snapshot(s, w, o) == s.rows[o]
  }

  ghost predicate OneTick(s: System) { (forall w, v :: Busyless(s, w, v)) && (forall w, o :: Fresh(s, w, o)) }

  lemma OneTickIsSolo(s: System, op: Op)
    requires OneTick(s)
    ensures Solo(s, op)
  {
    if op.Pick? || op.Abandon? {
      assert Fresh(s, op.w, op.out);
      forall v | v != op.w && Listed(s, op.w, op.out) ensures !Attempts(s, v, op.out) { assert Busyless(s, op.w, v); }
    }
  }

  lemma TodoShrinks(env: Env, s: System, op: Op, w: Id)
    requires !(op.List? && op.w == w) && WorkerOf(s, w).todo == map[]
    ensures WorkerOf(Step(env, s, op), w).todo == map[]
  {
    forall o | o in WorkerOf(Step(env, s, op), w).todo ensures false { TodoStep(env, s, op, w, o); }
  }

  lemma StepOneTick(env: Env, s: System, op: Op)
    requires Flow(s) && OneTick(s) && NoOverlap(s, op)
    ensures OneTick(Step(env, s, op))
  {
    var t := Step(env, s, op);
    forall w, v ensures Busyless(t, w, v) {
      assert Busyless(s, w, v);
      if w != v {
        if WorkerOf(s, w).todo == map[] && !(op.List? && op.w == w) { TodoShrinks(env, s, op, w); }
        if WorkerOf(s, v).todo == map[] && !(op.List? && op.w == v) { TodoShrinks(env, s, op, v); }
      }
    }
    forall w, o ensures Fresh(t, w, o) { StepFresh(env, s, op, w, o); }
  }

  lemma StepFresh(env: Env, s: System, op: Op, w: Id, o: Id)
    requires Flow(s) && OneTick(s)
    ensures Fresh(Step(env, s, op), w, o)
  {
    var t := Step(env, s, op);
    if o in WorkerOf(t, w).todo {
      TodoStep(env, s, op, w, o);
      if o in WorkerOf(s, w).todo && !op.List? {
        assert Fresh(s, w, o) && TodoHolds(s, w, o);
        if op.Finish? { assert SendHolds(s, op.sid); }
        if op.Settle? || op.Abandon? { assert Busyless(s, w, op.w); SettledGone(env, s, op, o); }
        RowUntouched(env, s, op, o);
      } else {
        ListReads(env, s, op);
      }
    }
  }

  lemma ListReads(env: Env, s: System, op: Op)
    requires op.List?
    ensures Step(env, s, op).rows == s.rows
  {
  }

  lemma SettledGone(env: Env, s: System, op: Op, o: Id)
    requires op.Settle? || op.Abandon?
    ensures Touches(s, op, o) ==> o !in WorkerOf(Step(env, s, op), op.w).todo
  {
  }

  /** Ticks of one worker at a time -- what leadership is for -- keep workers out of each other's rows. */
  lemma {:induction false} SeparateTicksAreSolo(env: Env, ops: seq<Op>)
    requires forall i :: 0 <= i < |ops| ==> NoOverlap(Run(env, ops[..i]), ops[i])
    ensures OneTick(Run(env, ops)) && SoloRun(env, EMPTY, ops)
  {
    if ops != [] {
      var n := |ops| - 1;
      Prefixes(ops);
      SeparateTicksAreSolo(env, ops[..n]);
      RunFlow(env, ops[..n]);
      StepOneTick(env, Run(env, ops[..n]), ops[n]);
      OneTickIsSolo(Run(env, ops[..n]), ops[n]);
      SoloOneMore(env, EMPTY, ops);
    }
  }

  lemma SoloOneMore(env: Env, s: System, ops: seq<Op>)
    requires ops != [] && SoloRun(env, s, ops[..|ops| - 1]) && Solo(Exec(env, s, ops[..|ops| - 1]), ops[|ops| - 1])
    ensures SoloRun(env, s, ops)
  {
    var before := ops[..|ops| - 1];
    forall i | 0 <= i < |ops| ensures Solo(Exec(env, s, ops[..i]), ops[i]) {
      if i < |before| {
        assert before[..i] == ops[..i] && before[i] == ops[i];
        assert Solo(Exec(env, s, before[..i]), before[i]);
      }
    }
  }

  // ----- the submissions of one row -----

  /** The verdicts of the submissions of row o, in order. */
  function Verdicts(log: seq<Submission>, o: Id): seq<Verdict> {
    if log == [] then []
    else
      var n := |log| - 1;
      Verdicts(log[..n], o) + if log[n].out == o then [log[n].verdict] else []
  }

  /** Who submits o in a step, and how it ends; None when nobody does. */
  datatype Attempt = None | Ended(verdict: Verdict)

  function AttemptOn(s: System, op: Op, o: Id): Attempt {
    if op.Deliver? && op.sid in s.sends && s.sends[op.sid].stage == Created(o) then Ended(op.verdict)
    else if op.Pick? && op.out == o && Listed(s, op.w, o) && Reads(s, Snapshot(s, op.w, o).draft) then Ended(op.verdict)
    else None
  }

  function Added(a: Attempt): seq<Verdict> { if a == None || a.verdict == Blocked then [] else [a.verdict] }

  lemma VerdictsAdd(log: seq<Submission>, more: seq<Submission>, o: Id)
    requires |more| <= 1
    ensures Verdicts(log + more, o)
            == Verdicts(log, o) + if more != [] && more[0].out == o then [more[0].verdict] else []
  {
    if more == [] { assert log + more == log; } else { assert (log + more)[..|log|] == log; }
  }

  lemma SubmitsOnce(env: Env, s: System, op: Op, o: Id)
    ensures Verdicts(Step(env, s, op).smtp, o) == Verdicts(s.smtp, o) + Added(AttemptOn(s, op, o))
  {
    SmtpAfter(env, s, op);
    VerdictsAdd(s.smtp, Sends(s, op), o);
  }

  // ----- what has been done about a row -----

  /**
    How each attempt on a row ended, a blocked one included; whether it was given up because its draft or
    account could not be read; and when its last outcome was recorded.
   */
  datatype Past = Past(endings: seq<Verdict>, abandoned: bool, recordedAt: int)

  function Further(s: System, op: Op, o: Id, p: Past): Past {
    var a := AttemptOn(s, op, o);
    Past(p.endings + if a == None then [] else [a.verdict], p.abandoned || (op.Abandon? && Touches(s, op, o)),
         if !op.Abandon? && Touches(s, op, o) then s.now else p.recordedAt)
  }

  function PastOf(env: Env, ops: seq<Op>, o: Id): Past {
    if ops == [] then Past([], false, 0)
    else
      var n := |ops| - 1;
      Further(Run(env, ops[..n]), ops[n], o, PastOf(env, ops[..n], o))
  }

  function Pasts(env: Env, ops: seq<Op>): Id -> Past { (o: Id) => PastOf(env, ops, o) }

  /** The endings that reached SMTP. */
  function Handed(es: seq<Verdict>): seq<Verdict> {
    if es == [] then [] else Handed(es[..|es| - 1]) + Added(Ended(es[|es| - 1]))
  }

  lemma HandedAdd(es: seq<Verdict>, v: Verdict)
    ensures Handed(es + [v]) == Handed(es) + Added(Ended(v))
  {
    assert (es + [v])[..|es|] == es;
  }

  /** In every run the log holds exactly the attempts that were not blocked. */
  lemma {:induction false} LogIsPast(env: Env, ops: seq<Op>, o: Id)
    ensures Verdicts(Run(env, ops).smtp, o) == Handed(PastOf(env, ops, o).endings)
  {
    if ops != [] {
      var n := |ops| - 1;
      var s := Run(env, ops[..n]);
      LogIsPast(env, ops[..n], o);
      SubmitsOnce(env, s, ops[n], o);
      if AttemptOn(s, ops[n], o) != None {
        HandedAdd(PastOf(env, ops[..n], o).endings, AttemptOn(s, ops[n], o).verdict);
      } else {
        assert PastOf(env, ops, o).endings == PastOf(env, ops[..n], o).endings;
      }
    }
  }

  // ----- the status of a row tells its past -----

  predicate AllTemporary(es: seq<Verdict>) { forall i :: 0 <= i < |es| ==> es[i] == Temporary }

  /** Every attempt but the last was turned down for now, and the last ended so. */
  predicate EndsIn(es: seq<Verdict>, v: Verdict) {
    es != [] && es[|es| - 1] == v && AllTemporary(es[..|es| - 1])
  }

  /** What must have happened to a row that has this status. */
  predicate Deserved(env: Env, st: Status, p: Past) {
    var es := p.endings;
    match st
    case Queued => |es| <= 1
    case RetryWait => EndsIn(es, Temporary) && |es| < MaxAttempts(env) && !p.abandoned
    case Sent => EndsIn(es, Accepted)
    case Uncertain => EndsIn(es, AnswerLost)
    case Failed =>
      || EndsIn(es, Permanent) || EndsIn(es, Blocked)
      || (EndsIn(es, Temporary) && (|es| == MaxAttempts(env) || p.abandoned))
  }

  /** A row and its past; `busy` says that a retry of it is under way. */
  predicate RowFits(env: Env, r: Row, p: Past, busy: bool) {
    && (p.abandoned ==> r.status == Failed)
    && (r.status == Queued ==> r.attempts == 0 && |p.endings| <= 1)
    && (r.status == RetryWait ==>
          0 < r.attempts < MaxAttempts(env) && r.due == p.recordedAt + env.backoff(r.attempts))
    && (r.status != Queued && !(busy && r.status == RetryWait) ==>
          Deserved(env, r.status, p) && |p.endings| == r.attempts <= MaxAttempts(env))
  }

  ghost predicate Busy(s: System, o: Id) { exists w :: Attempts(s, w, o) }

  ghost predicate RowLog(env: Env, s: System, h: Id -> Past, o: Id) {
    if o in s.rows then RowFits(env, s.rows[o], h(o), Busy(s, o)) else h(o).endings == [] && !h(o).abandoned
  }

  predicate WorkerLog(s: System, h: Id -> Past, w: Id, o: Id) {
    Attempts(s, w, o) ==>
      EndsIn(h(o).endings, WorkerOf(s, w).turn.verdict) && |h(o).endings| == s.rows[o].attempts + 1
  }

  predicate SendLog(s: System, h: Id -> Past, x: Id) {
    x in s.sends && Submits(s.sends[x]) ==>
      var st := s.sends[x].stage;
      h(st.out).endings == if st.Created? then [] else [st.verdict]
  }

  ghost predicate Logged(env: Env, s: System, h: Id -> Past) {
    && Flow(s) && Exclusive(s) && (forall o :: RowLog(env, s, h, o))
    && (forall w, o :: WorkerLog(s, h, w, o)) && (forall x :: SendLog(s, h, x))
  }

  /** h goes on to k in the step. */
  ghost predicate GoesOn(s: System, op: Op, h: Id -> Past, k: Id -> Past) {
    forall o :: k(o) == Further(s, op, o, h(o))
  }

  /** The worker's record of a retry is not lost. */
  predicate Recorded(op: Op) { op.Settle? ==> op.written }

  lemma SettledFits(env: Env, r: Row, p: Past, v: Verdict, now: int)
    requires r.attempts < MaxAttempts(env) && EndsIn(p.endings, v) && |p.endings| == r.attempts + 1
    requires p.recordedAt == now && !p.abandoned
    ensures RowFits(env, AfterResult(env, r, v, now), p, false)
  {
  }

  lemma PickedFits(es: seq<Verdict>, v: Verdict)
    requires AllTemporary(es)
    ensures EndsIn(es + [v], v)
  {
    assert (es + [v])[..|es|] == es;
  }

  lemma TemporarySoFar(es: seq<Verdict>)
    requires EndsIn(es, Temporary)
    ensures AllTemporary(es)
  {
    assert es == es[..|es| - 1] + [es[|es| - 1]];
  }

  /** A row whose retry is not settled in this step is still under it. */
  lemma StillBusy(env: Env, s: System, op: Op, o: Id)
    requires Flow(s) && Busy(s, o) && !Touches(s, op, o) && Recorded(op)
    ensures Busy(Step(env, s, op), o)
  {
    var w :| Attempts(s, w, o);
    TurnStep(env, s, op, w);
    RowsKept(env, s, op, o);
    assert Attempts(Step(env, s, op), w, o);
  }

  /** Steps that leave row o and its submissions alone. */
  lemma RowLogSame(env: Env, s: System, op: Op, h: Id -> Past, k: Id -> Past, o: Id)
    requires Flow(s) && RowLog(env, s, h, o) && Recorded(op) && o in s.rows && !Touches(s, op, o)
             && AttemptOn(s, op, o) == None && GoesOn(s, op, h, k)
    ensures RowLog(env, Step(env, s, op), k, o)
  {
    RowUntouched(env, s, op, o);
    assert k(o) == Further(s, op, o, h(o)) == h(o);
    if Busy(s, o) { StillBusy(env, s, op, o); }
  }

  lemma NewRowLog(env: Env, s: System, op: Op, h: Id -> Past, k: Id -> Past, o: Id)
    requires RowLog(env, s, h, o) && o !in s.rows && Flow(s) && GoesOn(s, op, h, k)
    ensures RowLog(env, Step(env, s, op), k, o)
  {
    if op.Deliver? { assert SendHolds(s, op.sid); }
    assert k(o) == Further(s, op, o, h(o));
    if o in Step(env, s, op).rows { RowOrigin(env, s, op, o); }
  }

  lemma FinishLog(env: Env, s: System, op: Op, h: Id -> Past, k: Id -> Past, o: Id)
    requires op.Finish? && Touches(s, op, o) && SendHolds(s, op.sid) && SendLog(s, h, op.sid) && RowLog(env, s, h, o)
    requires GoesOn(s, op, h, k)
    ensures RowLog(env, Step(env, s, op), k, o)
  {
    var v := s.sends[op.sid].stage.verdict;
    assert k(o) == Further(s, op, o, h(o));
    assert EndsIn([v], v);
    SettledFits(env, s.rows[o], k(o), v, s.now);
    assert Step(env, s, op) == FinishStep(env, s, op.sid, op.written);
  }

  lemma SettleLog(env: Env, s: System, op: Op, h: Id -> Past, k: Id -> Past, o: Id)
    requires op.Settle? && Touches(s, op, o) && AsRead(s, op.w, o) && WorkerLog(s, h, op.w, o) && RowLog(env, s, h, o)
    requires TodoHolds(s, op.w, o) && GoesOn(s, op, h, k)
    ensures RowLog(env, Step(env, s, op), k, o)
  {
    assert k(o) == Further(s, op, o, h(o));
    SettledFits(env, s.rows[o], k(o), WorkerOf(s, op.w).turn.verdict, s.now);
    assert Step(env, s, op) == SettleStep(env, s, op.w, op.written);
  }

  lemma AbandonLog(env: Env, s: System, op: Op, h: Id -> Past, k: Id -> Past, o: Id)
    requires op.Abandon? && Touches(s, op, o) && Alone(s, op.w, o) && TodoHolds(s, op.w, o) && RowLog(env, s, h, o)
    requires GoesOn(s, op, h, k)
    ensures RowLog(env, Step(env, s, op), k, o)
  {
    assert !Busy(s, o);
    assert k(o) == Further(s, op, o, h(o));
    assert Step(env, s, op) == AbandonStep(s, op.w, o, op.written);
  }

  lemma AttemptLog(env: Env, s: System, op: Op, h: Id -> Past, k: Id -> Past, o: Id)
    requires Logged(env, s, h) && Solo(s, op) && AttemptOn(s, op, o) != None && GoesOn(s, op, h, k)
    ensures RowLog(env, Step(env, s, op), k, o)
  {
    assert RowLog(env, s, h, o) && k(o) == Further(s, op, o, h(o));
    if op.Deliver? {
      assert SendHolds(s, op.sid) && SendLog(s, h, op.sid);
      RowUntouched(env, s, op, o);
    } else {
      assert TodoHolds(s, op.w, o);
      RowUntouched(env, s, op, o);
      assert Attempts(Step(env, s, op), op.w, o) by {
        assert Step(env, s, op) == PickStep(s, op.w, o, op.readable, op.verdict);
      }
    }
  }

  lemma StepRowLog(env: Env, s: System, op: Op, h: Id -> Past, k: Id -> Past, o: Id)
    requires Logged(env, s, h) && Recorded(op) && Solo(s, op) && GoesOn(s, op, h, k)
    ensures RowLog(env, Step(env, s, op), k, o)
  {
    assert RowLog(env, s, h, o);
    if o !in s.rows {
      NewRowLog(env, s, op, h, k, o);
    } else if AttemptOn(s, op, o) != None {
      AttemptLog(env, s, op, h, k, o);
    } else if !Touches(s, op, o) {
      RowLogSame(env, s, op, h, k, o);
    } else if op.Finish? {
      assert SendHolds(s, op.sid) && SendLog(s, h, op.sid);
      FinishLog(env, s, op, h, k, o);
    } else if op.Settle? {
      assert AsRead(s, op.w, o) && WorkerLog(s, h, op.w, o) && TodoHolds(s, op.w, o);
      SettleLog(env, s, op, h, k, o);
    } else {
      assert TodoHolds(s, op.w, o);
      AbandonLog(env, s, op, h, k, o);
    }
  }

  lemma StepWorkerLog(env: Env, s: System, op: Op, h: Id -> Past, k: Id -> Past, w: Id, o: Id)
    requires Logged(env, s, h) && Solo(s, op) && GoesOn(s, op, h, k)
    ensures WorkerLog(Step(env, s, op), k, w, o)
  {
    var t := Step(env, s, op);
    if Attempts(t, w, o) {
      AttemptStep(env, s, op, w, o);
      assert TodoHolds(s, w, o) && RowLog(env, s, h, o) && WorkerLog(s, h, w, o);
      assert k(o) == Further(s, op, o, h(o));
      if Attempts(s, w, o) {
        assert op.Deliver? ==> SendHolds(s, op.sid);
        NotSubmitted(s, op, w, o);
      } else {
        PickedAlone(s, op, w, o);
        TemporarySoFar(h(o).endings);
        PickedFits(h(o).endings, op.verdict);
      }
    }
  }

  lemma PickedAlone(s: System, op: Op, w: Id, o: Id)
    requires op.Pick? && op.w == w && op.out == o && Listed(s, w, o) && Alone(s, w, o)
    ensures !Busy(s, o)
  {
  }

  /** While one attempt goes on there is no other. */
  lemma NotSubmitted(s: System, op: Op, w: Id, o: Id)
    requires Attempts(s, w, o) && TodoHolds(s, w, o) && (op.Deliver? ==> SendHolds(s, op.sid))
    requires !(op.Pick? && op.out == o && Listed(s, op.w, o))
    ensures AttemptOn(s, op, o) == None
  {
  }

  lemma Undisturbed(s: System, op: Op, x: Id)
    requires Flow(s) && Solo(s, op) && x in s.sends && Submits(s.sends[x])
             && !(op.Deliver? && op.sid == x && s.sends[x].stage.Created?)
    ensures AttemptOn(s, op, s.sends[x].stage.out) == None
  {
    assert SendHolds(s, x);
    if op.Deliver? { assert OneSend(s, x, op.sid); } else if op.Pick? { assert TodoHolds(s, op.w, op.out); }
  }

  lemma StepSendLog(env: Env, s: System, op: Op, h: Id -> Past, k: Id -> Past, x: Id)
    requires Logged(env, s, h) && Solo(s, op) && GoesOn(s, op, h, k)
    ensures SendLog(Step(env, s, op), k, x)
  {
    var t := Step(env, s, op);
    if x in t.sends && Submits(t.sends[x]) {
      SendProgress(env, s, op, x);
      var o := t.sends[x].stage.out;
      assert SendLog(s, h, x) && RowLog(env, s, h, o);
      assert k(o) == Further(s, op, o, h(o));
      if x in s.sends && t.sends[x] == s.sends[x] { Undisturbed(s, op, x); }
    }
  }

  lemma StepLogged(env: Env, s: System, op: Op, h: Id -> Past, k: Id -> Past)
    requires Logged(env, s, h) && Recorded(op) && Solo(s, op) && GoesOn(s, op, h, k)
    ensures Logged(env, Step(env, s, op), k)
  {
    var t := Step(env, s, op);
    StepFlow(env, s, op);
    StepExclusive(env, s, op);
    forall o ensures RowLog(env, t, k, o) { StepRowLog(env, s, op, h, k, o); }
    forall w, o ensures WorkerLog(t, k, w, o) { StepWorkerLog(env, s, op, h, k, w, o); }
    forall x ensures SendLog(t, k, x) { StepSendLog(env, s, op, h, k, x); }
  }

  ghost predicate AllRecorded(ops: seq<Op>) { forall i :: 0 <= i < |ops| ==> Recorded(ops[i]) }

  lemma {:induction false} RunLogged(env: Env, ops: seq<Op>)
    requires AllRecorded(ops) && SoloRun(env, EMPTY, ops)
    ensures Logged(env, Run(env, ops), Pasts(env, ops))
  {
    if ops != [] {
      var n := |ops| - 1;
      Prefixes(ops);
      RunLogged(env, ops[..n]);
      StepLogged(env, Run(env, ops[..n]), ops[n], Pasts(env, ops[..n]), Pasts(env, ops));
    }
  }

  /**
    Where the workers' records are kept and no worker takes up a row another has been at, a row that is
    neither queued nor being retried has the one status its past deserves, counts its attempts, and if it
    waits is due a delay after its last outcome was recorded.
   */
  lemma StatusTellsPast(env: Env, ops: seq<Op>, o: Id)
    requires AllRecorded(ops) && SoloRun(env, EMPTY, ops)
    requires o in Run(env, ops).rows && Run(env, ops).rows[o].status != Queued && !Busy(Run(env, ops), o)
    ensures var r, p := Run(env, ops).rows[o], PastOf(env, ops, o);
            && (forall st :: st != Queued ==> (Deserved(env, st, p) <==> r.status == st))
            && r.attempts == |p.endings|
            && (r.status == RetryWait ==> r.due == p.recordedAt + env.backoff(r.attempts))
  {
    RunLogged(env, ops);
    assert RowLog(env, Run(env, ops), Pasts(env, ops), o);
  }

  lemma {:induction false} AllTemporaryHanded(es: seq<Verdict>)
    requires AllTemporary(es)
    ensures Handed(es) == es
  {
    if es != [] {
      AllTemporaryHanded(es[..|es| - 1]);
      assert es == es[..|es| - 1] + [es[|es| - 1]];
    }
  }

  lemma EndHanded(es: seq<Verdict>, v: Verdict)
    requires EndsIn(es, v)
    ensures Handed(es) == es[..|es| - 1] + Added(Ended(v))
  {
    AllTemporaryHanded(es[..|es| - 1]);
  }

  /** The same in terms of what the server was handed and what it answered. */
  predicate LogDeserves(st: Status, vs: seq<Verdict>) {
    match st
    case Queued => |vs| <= 1
    case RetryWait => AllTemporary(vs)
    case Sent => EndsIn(vs, Accepted)
    case Uncertain => EndsIn(vs, AnswerLost)
    case Failed => Accepted !in vs && AnswerLost !in vs
  }

  lemma DeservedByLog(env: Env, st: Status, p: Past)
    requires Deserved(env, st, p)
    ensures LogDeserves(st, Handed(p.endings))
  {
    var es := p.endings;
    if st == Queued {
      if es != [] { assert es == [es[0]]; HandedAdd([], es[0]); }
    } else {
      EndHanded(es, es[|es| - 1]);
    }
  }

  lemma OnlyTheEnd(es: seq<Verdict>, v: Verdict, x: Verdict)
    requires EndsIn(es, v) && x != Temporary && x != Blocked
    ensures x in Handed(es) <==> x == v
  {
    EndHanded(es, v);
    assert v != Blocked ==> Handed(es)[|es| - 1] == v;
  }

  lemma RowTellsLog(env: Env, r: Row, p: Past, busy: bool)
    requires RowFits(env, r, p, busy)
    ensures var vs := Handed(p.endings);
            && (Final(r.status) || !busy ==> LogDeserves(r.status, vs))
            && (r.status != Queued && !busy ==>
                  && (Accepted in vs <==> r.status == Sent) && (AnswerLost in vs <==> r.status == Uncertain)
                  && (Permanent in vs ==> r.status == Failed))
  {
    var es := p.endings;
    if r.status == Queued || Final(r.status) || !busy { DeservedByLog(env, r.status, p); }
    if r.status != Queued && !busy {
      OnlyTheEnd(es, es[|es| - 1], Accepted);
      OnlyTheEnd(es, es[|es| - 1], AnswerLost);
      OnlyTheEnd(es, es[|es| - 1], Permanent);
    }
  }

  /**
    Under the same conditions a sent row's last submission was accepted, an uncertain row's last answer
    was lost, and of a failed or waiting row none was accepted and no answer was lost; so an accepted
    message is recorded as sent and one of unknown outcome as uncertain.
   */
  lemma StatusTellsLog(env: Env, ops: seq<Op>, o: Id)
    requires AllRecorded(ops) && SoloRun(env, EMPTY, ops) && o in Run(env, ops).rows
    ensures var st, vs := Run(env, ops).rows[o].status, Verdicts(Run(env, ops).smtp, o);
            && (Final(st) || !Busy(Run(env, ops), o) ==> LogDeserves(st, vs))
            && (st != Queued && !Busy(Run(env, ops), o) ==>
                  && (Accepted in vs <==> st == Sent) && (AnswerLost in vs <==> st == Uncertain)
                  && (Permanent in vs ==> st == Failed))
  {
    RunLogged(env, ops);
    LogIsPast(env, ops, o);
    assert RowLog(env, Run(env, ops), Pasts(env, ops), o);
    RowTellsLog(env, Run(env, ops).rows[o], PastOf(env, ops, o), Busy(Run(env, ops), o));
  }

  /** At most max(1, MaxRetries) submissions, and only a temporary refusal before another. */
  predicate Safe(env: Env, vs: seq<Verdict>) {
    |vs| <= MaxAttempts(env) && forall i :: 0 <= i < |vs| - 1 ==> vs[i] == Temporary
  }

  lemma EndsSafely(env: Env, es: seq<Verdict>)
    requires |es| <= 1 || EndsIn(es, es[|es| - 1])
    requires |es| <= MaxAttempts(env)
    ensures Safe(env, Handed(es))
  {
    if es != [] {
      EndHanded(es, es[|es| - 1]);
      assert forall i :: 0 <= i < |es| - 1 ==> es[..|es| - 1][i] == es[i];
    }
  }

  /**
    Where the workers' records are kept and no worker takes up a row another has been at, a row is
    submitted at most max(1, MaxRetries) times and only a temporary refusal is ever followed by another
    submission -- never an unknown outcome.
   */
  lemma OutboxSafety(env: Env, ops: seq<Op>, o: Id)
    requires AllRecorded(ops) && SoloRun(env, EMPTY, ops)
    ensures Safe(env, Verdicts(Run(env, ops).smtp, o))
  {
    var s, p := Run(env, ops), PastOf(env, ops, o);
    RunLogged(env, ops);
    LogIsPast(env, ops, o);
    assert RowLog(env, s, Pasts(env, ops), o);
    if Busy(s, o) {
      var w :| Attempts(s, w, o);
      assert WorkerLog(s, Pasts(env, ops), w, o) && AsRead(s, w, o) && TodoHolds(s, w, o);
    }
    EndsSafely(env, p.endings);
  }

  /**
    The records are needed: whatever the server answered, a retry whose record is lost is due again at
    once, and the worker's next tick submits it a second time.
   */
  lemma LostRecordResubmits(env: Env, ops: seq<Op>, w: Id, o: Id, readable: bool, verdict: Verdict)
    requires SoloRun(env, EMPTY, ops) && Attempts(Run(env, ops), w, o) && verdict != Blocked
    requires Reads(Run(env, ops), Run(env, ops).rows[o].draft)
    ensures var s := Run(env, ops);
            var t := Step(env, Step(env, Step(env, s, Settle(w, false)), List(w, {o})), Pick(w, o, readable, verdict));
            Verdicts(t.smtp, o) == Verdicts(s.smtp, o) + [verdict]
  {
    var s := Run(env, ops);
    RunFlow(env, ops);
    RunExclusive(env, ops);
    assert AsRead(s, w, o) && TodoHolds(s, w, o);
    LostRecordDueAgain(env, s, w, o);
    var m := Step(env, Step(env, s, Settle(w, false)), List(w, {o}));
    SubmitsOnce(env, m, Pick(w, o, readable, verdict), o);
  }

  lemma LostRecordDueAgain(env: Env, s: System, w: Id, o: Id)
    requires Attempts(s, w, o) && AsRead(s, w, o) && TodoHolds(s, w, o)
    ensures var m := Step(env, Step(env, s, Settle(w, false)), List(w, {o}));
            Listed(m, w, o) && Snapshot(m, w, o) == s.rows[o] && m.smtp == s.smtp && m.drafts == s.drafts
                && m.accounts == s.accounts
  {
    var m := SettleStep(env, s, w, false);
    assert m == WithWorker(s, w, Worker(WorkerOf(s, w).todo - {o}, Resting));
    assert Due(m, o);
  }
}
