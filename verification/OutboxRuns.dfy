/**
  Runs of module Outbox, from the empty system, in which the outbox promises of module OutboxFlow fail:
  one where a record is lost, and one where two workers' ticks overlap.
 */
module OutboxRuns {
  import opened Outbox
  import opened OutboxFlow
  import opened SendPayload

  const SENDER := Account("a", "me@example.org")
  const NOTE := Version(1, [Address("", "you@example.org")], [], [], "s", "b", "", [])
  const LENIENT := Env((a, v) => "", (a, v) => true, 3, n => 0)
  const DRAFT := Draft(0, true, [NOTE])

  /** A send that the server turns down for now. */
  function Deferred(): seq<Op> {
    [SetAccount(0, SENDER), NewDraft(0, 0, NOTE), Approve(0, 0, 600), StartSend(0, 0, 0, ""),
     Consume(0), Create(0, 0), Deliver(0, Temporary), Finish(0, true)]
  }

  function Waiting(): System {
    System(0, map[0 := SENDER], map[0 := DRAFT], map[0 := Approval("", 0, SENDER, NOTE, 600, true)],
           map[0 := Row(0, 1, "", RetryWait, 1, 0, 0, SENDER, NOTE)],
           [Submission(0, NOTE, SENDER.email, Temporary)], map[], map[])
  }

  lemma ExecFirst(env: Env, s: System, ops: seq<Op>)
    requires ops != []
    ensures Exec(env, s, ops) == Exec(env, Step(env, s, ops[0]), ops[1..])
  {
    ExecTwo(env, s, ops[0], ops[0]);
    ExecAppend(env, s, [ops[0]], ops[1..]);
    assert ops == [ops[0]] + ops[1..];
  }

  /** The draft approved and its send started. */
  function Begun(stage: Stage): System {
    System(0, map[0 := SENDER], map[0 := DRAFT], map[0 := Approval("", 0, SENDER, NOTE, 600, stage != Reading)],
           map[], [], map[0 := Sending(0, SENDER, NOTE, "", 0, stage)], map[])
  }

  lemma RunBegins()
    ensures Exec(LENIENT, EMPTY, Deferred()[..4]) == Begun(Reading)
  {
    var ops := Deferred()[..4];
    var s0 := Step(LENIENT, EMPTY, ops[0]);
    var s1 := Step(LENIENT, s0, ops[1]);
    var s2 := Step(LENIENT, s1, ops[2]);
    ExecFirst(LENIENT, EMPTY, ops);
    ExecFirst(LENIENT, s0, ops[1..]);
    ExecFirst(LENIENT, s1, ops[1..][1..]);
    ExecFirst(LENIENT, s2, ops[1..][1..][1..]);
  }

  lemma RunConsumes()
    ensures Step(LENIENT, Begun(Reading), Consume(0)) == Begun(Consumed)
  {
    assert ConsumeStep(LENIENT, Begun(Reading), 0) == Begun(Consumed);
  }

  lemma RunDelivers()
    ensures Step(LENIENT, Step(LENIENT, Step(LENIENT, Begun(Consumed), Create(0, 0)), Deliver(0, Temporary)),
                 Finish(0, true)) == Waiting()
  {
    assert FinishStep(LENIENT, DeliverStep(CreateStep(Begun(Consumed), 0, 0), 0, Temporary), 0, true) == Waiting();
  }

  lemma RunWaits()
    ensures Run(LENIENT, Deferred()) == Waiting()
  {
    RunBegins();
    RunConsumes();
    RunDelivers();
    ExecAppend(LENIENT, EMPTY, Deferred()[..4], Deferred()[4..]);
    assert Deferred() == Deferred()[..4] + Deferred()[4..];
    RunEnds();
  }

  lemma RunEnds()
    ensures Exec(LENIENT, Begun(Reading), Deferred()[4..])
            == Step(LENIENT,
                    Step(LENIENT, Step(LENIENT, Step(LENIENT, Begun(Reading), Consume(0)), Create(0, 0)),
                         Deliver(0, Temporary)), Finish(0, true))
  {
    assert Deferred()[4..] == [Consume(0), Create(0, 0)] + [Deliver(0, Temporary), Finish(0, true)];
    ExecFour(LENIENT, Begun(Reading), Consume(0), Create(0, 0), Deliver(0, Temporary), Finish(0, true));
  }

  lemma ExecFour(env: Env, s: System, a: Op, b: Op, c: Op, d: Op)
    ensures Exec(env, s, [a, b] + [c, d]) == Step(env, Step(env, Step(env, Step(env, s, a), b), c), d)
  {
    ExecAppend(env, s, [a, b], [c, d]);
    ExecTwo(env, s, a, b);
    ExecTwo(env, Exec(env, s, [a, b]), c, d);
  }

  // ----- from the waiting row on -----

  function Log(vs: seq<Verdict>): seq<Submission> {
    seq(|vs|, i requires 0 <= i < |vs| => Submission(0, NOTE, SENDER.email, vs[i]))
  }

  function RowIn(st: Status, n: nat): Row { Row(0, 1, "", st, n, 0, 0, SENDER, NOTE) }

  /** The system with its one row, what was submitted for it, and the workers. */
  function Later(st: Status, n: nat, vs: seq<Verdict>, workers: map<Id, Worker>): System {
    System(0, map[0 := SENDER], map[0 := DRAFT], map[0 := Approval("", 0, SENDER, NOTE, 600, true)],
           map[0 := RowIn(st, n)], Log(vs), map[], workers)
  }

  lemma WaitingIsLater()
    ensures Waiting() == Later(RetryWait, 1, [Temporary], map[])
  {
  }

  lemma {:induction false} VerdictsOfLog(vs: seq<Verdict>)
    ensures Verdicts(Log(vs), 0) == vs
  {
    if vs != [] {
      var n := |vs| - 1;
      assert Log(vs)[..n] == Log(vs[..n]);
      VerdictsOfLog(vs[..n]);
      assert vs == vs[..n] + [vs[n]];
    }
  }

  function At(n: nat, turn: Turn): Worker { Worker(map[0 := RowIn(RetryWait, n)], turn) }

  lemma Lists(n: nat, vs: seq<Verdict>, ws: map<Id, Worker>, w: Id)
    requires w in ws ==> ws[w].turn == Resting
    ensures Step(LENIENT, Later(RetryWait, n, vs, ws), List(w, {0})) == Later(RetryWait, n, vs, ws[w := At(n, Resting)])
  {
    var s := Later(RetryWait, n, vs, ws);
    assert Due(s, 0);
    assert DueRows(s, {0}) == map[0 := RowIn(RetryWait, n)];
  }

  lemma Picks(st: Status, k: nat, n: nat, vs: seq<Verdict>, ws: map<Id, Worker>, w: Id, v: Verdict)
    requires w in ws && ws[w] == At(n, Resting) && v != Blocked
    ensures Step(LENIENT, Later(st, k, vs, ws), Pick(w, 0, true, v))
            == Later(st, k, vs + [v], ws[w := At(n, Attempting(0, v))])
  {
    assert Log(vs + [v]) == Log(vs) + [Submission(0, NOTE, SENDER.email, v)];
  }

  const DONE := Worker(map[], Resting)

  lemma Settles(st: Status, k: nat, n: nat, vs: seq<Verdict>, ws: map<Id, Worker>, w: Id, v: Verdict, written: bool)
    requires w in ws && ws[w] == At(n, Attempting(0, v))
    ensures var r := AfterResult(LENIENT, RowIn(RetryWait, n), v, 0);
            Step(LENIENT, Later(st, k, vs, ws), Settle(w, written))
            == Later(if written then r.status else st, if written then r.attempts else k, vs, ws[w := DONE])
  {
    var todo := map[0 := RowIn(RetryWait, n)];
    assert todo - {0} == map[];
    var s := Later(st, k, vs, ws);
    var r := AfterResult(LENIENT, RowIn(RetryWait, n), v, 0);
    assert Overwritten(RowIn(st, k), r) == RowIn(r.status, r.attempts);
  }

  // ----- a lost record -----

  function Forgetting(): seq<Op> {
    [List(1, {0}), Pick(1, 0, true, AnswerLost)] + [Settle(1, false), List(1, {0})] + [Pick(1, 0, true, Accepted)]
  }

  lemma ForgettingEnds()
    ensures Exec(LENIENT, Later(RetryWait, 1, [Temporary], map[]), Forgetting()).smtp
            == Log([Temporary] + [AnswerLost] + [Accepted])
  {
    var w1 := map[1 := At(1, Resting)];
    var w2 := map[1 := At(1, Attempting(0, AnswerLost))];
    Lists(1, [Temporary], map[], 1);
    Picks(RetryWait, 1, 1, [Temporary], w1, 1, AnswerLost);
    Settles(RetryWait, 1, 1, [Temporary] + [AnswerLost], w2, 1, AnswerLost, false);
    Lists(1, [Temporary] + [AnswerLost], map[1 := DONE], 1);
    Picks(RetryWait, 1, 1, [Temporary] + [AnswerLost], w1, 1, Accepted);
    ExecFive(LENIENT, Later(RetryWait, 1, [Temporary], map[]),
             List(1, {0}), Pick(1, 0, true, AnswerLost), Settle(1, false), List(1, {0}), Pick(1, 0, true, Accepted));
    assert map[][1 := w1[1]] == w1 && w1[1 := w2[1]] == w2 && w2[1 := DONE] == map[1 := DONE]
           && map[1 := DONE][1 := w1[1]] == w1;
  }

  /** The answer to the first retry is lost, and so is its record: one worker alone sends the message a second time. */
  lemma UncertainGoesOutAgain()
    ensures Verdicts(Run(LENIENT, Deferred() + Forgetting()).smtp, 0) == [Temporary, AnswerLost, Accepted]
    ensures !Safe(LENIENT, Verdicts(Run(LENIENT, Deferred() + Forgetting()).smtp, 0))
  {
    RunWaits();
    WaitingIsLater();
    ExecAppend(LENIENT, EMPTY, Deferred(), Forgetting());
    ForgettingEnds();
    VerdictsOfLog([Temporary] + [AnswerLost] + [Accepted]);
    var vs := [Temporary, AnswerLost, Accepted];
    assert [Temporary] + [AnswerLost] + [Accepted] == vs && vs[1] != Temporary;
  }

  lemma ExecFive(env: Env, s: System, a: Op, b: Op, c: Op, d: Op, e: Op)
    ensures Exec(env, s, [a, b] + [c, d] + [e])
            == Step(env, Step(env, Step(env, Step(env, Step(env, s, a), b), c), d), e)
  {
    ExecFour(env, s, a, b, c, d);
    ExecAppend(env, s, [a, b] + [c, d], [e]);
    ExecTwo(env, Exec(env, s, [a, b] + [c, d]), e, e);
  }

  // ----- two ticks that overlap -----

  /** Two workers list the row; the second works from its list after the first has recorded an unknown outcome. */
  function Undoing(): seq<Op> {
    [List(1, {0}), List(2, {0})] + [Pick(1, 0, true, AnswerLost), Settle(1, true)]
  }

  function Redoing(): seq<Op> {
    [Pick(2, 0, true, Temporary), Settle(2, true)] + [List(1, {0}), Pick(1, 0, true, Accepted)]
  }

  lemma UndoingEnds()
    ensures Run(LENIENT, Deferred() + Undoing())
            == Later(Uncertain, 2, [Temporary] + [AnswerLost], map[1 := DONE, 2 := At(1, Resting)])
  {
    RunWaits();
    WaitingIsLater();
    ExecAppend(LENIENT, EMPTY, Deferred(), Undoing());
    var one, both := map[1 := At(1, Resting)], map[1 := At(1, Resting), 2 := At(1, Resting)];
    var busy := map[1 := At(1, Attempting(0, AnswerLost)), 2 := At(1, Resting)];
    Lists(1, [Temporary], map[], 1);
    Lists(1, [Temporary], one, 2);
    Picks(RetryWait, 1, 1, [Temporary], both, 1, AnswerLost);
    Settles(RetryWait, 1, 1, [Temporary] + [AnswerLost], busy, 1, AnswerLost, true);
    ExecFour(LENIENT, Later(RetryWait, 1, [Temporary], map[]), List(1, {0}), List(2, {0}),
             Pick(1, 0, true, AnswerLost), Settle(1, true));
    assert map[][1 := At(1, Resting)] == one && one[2 := At(1, Resting)] == both && both[1 := busy[1]] == busy;
    assert busy[1 := DONE] == map[1 := DONE, 2 := At(1, Resting)];
  }

  lemma RedoingEnds()
    ensures var s := Exec(LENIENT,
                          Later(Uncertain, 2, [Temporary] + [AnswerLost],
                                map[1 := DONE, 2 := At(1, Resting)]), Redoing());
            && s.smtp == Log([Temporary] + [AnswerLost] + [Temporary] + [Accepted])
            && s.rows == map[0 := RowIn(RetryWait, 2)]
  {
    var vs := [Temporary] + [AnswerLost];
    var w0 := map[1 := DONE, 2 := At(1, Resting)];
    var w1 := w0[2 := At(1, Attempting(0, Temporary))];
    Picks(Uncertain, 2, 1, vs, w0, 2, Temporary);
    Settles(Uncertain, 2, 1, vs + [Temporary], w1, 2, Temporary, true);
    Lists(2, vs + [Temporary], w1[2 := DONE], 1);
    Picks(RetryWait, 2, 2, vs + [Temporary], w1[2 := DONE][1 := At(2, Resting)], 1, Accepted);
    ExecFour(LENIENT, Later(Uncertain, 2, vs, w0), Pick(2, 0, true, Temporary), Settle(2, true), List(1, {0}),
             Pick(1, 0, true, Accepted));
  }

  /**
    Every record is kept, and still an uncertain row becomes a waiting one, the message goes out after
    its outcome was unknown, and more often than MaxRetries allows.
   */
  lemma OverlappingTicks()
    ensures AllRecorded(Deferred() + Undoing() + Redoing())
    ensures Run(LENIENT, Deferred() + Undoing()).rows == map[0 := RowIn(Uncertain, 2)]
    ensures Run(LENIENT, Deferred() + Undoing() + Redoing()).rows == map[0 := RowIn(RetryWait, 2)]
    ensures Verdicts(Run(LENIENT, Deferred() + Undoing() + Redoing()).smtp, 0)
            == [Temporary, AnswerLost, Temporary, Accepted]
    ensures MaxAttempts(LENIENT) == 3
  {
    UndoingEnds();
    RedoingEnds();
    ExecAppend(LENIENT, EMPTY, Deferred() + Undoing(), Redoing());
    VerdictsOfLog([Temporary] + [AnswerLost] + [Temporary] + [Accepted]);
    assert [Temporary] + [AnswerLost] + [Temporary] + [Accepted] == [Temporary, AnswerLost, Temporary, Accepted];
  }
}
