/**
  Leader election: electLeader, releaseLease and the election loop of internal/application/app.go,
  over the lease row of TryAcquireLease in internal/adapters/persistence/store.go.

  Times are milliseconds of one clock shared by the nodes; the row counts whole seconds, as the
  store does.  An election is three steps -- read the clock, run the lease transaction, act on the
  answer -- and any step of any other node may fall in between.  A release is two.
 */
module Lease {

  datatype Option<+T> = None | Some(value: T)

  const LEASE_SEC: int := 15
  const LEASE: int := 15_000
  const TICK: int := 8_000
  const RENEW_TIMEOUT: int := 5_000

  datatype Answer = Granted | Refused | Error

  datatype Phase =
    | Fresh                                  // the loop has not run its first election
    | Idle                                   // waiting for the next tick
    | Begun(start: int)                      // the clock was read
    | Answered(start: int, answer: Answer)   // the transaction is over, its answer not yet acted on
    | Releasing                              // the row was given up, the node not yet standby
    | Stopped

  /** `due` is when the ticker fires next. */
  datatype Node = Node(isLeader: bool, validUntil: int, phase: Phase, due: int, first: bool)

  datatype Row = NoRow | Row(holder: nat, expiresAt: int)

  datatype State = State(now: int, row: Row, nodes: seq<Node>)

  /** How the lease transaction ends: answered, failed, or committed with the answer lost. */
  datatype Transaction = Answers | Fails | LosesAnswer

  datatype Op =
    | Pass(ms: nat)
    | Begin(i: nat)
    | Transact(i: nat, outcome: Transaction)
    | Act(i: nat)
    | Release(i: nat)
    | Stop(i: nat)

  const NEW_NODE := Node(false, 0, Fresh, 0, true)

  function Seconds(ms: int): int { ms / 1000 }

  /** The row may be taken: there is none, it is the node's own, or it expired. */
  predicate Free(s: State, i: nat) {
    s.row.NoRow? || s.row.holder == i || s.row.expiresAt < Seconds(s.now)
  }

  // ----- one step -----

  /** What electLeader does with the answer, by the clock it read before asking. */
  function AfterAnswer(n: Node, start: int, answer: Answer, now: int): Node {
    var due := if n.first then now + TICK else n.due;
    var m := n.(phase := Idle, due := due, first := false);
    match answer
    case Granted => m.(validUntil := start + LEASE, isLeader := true)
    case Refused => m.(isLeader := false)
    case Error => if n.isLeader && start >= n.validUntil then m.(isLeader := false) else m
  }

  /** Time may not pass a running renewal's timeout nor a due tick. */
  predicate MayPass(n: Node, until: int) {
    match n.phase
    case Begun(start) => until <= start + RENEW_TIMEOUT
    case Answered(start, _) => until <= start + RENEW_TIMEOUT
    case Idle => until <= n.due
    case _ => true
  }

  predicate Enabled(s: State, op: Op) {
    match op
    case Pass(ms) => forall i :: 0 <= i < |s.nodes| ==> MayPass(s.nodes[i], s.now + ms)
    case Begin(i) => i < |s.nodes|
        && (s.nodes[i].phase == Fresh || (s.nodes[i].phase == Idle && s.now == s.nodes[i].due))
    case Transact(i, _) => i < |s.nodes| && s.nodes[i].phase.Begun?
    case Act(i) => i < |s.nodes| && s.nodes[i].phase.Answered?
    case Release(i) => i < |s.nodes| && s.nodes[i].phase == Idle
    case Stop(i) => i < |s.nodes| && s.nodes[i].phase == Releasing
  }

  function WithNode(s: State, i: nat, n: Node): State
    requires i < |s.nodes|
  {
    s.(nodes := s.nodes[i := n])
  }

  function Step(s: State, op: Op): State
    requires Enabled(s, op)
  {
    match op
    case Pass(ms) => s.(now := s.now + ms)
    case Begin(i) =>
      var n := s.nodes[i];
      WithNode(s, i, n.(phase := Begun(s.now), due := if n.phase == Fresh then n.due else n.due + TICK))
    case Transact(i, outcome) =>
      var n := s.nodes[i];
      var take := outcome != Fails && Free(s, i);
      var answer := if outcome != Answers then Error else if take then Granted else Refused;
      var t := if take then s.(row := Row(i, Seconds(s.now) + LEASE_SEC)) else s;
      WithNode(t, i, n.(phase := Answered(n.phase.start, answer)))
    case Act(i) =>
      var n := s.nodes[i];
      WithNode(s, i, AfterAnswer(n, n.phase.start, n.phase.answer, s.now))
    case Release(i) =>
      var n := s.nodes[i];
      if n.isLeader then WithNode(s.(row := Row(i, Seconds(s.now) - 1)), i, n.(phase := Releasing))
      else WithNode(s, i, n.(phase := Stopped))
    case Stop(i) => WithNode(s, i, s.nodes[i].(isLeader := false, phase := Stopped))
  }

  // ----- safety -----

  /** A node that believes it leads, within its lease, and has not begun to give it up. */
  predicate Leads(s: State, i: nat) {
    i < |s.nodes| && s.nodes[i].isLeader && s.now < s.nodes[i].validUntil && s.nodes[i].phase != Releasing
  }

  /** A node whose grant is still on its way and would make it lead. */
  predicate WillLead(s: State, i: nat) {
    i < |s.nodes| && s.nodes[i].phase.Answered? && s.nodes[i].phase.answer == Granted
    && s.now < s.nodes[i].phase.start + LEASE
  }

  /** The row is i's and cannot be taken by another before `until`. */
  predicate Holds(s: State, i: nat, until: int) {
    s.row.Row? && s.row.holder == i && until < (s.row.expiresAt + 1) * 1000
  }

  predicate Claims(s: State, i: nat) {
    && (Leads(s, i) ==> Holds(s, i, s.nodes[i].validUntil))
    && (WillLead(s, i) ==> Holds(s, i, s.nodes[i].phase.start + LEASE))
    && (i < |s.nodes| ==> s.nodes[i].validUntil <= s.now + LEASE)
    && (i < |s.nodes| && (s.nodes[i].phase.Begun? || s.nodes[i].phase.Answered?) ==> s.nodes[i].phase.start <= s.now)
  }

  predicate Inv(s: State) {
    s.now >= 0 && forall i :: 0 <= i < |s.nodes| ==> Claims(s, i)
  }

  /** A node gives up the row only while its own lease is live. */
  predicate Guarded(s: State, op: Op) {
    op.Release? && op.i < |s.nodes| && s.nodes[op.i].isLeader ==> s.now < s.nodes[op.i].validUntil
  }

  lemma OneHolder(s: State, i: nat, j: nat)
    requires Inv(s) && i < |s.nodes| && j < |s.nodes|
    requires (Leads(s, i) || WillLead(s, i)) && (Leads(s, j) || WillLead(s, j))
    ensures i == j
  {
    assert Claims(s, i) && Claims(s, j);
  }

  /** A transaction that takes the row never takes it from under a node that leads or is about to. */
  lemma TakeKeeps(s: State, i: nat, j: nat, t: State)
    requires Inv(s) && i < |s.nodes| && j < |s.nodes| && i != j && Free(s, i)
    requires t.now == s.now && |t.nodes| == |s.nodes| && t.nodes[j] == s.nodes[j]
    ensures Claims(t, j)
  {
    assert Claims(s, j);
  }

  lemma TransactKeeps(s: State, i: nat, outcome: Transaction)
    requires Inv(s) && Enabled(s, Transact(i, outcome))
    ensures Inv(Step(s, Transact(i, outcome)))
  {
    var t := Step(s, Transact(i, outcome));
    forall j | 0 <= j < |t.nodes| ensures Claims(t, j) {
      assert Claims(s, j);
      if outcome != Fails && Free(s, i) {
        if j != i { TakeKeeps(s, i, j, t); }
      }
    }
  }

  lemma ActKeeps(s: State, i: nat)
    requires Inv(s) && Enabled(s, Act(i))
    ensures Inv(Step(s, Act(i)))
  {
    var t := Step(s, Act(i));
    forall j | 0 <= j < |t.nodes| ensures Claims(t, j) {
      assert Claims(s, j);
    }
  }

  lemma ReleaseKeeps(s: State, i: nat)
    requires Inv(s) && Enabled(s, Release(i)) && Guarded(s, Release(i))
    ensures Inv(Step(s, Release(i)))
  {
    var t := Step(s, Release(i));
    forall j | 0 <= j < |t.nodes| ensures Claims(t, j) {
      assert Claims(s, j);
      if s.nodes[i].isLeader && j != i && (Leads(s, j) || WillLead(s, j)) {
        OneHolder(s, i, j);
      }
    }
  }

  lemma StepKeeps(s: State, op: Op)
    requires Inv(s) && Enabled(s, op) && Guarded(s, op)
    ensures Inv(Step(s, op))
  {
    match op
    case Transact(i, outcome) => TransactKeeps(s, i, outcome);
    case Act(i) => ActKeeps(s, i);
    case Release(i) => ReleaseKeeps(s, i);
    case _ =>
      var t := Step(s, op);
      forall j | 0 <= j < |t.nodes| ensures Claims(t, j) {
        assert Claims(s, j);
      }
  }

  // ----- runs -----

  predicate Initial(s: State) {
    s.now >= 0 && s.row.NoRow? && forall i :: 0 <= i < |s.nodes| ==> s.nodes[i] == NEW_NODE
  }

  /** The steps can be taken one after the other from s, and reach t. */
  ghost predicate Reaches(s: State, ops: seq<Op>, t: State, guarded: bool)
    decreases |ops|
  {
    if ops == [] then t == s
    else
      && Enabled(s, ops[0]) && (guarded ==> Guarded(s, ops[0]))
      && Reaches(Step(s, ops[0]), ops[1..], t, guarded)
  }

  lemma {:induction false} RunKeeps(s: State, ops: seq<Op>, t: State)
    requires Inv(s) && Reaches(s, ops, t, true)
    ensures Inv(t)
    decreases |ops|
  {
    if ops != [] {
      StepKeeps(s, ops[0]);
      RunKeeps(Step(s, ops[0]), ops[1..], t);
    }
  }

  /** In every run with guarded releases, at every moment at most one node leads. */
  lemma AtMostOneLeader(s: State, ops: seq<Op>, t: State, i: nat, j: nat)
    requires Initial(s) && Reaches(s, ops, t, true)
    requires Leads(t, i) && Leads(t, j)
    ensures i == j
  {
    assert Inv(s);
    RunKeeps(s, ops, t);
    OneHolder(t, i, j);
  }

  // ----- stepping down -----

  /** A tick at d of a node with a lease until v: one at which it can still err and lead on, or the one after. */
  predicate Near(d: int, v: int) { v - 7_000 <= d <= v - 2_000 || v + 1_000 <= d <= v + 6_000 }

  /** A node's belief, its last election and its next one. */
  predicate Timely(s: State, n: Node) {
    && (n.phase == Fresh ==> !n.isLeader && n.first)
    && (n.phase == Idle ==> !n.first && (n.isLeader ==> Near(n.due, n.validUntil)) && s.now <= n.due)
    && (n.phase.Begun? || n.phase.Answered? ==>
          && s.now <= n.phase.start + RENEW_TIMEOUT && n.phase.start <= s.now
          && (n.first ==> !n.isLeader)
          && (!n.first ==> n.due == n.phase.start + TICK && (n.isLeader ==> Near(n.phase.start, n.validUntil))))
  }

  predicate AllTimely(s: State) {
    forall i :: 0 <= i < |s.nodes| ==> Timely(s, s.nodes[i])
  }

  lemma StepTimely(s: State, op: Op)
    requires AllTimely(s) && Enabled(s, op)
    ensures AllTimely(Step(s, op))
  {
    var t := Step(s, op);
    forall j | 0 <= j < |t.nodes| ensures Timely(t, t.nodes[j]) {
      assert Timely(s, s.nodes[j]);
      assert op.Pass? ==> MayPass(s.nodes[j], t.now);
      NodeTimely(s, op, j);
    }
  }

  lemma NodeTimely(s: State, op: Op, j: nat)
    requires Enabled(s, op) && j < |s.nodes| && Timely(s, s.nodes[j])
             && (op.Pass? ==> MayPass(s.nodes[j], s.now + op.ms))
    ensures |Step(s, op).nodes| == |s.nodes| && Timely(Step(s, op), Step(s, op).nodes[j])
  {
  }

  lemma {:induction false} RunTimely(s: State, ops: seq<Op>, t: State)
    requires AllTimely(s) && Reaches(s, ops, t, false)
    ensures AllTimely(t)
    decreases |ops|
  {
    if ops != [] {
      StepTimely(s, ops[0]);
      RunTimely(Step(s, ops[0]), ops[1..], t);
    }
  }

  /**
    Whatever the renewals answer, a node still running its loop believes it leads for at most eleven
    seconds after its lease ran out.
   */
  lemma StaleBeliefIsBounded(s: State, ops: seq<Op>, t: State, i: nat)
    requires Initial(s) && Reaches(s, ops, t, false)
    requires i < |t.nodes| && t.nodes[i].isLeader && t.nodes[i].phase !in {Releasing, Stopped}
    ensures t.now <= t.nodes[i].validUntil + 11_000
  {
    assert AllTimely(s);
    RunTimely(s, ops, t);
    assert Timely(t, t.nodes[i]);
  }

  /** A node that acts on a refusal stops leading at once, and does not lead again before it acts on another answer. */
  lemma RefusedStepsDown(s: State, i: nat, ops: seq<Op>, t: State, guarded: bool)
    requires Enabled(s, Act(i)) && s.nodes[i].phase.answer == Refused
    requires Reaches(Step(s, Act(i)), ops, t, guarded) && Act(i) !in ops
    ensures i < |t.nodes| && !t.nodes[i].isLeader
  {
    StaysDown(Step(s, Act(i)), i, ops, t, guarded);
  }

  lemma {:induction false} StaysDown(s: State, i: nat, ops: seq<Op>, t: State, guarded: bool)
    requires i < |s.nodes| && !s.nodes[i].isLeader && Reaches(s, ops, t, guarded) && Act(i) !in ops
    ensures i < |t.nodes| && !t.nodes[i].isLeader
    decreases |ops|
  {
    if ops != [] { StaysDown(Step(s, ops[0]), i, ops[1..], t, guarded); }
  }

  /** A grant makes the node lead until a lease after the time it asked; an error past its lease makes it step down. */
  lemma GrantLeads(s: State, i: nat)
    requires Enabled(s, Act(i))
    ensures var a, n, m := s.nodes[i].phase.answer, s.nodes[i], Step(s, Act(i)).nodes[i];
            && (m.isLeader <==> a == Granted || (a == Error && n.isLeader && n.phase.start < n.validUntil))
            && m.validUntil == (if a == Granted then n.phase.start + 15_000 else n.validUntil)
  {
  }

  /** The row is granted exactly if there is none, it is the node's own, or it expired; and then it is the node's. */
  lemma AnswerIff(s: State, i: nat)
    requires Enabled(s, Transact(i, Answers))
    ensures var t := Step(s, Transact(i, Answers));
            && t.nodes[i].phase.Answered?
            && t.nodes[i].phase.answer ==
                 (if s.row == NoRow || s.row.holder == i || s.row.expiresAt < s.now / 1000 then Granted else Refused)
            && t.row == (if t.nodes[i].phase.answer == Granted then Row(i, s.now / 1000 + 15) else s.row)
  {
  }

  /** A release frees the row for every node at once if the node led, and ends its elections. */
  lemma ReleaseFrees(s: State, i: nat, j: nat)
    requires Enabled(s, Release(i))
    ensures var t := Step(s, Release(i));
            && (s.nodes[i].isLeader ==> Free(t, j) && t.nodes[i].phase == Releasing)
            && (!s.nodes[i].isLeader ==> t.row == s.row && t.nodes[i].phase == Stopped)
            && !Enabled(t, Begin(i))
  {
  }

  // ----- what an unguarded release does -----

  /**
    releaseLease does not look at the row.  Whenever a node whose lease has lapsed releases while
    another node leads, any third idle node's next election makes two leaders.
   */
  lemma StaleReleaseFrom(s: State, i: nat, j: nat, k: nat)
    requires Enabled(s, Release(i)) && s.nodes[i].isLeader
    requires Leads(s, j) && i != j
    requires k < |s.nodes| && k != i && k != j && Enabled(s, Begin(k)) && s.now >= 0
    ensures exists t ::
            Reaches(s, [Release(i), Begin(k), Transact(k, Answers), Act(k)], t, false) && Leads(t, j) && Leads(t, k)
  {
    var s1 := Step(s, Release(i));
    var s2 := Step(s1, Begin(k));
    var s3 := Step(s2, Transact(k, Answers));
    var s4 := Step(s3, Act(k));
    var ops := [Release(i), Begin(k), Transact(k, Answers), Act(k)];
    assert ops[1..] == [Begin(k), Transact(k, Answers), Act(k)];
    assert ops[1..][1..] == [Transact(k, Answers), Act(k)];
    assert ops[1..][1..][1..] == [Act(k)];
    assert ops[1..][1..][1..][1..] == [];
    assert Reaches(s3, [Act(k)], s4, false);
    assert Reaches(s2, ops[1..][1..], s4, false);
    assert Reaches(s1, ops[1..], s4, false);
    assert Reaches(s, ops, s4, false);
    assert Leads(s4, j) && Leads(s4, k);
  }

  /**
    Even a guarded release leaves a window: between giving up the row and stepping down the node
    still believes it leads within its lease, and another node can already lead.
   */
  lemma WindowFrom(s: State, i: nat, k: nat)
    requires Enabled(s, Release(i)) && Leads(s, i) && s.now >= 0
    requires k < |s.nodes| && k != i && Enabled(s, Begin(k))
    ensures exists t :: Reaches(s, [Release(i), Begin(k), Transact(k, Answers), Act(k)], t, true)
              && Leads(t, k) && i < |t.nodes| && t.nodes[i].isLeader && t.now < t.nodes[i].validUntil
  {
    var s1 := Step(s, Release(i));
    var s2 := Step(s1, Begin(k));
    var s3 := Step(s2, Transact(k, Answers));
    var s4 := Step(s3, Act(k));
    assert Leads(s4, k);
    ReachesFour(s, Release(i), Begin(k), Transact(k, Answers), Act(k));
  }

  predicate Allowed(s: State, op: Op) { Enabled(s, op) && Guarded(s, op) }

  lemma ReachesFour(s: State, a: Op, b: Op, c: Op, d: Op)
    requires Allowed(s, a) && Allowed(Step(s, a), b)
    requires Allowed(Step(Step(s, a), b), c) && Allowed(Step(Step(Step(s, a), b), c), d)
    ensures Reaches(s, [a, b, c, d], Step(Step(Step(Step(s, a), b), c), d), true)
  {
    var s1 := Step(s, a);
    var s2 := Step(s1, b);
    var s3 := Step(s2, c);
    var s4 := Step(s3, d);
    assert [d][1..] == [] && [c, d][1..] == [d] && [b, c, d][1..] == [c, d] && [a, b, c, d][1..] == [b, c, d];
    assert Reaches(s4, [], s4, true);
    assert Reaches(s3, [d], s4, true);
    assert Reaches(s2, [c, d], s4, true);
    assert Reaches(s1, [b, c, d], s4, true);
  }

  // ----- runs from the start in which that happens -----

  lemma {:induction false} ReachesAppend(s: State, a: seq<Op>, m: State, b: seq<Op>, t: State, guarded: bool)
    requires Reaches(s, a, m, guarded) && Reaches(m, b, t, guarded)
    ensures Reaches(s, a + b, t, guarded)
    decreases |a|
  {
    if a == [] {
      assert a + b == b;
    } else {
      assert (a + b)[1..] == a[1..] + b;
      ReachesAppend(Step(s, a[0]), a[1..], m, b, t, guarded);
    }
  }

  lemma ReachesThree(s: State, a: Op, b: Op, c: Op, guarded: bool)
    requires Allowed(s, a) && Allowed(Step(s, a), b) && Allowed(Step(Step(s, a), b), c)
    ensures Reaches(s, [a, b, c], Step(Step(Step(s, a), b), c), guarded)
  {
    var s1 := Step(s, a);
    var s2 := Step(s1, b);
    var s3 := Step(s2, c);
    assert [c][1..] == [] && [b, c][1..] == [c] && [a, b, c][1..] == [b, c];
    assert Reaches(s3, [], s3, guarded);
    assert Reaches(s2, [c], s3, guarded);
    assert Reaches(s1, [b, c], s3, guarded);
  }

  lemma ReachesOne(s: State, a: Op, guarded: bool)
    requires Allowed(s, a)
    ensures Reaches(s, [a], Step(s, a), guarded)
  {
    assert [a][1..] == [];
    assert Reaches(Step(s, a), [], Step(s, a), guarded);
  }

  /** One whole election of node i. */
  function Election(i: nat, outcome: Transaction): seq<Op> { [Begin(i), Transact(i, outcome), Act(i)] }

  const THREE := State(0, NoRow, [NEW_NODE, NEW_NODE, NEW_NODE])

  /** Node 0 leads since the start, its lease ends at 15 s, and its next election is due then. */
  function First(now: int, due: int): State {
    State(now, Row(0, 15), [Node(true, 15_000, Idle, due, false), NEW_NODE, NEW_NODE])
  }

  /** The first node's lease has ended at 16 s and the second one leads. */
  const SUCCEEDED := State(16_000, Row(1, 31),
                           [Node(true, 15_000, Idle, 16_000, false), Node(true, 31_000, Idle, 24_000, false), NEW_NODE])

  lemma FirstElected(guarded: bool)
    ensures Reaches(THREE, Election(0, Answers), First(0, 8_000), guarded)
  {
    ReachesThree(THREE, Begin(0), Transact(0, Answers), Act(0), guarded);
  }

  /** Its renewal at 8 s fails, and it waits for the next tick. */
  function Waits(): seq<Op> { [Pass(8_000)] + Election(0, Fails) + [Pass(8_000)] }

  lemma FirstWaits()
    ensures Reaches(First(0, 8_000), Waits(), First(16_000, 16_000), false)
  {
    ReachesOne(First(0, 8_000), Pass(8_000), false);
    ReachesThree(First(8_000, 8_000), Begin(0), Transact(0, Fails), Act(0), false);
    ReachesAppend(First(0, 8_000), [Pass(8_000)], First(8_000, 8_000), Election(0, Fails), First(8_000, 16_000), false);
    ReachesOne(First(8_000, 16_000), Pass(8_000), false);
    ReachesAppend(First(0, 8_000), [Pass(8_000)] + Election(0, Fails), First(8_000, 16_000), [Pass(8_000)],
                  First(16_000, 16_000), false);
  }

  const ALONE := State(0, NoRow, [NEW_NODE])

  function Only(now: int, phase: Phase, due: int): State {
    State(now, Row(0, 15), [Node(true, 15_000, phase, due, false)])
  }

  /** A first grant that takes five seconds to arrive. */
  const LATE_GRANT: seq<Op> := [Begin(0), Transact(0, Answers), Pass(5_000), Act(0)]

  /** A renewal that fails while the lease lasts, and one that takes five seconds to fail after it ended. */
  const FAILS_AT_ONCE: seq<Op> := [Pass(8_000), Begin(0), Transact(0, Fails), Act(0)]
  const FAILS_LATE: seq<Op> := [Pass(8_000), Begin(0), Transact(0, Fails), Pass(5_000)]

  const BEYOND := Only(26_000, Answered(21_000, Error), 29_000)

  lemma LateGrant()
    ensures Reaches(ALONE, LATE_GRANT, Only(5_000, Idle, 13_000), true)
  {
    ReachesFour(ALONE, Begin(0), Transact(0, Answers), Pass(5_000), Act(0));
  }

  lemma FailsAtOnce()
    ensures Reaches(Only(5_000, Idle, 13_000), FAILS_AT_ONCE, Only(13_000, Idle, 21_000), true)
  {
    ReachesFour(Only(5_000, Idle, 13_000), Pass(8_000), Begin(0), Transact(0, Fails), Act(0));
  }

  lemma FailsLate()
    ensures Reaches(Only(13_000, Idle, 21_000), FAILS_LATE, BEYOND, true)
  {
    ReachesFour(Only(13_000, Idle, 21_000), Pass(8_000), Begin(0), Transact(0, Fails), Pass(5_000));
  }

  /** The eleven seconds are reached, so no smaller bound holds. */
  lemma StaleBeliefLasts()
    ensures Initial(ALONE) && Reaches(ALONE, LATE_GRANT + (FAILS_AT_ONCE + FAILS_LATE), BEYOND, true)
    ensures var n := BEYOND.nodes[0];
            n.isLeader && n.phase !in {Releasing, Stopped} && BEYOND.now == n.validUntil + 11_000
  {
    LateGrant();
    FailsAtOnce();
    FailsLate();
    ReachesAppend(Only(5_000, Idle, 13_000), FAILS_AT_ONCE, Only(13_000, Idle, 21_000), FAILS_LATE, BEYOND, true);
    ReachesAppend(ALONE, LATE_GRANT, Only(5_000, Idle, 13_000), FAILS_AT_ONCE + FAILS_LATE, BEYOND, true);
  }

  lemma SecondElected()
    ensures Reaches(First(16_000, 16_000), Election(1, Answers), SUCCEEDED, false)
  {
    ReachesThree(First(16_000, 16_000), Begin(1), Transact(1, Answers), Act(1), false);
  }

  lemma Succession()
    ensures Reaches(THREE, Election(0, Answers) + Waits() + Election(1, Answers), SUCCEEDED, false)
  {
    FirstElected(false);
    FirstWaits();
    SecondElected();
    ReachesAppend(THREE, Election(0, Answers), First(0, 8_000), Waits(), First(16_000, 16_000), false);
    ReachesAppend(THREE, Election(0, Answers) + Waits(), First(16_000, 16_000), Election(1, Answers), SUCCEEDED, false);
  }

  /**
    From the start to two leaders: the first releases after its lease ended, and the third takes the
    row of the second.
   */
  function StaleRelease(): seq<Op> {
    Election(0, Answers) + Waits() + Election(1, Answers) + [Release(0), Begin(2), Transact(2, Answers), Act(2)]
  }

  lemma UnguardedReleaseBreaks()
    ensures Initial(THREE) && exists t :: Reaches(THREE, StaleRelease(), t, false) && Leads(t, 1) && Leads(t, 2)
  {
    Succession();
    StaleReleaseFrom(SUCCEEDED, 0, 1, 2);
    var last := [Release(0), Begin(2), Transact(2, Answers), Act(2)];
    var t :| Reaches(SUCCEEDED, last, t, false) && Leads(t, 1) && Leads(t, 2);
    ReachesAppend(THREE, Election(0, Answers) + Waits() + Election(1, Answers), SUCCEEDED, last, t, false);
  }

  /** From the start, releases guarded: node 0 has given up the row and still says it leads while node 1 does. */
  lemma ReleaseWindow()
    ensures Initial(THREE)
    ensures exists t ::
            Reaches(THREE, Election(0, Answers) + [Release(0), Begin(1), Transact(1, Answers), Act(1)], t, true)
              && Leads(t, 1) && |t.nodes| == 3 && t.nodes[0].isLeader && t.now < t.nodes[0].validUntil
  {
    FirstElected(true);
    WindowFrom(First(0, 8_000), 0, 1);
    var last := [Release(0), Begin(1), Transact(1, Answers), Act(1)];
    var t :| Reaches(First(0, 8_000), last, t, true) && Leads(t, 1) && 0 < |t.nodes| && t.nodes[0].isLeader
        && t.now < t.nodes[0].validUntil;
    ReachesAppend(THREE, Election(0, Answers), First(0, 8_000), last, t, true);
    SameNodes(First(0, 8_000), last, t, true);
  }

  lemma {:induction false} SameNodes(s: State, ops: seq<Op>, t: State, guarded: bool)
    requires Reaches(s, ops, t, guarded)
    ensures |t.nodes| == |s.nodes|
    decreases |ops|
  {
    if ops != [] { SameNodes(Step(s, ops[0]), ops[1..], t, guarded); }
  }
}
