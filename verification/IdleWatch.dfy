/**
  The IDLE watch of one account: idleLoop, idleOnce and runIdleSync of internal/application/idle.go.

  The watch holds the account's only connection and gives it up for every sync it asks for, so mail
  may arrive at any time in between; messages are counted, and a sync fetches what is there when it
  begins.
 */
module IdleWatch {
  datatype Phase = Away | Yielding(count: nat) | Idling(count: nat)

  /** `syncs` holds the size of the mailbox at the beginning of each sync of the account. */
  datatype World = World(size: nat, syncs: seq<nat>, seen: int, phase: Phase)

  datatype Op =
    | Arrive
    | OtherSync
    | Restart
    | DialFails
    | Connect(counts: bool)
    | Wake
    | Fault
    | StartSync(started: bool)

  const START := World(0, [], -1, Away)

  /** How much of the mailbox the latest sync found. */
  function Began(w: World): int { if w.syncs == [] then -1 else w.syncs[|w.syncs| - 1] }

  function BeginSync(w: World): World { w.(syncs := w.syncs + [w.size]) }

  function Step(w: World, op: Op): World {
    match op
    case Arrive => w.(size := w.size + 1)
    case OtherSync => BeginSync(w)
    case Restart => w.(seen := -1, phase := Away)
    case DialFails => w
    case Connect(counts) => if w.phase == Away then Connected(w, if counts then w.size else 0) else w
    case Wake => if w.phase.Idling? then w.(phase := Yielding(w.phase.count)) else w
    case Fault => if w.phase.Idling? then w.(seen := w.phase.count, phase := Away) else w
    case StartSync(started) =>
      if w.phase.Yielding? then (if started then BeginSync(w) else w).(seen := w.phase.count, phase := Away) else w
  }

  /** On connecting: a sync for whatever came since the watch last looked, otherwise idling. */
  function Connected(w: World, count: nat): World {
    w.(phase := if w.seen < 0 || count > w.seen then Yielding(count) else Idling(count))
  }

  function Steps(w: World, ops: seq<Op>): World {
    if ops == [] then w else Step(Steps(w, ops[..|ops| - 1]), ops[|ops| - 1])
  }

  function Run(ops: seq<Op>): World { Steps(START, ops) }

  /** Every message counted at connect was there when some sync began. */
  predicate Covered(w: World) { w.phase.Idling? ==> w.phase.count <= Began(w) }

  /** The server reports counts, and a sync asked for starts unless the latest one began with all that was counted. */
  predicate Reliable(w: World, op: Op) {
    && (op.Connect? ==> op.counts)
    && (op.StartSync? && !op.started && w.phase.Yielding? ==> w.phase.count <= Began(w))
  }

  predicate Watched(w: World) {
    && Began(w) <= w.size && w.seen <= Began(w)
    && (w.phase.Yielding? ==> w.phase.count <= w.size) && Covered(w)
  }

  lemma StepWatched(w: World, op: Op)
    requires Watched(w) && Reliable(w, op)
    ensures Watched(Step(w, op))
  {
  }

  lemma Prefixes(ops: seq<Op>)
    requires ops != []
    ensures var n := |ops| - 1; forall i :: 0 <= i < n ==> ops[..n][i] == ops[i] && ops[..n][..i] == ops[..i]
  {
  }

  /** Across every yield, fault, restart and other sync, an idling watch has missed nothing. */
  lemma {:induction false} NoMailMissed(ops: seq<Op>)
    requires forall i :: 0 <= i < |ops| ==> Reliable(Run(ops[..i]), ops[i])
    ensures Watched(Run(ops)) && Covered(Run(ops))
  {
    if ops != [] {
      var n := |ops| - 1;
      Prefixes(ops);
      NoMailMissed(ops[..n]);
      StepWatched(Run(ops[..n]), ops[n]);
    }
  }

  /**
    A refused sync is where mail is missed: the count is remembered as if it had been synced.  The
    reconnected watch asks for a sync if more has arrived, and otherwise idles, having missed nothing
    exactly when the sync that was in the way began with everything counted there.
   */
  lemma RefusedSyncIff(w: World)
    requires w.phase.Yielding? && w.phase.count <= w.size
    ensures var t := Step(Step(w, StartSync(false)), Connect(true));
            && t.phase == (if w.size > w.phase.count then Yielding(w.size) else Idling(w.size))
            && (Covered(t) <==> w.size > w.phase.count || w.phase.count <= Began(w))
  {
  }

  /** A watch that starts anew asks for a sync on its first connection, whatever the server counts. */
  lemma RestartAsks(w: World, counts: bool)
    ensures Step(Step(w, Restart), Connect(counts)).phase.Yielding?
    ensures Step(Step(Step(w, Restart), Connect(counts)), StartSync(true)).syncs == w.syncs + [w.size]
  {
  }

  function Missing(): seq<Op> {
    [Connect(true), StartSync(true), OtherSync, Arrive, Connect(true), StartSync(false), Connect(true)]
  }

  lemma Unroll(w: World, ops: seq<Op>, op: Op)
    ensures Steps(w, ops + [op]) == Step(Steps(w, ops), op)
  {
    assert (ops + [op])[..|ops|] == ops;
  }

  /** One message, a sync that began before it came, and a watch idling on it. */
  lemma MailMissed()
    ensures Run(Missing()) == World(1, [0, 0], 1, Idling(1)) && !Covered(Run(Missing()))
  {
    UnrollThree(START, Connect(true), StartSync(true), OtherSync);
    var w := Step(Step(Step(START, Connect(true)), StartSync(true)), OtherSync);
    assert w == World(0, [0, 0], 0, Away);
    var three := [Connect(true), StartSync(true), OtherSync];
    Unroll(START, three, Arrive);
    Unroll(START, three + [Arrive], Connect(true));
    Unroll(START, three + [Arrive] + [Connect(true)], StartSync(false));
    Unroll(START, three + [Arrive] + [Connect(true)] + [StartSync(false)], Connect(true));
    assert three + [Arrive] + [Connect(true)] + [StartSync(false)] + [Connect(true)] == Missing();
  }

  lemma UnrollThree(w: World, a: Op, b: Op, c: Op)
    ensures Steps(w, [a]) == Step(w, a)
    ensures Steps(w, [a, b]) == Step(Step(w, a), b)
    ensures Steps(w, [a, b, c]) == Step(Step(Step(w, a), b), c)
  {
    assert [a, b, c] == [] + [a] + [b] + [c] && [a, b] == [] + [a] + [b] && [a] == [] + [a];
    Unroll(w, [], a);
    Unroll(w, [a], b);
    Unroll(w, [a, b], c);
  }

  // ----- a server without counts -----

  ghost predicate Uncounted(ops: seq<Op>) { forall i :: 0 <= i < |ops| ==> ops[i].Connect? ==> !ops[i].counts }

  predicate NoRestart(ops: seq<Op>) { forall i :: 0 <= i < |ops| ==> !ops[i].Restart? }

  lemma {:induction false} NothingCounted(ops: seq<Op>)
    requires Uncounted(ops)
    ensures var w := Run(ops); -1 <= w.seen <= 0 && (w.phase != Away ==> w.phase.count == 0)
  {
    if ops != [] {
      var n := |ops| - 1;
      assert forall i :: 0 <= i < n ==> ops[..n][i] == ops[i];
      NothingCounted(ops[..n]);
    }
  }

  lemma {:induction false} StillSeen(w: World, ops: seq<Op>)
    requires w.seen >= 0 && NoRestart(ops)
    ensures Steps(w, ops).seen >= 0
  {
    if ops != [] {
      var n := |ops| - 1;
      assert forall i :: 0 <= i < n ==> ops[..n][i] == ops[i];
      StillSeen(w, ops[..n]);
    }
  }

  lemma {:induction false} StepsAppend(w: World, a: seq<Op>, b: seq<Op>)
    ensures Steps(w, a + b) == Steps(Steps(w, a), b)
  {
    if b == [] {
      assert a + b == a;
    } else {
      var n := |b| - 1;
      StepsAppend(w, a, b[..n]);
      assert (a + b)[..|a| + n] == a + b[..n];
    }
  }

  /**
    In every run with a server that reports no counts, a watch that has been through its first sync
    idles on every later connection, however much has arrived since: only activity makes it ask again.
   */
  lemma WithoutCountsOnlyOnce(before: seq<Op>, ops: seq<Op>)
    requires Uncounted(before) && Uncounted(ops) && NoRestart(ops) && Run(before).seen >= 0
    requires Run(before + ops).phase == Away
    ensures Step(Run(before + ops), Connect(false)).phase == Idling(0)
  {
    StepsAppend(START, before, ops);
    StillSeen(Run(before), ops);
    assert Uncounted(before + ops);
    NothingCounted(before + ops);
  }

  // ----- the loop -----

  datatype Ended = Activity | Broken

  /** What one turn of the loop meets: the dial, the mailbox at connect, and how the idling ended. */
  datatype Turn = Turn(dialed: bool, idles: bool, count: nat, ended: Ended)
  datatype Outcome = Yielded | Failed

  const BASE := 5
  const MAX := 120

  /** Count and outcome of idleOnce. */
  function Once(seen: int, t: Turn): (int, Outcome) {
    if !t.dialed || !t.idles then (seen, Failed)
    else if seen < 0 || t.count > seen || t.ended == Activity then (t.count, Yielded)
    else (t.count, Failed)
  }

  method IdleOnce(seen: int, t: Turn) returns (count: int, outcome: Outcome, synced: bool)
    ensures (count, outcome) == Once(seen, t) && (synced <==> outcome == Yielded)
  {
    if !t.dialed { return seen, Failed, false; }
    if !t.idles { return seen, Failed, false; }
    count := t.count;
    if seen < 0 || count > seen { return count, Yielded, true; }
    if t.ended == Broken { return count, Failed, false; }
    return count, Yielded, true;
  }

  /** The same turn as steps of the world. */
  function OpsOf(seen: int, t: Turn, started: bool): seq<Op> {
    if !t.dialed || !t.idles then [DialFails]
    else if seen < 0 || t.count > seen then [Connect(true), StartSync(started)]
    else if t.ended == Activity then [Connect(true), Wake, StartSync(started)]
    else [Connect(true), Fault]
  }

  /** A turn takes the world from away to away and leaves in `seen` what the loop carries on. */
  lemma TurnIsSteps(w: World, t: Turn, started: bool)
    requires w.phase == Away && (t.dialed && t.idles ==> t.count == w.size)
    ensures var v := Steps(w, OpsOf(w.seen, t, started));
            v.phase == Away && v.seen == Once(w.seen, t).0
            && v.syncs == w.syncs + if Once(w.seen, t).1 == Yielded && started then [w.size] else []
  {
    if !t.dialed || !t.idles {
      UnrollThree(w, DialFails, Fault, Fault);
    } else if w.seen < 0 || t.count > w.seen {
      UnrollThree(w, Connect(true), StartSync(started), Fault);
    } else if t.ended == Activity {
      UnrollThree(w, Connect(true), Wake, StartSync(started));
    } else {
      UnrollThree(w, Connect(true), Fault, Fault);
    }
  }

  function SeenAfter(turns: seq<Turn>): int {
    if turns == [] then -1 else Once(SeenAfter(turns[..|turns| - 1]), turns[|turns| - 1]).0
  }

  predicate FaultAt(turns: seq<Turn>, i: nat)
    requires i < |turns|
  {
    Once(SeenAfter(turns[..i]), turns[i]).1 == Failed
  }

  /** How many turns in a row have just failed. */
  function Streak(turns: seq<Turn>): nat {
    if turns == [] || !FaultAt(turns, |turns| - 1) then 0 else 1 + Streak(turns[..|turns| - 1])
  }

  function Pow2(n: nat): nat { if n == 0 then 1 else 2 * Pow2(n - 1) }

  /** The wait after the k-th fault in a row: doubling stops once it has passed two minutes. */
  function Wait(k: nat): nat { BASE * Pow2(if k < 5 then k else 5) }

  lemma WaitBounds(k: nat)
    ensures BASE <= Wait(k) <= 160 && Wait(k) <= Wait(k + 1)
    ensures Wait(k + 1) == if Wait(k) < MAX then 2 * Wait(k) else Wait(k)
    ensures k >= 5 <==> Wait(k) == 160
  {
    assert Pow2(1) == 2 && Pow2(2) == 4 && Pow2(3) == 8;
    assert Pow2(4) == 16 && Pow2(5) == 32;
    if k < 5 { assert k == 0 || k == 1 || k == 2 || k == 3 || k == 4; }
  }

  /**
    No pause after a turn that asked for a sync; five seconds after the first fault, and after the next one
    twice the last pause while that was below two minutes.
   */
  predicate Paced(turns: seq<Turn>, waits: seq<nat>, i: nat)
    requires i < |turns| == |waits|
  {
    var seen, t := SeenAfter(turns[..i]), turns[i];
    if t.dialed && t.idles && (seen < t.count || t.ended == Activity) then waits[i] == 0
    else if i == 0 || waits[i - 1] == 0 then waits[i] == 5
    else waits[i] == if waits[i - 1] < 120 then 2 * waits[i - 1] else waits[i - 1]
  }

  lemma PacedWaits(turns: seq<Turn>, waits: seq<nat>, i: nat)
    requires i < |turns| == |waits|
    requires forall j :: 0 <= j < |turns| ==> waits[j] == if FaultAt(turns, j) then Wait(Streak(turns[..j])) else 0
    ensures Paced(turns, waits, i)
  {
    if i > 0 {
      assert turns[..i][..i - 1] == turns[..i - 1];
      WaitBounds(Streak(turns[..i - 1]));
    }
  }

  /** `waits` holds the pause after each turn, 0 where there is none. */
  method IdleLoop(turns: seq<Turn>) returns (seen: int, waits: seq<nat>)
    ensures seen == SeenAfter(turns) && |waits| == |turns|
    ensures forall i :: 0 <= i < |turns| ==>
              waits[i] == if FaultAt(turns, i) then Wait(Streak(turns[..i])) else 0
    ensures forall i :: 0 <= i < |turns| ==> Paced(turns, waits, i)
  {
    var backoff := BASE;
    seen, waits := -1, [];
    for i := 0 to |turns|
      invariant seen == SeenAfter(turns[..i]) && |waits| == i && backoff == Wait(Streak(turns[..i]))
      invariant forall j :: 0 <= j < i ==> waits[j] == if FaultAt(turns, j) then Wait(Streak(turns[..j])) else 0
    {
      assert turns[..i + 1][..i] == turns[..i];
      var count, outcome, _ := IdleOnce(seen, turns[i]);
      seen := count;
      WaitBounds(Streak(turns[..i]));
      if outcome == Yielded {
        backoff := BASE;
        waits := waits + [0];
      } else {
        waits := waits + [backoff];
        if backoff < MAX { backoff := backoff * 2; }
      }
    }
    assert turns[..|turns|] == turns;
    forall i | 0 <= i < |turns| ensures Paced(turns, waits, i) { PacedWaits(turns, waits, i); }
  }
}
