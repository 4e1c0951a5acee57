/**
  The two places of the worker code where one goroutine waits for another without losing the
  signal: the sync slots of internal/application/live_workers.go, whose limit changes while they
  are in use, and the leadership edge of internal/application/app.go.

  A channel is a number; `closed` holds the numbers of the channels closed so far.  The classes are
  the code under its mutex; the runs interleave any number of threads that use them.
 */
module Wakeups {

  datatype Option<+T> = None | Some(value: T)

  type Channel = nat
  type Thread = nat

  // ----- sync slots -----

  /** syncSlotsInUse, syncSlotsChanged and the channels made and closed. */
  datatype Slots = Slots(inUse: int, changed: Option<Channel>, made: nat, closed: set<Channel>)

  function EffectiveLimit(limit: int): (r: int)
    ensures r >= 1
  {
    if limit < 1 then 2 else limit
  }

  function Prepared(s: Slots): Slots {
    if s.changed.None? then s.(changed := Some(s.made), made := s.made + 1) else s
  }

  /** tryAcquireSyncSlot: a slot, or the channel the next release will close. */
  function TryAcquire(s: Slots, limit: int): (Slots, Option<Channel>) {
    var p := Prepared(s);
    if p.inUse < EffectiveLimit(limit) then (p.(inUse := p.inUse + 1), None) else (p, p.changed)
  }

  function Release(s: Slots): Slots
    requires s.changed.Some?
  {
    s.(inUse := s.inUse - 1, closed := s.closed + {s.changed.value}, changed := Some(s.made), made := s.made + 1)
  }

  predicate SlotsValid(s: Slots) {
    && (forall c :: c in s.closed ==> c < s.made)
    && (s.changed.Some? ==> s.changed.value < s.made && s.changed.value !in s.closed)
  }

  class SyncSlots {
    var inUse: int
    var changed: Option<Channel>
    var made: nat
    var closed: set<Channel>

    ghost function View(): Slots
      reads this
    {
      Slots(inUse, changed, made, closed)
    }

    constructor ()
      ensures View() == Slots(0, None, 0, {})
    {
      inUse, changed, made, closed := 0, None, 0, {};
    }

    method TryAcquireSyncSlot(limit: int) returns (acquired: bool, wait: Option<Channel>)
      modifies this
      ensures (View(), wait) == TryAcquire(old(View()), limit)
      ensures acquired <==> wait.None?
      ensures acquired ==> old(inUse) < EffectiveLimit(limit)
    {
      var limit' := limit;
      if limit' < 1 {
        limit' := 2;
      }
      if changed.None? {
        changed := Some(made);
        made := made + 1;
      }
      if inUse < limit' {
        inUse := inUse + 1;
        return true, None;
      }
      return false, changed;
    }

    method ReleaseSyncSlot()
      requires changed.Some?
      modifies this
      ensures View() == Release(old(View()))
    {
      inUse := inUse - 1;
      closed := closed + {changed.value};
      changed := Some(made);
      made := made + 1;
    }
  }

  /** Threads between reading the limit and taking the lock, holding a slot, or waiting on a channel. */
  datatype Pool = Pool(slots: Slots, limit: int, highest: int,
                       asking: map<Thread, int>, holding: set<Thread>, waiting: map<Thread, Channel>)

  datatype PoolOp =
    | SetLimit(limit: int)
    | ReadLimit(t: Thread)     // limit := a.EffectiveConfig()...
    | Try(t: Thread)           // the critical section of tryAcquireSyncSlot
    | Wake(t: Thread)          // the captured channel is closed, or the poll ticks
    | GiveBack(t: Thread)

  predicate PoolEnabled(p: Pool, op: PoolOp) {
    match op
    case SetLimit(_) => true
    case ReadLimit(t) => t !in p.asking && t !in p.holding && t !in p.waiting
    case Try(t) => t in p.asking
    case Wake(t) => t in p.waiting
    case GiveBack(t) => t in p.holding && p.slots.changed.Some?
  }

  function PoolStep(p: Pool, op: PoolOp): Pool
    requires PoolEnabled(p, op)
  {
    match op
    case SetLimit(limit) => p.(limit := limit, highest := Highest(p.highest, EffectiveLimit(limit)))
    case ReadLimit(t) => p.(asking := p.asking[t := p.limit])
    case Try(t) =>
      var (s, wait) := TryAcquire(p.slots, p.asking[t]);
      var q := p.(slots := s, asking := p.asking - {t});
      if wait.None? then q.(holding := p.holding + {t}) else q.(waiting := p.waiting[t := wait.value])
    case Wake(t) => p.(waiting := p.waiting - {t})
    case GiveBack(t) => p.(slots := Release(p.slots), holding := p.holding - {t})
  }

  function Highest(a: int, b: int): int { if a < b then b else a }

  /** The counter is the number of holders; a waiter's channel is the current one or already closed. */
  predicate PoolInv(p: Pool) {
    && SlotsValid(p.slots)
    && p.slots.inUse == |p.holding|
    && p.slots.inUse <= p.highest
    && EffectiveLimit(p.limit) <= p.highest
    && (p.holding != {} || p.waiting != map[] ==> p.slots.changed.Some?)
    && (forall t :: t in p.asking ==> t !in p.holding && EffectiveLimit(p.asking[t]) <= p.highest)
    && (forall t :: t in p.waiting ==> p.slots.changed == Some(p.waiting[t]) || p.waiting[t] in p.slots.closed)
    && (forall t :: t in p.waiting ==> t !in p.holding && t !in p.asking)
  }

  function NewPool(limit: int): Pool {
    Pool(Slots(0, None, 0, {}), limit, EffectiveLimit(limit), map[], {}, map[])
  }

  lemma PoolStepKeeps(p: Pool, op: PoolOp)
    requires PoolInv(p) && PoolEnabled(p, op)
    ensures PoolInv(PoolStep(p, op))
  {
  }

  ghost predicate PoolReaches(p: Pool, ops: seq<PoolOp>, q: Pool)
    decreases |ops|
  {
    if ops == [] then q == p else PoolEnabled(p, ops[0]) && PoolReaches(PoolStep(p, ops[0]), ops[1..], q)
  }

  lemma {:induction false} PoolRunKeeps(p: Pool, ops: seq<PoolOp>, q: Pool)
    requires PoolInv(p) && PoolReaches(p, ops, q)
    ensures PoolInv(q)
    decreases |ops|
  {
    if ops != [] {
      PoolStepKeeps(p, ops[0]);
      PoolRunKeeps(PoolStep(p, ops[0]), ops[1..], q);
    }
  }

  /**
    Under every interleaving and every change of the limit: the counter is the number of holders
    and never above the highest limit set, and a release wakes every thread that was waiting.
   */
  lemma NoLostWakeUp(limit: int, ops: seq<PoolOp>, p: Pool)
    requires PoolReaches(NewPool(limit), ops, p)
    ensures p.slots.inUse == |p.holding| <= p.highest
    ensures forall t :: PoolEnabled(p, GiveBack(t)) ==>
              forall w :: w in p.waiting ==> p.waiting[w] in PoolStep(p, GiveBack(t)).slots.closed
  {
    assert PoolInv(NewPool(limit));
    PoolRunKeeps(NewPool(limit), ops, p);
  }

  /** A thread that is refused holds a channel that is still open, so it cannot sleep through a release. */
  lemma RefusedWaitsOnOpenChannel(limit: int, ops: seq<PoolOp>, p: Pool, t: Thread)
    requires PoolReaches(NewPool(limit), ops, p) && PoolEnabled(p, Try(t))
    ensures var q := PoolStep(p, Try(t));
            t !in q.holding ==>
                t in q.waiting && q.slots.changed == Some(q.waiting[t]) && q.waiting[t] !in q.slots.closed
  {
    assert PoolInv(NewPool(limit));
    PoolRunKeeps(NewPool(limit), ops, p);
    PoolStepKeeps(p, Try(t));
  }

  /**
    So a slot that is given back can be had: the waiter wakes on the closed channel, reads the limit, and
    its try succeeds if the slots still in use are below that limit.
   */
  lemma WokenGetsFreeSlot(limit: int, ops: seq<PoolOp>, p: Pool, h: Thread, t: Thread)
    requires PoolReaches(NewPool(limit), ops, p) && h in p.holding && t in p.waiting
    requires |p.holding| <= if p.limit < 1 then 2 else p.limit
    ensures exists q :: PoolReaches(p, [GiveBack(h), Wake(t), ReadLimit(t), Try(t)], q)
              && q.holding == p.holding - {h} + {t} && q.waiting == p.waiting - {t} && p.waiting[t] in q.slots.closed
  {
    assert PoolInv(NewPool(limit));
    PoolRunKeeps(NewPool(limit), ops, p);
    var p1 := PoolStep(p, GiveBack(h));
    var p2 := PoolStep(p1, Wake(t));
    var p3 := PoolStep(p2, ReadLimit(t));
    var p4 := PoolStep(p3, Try(t));
    var all := [GiveBack(h), Wake(t), ReadLimit(t), Try(t)];
    assert all[1..] == [Wake(t), ReadLimit(t), Try(t)] && all[1..][1..] == [ReadLimit(t), Try(t)];
    assert all[1..][1..][1..] == [Try(t)] && all[1..][1..][1..][1..] == [];
    assert PoolReaches(p3, [Try(t)], p4);
    assert PoolReaches(p2, all[1..][1..], p4);
    assert PoolReaches(p1, all[1..], p4);
    assert PoolReaches(p, all, p4);
  }

  /** The next try of t gets a slot. */
  predicate Granted(p: Pool, t: Thread)
    requires PoolEnabled(p, Try(t))
  {
    t in PoolStep(p, Try(t)).holding
  }

  /** It gets one although the limit in force is already reached. */
  predicate OverGranted(p: Pool, t: Thread)
    requires PoolEnabled(p, Try(t))
  {
    Granted(p, t) && p.slots.inUse >= EffectiveLimit(p.limit)
  }

  /**
    A slot is granted below the limit that was read, so at or above the limit in force exactly when
    the slots in use lie between the two.
   */
  lemma OverGrantedIff(limit: int, ops: seq<PoolOp>, p: Pool, t: Thread)
    requires PoolReaches(NewPool(limit), ops, p) && PoolEnabled(p, Try(t))
    ensures Granted(p, t) <==> p.slots.inUse < EffectiveLimit(p.asking[t])
    ensures Granted(p, t) <==> p.slots.inUse < if p.asking[t] > 0 then p.asking[t] else 2
    ensures OverGranted(p, t) <==> EffectiveLimit(p.limit) <= p.slots.inUse < EffectiveLimit(p.asking[t])
  {
    assert PoolInv(NewPool(limit));
    PoolRunKeeps(NewPool(limit), ops, p);
  }

  lemma {:induction false} ReachesLast(p: Pool, ops: seq<PoolOp>, q: Pool) returns (m: Pool)
    requires PoolReaches(p, ops, q) && ops != []
    ensures var n := |ops| - 1;
            PoolReaches(p, ops[..n], m) && PoolEnabled(m, ops[n]) && PoolStep(m, ops[n]) == q
    decreases |ops|
  {
    var n := |ops| - 1;
    if n == 0 {
      m := p;
    } else {
      m := ReachesLast(PoolStep(p, ops[0]), ops[1..], q);
      assert ops[1..][..n - 1] == ops[..n][1..];
    }
  }

  /** The limit t asks with was in force when it was read, and if it is no longer, the limit was set since. */
  ghost predicate ReadAt(start: Pool, ops: seq<PoolOp>, p: Pool, t: Thread, i: nat, m: Pool) {
    && t in p.asking && i < |ops| && ops[i] == ReadLimit(t) && PoolReaches(start, ops[..i], m) && m.limit == p.asking[t]
    && (p.limit == p.asking[t] || exists j :: i < j < |ops| && ops[j] == SetLimit(p.limit))
  }

  lemma {:induction false} LimitWasRead(start: Pool, ops: seq<PoolOp>, p: Pool, t: Thread) returns (i: nat, m: Pool)
    requires start.asking == map[] && PoolReaches(start, ops, p) && t in p.asking
    ensures ReadAt(start, ops, p, t, i, m)
    decreases |ops|
  {
    var n := |ops| - 1;
    var q := ReachesLast(start, ops, p);
    if ops[n] == ReadLimit(t) {
      i, m := n, q;
    } else {
      i, m := LimitWasRead(start, ops[..n], q, t);
      assert ops[..n][..i] == ops[..i];
      if ops[n].SetLimit? {
        assert ops[n] == SetLimit(p.limit);
      } else if q.limit != q.asking[t] {
        var j :| i < j < n && ops[..n][j] == SetLimit(q.limit);
        assert ops[j] == SetLimit(p.limit);
      }
    }
  }

  /**
    In every run a slot is granted only below the limit then in force, unless the limit was set to a
    lower one after the thread had read it and before it tried.
   */
  lemma GrantedBelowLimitUnlessLowered(limit: int, ops: seq<PoolOp>, p: Pool, t: Thread)
    requires PoolReaches(NewPool(limit), ops, p) && PoolEnabled(p, Try(t)) && Granted(p, t)
    ensures p.slots.inUse < EffectiveLimit(p.limit) || LoweredSince(ops, p, t)
  {
    OverGrantedIff(limit, ops, p, t);
    var i, m := LimitWasRead(NewPool(limit), ops, p, t);
    if p.slots.inUse >= EffectiveLimit(p.limit) {
      var j :| i < j < |ops| && ops[j] == SetLimit(p.limit);
      assert ops[i] == ReadLimit(t) && ops[j] == SetLimit(p.limit);
    }
  }

  /** The limit in force was set after t read a higher one. */
  ghost predicate LoweredSince(ops: seq<PoolOp>, p: Pool, t: Thread) {
    && t in p.asking && EffectiveLimit(p.limit) < EffectiveLimit(p.asking[t])
    && exists i, j :: 0 <= i < j < |ops| && ops[i] == ReadLimit(t) && ops[j] == SetLimit(p.limit)
  }

  /** The limit is read before the lock: a limit lowered in between still admits one holder too many. */
  lemma LoweredLimitRace()
    ensures exists p :: PoolReaches(NewPool(2), [ReadLimit(1), Try(1), ReadLimit(2), SetLimit(1), Try(2)], p)
              && p.slots.inUse == 2 && p.limit == 1
  {
    var p0 := NewPool(2);
    var p1 := PoolStep(p0, ReadLimit(1));
    var p2 := PoolStep(p1, Try(1));
    var p3 := PoolStep(p2, ReadLimit(2));
    var p4 := PoolStep(p3, SetLimit(1));
    var p5 := PoolStep(p4, Try(2));
    var ops := [ReadLimit(1), Try(1), ReadLimit(2), SetLimit(1), Try(2)];
    assert ops[1..] == [Try(1), ReadLimit(2), SetLimit(1), Try(2)];
    assert ops[1..][1..] == [ReadLimit(2), SetLimit(1), Try(2)];
    assert ops[1..][1..][1..] == [SetLimit(1), Try(2)];
    assert ops[1..][1..][1..][1..] == [Try(2)];
    assert ops[1..][1..][1..][1..][1..] == [];
    assert PoolReaches(p4, [Try(2)], p5);
    assert PoolReaches(p3, ops[1..][1..][1..], p5);
    assert PoolReaches(p2, ops[1..][1..], p5);
    assert PoolReaches(p1, ops[1..], p5);
  }

  // ----- the leadership edge -----

  /** isLeader and leaderChanged with the channels made and closed. */
  datatype Flag = Flag(isLeader: bool, changed: Option<Channel>, made: nat, closed: set<Channel>)

  function SetState(f: Flag, leader: bool): Flag {
    if f.isLeader == leader then f
    else
      var closed := if f.changed.Some? then f.closed + {f.changed.value} else f.closed;
      Flag(leader, Some(f.made), f.made + 1, closed)
  }

  function TakeEdge(f: Flag): (Flag, Channel) {
    if f.changed.Some? then (f, f.changed.value) else (f.(changed := Some(f.made), made := f.made + 1), f.made)
  }

  class LeaderFlag {
    var isLeader: bool
    var changed: Option<Channel>
    var made: nat
    var closed: set<Channel>

    ghost function View(): Flag
      reads this
    {
      Flag(isLeader, changed, made, closed)
    }

    constructor ()
      ensures View() == Flag(false, None, 0, {})
    {
      isLeader, changed, made, closed := false, None, 0, {};
    }

    method SetLeaderState(state: bool) returns (rising: bool)
      modifies this
      ensures View() == SetState(old(View()), state)
      ensures rising <==> state && !old(isLeader)
    {
      rising := state && !isLeader;
      if isLeader != state {
        isLeader := state;
        if changed.Some? {
          closed := closed + {changed.value};
        }
        changed := Some(made);
        made := made + 1;
      }
    }

    method LeaderEdge() returns (edge: Channel)
      modifies this
      ensures (View(), edge) == TakeEdge(old(View()))
    {
      if changed.None? {
        changed := Some(made);
        made := made + 1;
      }
      edge := changed.value;
    }
  }

  /** Each watcher with the channel it took and what IsLeader was at that moment. */
  datatype Watch = Watch(flag: Flag, taken: map<Thread, (Channel, bool)>)

  datatype WatchOp = Change(leader: bool) | Take(t: Thread)

  function WatchStep(w: Watch, op: WatchOp): Watch {
    match op
    case Change(leader) => w.(flag := SetState(w.flag, leader))
    case Take(t) =>
      var (f, c) := TakeEdge(w.flag);
      Watch(f, w.taken[t := (c, w.flag.isLeader)])
  }

  function WatchRun(w: Watch, ops: seq<WatchOp>): Watch {
    if ops == [] then w else WatchStep(WatchRun(w, ops[..|ops| - 1]), ops[|ops| - 1])
  }

  predicate WatchInv(w: Watch) {
    && (forall c :: c in w.flag.closed ==> c < w.flag.made)
    && (w.flag.changed.Some? ==> w.flag.changed.value < w.flag.made && w.flag.changed.value !in w.flag.closed)
    && (forall t :: t in w.taken ==>
          || w.taken[t].0 in w.flag.closed
          || (w.flag.changed == Some(w.taken[t].0) && w.flag.isLeader == w.taken[t].1))
  }

  lemma {:induction false} WatchRunKeeps(w: Watch, ops: seq<WatchOp>)
    requires WatchInv(w)
    ensures WatchInv(WatchRun(w, ops))
  {
    if ops != [] { WatchRunKeeps(w, ops[..|ops| - 1]); }
  }

  /**
    An edge taken before reading IsLeader misses nothing: as long as its channel is open, leadership
    is what it was when the edge was taken, and any change closes the channel.
   */
  lemma NoMissedEdge(ops: seq<WatchOp>, t: Thread, leader: bool)
    ensures var w := WatchRun(Watch(Flag(false, None, 0, {}), map[]), ops);
            t in w.taken ==>
              && (w.taken[t].0 !in w.flag.closed ==> w.flag.isLeader == w.taken[t].1)
              && (w.flag.isLeader != leader ==> w.taken[t].0 in WatchStep(w, Change(leader)).flag.closed)
  {
    WatchRunKeeps(Watch(Flag(false, None, 0, {}), map[]), ops);
  }
}
