/**
  Administrative settings: AdminPatchSettings (internal/application/settings_service.go),
  adminSaveSettingsSnapshot (internal/application/settings.go), commitAdminSettings and
  revokeUnreferencedSettingSecrets (internal/application/settings_cas.go) and
  CompareAndSwapAdminSettings (internal/adapters/persistence/settings_cas.go).

  Any number of processes patch one settings table.  A patch reads the table, registers secrets,
  commits by compare-and-swap, and rolls back if it was not told that the commit happened; anything
  may come between two of those steps.  How updates are validated and derived from a request is a
  parameter, `compute`; it sees the public part of what was read.  `isRef` tells what a secret
  reference looks like, `configured` are those of the start-up configuration.
 */
module SettingsCas {
  type Settings = map<string, string>
  type Ref = string
  type Id = nat

  datatype Option<T> = None | Some(value: T)
  datatype Request = Request(revision: string, values: Settings)

  datatype Env = Env(compute: (Settings, Request, seq<Ref>) -> Option<Settings>,
                     retired: (Settings, Request) -> seq<Ref>,
                     revision: Settings -> string,
                     isRef: string -> bool,
                     configured: set<Ref>)

  predicate Internal(key: string) { "internal." <= key }

  /** AdminSettingsSnapshot: what a patch is compared on. */
  function Public(settings: Settings): (p: Settings)
    ensures p.Keys <= settings.Keys
  {
    map key | key in settings && !Internal(key) :: settings[key]
  }

  function Revision(env: Env, settings: Settings): string { env.revision(Public(settings)) }

  predicate Contains(value: string, ref: Ref) {
    exists i :: 0 <= i <= |value| && ref <= value[i..]
  }

  predicate Referenced(settings: Settings, ref: Ref) { exists key :: key in settings && Contains(settings[key], ref) }

  /** Candidates for revocation, what was read to decide about them, and the next one to decide. */
  datatype Sweep = Sweep(candidates: seq<Ref>, stored: Settings, kept: set<Ref>, next: nat)

  datatype Phase = Editing | RollingBack | Committed | Sweeping(committed: bool, sweep: Sweep) | Done
  datatype Patch = Patch(request: Request, expected: Settings, refs: seq<Ref>, phase: Phase)

  /** The table's history: what a patch saved, or what was written around it. */
  datatype Entry = Saved(patch: Id, read: Settings, request: Request, refs: seq<Ref>) | Written(values: Settings)

  datatype System = System(settings: Settings, minted: set<Ref>, revoked: set<Ref>, patches: map<Id, Patch>,
                           log: seq<Entry>)

  const EMPTY := System(map[], {}, {}, map[], [])

  /** How the commit call ends: with its answer, with nothing done, or done with the answer lost. */
  datatype Reply = Answered | Errored | Lost

  datatype Op =
    | Begin(p: Id, request: Request)
    | Mint(p: Id, ref: Ref)
    | Refuse(p: Id)
    | Commit(p: Id, reply: Reply)
    | Check(p: Id, read: bool, kept: set<Ref>)
    | Revoke(p: Id)
    | Upsert(values: Settings)

  function Updates(env: Env, x: Patch): Option<Settings> { env.compute(Public(x.expected), x.request, x.refs) }

  /** The compare-and-swap writes. */
  predicate Swaps(env: Env, s: System, x: Patch, reply: Reply) {
    Updates(env, x).Some? && reply != Errored && Public(s.settings) == Public(x.expected)
  }

  function Step(env: Env, s: System, op: Op): System {
    match op
    case Begin(p, request) => BeginStep(env, s, p, request)
    case Mint(p, ref) => MintStep(env, s, p, ref)
    case Refuse(p) => if InPhase(s, p, Editing) then Moved(s, p, RollingBack) else s
    case Commit(p, reply) => if InPhase(s, p, Editing) then CommitStep(env, s, p, reply) else s
    case Check(p, read, kept) => CheckStep(env, s, p, read, kept)
    case Revoke(p) => RevokeStep(s, p)
    case Upsert(values) => s.(settings := s.settings + values, log := s.log + [Written(values)])
  }

  predicate InPhase(s: System, p: Id, phase: Phase) { p in s.patches && s.patches[p].phase == phase }

  function Moved(s: System, p: Id, phase: Phase): System
    requires p in s.patches
  {
    s.(patches := s.patches[p := s.patches[p].(phase := phase)])
  }

  /** The request is refused at once if it was made on another revision. */
  function BeginStep(env: Env, s: System, p: Id, request: Request): System {
    if p in s.patches || (request.revision != "" && request.revision != Revision(env, s.settings)) then s
    else s.(patches := s.patches[p := Patch(request, s.settings, [], Editing)])
  }

  function MintStep(env: Env, s: System, p: Id, ref: Ref): System {
    if !InPhase(s, p, Editing) || ref in s.minted || !env.isRef(ref) then s
    else s.(minted := s.minted + {ref}, patches := s.patches[p := s.patches[p].(refs := s.patches[p].refs + [ref])])
  }

  function CommitStep(env: Env, s: System, p: Id, reply: Reply): System
    requires InPhase(s, p, Editing)
  {
    var x := s.patches[p];
    if !Swaps(env, s, x, reply) then Moved(s, p, RollingBack)
    else
      Moved(s.(settings := s.settings + Updates(env, x).value,
               log := s.log + [Saved(p, x.expected, x.request, x.refs)]),
            p, if reply == Answered then Committed else RollingBack)
  }

  /** Reads the settings to decide which references nobody uses; without the reads nothing is revoked. */
  function CheckStep(env: Env, s: System, p: Id, read: bool, kept: set<Ref>): System {
    if p !in s.patches || s.patches[p].phase.Editing? || s.patches[p].phase.Done? then s
    else if !read then Moved(s, p, Done)
    else
      var x := s.patches[p];
      var committed := x.phase == Committed || (x.phase.Sweeping? && x.phase.committed);
      var candidates := if committed then env.retired(x.expected, x.request) else x.refs;
      Moved(s, p, Sweeping(committed, Sweep(candidates, s.settings, kept, 0)))
  }

  predicate Spared(w: Sweep, ref: Ref) { ref == "" || ref in w.kept || Referenced(w.stored, ref) }

  function RevokeStep(s: System, p: Id): System {
    if p !in s.patches || !s.patches[p].phase.Sweeping? then s
    else
      var ph := s.patches[p].phase;
      var w := ph.sweep;
      if w.next >= |w.candidates| then Moved(s, p, Done)
      else
        var ref := w.candidates[w.next];
        Moved(s.(revoked := if Spared(w, ref) then s.revoked else s.revoked + {ref}), p,
              ph.(sweep := w.(next := w.next + 1)))
  }

  function Exec(env: Env, s: System, ops: seq<Op>): System {
    if ops == [] then s else Step(env, Exec(env, s, ops[..|ops| - 1]), ops[|ops| - 1])
  }

  function Run(env: Env, ops: seq<Op>): System { Exec(env, EMPTY, ops) }

  // ----- committed patches form one order -----

  /** One after the other, each request computed from the public settings it finds. */
  function Serial(env: Env, log: seq<Entry>): Settings {
    if log == [] then map[]
    else
      var before := Serial(env, log[..|log| - 1]);
      match log[|log| - 1]
      case Saved(_, _, request, refs) =>
        (match env.compute(before, request, refs)
         case Some(updates) => Public(before + updates)
         case None => before)
      case Written(values) => Public(before + values)
  }

  lemma PublicPlus(settings: Settings, updates: Settings)
    ensures Public(settings + updates) == Public(Public(settings) + updates)
  {
  }

  /** A saved entry was read from, and computed over, exactly what it replaced. */
  predicate EntryOk(env: Env, log: seq<Entry>, i: nat) {
    i < |log| && log[i].Saved? ==>
      && Public(log[i].read) == Serial(env, log[..i])
      && env.compute(Serial(env, log[..i]), log[i].request, log[i].refs).Some?
      && (log[i].request.revision != "" ==> log[i].request.revision == env.revision(Serial(env, log[..i])))
  }

  /** A patch that named a revision read that revision. */
  predicate PatchOk(env: Env, s: System, p: Id) {
    p in s.patches && s.patches[p].request.revision != "" ==>
      s.patches[p].request.revision == Revision(env, s.patches[p].expected)
  }

  ghost predicate Ordered(env: Env, s: System) {
    && Public(s.settings) == Serial(env, s.log)
    && (forall i :: EntryOk(env, s.log, i)) && (forall p :: PatchOk(env, s, p))
  }

  lemma Logs(env: Env, log: seq<Entry>, e: Entry)
    requires forall i :: EntryOk(env, log, i)
    requires EntryOk(env, log + [e], |log|)
    ensures forall i :: EntryOk(env, log + [e], i)
  {
    forall i: nat ensures EntryOk(env, log + [e], i) {
      assert EntryOk(env, log, i);
      if i < |log| { assert (log + [e])[..i] == log[..i]; }
    }
  }

  lemma UpsertOrdered(env: Env, s: System, values: Settings)
    requires Ordered(env, s)
    ensures Ordered(env, Step(env, s, Upsert(values)))
  {
    var t := Step(env, s, Upsert(values));
    assert t.log[..|s.log|] == s.log;
    PublicPlus(s.settings, values);
    Logs(env, s.log, Written(values));
    forall p ensures PatchOk(env, t, p) { assert PatchOk(env, s, p); }
  }

  lemma SwapOrdered(env: Env, s: System, p: Id, reply: Reply)
    requires Ordered(env, s) && InPhase(s, p, Editing) && Swaps(env, s, s.patches[p], reply)
    ensures Ordered(env, CommitStep(env, s, p, reply))
  {
    var t := CommitStep(env, s, p, reply);
    var x := s.patches[p];
    var e := Saved(p, x.expected, x.request, x.refs);
    assert t.log == s.log + [e] && t.log[..|s.log|] == s.log;
    PublicPlus(s.settings, Updates(env, x).value);
    assert PatchOk(env, s, p);
    Logs(env, s.log, e);
    forall q ensures PatchOk(env, t, q) { assert PatchOk(env, s, q); }
  }

  lemma StepOrdered(env: Env, s: System, op: Op)
    requires Ordered(env, s)
    ensures Ordered(env, Step(env, s, op))
  {
    var t := Step(env, s, op);
    if op.Upsert? {
      UpsertOrdered(env, s, op.values);
    } else if op.Commit? && InPhase(s, op.p, Editing) && Swaps(env, s, s.patches[op.p], op.reply) {
      SwapOrdered(env, s, op.p, op.reply);
    } else {
      assert t.settings == s.settings && t.log == s.log;
      forall p ensures PatchOk(env, t, p) { assert PatchOk(env, s, p); }
    }
  }

  /**
    In every run the public settings are those of one serial order, in which each committed patch was
    computed from exactly the public settings it replaced.
   */
  lemma {:induction false} Serializable(env: Env, ops: seq<Op>)
    ensures Ordered(env, Run(env, ops))
  {
    if ops != [] {
      Serializable(env, ops[..|ops| - 1]);
      StepOrdered(env, Run(env, ops[..|ops| - 1]), ops[|ops| - 1]);
    }
  }

  /** A patch made on the revision of some earlier state commits only onto that state's public settings. */
  lemma RevisionGuards(env: Env, ops: seq<Op>, seen: seq<Op>, i: nat)
    requires forall x, y :: env.revision(x) == env.revision(y) ==> x == y
    requires i < |Run(env, ops).log| && Run(env, ops).log[i].Saved?
    requires Run(env, ops).log[i].request.revision == Revision(env, Run(env, seen).settings) != ""
    ensures Serial(env, Run(env, ops).log[..i]) == Public(Run(env, seen).settings)
  {
    Serializable(env, ops);
    assert EntryOk(env, Run(env, ops).log, i);
  }

  // ----- what a refused patch changes, and what can refuse one -----

  predicate OpOf(op: Op, p: Id) { !op.Upsert? && op.p == p }

  predicate HasSaved(log: seq<Entry>, p: Id) { exists i :: 0 <= i < |log| && log[i].Saved? && log[i].patch == p }

  /** Step i of the run, if it is p's, leaves the settings and their history alone. */
  ghost predicate Idle(env: Env, ops: seq<Op>, p: Id, i: nat) {
    i < |ops| && OpOf(ops[i], p) ==>
      && Run(env, ops[..i + 1]).settings == Run(env, ops[..i]).settings
      && Run(env, ops[..i + 1]).log == Run(env, ops[..i]).log
  }

  lemma LogGrows(env: Env, s: System, op: Op)
    ensures s.log <= Step(env, s, op).log
    ensures Step(env, s, op).settings == s.settings || |Step(env, s, op).log| == |s.log| + 1
  {
  }

  lemma {:induction false} PrefixLog(env: Env, ops: seq<Op>, i: nat)
    requires i <= |ops|
    ensures Run(env, ops[..i]).log <= Run(env, ops).log
  {
    if i < |ops| {
      var n := |ops| - 1;
      assert ops[..n][..i] == ops[..i];
      PrefixLog(env, ops[..n], i);
      LogGrows(env, Run(env, ops[..n]), ops[n]);
    } else {
      assert ops[..i] == ops;
    }
  }

  lemma OwnStep(env: Env, s: System, op: Op, p: Id)
    requires OpOf(op, p)
    ensures var t := Step(env, s, op);
            (t.settings == s.settings && t.log == s.log)
                || (|t.log| == |s.log| + 1 && t.log[|s.log|].Saved? && t.log[|s.log|].patch == p)
  {
  }

  lemma SavedStays(a: seq<Entry>, b: seq<Entry>, p: Id)
    requires a <= b && HasSaved(a, p)
    ensures HasSaved(b, p)
  {
    var i :| 0 <= i < |a| && a[i].Saved? && a[i].patch == p;
    assert b[i] == a[i];
  }

  /**
    From its beginning to its end, whatever happens around it, a patch that the history does not show as
    saved has not changed one setting: refused, invalid, in conflict or failed, all its steps are idle.
   */
  lemma RefusedChangesNothing(env: Env, ops: seq<Op>, p: Id)
    requires !HasSaved(Run(env, ops).log, p)
    ensures forall i :: Idle(env, ops, p, i)
  {
    forall i: nat ensures Idle(env, ops, p, i) {
      if i < |ops| && OpOf(ops[i], p) {
        assert ops[..i + 1][..i] == ops[..i];
        var s, t := Run(env, ops[..i]), Run(env, ops[..i + 1]);
        assert t == Step(env, s, ops[i]);
        OwnStep(env, s, ops[i], p);
        PrefixLog(env, ops, i + 1);
        if HasSaved(t.log, p) { SavedStays(t.log, Run(env, ops).log, p); }
      }
    }
  }

  /** A patch has been told that it committed. */
  predicate Told(s: System, p: Id) {
    p in s.patches
        && (s.patches[p].phase == Committed || (s.patches[p].phase.Sweeping? && s.patches[p].phase.committed))
  }

  /** The other direction: a patch that was told it committed is in the history. */
  lemma {:induction false} ToldIsSaved(env: Env, ops: seq<Op>, p: Id)
    requires Told(Run(env, ops), p)
    ensures HasSaved(Run(env, ops).log, p)
  {
    var n := |ops| - 1;
    var s := Run(env, ops[..n]);
    var t := Run(env, ops);
    LogGrows(env, s, ops[n]);
    if Told(s, p) {
      ToldIsSaved(env, ops[..n], p);
      SavedStays(s.log, t.log, p);
    } else {
      assert t.log[|s.log|].Saved? && t.log[|s.log|].patch == p;
    }
  }

  /** No public key is written in this step. */
  predicate LeavesPublic(env: Env, s: System, op: Op) {
    match op
    case Upsert(values) => forall key :: key in values ==> Internal(key)
    case Commit(p, reply) => !InPhase(s, p, Editing) || !Swaps(env, s, s.patches[p], reply)
    case _ => true
  }

  lemma InternalWrites(settings: Settings, values: Settings)
    requires forall key :: key in values ==> Internal(key)
    ensures Public(settings + values) == Public(settings)
  {
  }

  lemma Prefixes(ops: seq<Op>)
    requires ops != []
    ensures var n := |ops| - 1; forall i :: 0 <= i < n ==> ops[..n][i] == ops[i] && ops[..n][..i] == ops[..i]
  {
  }

  ghost predicate Undisturbed(env: Env, s: System, ops: seq<Op>) {
    forall i :: 0 <= i < |ops| ==> LeavesPublic(env, Exec(env, s, ops[..i]), ops[i])
  }

  lemma {:induction false} PublicStays(env: Env, s: System, ops: seq<Op>)
    requires Undisturbed(env, s, ops)
    ensures Public(Exec(env, s, ops).settings) == Public(s.settings)
  {
    if ops != [] {
      var n := |ops| - 1;
      var m := Exec(env, s, ops[..n]);
      Prefixes(ops);
      PublicStays(env, s, ops[..n]);
      PublicStep(env, m, ops[n]);
    }
  }

  lemma PublicStep(env: Env, s: System, op: Op)
    requires LeavesPublic(env, s, op)
    ensures Public(Step(env, s, op).settings) == Public(s.settings)
  {
    if op.Upsert? { InternalWrites(s.settings, op.values); }
  }

  /**
    Internal preferences, signatures and worker state, however many are written, never make a commit
    conflict: between the read and the commit only a public write can.
   */
  lemma InternalWritesNeverConflict(env: Env, s: System, p: Id, request: Request, during: seq<Op>)
    requires p !in s.patches && Undisturbed(env, Step(env, s, Begin(p, request)), during)
    requires var t := Exec(env, Step(env, s, Begin(p, request)), during);
             InPhase(t, p, Editing) && t.patches[p].expected == s.settings && Updates(env, t.patches[p]).Some?
    ensures var t := Exec(env, Step(env, s, Begin(p, request)), during);
            Swaps(env, t, t.patches[p], Answered) && InPhase(Step(env, t, Commit(p, Answered)), p, Committed)
  {
    PublicStays(env, Step(env, s, Begin(p, request)), during);
  }

  // ----- what a patch's own steps do -----

  /** A request opens a patch on the settings as they are, exactly if it names no revision or theirs. */
  lemma BeginExactly(env: Env, s: System, p: Id, request: Request)
    requires p !in s.patches
    ensures var t := Step(env, s, Begin(p, request));
            if request.revision == "" || request.revision == env.revision(Public(s.settings)) then
              t == s.(patches := s.patches[p := Patch(request, s.settings, [], Editing)])
            else t == s
  {
  }

  /**
    A commit writes the computed updates, all at once, exactly if there are any, the public settings are still
    those that were read, and the store does not fail; and the patch is told so exactly if the answer arrives.
   */
  lemma CommitExactly(env: Env, s: System, p: Id, reply: Reply)
    requires InPhase(s, p, Editing)
    ensures var x, t := s.patches[p], Step(env, s, Commit(p, reply));
            var updates := env.compute(Public(x.expected), x.request, x.refs);
            if updates.Some? && reply != Errored && Public(s.settings) == Public(x.expected) then
              && t.settings == s.settings + updates.value
              && t.log == s.log + [Saved(p, x.expected, x.request, x.refs)]
              && InPhase(t, p, if reply == Lost then RollingBack else Committed)
            else t.settings == s.settings && t.log == s.log && InPhase(t, p, RollingBack)
  {
  }

  /**
    The sweep after a patch that was told it committed is over what it replaced, any other over the references
    it registered itself; a later check reads anew and keeps to that, a check that cannot read ends the patch,
    and a patch that has ended stays so.
   */
  lemma CheckExactly(env: Env, s: System, p: Id, kept: set<Ref>)
    requires p in s.patches && s.patches[p].phase != Editing
    ensures var x, ph := s.patches[p], Step(env, s, Check(p, true, kept)).patches[p].phase;
            if x.phase == Done then ph == Done
            else
              && ph.Sweeping? && ph.committed == Told(s, p)
              && ph.sweep.candidates == (if Told(s, p) then env.retired(x.expected, x.request) else x.refs)
              && ph.sweep.stored == s.settings && ph.sweep.kept == kept && ph.sweep.next == 0
    ensures InPhase(Step(env, s, Check(p, false, kept)), p, Done)
  {
  }

  // ----- rollback never revokes a live reference -----

  /** The sweep of p has decided to revoke ref and has not come to it yet. */
  predicate Pending(s: System, p: Id, ref: Ref) {
    && p in s.patches && s.patches[p].phase.Sweeping?
    && var w := s.patches[p].phase.sweep;
    && !Spared(w, ref) && exists j :: w.next <= j < |w.candidates| && w.candidates[j] == ref
  }

  ghost predicate Doomed(s: System, ref: Ref) { ref in s.revoked || exists p :: Pending(s, p, ref) }

  /**
    What is written for a request names a reference only if it is one of the patch's own, or stands in
    the public settings that were read, or in the request; a reference retired after a commit was read
    or comes from the configuration.
   */
  ghost predicate Honest(env: Env) {
    && (forall pub, request, refs, ref :: NamesKnown(env, pub, request, refs, ref))
    && (forall read, request, ref :: RetiresRead(env, read, request, ref))
  }

  ghost predicate NamesKnown(env: Env, pub: Settings, request: Request, refs: seq<Ref>, ref: Ref) {
    env.isRef(ref) && env.compute(pub, request, refs).Some?
        && Referenced(env.compute(pub, request, refs).value, ref) ==>
      ref in refs || Referenced(pub, ref) || Referenced(request.values, ref)
  }

  ghost predicate RetiresRead(env: Env, read: Settings, request: Request, ref: Ref) {
    ref in env.retired(read, request) ==> Referenced(read, ref) || ref in env.configured
  }

  /** Nothing read or requested by patch q mentions ref. */
  predicate Unmentioned(s: System, q: Id, ref: Ref) {
    q in s.patches ==> !Referenced(s.patches[q].expected, ref) && !Referenced(s.patches[q].request.values, ref)
  }

  /**
    References cannot be guessed: a new one stands nowhere yet.  A request names a minted reference only
    if the public settings it is made on do, and nothing else that is written names one.
   */
  ghost predicate Fair(env: Env, s: System, op: Op) {
    match op
    case Mint(_, ref) => !Referenced(s.settings, ref) && ref !in env.configured && forall q :: Unmentioned(s, q, ref)
    case Begin(_, request) =>
      forall ref :: ref in s.minted && Referenced(request.values, ref) ==> Referenced(Public(s.settings), ref)
    case Upsert(values) => forall ref :: ref in s.minted ==> !Referenced(values, ref)
    case _ => true
  }

  /** A reference of a patch still being edited is known to nobody else. */
  ghost predicate Secret(s: System, p: Id, ref: Ref) {
    InPhase(s, p, Editing) && ref in s.patches[p].refs ==>
      !Referenced(s.settings, ref) && !Doomed(s, ref) && forall q :: Unmentioned(s, q, ref)
  }

  predicate OwnRefs(s: System, p: Id, q: Id, ref: Ref) {
    p in s.patches && ref in s.patches[p].refs ==>
        ref in s.minted && (q in s.patches && ref in s.patches[q].refs ==> p == q)
  }

  predicate RequestRead(s: System, p: Id, ref: Ref) {
    p in s.patches && ref in s.minted && Referenced(s.patches[p].request.values, ref) ==>
        Referenced(Public(s.patches[p].expected), ref)
  }

  predicate AllRefs(env: Env, s: System, ref: Ref) { ref in s.minted ==> env.isRef(ref) && ref !in env.configured }

  ghost predicate SafeRef(s: System, ref: Ref) { ref in s.minted && Doomed(s, ref) ==> !Referenced(s.settings, ref) }

  /** What is doomed was minted, configured, or read by some patch. */
  ghost predicate DoomKnown(env: Env, s: System, ref: Ref) {
    Doomed(s, ref) ==>
      || ref in s.minted || ref in env.configured
      || exists q :: q in s.patches && Referenced(s.patches[q].expected, ref)
  }

  ghost predicate Guarded(env: Env, s: System) {
    && (forall ref :: SafeRef(s, ref)) && (forall ref :: AllRefs(env, s, ref))
    && (forall p, ref :: Secret(s, p, ref)) && (forall p, ref :: RequestRead(s, p, ref))
    && (forall p, q, ref :: OwnRefs(s, p, q, ref)) && (forall ref :: DoomKnown(env, s, ref))
  }

  // ----- what a step writes, and what it dooms -----

  function WrittenBy(env: Env, s: System, op: Op): Settings {
    if op.Upsert? then op.values
    else if op.Commit? && InPhase(s, op.p, Editing) && Swaps(env, s, s.patches[op.p], op.reply) then
      Updates(env, s.patches[op.p]).value
    else map[]
  }

  lemma SettingsAfter(env: Env, s: System, op: Op)
    ensures Step(env, s, op).settings == s.settings + WrittenBy(env, s, op)
  {
    assert s.settings + map[] == s.settings;
  }

  lemma ReferencedPlus(a: Settings, b: Settings, ref: Ref)
    requires Referenced(a + b, ref)
    ensures Referenced(a, ref) || Referenced(b, ref)
  {
    var key :| key in a + b && Contains((a + b)[key], ref);
    assert if key in b then Contains(b[key], ref) else Contains(a[key], ref);
  }

  lemma PublicReferenced(settings: Settings, ref: Ref)
    requires Referenced(Public(settings), ref)
    ensures Referenced(settings, ref)
  {
    var key :| key in Public(settings) && Contains(Public(settings)[key], ref);
    assert Contains(settings[key], ref);
  }

  /** A step dooms only what it has just found unreferenced among its patch's candidates. */
  lemma NewlyDoomed(env: Env, s: System, op: Op, p: Id, ref: Ref)
    requires Pending(Step(env, s, op), p, ref)
    ensures Pending(s, p, ref)
            || (op.Check? && op.p == p && p in s.patches && !s.patches[p].phase.Editing? && !Referenced(s.settings, ref)
                && (ref in s.patches[p].refs || ref in env.retired(s.patches[p].expected, s.patches[p].request)))
  {
  }

  lemma RevokedWasDoomed(env: Env, s: System, op: Op, ref: Ref)
    requires ref in Step(env, s, op).revoked
    ensures Doomed(s, ref)
  {
    if ref !in s.revoked {
      var w := s.patches[op.p].phase.sweep;
      assert w.candidates[w.next] == ref;
      assert Pending(s, op.p, ref);
    }
  }

  /** What is doomed after a step was doomed before, or has just been found unreferenced by a check. */
  lemma DoomedStep(env: Env, s: System, op: Op, ref: Ref)
    requires Doomed(Step(env, s, op), ref)
    ensures Doomed(s, ref)
            || (op.Check? && !Referenced(s.settings, ref) && op.p in s.patches && !s.patches[op.p].phase.Editing?
                && (ref in s.patches[op.p].refs
                    || ref in env.retired(s.patches[op.p].expected, s.patches[op.p].request)))
  {
    var t := Step(env, s, op);
    if ref in t.revoked {
      RevokedWasDoomed(env, s, op, ref);
    } else {
      var p :| Pending(t, p, ref);
      NewlyDoomed(env, s, op, p, ref);
    }
  }

  /**
    The compare-and-swap at work: a patch that writes a minted reference minted it itself, or read it
    in settings that are still the same -- so it is live, and nobody is about to revoke it.
   */
  lemma CommitWritesNothingDoomed(env: Env, s: System, p: Id, reply: Reply, ref: Ref)
    requires Honest(env) && Guarded(env, s) && InPhase(s, p, Editing) && Swaps(env, s, s.patches[p], reply)
    requires ref in s.minted && Referenced(Updates(env, s.patches[p]).value, ref)
    ensures !Doomed(s, ref)
  {
    var x := s.patches[p];
    assert AllRefs(env, s, ref) && NamesKnown(env, Public(x.expected), x.request, x.refs, ref) && SafeRef(s, ref);
    assert Secret(s, p, ref) && RequestRead(s, p, ref);
    if ref !in x.refs { PublicReferenced(s.settings, ref); }
  }

  // ----- every step keeps this -----

  lemma StepMinted(env: Env, s: System, op: Op, ref: Ref)
    requires ref in Step(env, s, op).minted
    ensures ref in s.minted || (op.Mint? && op.ref == ref && env.isRef(ref) && InPhase(s, op.p, Editing))
  {
  }

  lemma StepSafeRef(env: Env, s: System, op: Op, ref: Ref)
    requires Honest(env) && Guarded(env, s) && Fair(env, s, op)
    ensures SafeRef(Step(env, s, op), ref)
  {
    var t := Step(env, s, op);
    if ref in t.minted && Doomed(t, ref) {
      SettingsAfter(env, s, op);
      StepMinted(env, s, op, ref);
      DoomedStep(env, s, op, ref);
      assert SafeRef(s, ref);
      if Referenced(t.settings, ref) {
        ReferencedPlus(s.settings, WrittenBy(env, s, op), ref);
        if op.Commit? && ref in s.minted && Referenced(WrittenBy(env, s, op), ref) {
          CommitWritesNothingDoomed(env, s, op.p, op.reply, ref);
        }
      }
    }
  }

  lemma PatchStep(env: Env, s: System, op: Op, p: Id)
    requires p in Step(env, s, op).patches
    ensures var y := Step(env, s, op).patches[p];
            if p in s.patches
            then y.request == s.patches[p].request && y.expected == s.patches[p].expected
                 && (y.refs == s.patches[p].refs
                     || (op.Mint? && op.p == p && op.ref !in s.minted && y.refs == s.patches[p].refs + [op.ref]))
                 && (y.phase.Editing? ==> s.patches[p].phase.Editing? && !(op.Commit? && op.p == p))
            else op.Begin? && op.p == p && y == Patch(op.request, s.settings, [], Editing)
  {
  }

  lemma StepOwnRefs(env: Env, s: System, op: Op, p: Id, q: Id, ref: Ref)
    requires Guarded(env, s)
    ensures OwnRefs(Step(env, s, op), p, q, ref)
  {
    var t := Step(env, s, op);
    if p in t.patches && ref in t.patches[p].refs {
      PatchStep(env, s, op, p);
      assert OwnRefs(s, p, q, ref) && OwnRefs(s, q, p, ref);
      MintedGrows(env, s, op, p);
      if q in t.patches { PatchStep(env, s, op, q); }
    }
  }

  lemma MintedGrows(env: Env, s: System, op: Op, p: Id)
    ensures s.minted <= Step(env, s, op).minted
    ensures p in s.patches && Step(env, s, op).patches[p].refs != s.patches[p].refs ==>
            op.Mint? && op.ref in Step(env, s, op).minted
  {
  }

  lemma StepRequestRead(env: Env, s: System, op: Op, p: Id, ref: Ref)
    requires Guarded(env, s) && Fair(env, s, op)
    ensures RequestRead(Step(env, s, op), p, ref)
  {
    var t := Step(env, s, op);
    if p in t.patches && ref in t.minted {
      PatchStep(env, s, op, p);
      StepMinted(env, s, op, ref);
      assert RequestRead(s, p, ref);
      if op.Mint? { assert op.ref == ref ==> Unmentioned(s, p, ref); }
    }
  }

  lemma StepUnmentioned(env: Env, s: System, op: Op, q: Id, ref: Ref)
    requires Unmentioned(s, q, ref) && !Referenced(s.settings, ref) && ref in s.minted && Fair(env, s, op)
    ensures Unmentioned(Step(env, s, op), q, ref)
  {
    if q in Step(env, s, op).patches {
      PatchStep(env, s, op, q);
      if op.Begin? && Referenced(op.request.values, ref) { PublicAbsent(s.settings, ref); }
    }
  }

  lemma PublicAbsent(settings: Settings, ref: Ref)
    requires !Referenced(settings, ref)
    ensures !Referenced(Public(settings), ref)
  {
    if Referenced(Public(settings), ref) { PublicReferenced(settings, ref); }
  }

  /** Another patch's commit does not name it. */
  lemma SecretNotCommitted(env: Env, s: System, p: Id, ref: Ref, q: Id, reply: Reply)
    requires Honest(env) && Guarded(env, s) && InPhase(s, p, Editing) && ref in s.patches[p].refs && q != p
    requires InPhase(s, q, Editing) && Swaps(env, s, s.patches[q], reply)
    ensures !Referenced(Updates(env, s.patches[q]).value, ref)
  {
    var y := s.patches[q];
    assert Secret(s, p, ref) && OwnRefs(s, p, q, ref) && AllRefs(env, s, ref) && Unmentioned(s, q, ref);
    assert NamesKnown(env, Public(y.expected), y.request, y.refs, ref);
    PublicAbsent(y.expected, ref);
  }

  lemma SecretNotWritten(env: Env, s: System, op: Op, p: Id, ref: Ref)
    requires Honest(env) && Guarded(env, s) && Fair(env, s, op) && InPhase(s, p, Editing) && ref in s.patches[p].refs
    requires !(op.Commit? && op.p == p)
    ensures !Referenced(Step(env, s, op).settings, ref)
  {
    SettingsAfter(env, s, op);
    assert Secret(s, p, ref) && OwnRefs(s, p, p, ref);
    if Referenced(Step(env, s, op).settings, ref) {
      ReferencedPlus(s.settings, WrittenBy(env, s, op), ref);
      if op.Commit? && InPhase(s, op.p, Editing) && Swaps(env, s, s.patches[op.p], op.reply) {
        SecretNotCommitted(env, s, p, ref, op.p, op.reply);
      }
    }
  }

  lemma SecretNotDoomed(env: Env, s: System, op: Op, p: Id, ref: Ref)
    requires Honest(env) && Guarded(env, s) && InPhase(s, p, Editing) && ref in s.patches[p].refs
    ensures !Doomed(Step(env, s, op), ref)
  {
    assert Secret(s, p, ref) && OwnRefs(s, p, p, ref) && AllRefs(env, s, ref);
    assert op.Check? ==> OwnRefs(s, p, op.p, ref) && Unmentioned(s, op.p, ref);
    assert op.Check? && op.p in s.patches ==> RetiresRead(env, s.patches[op.p].expected, s.patches[op.p].request, ref);
    if Doomed(Step(env, s, op), ref) { DoomedStep(env, s, op, ref); }
  }

  lemma StepSecret(env: Env, s: System, op: Op, p: Id, ref: Ref)
    requires Honest(env) && Guarded(env, s) && Fair(env, s, op)
    ensures Secret(Step(env, s, op), p, ref)
  {
    var t := Step(env, s, op);
    if InPhase(t, p, Editing) && ref in t.patches[p].refs {
      PatchStep(env, s, op, p);
      if ref in s.patches[p].refs {
        assert Secret(s, p, ref) && OwnRefs(s, p, p, ref);
        SecretNotWritten(env, s, op, p, ref);
        SecretNotDoomed(env, s, op, p, ref);
        forall q ensures Unmentioned(t, q, ref) { StepUnmentioned(env, s, op, q, ref); }
      } else {
        NewSecret(env, s, op, p, ref);
      }
    }
  }

  /** A reference just minted: it stands nowhere, and no sweep has it. */
  lemma NewSecret(env: Env, s: System, op: Op, p: Id, ref: Ref)
    requires Honest(env) && Guarded(env, s) && Fair(env, s, op) && op == Mint(p, ref) && ref !in s.minted
             && InPhase(s, p, Editing)
    ensures var t := Step(env, s, op);
            !Referenced(t.settings, ref) && !Doomed(t, ref) && forall q :: Unmentioned(t, q, ref)
  {
    var t := Step(env, s, op);
    forall q ensures Unmentioned(t, q, ref) { assert Unmentioned(s, q, ref); }
    forall q | q in s.patches ensures !Referenced(s.patches[q].expected, ref) { assert Unmentioned(s, q, ref); }
    assert DoomKnown(env, s, ref);
    if Doomed(t, ref) { DoomedStep(env, s, op, ref); }
  }

  lemma StepDoomKnown(env: Env, s: System, op: Op, ref: Ref)
    requires Honest(env) && Guarded(env, s)
    ensures DoomKnown(env, Step(env, s, op), ref)
  {
    var t := Step(env, s, op);
    if Doomed(t, ref) {
      DoomedStep(env, s, op, ref);
      MintedGrows(env, s, op, 0);
      if Doomed(s, ref) && ref !in s.minted && ref !in env.configured {
        assert DoomKnown(env, s, ref);
        var q :| q in s.patches && Referenced(s.patches[q].expected, ref);
        PatchesStay(env, s, op, q);
      } else if !Doomed(s, ref) {
        assert OwnRefs(s, op.p, op.p, ref) && RetiresRead(env, s.patches[op.p].expected, s.patches[op.p].request, ref);
        PatchesStay(env, s, op, op.p);
      }
    }
  }

  lemma PatchesStay(env: Env, s: System, op: Op, q: Id)
    requires q in s.patches
    ensures q in Step(env, s, op).patches && Step(env, s, op).patches[q].expected == s.patches[q].expected
  {
  }

  lemma StepGuarded(env: Env, s: System, op: Op)
    requires Honest(env) && Guarded(env, s) && Fair(env, s, op)
    ensures Guarded(env, Step(env, s, op))
  {
    var t := Step(env, s, op);
    forall ref ensures SafeRef(t, ref) { StepSafeRef(env, s, op, ref); }
    forall ref ensures AllRefs(env, t, ref) {
      assert AllRefs(env, s, ref);
      if ref in t.minted { StepMinted(env, s, op, ref); }
    }
    forall p, ref ensures Secret(t, p, ref) { StepSecret(env, s, op, p, ref); }
    forall p, ref ensures RequestRead(t, p, ref) { StepRequestRead(env, s, op, p, ref); }
    forall p, q, ref ensures OwnRefs(t, p, q, ref) { StepOwnRefs(env, s, op, p, q, ref); }
    forall ref ensures DoomKnown(env, t, ref) { StepDoomKnown(env, s, op, ref); }
  }

  /**
    In every run of patches, however their commits were answered and whatever fell between their steps,
    no minted reference that is live in the settings is revoked.
   */
  lemma {:induction false} NoLiveReferenceRevoked(env: Env, ops: seq<Op>)
    requires Honest(env) && forall i :: 0 <= i < |ops| ==> Fair(env, Run(env, ops[..i]), ops[i])
    ensures Guarded(env, Run(env, ops))
    ensures var s := Run(env, ops); forall ref :: ref in s.minted && ref in s.revoked ==> !Referenced(s.settings, ref)
  {
    if ops != [] {
      var n := |ops| - 1;
      Prefixes(ops);
      NoLiveReferenceRevoked(env, ops[..n]);
      StepGuarded(env, Run(env, ops[..n]), ops[n]);
    }
    var s := Run(env, ops);
    forall ref | ref in s.minted && ref in s.revoked ensures !Referenced(s.settings, ref) {
      assert SafeRef(s, ref) && Doomed(s, ref);
    }
  }

  // ----- the conditions are met by real use -----

  /** Writes the requested values, with the patch's reference, a text of one character here, under "k". */
  function Careful(pub: Settings, request: Request, refs: seq<Ref>): Option<Settings> {
    Some(if refs == [] || |refs[0]| != 1 then request.values else request.values["k" := refs[0]])
  }

  const CAREFUL := Env(Careful, (read, request) => [], (pub) => "", (ref) => |ref| == 1, {})
  const NONE := Request("", map[])
  const LIVE: Settings := map["k" := "r"]

  lemma CarefulIsHonest()
    ensures Honest(CAREFUL)
  {
    forall pub, request, refs, ref ensures NamesKnown(CAREFUL, pub, request, refs, ref) {
      CarefulNames(pub, request, refs, ref);
    }
  }

  lemma CarefulNames(pub: Settings, request: Request, refs: seq<Ref>, ref: Ref)
    ensures NamesKnown(CAREFUL, pub, request, refs, ref)
  {
    var u := Careful(pub, request, refs).value;
    if |ref| == 1 && Referenced(u, ref) && ref !in refs {
      var key :| key in u && Contains(u[key], ref);
      if refs != [] && |refs[0]| == 1 && Contains(refs[0], ref) { OneCharacter(refs[0], ref); }
      assert key in request.values && u[key] == request.values[key];
    }
  }

  lemma OneCharacter(value: string, ref: Ref)
    requires |value| == 1 && |ref| == 1
    ensures Contains(value, ref) <==> value == ref
  {
    assert value[0..] == value;
    if Contains(value, ref) {
      var i :| 0 <= i <= |value| && ref <= value[i..];
    }
  }

  /** One patch registers a secret and commits it; another registers one, is refused and rolls back. */
  function Usual(): seq<Op> {
    [Begin(0, NONE), Mint(0, "r"), Commit(0, Answered), Begin(1, NONE), Mint(1, "q"), Refuse(1),
     Check(1, true, {}), Revoke(1)]
  }

  function Saver(refs: seq<Ref>, phase: Phase): Patch { Patch(NONE, map[], refs, phase) }
  function Loser(refs: seq<Ref>, phase: Phase): Patch { Patch(NONE, LIVE, refs, phase) }
  function Swept(next: nat): Phase { Sweeping(false, Sweep(["q"], LIVE, {}, next)) }

  /** The state after i steps. */
  function UsualState(i: nat): System {
    var log := [Saved(0, map[], NONE, ["r"])];
    var saver := Saver(["r"], Committed);
    match i
    case 0 => EMPTY
    case 1 => System(map[], {}, {}, map[0 := Saver([], Editing)], [])
    case 2 => System(map[], {"r"}, {}, map[0 := Saver(["r"], Editing)], [])
    case 3 => System(LIVE, {"r"}, {}, map[0 := saver], log)
    case 4 => System(LIVE, {"r"}, {}, map[0 := saver, 1 := Loser([], Editing)], log)
    case 5 => System(LIVE, {"r", "q"}, {}, map[0 := saver, 1 := Loser(["q"], Editing)], log)
    case 6 => System(LIVE, {"r", "q"}, {}, map[0 := saver, 1 := Loser(["q"], RollingBack)], log)
    case 7 => System(LIVE, {"r", "q"}, {}, map[0 := saver, 1 := Loser(["q"], Swept(0))], log)
    case _ => System(LIVE, {"r", "q"}, {"q"}, map[0 := saver, 1 := Loser(["q"], Swept(1))], log)
  }

  lemma LiveNames(ref: Ref)
    requires |ref| == 1
    ensures Referenced(LIVE, ref) <==> ref == "r"
  {
    OneCharacter("r", ref);
    assert LIVE["k"] == "r";
  }

  lemma UsualStep(i: nat)
    requires i < 8
    ensures Step(CAREFUL, UsualState(i), Usual()[i]) == UsualState(i + 1)
  {
    if i < 2 {
      SaverStep(i);
    } else if i == 2 {
      SaverCommits();
    } else if i < 6 {
      LoserStep(i);
    } else {
      SweepStep(i);
    }
  }

  lemma SaverStep(i: nat)
    requires i < 2
    ensures Step(CAREFUL, UsualState(i), Usual()[i]) == UsualState(i + 1)
  {
    assert [] + ["r"] == ["r"];
  }

  lemma LoserStep(i: nat)
    requires 3 <= i < 6
    ensures Step(CAREFUL, UsualState(i), Usual()[i]) == UsualState(i + 1)
  {
    assert [] + ["q"] == ["q"];
  }

  lemma SweepStep(i: nat)
    requires 6 <= i < 8
    ensures Step(CAREFUL, UsualState(i), Usual()[i]) == UsualState(i + 1)
  {
    LiveNames("q");
  }

  lemma SaverCommits()
    ensures Step(CAREFUL, UsualState(2), Commit(0, Answered)) == UsualState(3)
  {
    var s := UsualState(2);
    assert Updates(CAREFUL, s.patches[0]) == Some(LIVE);
    assert map[] + LIVE == LIVE;
  }

  lemma {:induction false} UsualRuns(i: nat)
    requires i <= 8
    ensures Run(CAREFUL, Usual()[..i]) == UsualState(i)
  {
    if i > 0 {
      UsualRuns(i - 1);
      UsualStep(i - 1);
      assert Usual()[..i][..i - 1] == Usual()[..i - 1];
    }
  }

  lemma UsualFair(i: nat)
    requires i < 8
    ensures Fair(CAREFUL, UsualState(i), Usual()[i])
  {
    LiveNames("q");
    var s := UsualState(i);
    forall q ensures i == 1 ==> Unmentioned(s, q, "r") { }
    forall q ensures i == 4 ==> Unmentioned(s, q, "q") { }
  }

  /** A fair run of honest patches that mints, commits and revokes: one reference is live, the other gone. */
  lemma FairRunExists()
    ensures Honest(CAREFUL) && forall i :: 0 <= i < |Usual()| ==> Fair(CAREFUL, Run(CAREFUL, Usual()[..i]), Usual()[i])
    ensures var s := Run(CAREFUL, Usual()); s.minted == {"r", "q"} && s.revoked == {"q"} && Referenced(s.settings, "r")
  {
    CarefulIsHonest();
    forall i | 0 <= i < |Usual()| ensures Fair(CAREFUL, Run(CAREFUL, Usual()[..i]), Usual()[i]) {
      UsualRuns(i);
      UsualFair(i);
    }
    UsualRuns(8);
    assert Usual()[..8] == Usual();
    LiveNames("r");
  }

  // ----- where a reference can be guessed -----

  /** Writes the requested values, with the patch's reference under "k" if it minted one. */
  function Plain(pub: Settings, request: Request, refs: seq<Ref>): Option<Settings> {
    Some(if refs == [] then request.values else request.values["k" := refs[0]])
  }

  const PLAIN := Env(Plain, (read, request) => [], (pub) => "", (ref) => true, {})
  const GUESS := Request("", map["k" := "r"])

  /** A patch is refused and rolls back; between its check and its revocation another one names its reference. */
  function Guessing(): seq<Op> {
    [Begin(0, NONE), Mint(0, "r"), Refuse(0), Check(0, true, {}), Begin(1, GUESS), Commit(1, Answered), Revoke(0)]
  }

  lemma RunOn(env: Env, ops: seq<Op>, op: Op)
    ensures Run(env, ops + [op]) == Step(env, Run(env, ops), op)
  {
    assert (ops + [op])[..|ops|] == ops;
  }

  const SWEPT := Patch(NONE, map[], ["r"], Sweeping(false, Sweep(["r"], map[], {}, 0)))

  lemma GuessingChecks()
    ensures Run(PLAIN, Guessing()[..4]) == System(map[], {"r"}, {}, map[0 := SWEPT], [])
  {
    RunOn(PLAIN, [], Begin(0, NONE));
    RunOn(PLAIN, [Begin(0, NONE)], Mint(0, "r"));
    RunOn(PLAIN, [Begin(0, NONE), Mint(0, "r")], Refuse(0));
    RunOn(PLAIN, [Begin(0, NONE), Mint(0, "r"), Refuse(0)], Check(0, true, {}));
    assert Run(PLAIN, []) == EMPTY;
    assert [] + [Begin(0, NONE)] == [Begin(0, NONE)];
    assert Run(PLAIN, [Begin(0, NONE)]) == System(map[], {}, {}, map[0 := Patch(NONE, map[], [], Editing)], []);
    assert [] + ["r"] == ["r"];
    assert [Begin(0, NONE)] + [Mint(0, "r")] == [Begin(0, NONE), Mint(0, "r")];
    assert [Begin(0, NONE), Mint(0, "r")] + [Refuse(0)] == [Begin(0, NONE), Mint(0, "r"), Refuse(0)];
    assert Guessing()[..4] == [Begin(0, NONE), Mint(0, "r"), Refuse(0)] + [Check(0, true, {})];
  }

  /** Without the conditions of Fair the reference ends live and revoked. */
  lemma CheckThenRevokeRace()
    ensures var s := Run(PLAIN, Guessing()); "r" in s.minted && "r" in s.revoked && Referenced(s.settings, "r")
  {
    GuessingChecks();
    var s := Run(PLAIN, Guessing()[..4]);
    RunOn(PLAIN, Guessing()[..4], Begin(1, GUESS));
    RunOn(PLAIN, Guessing()[..5], Commit(1, Answered));
    RunOn(PLAIN, Guessing()[..6], Revoke(0));
    assert Guessing()[..4] + [Begin(1, GUESS)] == Guessing()[..5]
           && Guessing()[..5] + [Commit(1, Answered)] == Guessing()[..6];
    assert Guessing()[..6] + [Revoke(0)] == Guessing();
    var t := Step(PLAIN, Step(PLAIN, s, Begin(1, GUESS)), Commit(1, Answered));
    assert t.settings == map["k" := "r"];
    assert "r" <= "r"[0..];
    assert Contains(t.settings["k"], "r");
  }

  /** A commit that happened but was not reported: the rollback that follows keeps every reference it wrote. */
  lemma LostCommitKeepsItsReferences(env: Env, s: System, p: Id, kept: set<Ref>, ref: Ref)
    requires InPhase(s, p, Editing) && Swaps(env, s, s.patches[p], Lost) && ref in s.patches[p].refs
    requires Referenced(Updates(env, s.patches[p]).value, ref) && ref !in s.revoked
    ensures var t := Step(env, Step(env, s, Commit(p, Lost)), Check(p, true, kept));
            !Pending(t, p, ref) && Referenced(t.settings, ref)
  {
    var u := Updates(env, s.patches[p]).value;
    var key :| key in u && Contains(u[key], ref);
    assert (s.settings + u)[key] == u[key];
  }
}
