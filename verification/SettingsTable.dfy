/**
  The settings table and the secret store as the code updates them: CompareAndSwapAdminSettings
  (internal/adapters/persistence/settings_cas.go), AdminSettingsSnapshot (internal/domain/settings.go)
  and revokeUnreferencedSettingSecrets (internal/application/settings_cas.go), each proved against the
  steps of module SettingsCas.
 */
module SettingsTable {
  import opened SettingsCas

  /** Copies every key outside the internal namespace. */
  method AdminSettingsSnapshot(values: Settings) returns (out: Settings)
    ensures out == Public(values)
  {
    out := map[];
    var left := values.Keys;
    while left != {}
      invariant left <= values.Keys
      invariant out == map key | key in values && key !in left && !Internal(key) :: values[key]
      decreases left
    {
      var key :| key in left;
      if !("internal." <= key) { out := out[key := values[key]]; }
      left := left - {key};
    }
  }

  class Table {
    var rows: Settings
    var revoked: set<Ref>

    /** The comparison and all writes happen in one transaction, or none of them does. */
    method CompareAndSwapAdminSettings(expected: Settings, updates: Settings, broken: set<string>, reply: Reply)
      returns (committed: bool, failed: bool)
      modifies this`rows
      ensures var same := Public(old(rows)) == Public(expected);
              var swapped := same && updates.Keys !! broken && reply != Errored;
              && rows == (if swapped then old(rows) + updates else old(rows))
              && (committed <==> swapped && reply == Answered)
              && (failed <==> same && !committed)
    {
      var current := AdminSettingsSnapshot(rows);
      var wanted := AdminSettingsSnapshot(expected);
      if current != wanted { return false, false; }
      var tx := rows;
      var left := updates.Keys;
      while left != {}
        invariant left <= updates.Keys && updates.Keys - left !! broken
        invariant tx == rows + (map key | key in updates && key !in left :: updates[key])
        invariant rows == old(rows)
        decreases left
      {
        var key :| key in left;
        if key in broken { return false, true; }
        tx := tx[key := updates[key]];
        left := left - {key};
      }
      assert (map key | key in updates && key !in left :: updates[key]) == updates;
      if reply == Errored { return false, true; }
      rows := tx;
      committed := reply == Answered;
      failed := !committed;
    }

    method IsReferenced(ref: Ref) returns (referenced: bool)
      ensures referenced == Referenced(rows, ref)
    {
      referenced := false;
      var left := rows.Keys;
      while left != {} && !referenced
        invariant left <= rows.Keys
        invariant referenced <==> exists key :: key in rows && key !in left && Contains(rows[key], ref)
        decreases left
      {
        var key :| key in left;
        referenced := Contains(rows[key], ref);
        left := left - {key};
      }
    }

    /** Revokes exactly the references that no setting and no account holds, or none if the reads fail. */
    method RevokeUnreferenced(refs: seq<Ref>, readable: bool, accountRefs: set<Ref>)
      modifies this`revoked
      ensures revoked == old(revoked) + set ref | ref in refs && readable && Orphan(rows, accountRefs, ref)
    {
      if |refs| == 0 || !readable { return; }
      for i := 0 to |refs|
        invariant revoked == old(revoked) + set ref | ref in refs[..i] && Orphan(rows, accountRefs, ref)
      {
        assert refs[..i + 1] == refs[..i] + [refs[i]];
        if refs[i] != "" && refs[i] !in accountRefs {
          var referenced := IsReferenced(refs[i]);
          if !referenced { revoked := revoked + {refs[i]}; }
        }
      }
      assert refs[..|refs|] == refs;
    }
  }

  /** What the remaining steps of a sweep revoke. */
  ghost function Remaining(w: Sweep): set<Ref>
    requires w.next <= |w.candidates|
  {
    set ref | ref in w.candidates[w.next..] && !Spared(w, ref)
  }

  /** The revocation loop is the sweep's steps run to their end: they revoke what it does. */
  lemma {:induction false} SweepRunsOut(env: Env, s: System, p: Id)
    requires p in s.patches && s.patches[p].phase.Sweeping?
             && s.patches[p].phase.sweep.next <= |s.patches[p].phase.sweep.candidates|
    ensures var w := s.patches[p].phase.sweep;
            var t := Repeat(env, s, p, |w.candidates| - w.next);
            t.revoked == s.revoked + Remaining(w) && t.settings == s.settings
    decreases |s.patches[p].phase.sweep.candidates| - s.patches[p].phase.sweep.next
  {
    var w := s.patches[p].phase.sweep;
    if w.next < |w.candidates| {
      assert w.candidates[w.next..] == [w.candidates[w.next]] + w.candidates[w.next + 1..];
      SweepRunsOut(env, Step(env, s, Revoke(p)), p);
      Spares(w);
    }
  }

  lemma Spares(w: Sweep)
    ensures forall ref :: Spared(w.(next := w.next + 1), ref) == Spared(w, ref)
  {
  }

  function Repeat(env: Env, s: System, p: Id, n: nat): System
    decreases n
  {
    if n == 0 then s else Repeat(env, Step(env, s, Revoke(p)), p, n - 1)
  }

  /** Held by no account and named in no setting. */
  ghost predicate Orphan(settings: Settings, kept: set<Ref>, ref: Ref) {
    ref != "" && ref !in kept && forall key :: key in settings ==> !Contains(settings[key], ref)
  }

  lemma SparedUnlessOrphan(w: Sweep, ref: Ref)
    ensures Spared(w, ref) <==> !Orphan(w.stored, w.kept, ref)
  {
  }

  /**
    The whole sweep of a patch revokes exactly the orphans: among the references it registered if it was
    not told that it committed, among those its request replaced if it was.
   */
  lemma WholeSweep(env: Env, s: System, p: Id, kept: set<Ref>)
    requires InPhase(s, p, RollingBack) || InPhase(s, p, Committed)
    ensures var t := Step(env, s, Check(p, true, kept));
            var x := s.patches[p];
            var refs := if x.phase == RollingBack then x.refs else env.retired(x.expected, x.request);
            Repeat(env, t, p, |refs|).revoked == s.revoked + set ref | ref in refs && Orphan(s.settings, kept, ref)
  {
    var t := Step(env, s, Check(p, true, kept));
    var w := t.patches[p].phase.sweep;
    assert w.candidates[0..] == w.candidates;
    SweepRunsOut(env, t, p);
    forall ref ensures Spared(w, ref) <==> !Orphan(w.stored, w.kept, ref) { SparedUnlessOrphan(w, ref); }
    assert Remaining(w) == set ref | ref in w.candidates && Orphan(s.settings, kept, ref);
  }
}
