/**
  The user operations of module Identity taken apart: AdminEditUser and AdminDeleteUser
  (internal/application/auth.go), linkExistingLocalUser, the release of a deleted row and the last-login
  write (internal/application/oidc.go) each read a row, may count the administrators, and later write the
  whole row back; other operations may fall between these steps.
 */
module IdentityRaces {
  import opened I = Identity

  datatype Change =
    | Alter(newEmail: Option<string>, role: Role, disabled: bool)
    | Remove(actor: Id)
    | Release
    | Adoption(issuer: string, claims: Claims)
    | Touch
    | Setup(login: string)

  /** The row that will be written over the one that was read. */
  function Target(id: Id, u: User, c: Change): User {
    match c
    case Alter(email, role, disabled) =>
      u.(role := role, status := if disabled then Disabled else Active,
         email := if email.Some? then email.value else u.email)
    case Remove(_) => Tombstone(id, u)
    case Release => Tombstone(id, u)
    case Adoption(issuer, claims) => Linked(u, issuer, claims)
    case Touch => u
    case Setup(login) => u.(login := login, role := Admin, status := Active, provider := Local)
  }

  /** What the operation checks on the row it reads. */
  predicate Permitted(env: I.Env, t: Table, id: Id, u: User, c: Change) {
    match c
    case Alter(_, _, _) => true
    case Remove(actor) => actor != id
    case Release => u.status == Deleted
    case Adoption(issuer, claims) => claims.subject != "" && Linkable(env, u, issuer, claims)
    case Touch => u.status == Active
    case Setup(_) => Admins(t) == {}
  }

  predicate IsAdmin(u: User) { u.role == Admin && u.status == Active }

  /** An active administrator is to be demoted, disabled or deleted: the others are counted first. */
  predicate NeedsCount(id: Id, u: User, c: Change) {
    (c.Alter? || c.Remove?) && IsAdmin(u) && !IsAdmin(Target(id, u, c))
  }

  /** An operation under way: the row it read, and the other administrators it counted, once it has. */
  datatype Pending = Pending(id: Id, seen: User, change: Change, others: Option<set<Id>>)
  datatype System = System(users: Table, pending: map<nat, Pending>)

  datatype Op =
    | Add(id: Id, user: User, ok: bool)
    | SetPassword(id: Id)
    | Begin(k: nat, id: Id, change: Change)
    | Count(k: nat)
    | Write(k: nat, ok: bool)

  const EMPTY := System(map[], map[])

  predicate MayWrite(s: System, k: nat) {
    k in s.pending && (Guards(s.pending[k]) ==> s.pending[k].others.Some?)
  }

  predicate Guards(x: Pending) { NeedsCount(x.id, x.seen, x.change) }

  function Row(x: Pending): User { Target(x.id, x.seen, x.change) }

  function Step(env: I.Env, s: System, op: Op): System {
    match op
    case Add(id, user, ok) => s.(users := OrElse(Insert(s.users, id, user, ok), s.users))
    case SetPassword(id) => if id in s.users then s.(users := s.users[id := s.users[id].(provider := Local)]) else s
    case Begin(k, id, c) =>
      if k in s.pending || id !in s.users || !Permitted(env, s.users, id, s.users[id], c) then s
      else s.(pending := s.pending[k := Pending(id, s.users[id], c, None)])
    case Count(k) =>
      if k !in s.pending || !Guards(s.pending[k]) || s.pending[k].others.Some? then s
      else if |Admins(s.users)| <= 1 then s.(pending := s.pending - {k})
      else s.(pending := s.pending[k := s.pending[k].(others := Some(Admins(s.users) - {s.pending[k].id}))])
    case Write(k, ok) =>
      if !MayWrite(s, k) then s
      else
        var x := s.pending[k];
        System(OrElse(Update(s.users, x.id, Row(x), ok), s.users), s.pending - {k})
  }

  function Exec(env: I.Env, s: System, ops: seq<Op>): System {
    if ops == [] then s else Step(env, Exec(env, s, ops[..|ops| - 1]), ops[|ops| - 1])
  }

  function Run(env: I.Env, ops: seq<Op>): System { Exec(env, EMPTY, ops) }

  lemma ExecOn(env: I.Env, s: System, ops: seq<Op>, op: Op)
    ensures Exec(env, s, ops + [op]) == Step(env, Exec(env, s, ops), op)
  {
    assert (ops + [op])[..|ops|] == ops;
  }

  lemma ExecThree(env: I.Env, s: System, a: Op, b: Op, c: Op)
    ensures Exec(env, s, [a, b, c]) == Step(env, Step(env, Step(env, s, a), b), c)
  {
    assert [a] == [] + [a] && [a, b] == [a] + [b] && [a, b, c] == [a, b] + [c];
    ExecOn(env, s, [], a);
    ExecOn(env, s, [a], b);
    ExecOn(env, s, [a, b], c);
  }

  // ----- the whole operations are these steps, uninterrupted -----

  lemma EditIsThreeSteps(env: I.Env, t: Table, id: Id, email: Option<string>, role: Role, disabled: bool, ok: bool)
    ensures Exec(env, System(t, map[]), [Begin(0, id, Alter(email, role, disabled)), Count(0), Write(0, ok)]).users
            == Edit(t, id, email, role, disabled, ok)
  {
    var c := Alter(email, role, disabled);
    var s := System(t, map[]);
    ExecThree(env, s, Begin(0, id, c), Count(0), Write(0, ok));
    if id in t {
      assert Step(env, s, Begin(0, id, c)) == System(t, map[0 := Pending(id, t[id], c, None)]);
    }
  }

  lemma DeleteIsThreeSteps(env: I.Env, t: Table, actor: Id, id: Id, ok: bool)
    ensures Exec(env, System(t, map[]), [Begin(0, id, Remove(actor)), Count(0), Write(0, ok)]).users
            == Delete(t, actor, id, ok)
  {
    var c := Remove(actor);
    var s := System(t, map[]);
    ExecThree(env, s, Begin(0, id, c), Count(0), Write(0, ok));
    if id in t && actor != id {
      assert Step(env, s, Begin(0, id, c)) == System(t, map[0 := Pending(id, t[id], c, None)]);
    }
  }

  /** So is setting up the first administrator on a row that is there. */
  lemma SetupIsTwoSteps(env: I.Env, t: Table, id: Id, login: string, ok: bool)
    requires id in t
    ensures Exec(env, System(t, map[]), [Begin(0, id, Setup(login)), Count(0), Write(0, ok)]).users
            == I.Step(env, t, I.SetupAdmin(id, login, ok))
  {
    var c := Setup(login);
    var s := System(t, map[]);
    ExecThree(env, s, Begin(0, id, c), Count(0), Write(0, ok));
    if Admins(t) == {} { assert Step(env, s, Begin(0, id, c)) == System(t, map[0 := Pending(id, t[id], c, None)]); }
  }

  /** And a first login that adopts the account found for it. */
  lemma LinkIsTwoSteps(env: I.Env, t: Table, op: I.Op, id: Id)
    requires op.Login? && op.answers.identity == None && op.claims.subject != ""
    requires Candidate(env, t, op.claims, op.answers) == Some(id) && id in t
             && Linkable(env, t[id], op.issuer, op.claims) && !op.auto
    ensures Exec(env, System(t, map[]), [Begin(0, id, Adoption(op.issuer, op.claims)), Count(0),
                                         Write(0, op.answers.linked)]).users == I.Step(env, t, op)
  {
    var c := Adoption(op.issuer, op.claims);
    var s := System(t, map[]);
    ExecThree(env, s, Begin(0, id, c), Count(0), Write(0, op.answers.linked));
    assert Step(env, s, Begin(0, id, c)) == System(t, map[0 := Pending(id, t[id], c, None)]);
  }

  // ----- what no interleaving breaks -----

  lemma StepUnique(env: I.Env, s: System, op: Op)
    requires Unique(s.users)
    ensures Unique(Step(env, s, op).users)
  {
    match op
    case Add(id, user, ok) => if !Clashes(s.users, id, user) { WriteUnique(s.users, id, user); }
    case SetPassword(id) => if id in s.users { RelabelUnique(s.users, id, s.users[id].(provider := Local)); }
    case Write(k, ok) =>
      if MayWrite(s, k) && !Clashes(s.users, s.pending[k].id, Row(s.pending[k])) {
        WriteUnique(s.users, s.pending[k].id, Row(s.pending[k]));
      }
    case _ =>
  }

  /** However the steps interleave, stale writes included, at most one user holds an identity or a login. */
  lemma {:induction false} EveryInterleavingUnique(env: I.Env, ops: seq<Op>)
    ensures Unique(Run(env, ops).users)
  {
    if ops != [] {
      EveryInterleavingUnique(env, ops[..|ops| - 1]);
      StepUnique(env, Run(env, ops[..|ops| - 1]), ops[|ops| - 1]);
    }
  }

  // ----- when an active administrator remains -----

  /** What every operation under way has read, checked and counted. */
  predicate PendingOk(s: System, k: nat) {
    k in s.pending ==>
      var x := s.pending[k];
      && x.id in s.users && (x.change.Release? ==> x.seen.status == Deleted)
      && (x.change.Adoption? ==> x.seen.subject == "" && x.change.claims.subject != "")
      && (x.others.Some? ==> Guards(x) && x.others.value != {} && x.id !in x.others.value)
  }

  lemma RowsStay(env: I.Env, s: System, op: Op, id: Id)
    requires id in s.users
    ensures id in Step(env, s, op).users
  {
  }

  /** The count is what leaves somebody to rely on: more than one administrator, so another than this one. */
  lemma SomebodyElse(t: Table, id: Id)
    requires |Admins(t)| > 1
    ensures Admins(t) - {id} != {}
  {
    if Admins(t) - {id} == {} {
      assert Admins(t) <= {id};
      SubsetSize(Admins(t), {id});
    }
  }

  lemma SubsetSize(a: set<Id>, b: set<Id>)
    requires a <= b
    ensures |a| <= |b|
  {
    assert b == a + (b - a);
  }

  lemma {:induction false} RunPendingOk(env: I.Env, ops: seq<Op>, k: nat)
    ensures PendingOk(Run(env, ops), k)
  {
    if ops != [] {
      var n := |ops| - 1;
      RunPendingOk(env, ops[..n], k);
      StepPendingOk(env, Run(env, ops[..n]), ops[n], k);
    }
  }

  lemma StepPendingOk(env: I.Env, s: System, op: Op, k: nat)
    requires PendingOk(s, k)
    ensures PendingOk(Step(env, s, op), k)
  {
    if k in s.pending { RowsStay(env, s, op, s.pending[k].id); }
    if op == Count(k) && k in s.pending && |Admins(s.users)| > 1 { SomebodyElse(s.users, s.pending[k].id); }
  }

  /**
    Since the operation read or counted, others have come in between: all the administrators it counted
    are gone, or, if it had none to count, the user it read as no administrator has become one.
   */
  predicate Overtaken(s: System, k: nat) {
    && k in s.pending
    && var x := s.pending[k];
    && if x.others.Some? then x.others.value !! Admins(s.users)
       else !IsAdmin(x.seen) && x.id in s.users && IsAdmin(s.users[x.id])
  }

  lemma AdminsAfter(t: Table, id: Id, u: User)
    requires id in t
    ensures Admins(t[id := u]) == if IsAdmin(u) then Admins(t) + {id} else Admins(t) - {id}
  {
    var v := t[id := u];
    forall o ensures o in Admins(v) <==> o in (if IsAdmin(u) then Admins(t) + {id} else Admins(t) - {id}) {
      if o in t && o != id { assert ActiveAdmin(v, o) <==> ActiveAdmin(t, o); }
    }
  }

  lemma AdminsAfterStep(env: I.Env, s: System, op: Op)
    requires op.Write? && MayWrite(s, op.k) && Step(env, s, op).users != s.users
    ensures var x := s.pending[op.k];
            x.id in s.users
            && Admins(Step(env, s, op).users)
               == if IsAdmin(Row(x)) then Admins(s.users) + {x.id} else Admins(s.users) - {x.id}
  {
    var x := s.pending[op.k];
    AdminsAfter(s.users, x.id, Row(x));
  }

  /** Only the write of an operation takes an administrator away. */
  lemma OnlyWritesTake(env: I.Env, s: System, op: Op)
    requires Admins(s.users) != {} && Admins(Step(env, s, op).users) == {}
    ensures op.Write? && MayWrite(s, op.k) && Step(env, s, op).users != s.users
  {
    var o :| o in Admins(s.users);
    if !op.Write? { KeepsAdmin(env, s, op, o); }
  }

  lemma KeepsAdmin(env: I.Env, s: System, op: Op, o: Id)
    requires !op.Write? && o in Admins(s.users)
    ensures o in Admins(Step(env, s, op).users)
  {
    assert ActiveAdmin(Step(env, s, op).users, o);
  }

  /** An unguarded write of a row that is no administrator was made from one that was none. */
  lemma UnguardedWrite(x: Pending)
    requires !Guards(x) && !IsAdmin(Row(x)) && (x.change.Release? ==> x.seen.status == Deleted)
    ensures !IsAdmin(x.seen)
  {
  }

  /**
    In every interleaving, a step that leaves no active administrator is the write of an operation that
    was overtaken: the count made before it no longer holds for a single one of those counted, or the
    row it read has been made an administrator since.
   */
  lemma LostOnlyIfOvertaken(env: I.Env, ops: seq<Op>, op: Op)
    requires Admins(Run(env, ops).users) != {} && Admins(Step(env, Run(env, ops), op).users) == {}
    ensures op.Write? && Overtaken(Run(env, ops), op.k)
  {
    var s := Run(env, ops);
    OnlyWritesTake(env, s, op);
    AdminsAfterStep(env, s, op);
    RunPendingOk(env, ops, op.k);
    var x := s.pending[op.k];
    assert Admins(s.users) <= {x.id};
    if x.others.None? {
      UnguardedWrite(x);
      assert x.id in Admins(s.users);
    }
  }

  /**
    And exactly then, as long as nobody became an administrator after the count: a counted write that
    goes through leaves none if and only if all those counted are gone.
   */
  lemma CountedWriteLosesIff(env: I.Env, ops: seq<Op>, op: Op)
    requires var s := Run(env, ops);
             && op.Write? && op.k in s.pending && s.pending[op.k].others.Some? && Step(env, s, op).users != s.users
             && Admins(s.users) <= s.pending[op.k].others.value + {s.pending[op.k].id}
    ensures Admins(Step(env, Run(env, ops), op).users) == {} <==> Overtaken(Run(env, ops), op.k)
  {
    var s := Run(env, ops);
    var x := s.pending[op.k];
    RunPendingOk(env, ops, op.k);
    AdminsAfterStep(env, s, op);
  }

  /** No write of this run comes from an overtaken operation. */
  ghost predicate NotOvertaken(env: I.Env, s: System, ops: seq<Op>) {
    forall i :: 0 <= i < |ops| && ops[i].Write? ==> !Overtaken(Exec(env, s, ops[..i]), ops[i].k)
  }

  /** Then an active administrator remains, whatever else interleaves. */
  lemma {:induction false} AdminRemains(env: I.Env, before: seq<Op>, ops: seq<Op>)
    requires Admins(Run(env, before).users) != {} && NotOvertaken(env, Run(env, before), ops)
    ensures Admins(Exec(env, Run(env, before), ops).users) != {}
  {
    if ops != [] {
      var n := |ops| - 1;
      Prefixes(ops);
      AdminRemains(env, before, ops[..n]);
      ExecIsRun(env, before, ops[..n]);
      if Admins(Exec(env, Run(env, before), ops).users) == {} {
        LostOnlyIfOvertaken(env, before + ops[..n], ops[n]);
      }
    }
  }

  lemma Prefixes(ops: seq<Op>)
    requires ops != []
    ensures var n := |ops| - 1;
            && ops[..n + 1] == ops && (forall i :: 0 <= i < n ==> ops[..n][i] == ops[i])
            && (forall i :: 0 <= i <= n ==> ops[..n][..i] == ops[..i])
  {
  }

  /** What was read still stands when it is written over: the row, and every administrator counted. */
  predicate Calm(s: System, op: Op) {
    op.Write? && op.k in s.pending ==>
      var x := s.pending[op.k];
      && x.id in s.users && s.users[x.id] == x.seen
      && (x.others.Some? ==> x.others.value <= Admins(s.users))
  }

  lemma CalmIsNotOvertaken(env: I.Env, ops: seq<Op>, op: Op)
    requires op.Write? && Calm(Run(env, ops), op)
    ensures !Overtaken(Run(env, ops), op.k)
  {
    var s := Run(env, ops);
    RunPendingOk(env, ops, op.k);
    if op.k in s.pending && s.pending[op.k].others.Some? {
      var o :| o in s.pending[op.k].others.value;
      assert o in Admins(s.users);
    }
  }

  ghost predicate CalmRun(env: I.Env, s: System, ops: seq<Op>) {
    forall i :: 0 <= i < |ops| ==> Calm(Exec(env, s, ops[..i]), ops[i])
  }

  /** As long as what was read still stands when it is written over, an active administrator remains. */
  lemma CalmRunsKeepAdmin(env: I.Env, before: seq<Op>, ops: seq<Op>)
    requires Admins(Run(env, before).users) != {} && CalmRun(env, Run(env, before), ops)
    ensures Admins(Exec(env, Run(env, before), ops).users) != {}
  {
    var s := Run(env, before);
    forall i | 0 <= i < |ops| && ops[i].Write? ensures !Overtaken(Exec(env, s, ops[..i]), ops[i].k) {
      ExecIsRun(env, before, ops[..i]);
      CalmIsNotOvertaken(env, before + ops[..i], ops[i]);
    }
    AdminRemains(env, before, ops);
  }

  // ----- operations that do not overlap -----

  /** An operation begins, and a password is set, only when no other operation is under way. */
  predicate Separate(s: System, op: Op) { op.Begin? || op.SetPassword? ==> s.pending == map[] }

  predicate OneAtATime(s: System, k: nat, j: nat) { k in s.pending && j in s.pending ==> k == j }

  predicate Current(s: System, k: nat) {
    k in s.pending ==>
      var x := s.pending[k];
      && x.id in s.users && s.users[x.id] == x.seen && (x.others.Some? ==> x.others.value <= Admins(s.users))
  }

  ghost predicate Unhurried(s: System) { (forall k, j :: OneAtATime(s, k, j)) && (forall k :: Current(s, k)) }

  lemma StepUnhurried(env: I.Env, s: System, op: Op)
    requires Unhurried(s) && Separate(s, op)
    ensures Unhurried(Step(env, s, op))
  {
    var t := Step(env, s, op);
    forall k, j ensures OneAtATime(t, k, j) { assert OneAtATime(s, k, j); }
    forall k ensures Current(t, k) { StepCurrent(env, s, op, k); }
  }

  lemma StepCurrent(env: I.Env, s: System, op: Op, k: nat)
    requires Unhurried(s) && Separate(s, op)
    ensures Current(Step(env, s, op), k)
  {
    assert Current(s, k);
    match op
    case Add(id, user, ok) => AddKeepsAdmins(s.users, id, user, ok);
    case Write(j, _) => assert OneAtATime(s, k, j);
    case _ =>
  }

  lemma AddKeepsAdmins(t: Table, id: Id, user: User, ok: bool)
    ensures Admins(t) <= Admins(OrElse(Insert(t, id, user, ok), t))
  {
    var v := OrElse(Insert(t, id, user, ok), t);
    forall o | o in Admins(t) ensures o in Admins(v) { assert ActiveAdmin(v, o); }
  }

  /** Operations that do not overlap are calm, so they keep an administrator and every bound identity. */
  lemma {:induction false} SeparateIsCalm(env: I.Env, ops: seq<Op>)
    requires forall i :: 0 <= i < |ops| ==> Separate(Run(env, ops[..i]), ops[i])
    ensures Unhurried(Run(env, ops)) && CalmRun(env, EMPTY, ops)
  {
    if ops != [] {
      var n := |ops| - 1;
      Prefixes(ops);
      SeparateIsCalm(env, ops[..n]);
      StepUnhurried(env, Run(env, ops[..n]), ops[n]);
      CalmOneMore(env, EMPTY, ops);
    }
  }

  lemma CalmOneMore(env: I.Env, s: System, ops: seq<Op>)
    requires ops != [] && CalmRun(env, s, ops[..|ops| - 1]) && Unhurried(Exec(env, s, ops[..|ops| - 1]))
    ensures CalmRun(env, s, ops)
  {
    var before := ops[..|ops| - 1];
    forall i | 0 <= i < |ops| ensures Calm(Exec(env, s, ops[..i]), ops[i]) {
      if i < |before| {
        assert before[..i] == ops[..i] && before[i] == ops[i];
        assert Calm(Exec(env, s, before[..i]), before[i]);
      } else if ops[i].Write? {
        assert Current(Exec(env, s, before), ops[i].k);
      }
    }
  }

  // ----- when a bound identity changes -----

  predicate SameSubject(u: User, v: User) { u.issuer == v.issuer && u.subject == v.subject }

  /** The write is of a row read before its identity last changed. */
  predicate Stale(s: System, op: Op, id: Id) {
    && op.Write? && op.k in s.pending && s.pending[op.k].id == id && id in s.users
    && !SameSubject(s.pending[op.k].seen, s.users[id])
  }

  /**
    In every interleaved run a bound identity stays as it is, is tombstoned, or is overwritten by an
    operation that read the row before that identity was bound.
   */
  lemma BindingStep(env: I.Env, ops: seq<Op>, op: Op, id: Id)
    requires Bound(Run(env, ops).users, id)
    ensures var s := Run(env, ops);
            var t := Step(env, s, op);
            SameBinding(s.users, t.users, id) || Tombstoned(t.users, id) || Stale(s, op, id)
  {
    var s := Run(env, ops);
    if op.Write? {
      RunPendingOk(env, ops, op.k);
      if op.k in s.pending && s.pending[op.k].id == id && SameSubject(s.pending[op.k].seen, s.users[id]) {
        WriteKeepsSubject(s.pending[op.k]);
      }
    }
  }

  lemma WriteKeepsSubject(x: Pending)
    requires x.seen.subject != "" && (x.change.Adoption? ==> x.seen.subject == "")
    ensures SameSubject(Row(x), x.seen) || Row(x) == Tombstone(x.id, Row(x))
  {
  }

  /** If what was read still stands when it is written over, only a tombstone ends a binding. */
  lemma {:induction false} CalmBindingLasts(env: I.Env, before: seq<Op>, ops: seq<Op>, id: Id)
    requires Bound(Run(env, before).users, id)
    requires CalmRun(env, Run(env, before), ops)
    requires forall i :: 0 < i <= |ops| ==> !Tombstoned(Exec(env, Run(env, before), ops[..i]).users, id)
    ensures SameBinding(Run(env, before).users, Exec(env, Run(env, before), ops).users, id)
  {
    if ops != [] {
      var n := |ops| - 1;
      Prefixes(ops);
      CalmBindingLasts(env, before, ops[..n], id);
      CalmBindingStep(env, before, ops[..n], ops[n], id);
    }
  }

  lemma CalmBindingStep(env: I.Env, before: seq<Op>, ops: seq<Op>, op: Op, id: Id)
    requires var s := Exec(env, Run(env, before), ops); Bound(s.users, id) && Calm(s, op)
    ensures var s := Exec(env, Run(env, before), ops);
            SameBinding(s.users, Step(env, s, op).users, id) || Tombstoned(Step(env, s, op).users, id)
  {
    ExecIsRun(env, before, ops);
    BindingStep(env, before + ops, op, id);
  }

  lemma {:induction false} ExecIsRun(env: I.Env, before: seq<Op>, ops: seq<Op>)
    ensures Run(env, before + ops) == Exec(env, Run(env, before), ops)
  {
    if ops == [] {
      assert before + ops == before;
    } else {
      var n := |ops| - 1;
      ExecIsRun(env, before, ops[..n]);
      assert before + ops == before + ops[..n] + [ops[n]];
      ExecOn(env, EMPTY, before + ops[..n], ops[n]);
    }
  }

  // ----- runs in which a stale read does harm -----

  const ENV := I.Env((x) => x, (x) => x, (x) => x)
  const BOSS := User("boss", "", Admin, Active, Local, "", "")
  const AIDE := User("aide", "", Admin, Active, Local, "", "")
  const DEMOTED := Alter(None, Member, false)

  /** Two administrators demote each other; both counts are made before either write. */
  function Demoting(): seq<Op> {
    [Add("a", BOSS, true), Add("b", AIDE, true), Begin(1, "a", DEMOTED)]
    + [Begin(2, "b", DEMOTED), Count(1), Count(2)] + [Write(1, true), Write(2, true), Count(1)]
  }

  lemma RunNine(env: I.Env, x: seq<Op>, y: seq<Op>, z: seq<Op>)
    ensures Run(env, x + y + z) == Exec(env, Exec(env, Run(env, x), y), z)
  {
    ExecIsRun(env, x, y);
    ExecIsRun(env, x + y, z);
  }

  lemma DemotingBegins()
    ensures Run(ENV, [Add("a", BOSS, true), Add("b", AIDE, true), Begin(1, "a", DEMOTED)])
            == System(map["a" := BOSS, "b" := AIDE], map[1 := Pending("a", BOSS, DEMOTED, None)])
  {
    ExecThree(ENV, EMPTY, Add("a", BOSS, true), Add("b", AIDE, true), Begin(1, "a", DEMOTED));
  }

  lemma DemotingCounts()
    ensures Exec(ENV, System(map["a" := BOSS, "b" := AIDE], map[1 := Pending("a", BOSS, DEMOTED, None)]),
                 [Begin(2, "b", DEMOTED), Count(1), Count(2)])
            == System(map["a" := BOSS, "b" := AIDE],
                      map[1 := Pending("a", BOSS, DEMOTED, Some({"b"})), 2 := Pending("b", AIDE, DEMOTED, Some({"a"}))])
  {
    var t := map["a" := BOSS, "b" := AIDE];
    var x, y := Pending("a", BOSS, DEMOTED, None), Pending("b", AIDE, DEMOTED, None);
    ExecThree(ENV, System(t, map[1 := x]), Begin(2, "b", DEMOTED), Count(1), Count(2));
    assert Step(ENV, System(t, map[1 := x]), Begin(2, "b", DEMOTED)) == System(t, map[1 := x, 2 := y]);
    assert {"a", "b"} - {"a"} == {"b"} && {"a", "b"} - {"b"} == {"a"};
    var x', y' := x.(others := Some({"b"})), y.(others := Some({"a"}));
    CountPasses(t, map[1 := x, 2 := y], 1);
    assert map[1 := x, 2 := y][1 := x'] == map[1 := x', 2 := y];
    CountPasses(t, map[1 := x', 2 := y], 2);
    assert map[1 := x', 2 := y][2 := y'] == map[1 := x', 2 := y'];
  }

  lemma CountPasses(t: Table, pending: map<nat, Pending>, k: nat)
    requires t == map["a" := BOSS, "b" := AIDE] && k in pending && pending[k].others.None? && Guards(pending[k])
    ensures Step(ENV, System(t, pending), Count(k))
            == System(t, pending[k := pending[k].(others := Some({"a", "b"} - {pending[k].id}))])
  {
    TwoAdmins();
  }

  lemma TwoAdmins()
    ensures Admins(map["a" := BOSS, "b" := AIDE]) == {"a", "b"} && |{"a", "b"}| == 2
  {
    var t := map["a" := BOSS, "b" := AIDE];
    assert ActiveAdmin(t, "a") && ActiveAdmin(t, "b");
  }

  lemma DemotingWrites()
    ensures Exec(ENV, System(map["a" := BOSS, "b" := AIDE],
                             map[1 := Pending("a", BOSS, DEMOTED, Some({"b"})),
                                 2 := Pending("b", AIDE, DEMOTED, Some({"a"}))]),
                 [Write(1, true), Write(2, true), Count(1)]).users
            == map["a" := BOSS.(role := Member), "b" := AIDE.(role := Member)]
  {
    var x, y := Pending("a", BOSS, DEMOTED, Some({"b"})), Pending("b", AIDE, DEMOTED, Some({"a"}));
    var s := System(map["a" := BOSS, "b" := AIDE], map[1 := x, 2 := y]);
    ExecThree(ENV, s, Write(1, true), Write(2, true), Count(1));
    assert map[1 := x, 2 := y] - {1} == map[2 := y] && map[2 := y] - {2} == map[];
    BossDemoted(x, y);
    AideDemoted(y);
  }

  lemma BossDemoted(x: Pending, y: Pending)
    requires x == Pending("a", BOSS, DEMOTED, Some({"b"}))
    ensures Step(ENV, System(map["a" := BOSS, "b" := AIDE], map[1 := x, 2 := y]), Write(1, true))
            == System(map["a" := BOSS.(role := Member), "b" := AIDE], map[1 := x, 2 := y] - {1})
  {
    assert !Clashes(map["a" := BOSS, "b" := AIDE], "a", BOSS.(role := Member));
  }

  lemma AideDemoted(y: Pending)
    requires y == Pending("b", AIDE, DEMOTED, Some({"a"}))
    ensures Step(ENV, System(map["a" := BOSS.(role := Member), "b" := AIDE], map[2 := y]), Write(2, true))
            == System(map["a" := BOSS.(role := Member), "b" := AIDE.(role := Member)], map[2 := y] - {2})
  {
    assert !Clashes(map["a" := BOSS.(role := Member), "b" := AIDE], "b", AIDE.(role := Member));
  }

  /** Both demotions pass the count, and no administrator is left. */
  lemma LastAdminRace()
    ensures Admins(Run(ENV, Demoting()[..3]).users) == {"a", "b"}
    ensures Admins(Run(ENV, Demoting()).users) == {}
  {
    DemotingBegins();
    DemotingCounts();
    DemotingWrites();
    RunNine(ENV, Demoting()[..3], Demoting()[3..6], Demoting()[6..]);
    assert Demoting()[..3] == [Add("a", BOSS, true), Add("b", AIDE, true), Begin(1, "a", DEMOTED)];
    assert Demoting()[3..6] == [Begin(2, "b", DEMOTED), Count(1), Count(2)];
    assert Demoting()[6..] == [Write(1, true), Write(2, true), Count(1)];
    assert Demoting()[..3] + Demoting()[3..6] + Demoting()[6..] == Demoting();
    TwoAdmins();
  }

  const SSO := User("sso", "", Member, Active, Oidc, "i", "s")

  /** A login's last-login write, begun before an administrator deletes the user and carried out after. */
  function Reviving(): seq<Op> {
    [Add("u", SSO, true), Begin(1, "u", Touch), Begin(2, "u", Remove("a"))] + [Write(2, true), Write(1, true), Count(1)]
  }

  /** The tombstone is undone: the deleted user is active and holds the identity again. */
  lemma TombstoneUndone()
    ensures Tombstoned(Exec(ENV, Run(ENV, Reviving()[..3]), [Write(2, true)]).users, "u")
    ensures Run(ENV, Reviving()).users == map["u" := SSO]
  {
    var s := System(map["u" := SSO],
                    map[1 := Pending("u", SSO, Touch, None), 2 := Pending("u", SSO, Remove("a"), None)]);
    assert Reviving()[..3] == [Add("u", SSO, true), Begin(1, "u", Touch), Begin(2, "u", Remove("a"))];
    RevivingBegins(s);
    assert Reviving() == Reviving()[..3] + [Write(2, true), Write(1, true), Count(1)];
    TwoWrites(Reviving()[..3], s);
    UndoSteps(s);
  }

  lemma RevivingBegins(s: System)
    requires s == System(map["u" := SSO],
                         map[1 := Pending("u", SSO, Touch, None), 2 := Pending("u", SSO, Remove("a"), None)])
    ensures Run(ENV, [Add("u", SSO, true), Begin(1, "u", Touch), Begin(2, "u", Remove("a"))]) == s
  {
    ExecThree(ENV, EMPTY, Add("u", SSO, true), Begin(1, "u", Touch), Begin(2, "u", Remove("a")));
  }

  /** The second operation's write, then the first's. */
  lemma TwoWrites(before: seq<Op>, s: System)
    requires Run(ENV, before) == s
    ensures Exec(ENV, s, [Write(2, true)]) == Step(ENV, s, Write(2, true))
    ensures Run(ENV, before + [Write(2, true), Write(1, true), Count(1)]).users
            == Step(ENV, Step(ENV, s, Write(2, true)), Write(1, true)).users
  {
    ExecOn(ENV, s, [], Write(2, true));
    assert [] + [Write(2, true)] == [Write(2, true)];
    ExecThree(ENV, s, Write(2, true), Write(1, true), Count(1));
    ExecIsRun(ENV, before, [Write(2, true), Write(1, true), Count(1)]);
  }

  lemma UndoSteps(s: System)
    requires s == System(map["u" := SSO],
                         map[1 := Pending("u", SSO, Touch, None), 2 := Pending("u", SSO, Remove("a"), None)])
    ensures Step(ENV, s, Write(2, true)).users == map["u" := Tombstone("u", SSO)]
    ensures Step(ENV, Step(ENV, s, Write(2, true)), Write(1, true)).users == map["u" := SSO]
  {
    assert !Clashes(s.users, "u", Tombstone("u", SSO));
    assert !Clashes(map["u" := Tombstone("u", SSO)], "u", SSO);
  }

  const LOCAL := User("loc", "", Member, Active, Local, "", "")
  const CLAIMS := Claims("s", "", false, "loc", false)

  /** An edit read before the account is linked and written after. */
  function Unlinking(): seq<Op> {
    [Add("u", LOCAL, true), Begin(1, "u", Alter(None, Member, false)), Begin(2, "u", Adoption("i", CLAIMS))]
    + [Write(2, true), Write(1, true), Count(1)]
  }

  /** The link is undone without a tombstone. */
  lemma LinkUndone()
    ensures Bound(Exec(ENV, Run(ENV, Unlinking()[..3]), [Write(2, true)]).users, "u")
    ensures Run(ENV, Unlinking()).users == map["u" := LOCAL]
  {
    var s := System(map["u" := LOCAL], map[1 := Pending("u", LOCAL, Alter(None, Member, false), None),
                                           2 := Pending("u", LOCAL, Adoption("i", CLAIMS), None)]);
    assert Unlinking()[..3]
           == [Add("u", LOCAL, true), Begin(1, "u", Alter(None, Member, false)), Begin(2, "u", Adoption("i", CLAIMS))];
    UnlinkingBegins(s);
    assert Unlinking() == Unlinking()[..3] + [Write(2, true), Write(1, true), Count(1)];
    TwoWrites(Unlinking()[..3], s);
    UnlinkSteps(s);
  }

  lemma UnlinkingBegins(s: System)
    requires s == System(map["u" := LOCAL], map[1 := Pending("u", LOCAL, Alter(None, Member, false), None),
                                                2 := Pending("u", LOCAL, Adoption("i", CLAIMS), None)])
    ensures Run(ENV,
                [Add("u", LOCAL, true), Begin(1, "u", Alter(None, Member, false)),
                 Begin(2, "u", Adoption("i", CLAIMS))]) == s
  {
    ExecThree(ENV, EMPTY, Add("u", LOCAL, true), Begin(1, "u", Alter(None, Member, false)),
              Begin(2, "u", Adoption("i", CLAIMS)));
  }

  lemma UnlinkSteps(s: System)
    requires s == System(map["u" := LOCAL], map[1 := Pending("u", LOCAL, Alter(None, Member, false), None),
                                                2 := Pending("u", LOCAL, Adoption("i", CLAIMS), None)])
    ensures Step(ENV, s, Write(2, true)).users == map["u" := Linked(LOCAL, "i", CLAIMS)]
    ensures Step(ENV, Step(ENV, s, Write(2, true)), Write(1, true)).users == map["u" := LOCAL]
  {
    assert !Clashes(s.users, "u", Linked(LOCAL, "i", CLAIMS));
    assert !Clashes(map["u" := Linked(LOCAL, "i", CLAIMS)], "u", LOCAL);
  }
}
