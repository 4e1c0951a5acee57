/**
  Users and their single-sign-on identities: resolveOIDCIdentity, linkExistingLocalUser and
  oidcLinkCandidate of internal/application/oidc.go; AdminEditUser, AdminDeleteUser and
  tombstoneUserIdentity of internal/application/auth.go; the users table and its unique columns.

  Each operation is taken to run undisturbed; module IdentityRaces takes them apart.  What the store
  looks up is an input that must be true of the table; lookups and writes may also fail.
 */
module Identity {
  datatype Option<T> = None | Some(value: T)

  datatype Role = Admin | Member
  datatype Status = Active | Disabled | Deleted
  datatype Provider = Local | Oidc
  datatype User = User(login: string, email: string, role: Role, status: Status, provider: Provider,
                       issuer: string, subject: string)

  type Id = string
  type Table = map<Id, User>

  /** Case folding, trimming and a short digest of a subject. */
  datatype Env = Env(fold: string -> string, trim: string -> string, short: string -> string)

  datatype Claims = Claims(subject: string, email: string, unverified: bool, username: string, admin: bool)

  // ----- the table -----

  predicate SameIdentity(u: User, v: User) { u.subject != "" && u.issuer == v.issuer && u.subject == v.subject }

  /** Another row has this login or this identity. */
  predicate Clashes(t: Table, id: Id, u: User) {
    exists o :: o in t && o != id && (t[o].login == u.login || SameIdentity(u, t[o]))
  }

  function Insert(t: Table, id: Id, u: User, ok: bool): Option<Table> {
    if !ok || id in t || Clashes(t, id, u) then None else Some(t[id := u])
  }

  function Update(t: Table, id: Id, u: User, ok: bool): Option<Table> {
    if !ok || id !in t || Clashes(t, id, u) then None else Some(t[id := u])
  }

  predicate Holds(t: Table, id: Id, issuer: string, subject: string) {
    id in t && t[id].issuer == issuer && t[id].subject == subject
  }

  /** GetUserByOIDC */
  ghost predicate ByIdentity(t: Table, issuer: string, subject: string, found: Option<Id>) {
    match found
    case Some(id) => Holds(t, id, issuer, subject)
    case None => forall id :: !Holds(t, id, issuer, subject)
  }

  /** GetUserByEmail: the one active user with the address, if there is just one. */
  ghost predicate ByEmail(env: Env, t: Table, email: string, found: Option<Id>) {
    found.Some? ==>
      && found.value in t && t[found.value].status == Active && t[found.value].email != ""
      && env.fold(t[found.value].email) == env.fold(env.trim(email))
  }

  /** GetUserByLogin */
  ghost predicate ByLogin(env: Env, t: Table, login: string, found: Option<Id>) {
    found.Some? ==> found.value in t && env.fold(t[found.value].login) == env.fold(login)
  }

  // ----- operations -----

  function Tombstone(id: Id, u: User): User {
    u.(status := Deleted, login := "deleted-" + id, email := "", issuer := "", subject := "")
  }

  /** What the store answers during one login. */
  datatype Answers = Answers(identity: Option<Id>, email: Option<Id>, login: Option<Id>, loginTaken: bool, newId: Id,
                             winner: Option<Id>, tombstoned: bool, linked: bool, created: bool)

  datatype Outcome = Resolved(id: Id, first: bool) | Refused

  /** oidcLinkCandidate */
  function Candidate(env: Env, t: Table, c: Claims, ans: Answers): Option<Id> {
    if c.email != "" && !c.unverified && ans.email.Some? then ans.email
    else if env.trim(c.username) == "" || ans.login.None? || ans.login.value !in t then None
    else
      var u := t[ans.login.value];
      if u.email != "" && c.email != "" && env.fold(u.email) != env.fold(c.email) then None else ans.login
  }

  predicate Preprovisioned(u: User, issuer: string) { u.provider == Oidc && u.subject == "" && u.issuer == issuer }

  /** The account may be adopted by this identity. */
  predicate Linkable(env: Env, u: User, issuer: string, c: Claims) {
    && u.status == Active && u.subject == "" && (u.provider == Local || Preprovisioned(u, issuer))
    && (Preprovisioned(u, issuer) ==> !c.unverified && u.email != "" && env.fold(u.email) == env.fold(c.email))
  }

  function Linked(u: User, issuer: string, c: Claims): User {
    u.(issuer := issuer, subject := c.subject, email := if u.email == "" then c.email else u.email,
       role := if c.admin then Admin else u.role)
  }

  function Provisioned(env: Env, issuer: string, c: Claims, taken: bool): User {
    var name := if env.trim(c.username) != "" then env.trim(c.username)
                else if env.trim(c.email) != "" then env.trim(c.email) else "oidc-" + env.short(c.subject);
    User(if taken then name + "-" + env.short(c.subject) else name, c.email, if c.admin then Admin else Member,
         Active, Oidc, issuer, c.subject)
  }

  /** The rest of the login once nobody holds the identity: link, or create. */
  function Adopt(env: Env, t: Table, issuer: string, auto: bool, c: Claims, ans: Answers): (Table, Outcome) {
    var cand := Candidate(env, t, c, ans);
    var linked := if cand.Some? && cand.value in t && Linkable(env, t[cand.value], issuer, c)
                  then Update(t, cand.value, Linked(t[cand.value], issuer, c), ans.linked) else None;
    if linked.Some? then (linked.value, Resolved(cand.value, true))
    else if !auto then (t, Refused)
    else
      var made := Insert(t, ans.newId, Provisioned(env, issuer, c, ans.loginTaken), ans.created);
      if made.Some? then (made.value, Resolved(ans.newId, true))
      else if ans.winner.Some? && ans.winner.value in t && t[ans.winner.value].status == Active
      then (t, Resolved(ans.winner.value, false))
      else (t, Refused)
  }

  /** resolveOIDCIdentity */
  function Resolve(env: Env, t: Table, issuer: string, auto: bool, c: Claims, ans: Answers): (Table, Outcome) {
    if ans.identity.Some? && ans.identity.value in t then
      var id := ans.identity.value;
      if t[id].status == Active then (t, Resolved(id, false))
      else if t[id].status == Disabled then (t, Refused)
      else
        var released := Update(t, id, Tombstone(id, t[id]), ans.tombstoned);
        if released.None? then (t, Refused) else Adopt(env, released.value, issuer, auto, c, ans)
    else Adopt(env, t, issuer, auto, c, ans)
  }

  predicate ActiveAdmin(t: Table, id: Id) { id in t && t[id].role == Admin && t[id].status == Active }

  function Admins(t: Table): set<Id> { set id | id in t && ActiveAdmin(t, id) }

  /** AdminEditUser: the last active administrator can be neither demoted nor disabled. */
  function Edit(t: Table, id: Id, email: Option<string>, role: Role, disabled: bool, ok: bool): Table {
    if id !in t then t
    else
      var status := if disabled then Disabled else Active;
      var u := t[id].(role := role, status := status, email := if email.Some? then email.value else t[id].email);
      if ActiveAdmin(t, id) && (role != Admin || status != Active) && |Admins(t)| <= 1 then t
      else
        var r := Update(t, id, u, ok);
        if r.None? then t else r.value
  }

  /** AdminDeleteUser */
  function Delete(t: Table, actor: Id, id: Id, ok: bool): Table {
    if actor == id || id !in t || (ActiveAdmin(t, id) && |Admins(t)| <= 1) then t
    else
      var r := Update(t, id, Tombstone(id, t[id]), ok);
      if r.None? then t else r.value
  }

  datatype Op =
    | Login(issuer: string, auto: bool, claims: Claims, answers: Answers)
    | EditUser(id: Id, newEmail: Option<string>, role: Role, disabled: bool, ok: bool)
    | DeleteUser(actor: Id, id: Id, ok: bool)
    | CreateUser(id: Id, login: string, email: string, role: Role, ok: bool)
    | Preprovision(id: Id, email: string, issuer: string, ok: bool)
    | SetPassword(id: Id)
    | SetupAdmin(id: Id, login: string, ok: bool)

  function OrElse(r: Option<Table>, t: Table): Table { if r.Some? then r.value else t }

  function Step(env: Env, t: Table, op: Op): Table {
    match op
    case Login(issuer, auto, c, ans) => Resolve(env, t, issuer, auto, c, ans).0
    case EditUser(id, email, role, disabled, ok) => Edit(t, id, email, role, disabled, ok)
    case DeleteUser(actor, id, ok) => Delete(t, actor, id, ok)
    case CreateUser(id, login, email, role, ok) =>
      OrElse(Insert(t, id, User(login, email, role, Active, Local, "", ""), ok), t)
    case Preprovision(id, email, issuer, ok) =>
      OrElse(Insert(t, id, User(email, email, Member, Active, Oidc, issuer, ""), ok), t)
    case SetPassword(id) => if id in t then t[id := t[id].(provider := Local)] else t
    case SetupAdmin(id, login, ok) =>
      if Admins(t) != {} then t
      else if id in t then
        OrElse(Update(t, id, t[id].(login := login, role := Admin, status := Active, provider := Local), ok), t)
      else OrElse(Insert(t, id, User(login, "", Admin, Active, Local, "", ""), ok), t)
  }

  /**
    What the login was told is true of the table, except that an identity nobody held when it was looked
    up may have been taken since by another login.
   */
  ghost predicate Truthful(env: Env, t: Table, op: Op) {
    op.Login? ==>
      && op.claims.subject != ""
      && (op.answers.identity.Some? ==> ByIdentity(t, op.issuer, op.claims.subject, op.answers.identity))
      && ByEmail(env, t, op.claims.email, op.answers.email)
      && ByLogin(env, t, env.trim(op.claims.username), op.answers.login)
      && (op.answers.winner.Some? ==> Holds(t, op.answers.winner.value, op.issuer, op.claims.subject))
  }

  function Exec(env: Env, t: Table, ops: seq<Op>): Table {
    if ops == [] then t else Step(env, Exec(env, t, ops[..|ops| - 1]), ops[|ops| - 1])
  }

  // ----- one identity, one user -----

  predicate Apart(t: Table, a: Id, b: Id) {
    a in t && b in t && a != b ==> !SameIdentity(t[a], t[b]) && t[a].login != t[b].login
  }

  ghost predicate Unique(t: Table) { forall a, b :: Apart(t, a, b) }

  lemma WriteUnique(t: Table, id: Id, u: User)
    requires Unique(t) && !Clashes(t, id, u)
    ensures Unique(t[id := u])
  {
    var v := t[id := u];
    forall a, b ensures Apart(v, a, b) { assert Apart(t, a, b); }
  }

  lemma RelabelUnique(t: Table, id: Id, u: User)
    requires Unique(t) && id in t && u == t[id].(provider := u.provider)
    ensures Unique(t[id := u])
  {
    var v := t[id := u];
    forall a, b ensures Apart(v, a, b) { assert Apart(t, a, b); }
  }

  lemma AdoptUnique(env: Env, t: Table, issuer: string, auto: bool, c: Claims, ans: Answers)
    requires Unique(t)
    ensures Unique(Adopt(env, t, issuer, auto, c, ans).0)
  {
    var cand := Candidate(env, t, c, ans);
    var added := Provisioned(env, issuer, c, ans.loginTaken);
    if cand.Some? && cand.value in t && !Clashes(t, cand.value, Linked(t[cand.value], issuer, c)) {
      WriteUnique(t, cand.value, Linked(t[cand.value], issuer, c));
    }
    if !Clashes(t, ans.newId, added) { WriteUnique(t, ans.newId, added); }
  }

  lemma ResolveUnique(env: Env, t: Table, issuer: string, auto: bool, c: Claims, ans: Answers)
    requires Unique(t)
    ensures Unique(Resolve(env, t, issuer, auto, c, ans).0)
  {
    if ans.identity.Some? && ans.identity.value in t {
      var id := ans.identity.value;
      var u := Tombstone(id, t[id]);
      if !Clashes(t, id, u) {
        WriteUnique(t, id, u);
        AdoptUnique(env, t[id := u], issuer, auto, c, ans);
      }
    } else {
      AdoptUnique(env, t, issuer, auto, c, ans);
    }
  }

  lemma StepUnique(env: Env, t: Table, op: Op)
    requires Unique(t)
    ensures Unique(Step(env, t, op))
  {
    var v := Step(env, t, op);
    if op.Login? {
      ResolveUnique(env, t, op.issuer, op.auto, op.claims, op.answers);
    } else if op.SetPassword? {
      if op.id in t { RelabelUnique(t, op.id, t[op.id].(provider := Local)); }
    } else if v != t {
      assert op.id in v && v == t[op.id := v[op.id]] && !Clashes(t, op.id, v[op.id]) by { OneWrite(env, t, op); }
      WriteUnique(t, op.id, v[op.id]);
    }
  }

  /** Administrative steps write one row, and only one that clashes with no other. */
  lemma OneWrite(env: Env, t: Table, op: Op)
    requires !op.Login? && !op.SetPassword? && Step(env, t, op) != t
    ensures var v := Step(env, t, op); op.id in v && v == t[op.id := v[op.id]] && !Clashes(t, op.id, v[op.id])
  {
  }

  // ----- a bound subject changes only by tombstoning -----

  predicate Bound(t: Table, id: Id) { id in t && t[id].subject != "" }

  predicate SameBinding(t: Table, v: Table, id: Id) {
    id in t && id in v && t[id].issuer == v[id].issuer && t[id].subject == v[id].subject
  }

  predicate Tombstoned(t: Table, id: Id) { id in t && t[id] == Tombstone(id, t[id]) }

  lemma AdoptBinding(env: Env, t: Table, issuer: string, auto: bool, c: Claims, ans: Answers, id: Id)
    requires id in t
    ensures var v := Adopt(env, t, issuer, auto, c, ans).0;
            id in v && (v[id] != t[id] ==> t[id].status == Active && t[id].subject == "")
  {
  }

  lemma ResolveBinding(env: Env, t: Table, issuer: string, auto: bool, c: Claims, ans: Answers, id: Id)
    requires Bound(t, id)
    ensures var v := Resolve(env, t, issuer, auto, c, ans).0;
            SameBinding(t, v, id) || (t[id].status == Deleted && Tombstoned(v, id))
  {
    if ans.identity.Some? && ans.identity.value in t {
      var k := ans.identity.value;
      var m := t[k := Tombstone(k, t[k])];
      AdoptBinding(env, m, issuer, auto, c, ans, id);
    } else {
      AdoptBinding(env, t, issuer, auto, c, ans, id);
    }
  }

  lemma StepBinding(env: Env, t: Table, op: Op, id: Id)
    requires Bound(t, id)
    ensures var v := Step(env, t, op); SameBinding(t, v, id) || Tombstoned(v, id)
  {
    if op.Login? { ResolveBinding(env, t, op.issuer, op.auto, op.claims, op.answers, id); }
  }

  /** Nobody who is bound is tombstoned by any step of the run. */
  ghost predicate Spares(env: Env, t: Table, ops: seq<Op>, id: Id) {
    forall i :: 0 < i <= |ops| ==> !Tombstoned(Exec(env, t, ops[..i]), id)
  }

  lemma {:induction false} BindingLasts(env: Env, t: Table, ops: seq<Op>, id: Id)
    requires Bound(t, id) && Spares(env, t, ops, id)
    ensures SameBinding(t, Exec(env, t, ops), id)
  {
    if ops != [] {
      var n := |ops| - 1;
      assert forall i :: 0 < i <= n ==> ops[..n][..i] == ops[..i];
      BindingLasts(env, t, ops[..n], id);
      StepBinding(env, Exec(env, t, ops[..n]), ops[n], id);
      assert ops[..|ops|] == ops;
    }
  }

  // ----- a login resolves to an active user who holds the identity -----

  lemma AdoptResolves(env: Env, t: Table, issuer: string, auto: bool, c: Claims, ans: Answers)
    requires ans.winner.Some? ==> Holds(t, ans.winner.value, issuer, c.subject)
    ensures var (v, r) := Adopt(env, t, issuer, auto, c, ans);
            r.Resolved? ==> Holds(v, r.id, issuer, c.subject) && v[r.id].status == Active
  {
  }

  /** Whoever a login returns is active and holds exactly the identity that was asserted. */
  lemma LoginReturnsActiveHolder(env: Env, t: Table, op: Op)
    requires op.Login? && Unique(t) && Truthful(env, t, op)
    ensures var (v, r) := Resolve(env, t, op.issuer, op.auto, op.claims, op.answers);
            r.Resolved? ==> Holds(v, r.id, op.issuer, op.claims.subject) && v[r.id].status == Active
  {
    var ans, c := op.answers, op.claims;
    if ans.identity.Some? && t[ans.identity.value].status == Deleted {
      var k := ans.identity.value;
      var m := t[k := Tombstone(k, t[k])];
      assert ans.winner.Some? ==> Apart(t, k, ans.winner.value);
      DeletedWinner(env, t, k, op);
    } else if ans.identity.None? {
      AdoptResolves(env, t, op.issuer, op.auto, c, ans);
    }
  }

  /** With the identity just released nobody can have won it: only an active winner would be returned. */
  lemma DeletedWinner(env: Env, t: Table, k: Id, op: Op)
    requires op.Login? && Unique(t) && Truthful(env, t, op)
    requires op.answers.identity == Some(k) && t[k].status == Deleted
    ensures var m := t[k := Tombstone(k, t[k])];
            var (v, r) := Adopt(env, m, op.issuer, op.auto, op.claims, op.answers);
            r.Resolved? ==> Holds(v, r.id, op.issuer, op.claims.subject) && v[r.id].status == Active
  {
    if op.answers.winner.Some? {
      var w := op.answers.winner.value;
      assert Apart(t, k, w);
      assert w == k;
    }
  }

  /** What made linking an existing account safe. */
  lemma LinkRules(env: Env, t: Table, op: Op, id: Id)
    requires op.Login? && Truthful(env, t, op) && op.answers.identity.None? && id in t
    requires Step(env, t, op)[id] != t[id]
    ensures Resolve(env, t, op.issuer, op.auto, op.claims, op.answers).1 == Resolved(id, true)
    ensures t[id].status == Active && t[id].subject == ""
    ensures t[id].provider == Local || t[id].issuer == op.issuer
    ensures t[id].provider == Oidc ==>
            !op.claims.unverified && t[id].email != "" && env.fold(t[id].email) == env.fold(op.claims.email)
    ensures op.claims.unverified ==> env.fold(t[id].login) == env.fold(env.trim(op.claims.username))
    ensures t[id].email != "" && op.claims.email != "" ==>
              env.fold(t[id].email) == env.fold(op.claims.email)
                  || env.fold(t[id].email) == env.fold(env.trim(op.claims.email))
  {
  }

  // ----- an active administrator remains -----

  lemma AdminsShrink(t: Table, v: Table, id: Id)
    requires v.Keys >= t.Keys && forall o :: o in t && o != id ==> v[o] == t[o]
    requires |Admins(t)| > 1
    ensures Admins(v) != {}
  {
    var rest := Admins(t) - {id};
    assert |rest| >= |Admins(t)| - 1;
    var o :| o in rest;
    assert ActiveAdmin(v, o);
    assert o in Admins(v);
  }

  lemma EditKeepsAdmin(t: Table, id: Id, email: Option<string>, role: Role, disabled: bool, ok: bool)
    requires Admins(t) != {}
    ensures Admins(Edit(t, id, email, role, disabled, ok)) != {}
  {
    var v := Edit(t, id, email, role, disabled, ok);
    if |Admins(t)| > 1 {
      AdminsShrink(t, v, id);
    } else {
      var o :| o in Admins(t);
      OneAdmin(t, o);
      assert ActiveAdmin(v, o);
      assert o in Admins(v);
    }
  }

  lemma OneAdmin(t: Table, o: Id)
    requires o in Admins(t) && |Admins(t)| <= 1
    ensures Admins(t) == {o}
  {
    var rest := Admins(t) - {o};
    assert |rest| == 0;
    assert Admins(t) == rest + {o};
  }

  lemma DeleteKeepsAdmin(t: Table, actor: Id, id: Id, ok: bool)
    requires Admins(t) != {}
    ensures Admins(Delete(t, actor, id, ok)) != {}
  {
    var v := Delete(t, actor, id, ok);
    if |Admins(t)| > 1 {
      AdminsShrink(t, v, id);
    } else {
      var o :| o in Admins(t);
      OneAdmin(t, o);
      assert ActiveAdmin(v, o);
      assert o in Admins(v);
    }
  }

  lemma AdoptKeepsAdmin(env: Env, t: Table, issuer: string, auto: bool, c: Claims, ans: Answers, o: Id)
    requires ActiveAdmin(t, o)
    ensures ActiveAdmin(Adopt(env, t, issuer, auto, c, ans).0, o)
  {
  }

  lemma OtherStepKeepsAdmin(env: Env, t: Table, op: Op, o: Id)
    requires !op.EditUser? && !op.DeleteUser? && ActiveAdmin(t, o)
    ensures ActiveAdmin(Step(env, t, op), o)
  {
    if op.SetupAdmin? { assert o in Admins(t); }
    if op.Login? {
      var ans := op.answers;
      if ans.identity.Some? && ans.identity.value in t {
        var k := ans.identity.value;
        if k != o { AdoptKeepsAdmin(env, t[k := Tombstone(k, t[k])], op.issuer, op.auto, op.claims, ans, o); }
      } else {
        AdoptKeepsAdmin(env, t, op.issuer, op.auto, op.claims, ans, o);
      }
    }
  }

  lemma StepKeepsAdmin(env: Env, t: Table, op: Op)
    requires Admins(t) != {}
    ensures Admins(Step(env, t, op)) != {}
  {
    match op
    case EditUser(id, email, role, disabled, ok) => EditKeepsAdmin(t, id, email, role, disabled, ok);
    case DeleteUser(actor, id, ok) => DeleteKeepsAdmin(t, actor, id, ok);
    case _ =>
      var o :| o in Admins(t);
      OtherStepKeepsAdmin(env, t, op, o);
      assert o in Admins(Step(env, t, op));
  }

  /**
    Over every sequence of operations identities stay unique, and once there is an active administrator
    there always is one.
   */
  lemma {:induction false} EveryRunKeeps(env: Env, t: Table, ops: seq<Op>)
    requires Unique(t)
    ensures Unique(Exec(env, t, ops))
    ensures Admins(t) != {} ==> Admins(Exec(env, t, ops)) != {}
  {
    if ops != [] {
      var n := |ops| - 1;
      EveryRunKeeps(env, t, ops[..n]);
      StepUnique(env, Exec(env, t, ops[..n]), ops[n]);
      if Admins(Exec(env, t, ops[..n])) != {} { StepKeepsAdmin(env, Exec(env, t, ops[..n]), ops[n]); }
    }
  }

  // ----- which account a first login gets -----

  /** The account is found by the asserted address if it is trusted, or else by a user name no address contradicts. */
  predicate FoundFor(env: Env, t: Table, c: Claims, ans: Answers, id: Id)
    requires id in t
  {
    if c.email != "" && !c.unverified && ans.email.Some? then ans.email == Some(id)
    else
      env.trim(c.username) != "" && ans.login == Some(id)
      && (t[id].email == "" || c.email == "" || env.fold(t[id].email) == env.fold(c.email))
  }

  /** It is active, belongs to nobody, and is local or was set up for this provider and this verified address. */
  predicate Adoptable(env: Env, u: User, issuer: string, c: Claims) {
    && u.status == Active && u.subject == ""
    && (u.provider == Local
        || (u.issuer == issuer && !c.unverified && u.email != "" && env.fold(u.email) == env.fold(c.email)))
  }

  /** The identity and the login of the row are nobody else's. */
  predicate Unclaimed(t: Table, id: Id, login: string, issuer: string, subject: string) {
    forall o :: o in t && o != id ==> t[o].login != login && !(t[o].issuer == issuer && t[o].subject == subject)
  }

  /**
    A login whose identity nobody holds adopts an account exactly if that account is the one found for it,
    may be adopted, and the write goes through; the account gets the identity, the address if it had none,
    and the administrator's role if that is claimed, and is otherwise as it was.
   */
  lemma LinksExactly(env: Env, t: Table, op: Op, id: Id)
    requires op.Login? && op.answers.identity == None && id in t && op.claims.subject != ""
    requires Unclaimed(t, id, t[id].login, op.issuer, op.claims.subject)
    ensures var (v, r) := Resolve(env, t, op.issuer, op.auto, op.claims, op.answers);
            && (r == Resolved(id, true) <==>
                  FoundFor(env, t, op.claims, op.answers, id) && Adoptable(env, t[id], op.issuer, op.claims)
                  && op.answers.linked)
            && (r == Resolved(id, true) ==>
                  && OnlyRow(t, v, id) && v[id].issuer == op.issuer && v[id].subject == op.claims.subject
                  && v[id].email == (if t[id].email == "" then op.claims.email else t[id].email)
                  && v[id].login == t[id].login && v[id].provider == t[id].provider && v[id].status == t[id].status)
  {
  }

  /** What an account created for a login is called after: the first of these that is not blank. */
  predicate CalledAfter(env: Env, base: string, c: Claims) {
    && (env.trim(c.username) != "" ==> base == env.trim(c.username))
    && (env.trim(c.username) == "" && env.trim(c.email) != "" ==> base == env.trim(c.email))
    && (env.trim(c.username) == "" && env.trim(c.email) == "" ==> base == "oidc-" + env.short(c.subject))
  }

  ghost predicate Named(env: Env, login: string, c: Claims, taken: bool) {
    exists base :: CalledAfter(env, base, c) && login == base + if taken then "-" + env.short(c.subject) else ""
  }

  /**
    Where no account is found for it, a login whose identity nobody holds gets a new one exactly if accounts
    may be created, the write goes through and the id is free; and the table changes in no other way.
   */
  lemma CreatesExactly(env: Env, t: Table, op: Op)
    requires op.Login? && op.answers.identity == None && op.answers.newId !in t
    requires op.answers.email == None && op.answers.login == None && op.answers.winner == None
    requires forall login :: Named(env, login, op.claims, op.answers.loginTaken) ==>
               Unclaimed(t, op.answers.newId, login, op.issuer, op.claims.subject)
    ensures var (v, r) := Resolve(env, t, op.issuer, op.auto, op.claims, op.answers);
            if op.auto && op.answers.created then
              && r == Resolved(op.answers.newId, true) && v.Keys == t.Keys + {op.answers.newId}
              && (forall o :: o in t ==> v[o] == t[o])
              && Named(env, v[op.answers.newId].login, op.claims, op.answers.loginTaken)
            else v == t && r == Refused
  {
    var c, taken := op.claims, op.answers.loginTaken;
    var u := Provisioned(env, op.issuer, c, taken);
    var base := Provisioned(env, op.issuer, c, false).login;
    assert CalledAfter(env, base, c) && u.login == base + if taken then "-" + env.short(c.subject) else "";
    assert Named(env, u.login, c, taken);
  }

  /** An operation whose writes fail changes nothing. */
  lemma FailedWrites(env: Env, t: Table, op: Op)
    requires !op.SetPassword? && (op.Login? ==> !op.answers.tombstoned && !op.answers.linked && !op.answers.created)
    requires !op.Login? && !op.SetPassword? ==> !op.ok
    ensures Step(env, t, op) == t
  {
  }

  // ----- accounts made by administrators -----

  /** Nobody has the login or the identity. */
  predicate FreeFor(t: Table, login: string, issuer: string, subject: string) {
    forall o :: o in t ==> t[o].login != login && !(t[o].issuer == issuer && t[o].subject == subject)
  }

  /** The first login of this identity, found by its verified address, whose write goes through. */
  predicate FirstByAddress(env: Env, op: Op, id: Id, email: string) {
    && op.Login? && op.answers.identity == None && op.answers.email == Some(id) && op.answers.linked
    && op.claims.subject != "" && op.claims.email != "" && !op.claims.unverified
    && env.fold(email) == env.fold(op.claims.email)
  }

  /** An account set up for a provider and an address is the one its owner's first login gets. */
  lemma PreprovisionedThenLogin(env: Env, t: Table, pre: Op, op: Op)
    requires pre.Preprovision? && pre.ok && pre.id !in t && pre.email != ""
    requires FirstByAddress(env, op, pre.id, pre.email)
    requires op.issuer == pre.issuer && FreeFor(t, pre.email, op.issuer, op.claims.subject)
    ensures var (v, r) := Resolve(env, Step(env, t, pre), op.issuer, op.auto, op.claims, op.answers);
            && r == Resolved(pre.id, true) && v.Keys == t.Keys + {pre.id} && (forall o :: o in t ==> v[o] == t[o])
            && v[pre.id].login == v[pre.id].email == pre.email && v[pre.id].provider == Oidc
            && (v[pre.id].role == Admin <==> op.claims.admin)
  {
    assert !Clashes(t, pre.id, User(pre.email, pre.email, Member, Active, Oidc, pre.issuer, ""));
  }

  /** So is a local account created with that address, in the role it was given or the one claimed. */
  lemma CreatedThenLogin(env: Env, t: Table, made: Op, op: Op)
    requires made.CreateUser? && made.ok && made.id !in t && FirstByAddress(env, op, made.id, made.email)
    requires FreeFor(t, made.login, op.issuer, op.claims.subject)
    ensures var (v, r) := Resolve(env, Step(env, t, made), op.issuer, op.auto, op.claims, op.answers);
            && r == Resolved(made.id, true) && v.Keys == t.Keys + {made.id} && (forall o :: o in t ==> v[o] == t[o])
            && v[made.id].login == made.login && v[made.id].provider == Local
            && (v[made.id].role == Admin <==> made.role == Admin || op.claims.admin)
  {
    assert !Clashes(t, made.id, User(made.login, made.email, made.role, Active, Local, "", ""));
  }

  /** The first administrator: made only where there is none, and then the only one. */
  lemma SetupExactly(env: Env, t: Table, op: Op)
    requires op.SetupAdmin? && op.ok && (op.id in t ==> t[op.id].subject == "")
    requires forall o :: o in t && o != op.id ==> t[o].login != op.login
    ensures var v := Step(env, t, op);
            if exists o :: ActiveAdmin(t, o) then v == t
            else
              && Admins(v) == {op.id} && v.Keys == t.Keys + {op.id}
              && (forall o :: o in t && o != op.id ==> v[o] == t[o])
              && v[op.id].login == op.login && v[op.id].provider == Local
              && (op.id in t ==> v[op.id].email == t[op.id].email && SameBinding(t, v, op.id))
  {
    if o :| ActiveAdmin(t, o) {
      assert o in Admins(t);
    } else {
      forall o ensures o in Admins(t) <==> false { assert o in Admins(t) <==> ActiveAdmin(t, o); }
    }
  }

  /** A password makes an account local and changes nothing else. */
  lemma PasswordExactly(env: Env, t: Table, id: Id)
    requires id in t
    ensures var v := Step(env, t, SetPassword(id));
            OnlyRow(t, v, id) && v[id].provider == Local && v[id] == t[id].(provider := v[id].provider)
  {
  }

  // ----- what edits and deletions do -----

  /** Nobody else is an active administrator. */
  ghost predicate LastAdmin(t: Table, id: Id) { forall o :: ActiveAdmin(t, o) <==> o == id }

  ghost predicate OnlyRow(t: Table, v: Table, id: Id) {
    id in t && v.Keys == t.Keys && forall o :: o in t && o != id ==> v[o] == t[o]
  }

  lemma LastAdminIff(t: Table, id: Id)
    requires ActiveAdmin(t, id)
    ensures |Admins(t)| <= 1 <==> LastAdmin(t, id)
  {
    assert id in Admins(t);
    if |Admins(t)| <= 1 {
      OneAdmin(t, id);
      forall o ensures ActiveAdmin(t, o) <==> o == id { assert o in Admins(t) <==> ActiveAdmin(t, o); }
    }
    assert LastAdmin(t, id) ==> Admins(t) == {id};
  }

  /** An edit that goes through sets what it names and nothing else, unless it would take the last administrator. */
  lemma EditExactly(t: Table, id: Id, email: Option<string>, role: Role, disabled: bool)
    requires Unique(t) && id in t
    ensures var v := Edit(t, id, email, role, disabled, true);
            if LastAdmin(t, id) && (role == Member || disabled) then v == t
            else
              && OnlyRow(t, v, id) && v[id].role == role && v[id].status == (if disabled then Disabled else Active)
              && v[id].email == (if email == None then t[id].email else email.value)
              && v[id].login == t[id].login && v[id].provider == t[id].provider && SameBinding(t, v, id)
  {
    forall o | o in t && o != id ensures t[o].login != t[id].login && !SameIdentity(t[id], t[o]) {
      assert Apart(t, id, o);
    }
    if ActiveAdmin(t, id) { LastAdminIff(t, id); }
  }

  /** A deletion that goes through leaves no address and no identity, unless it is oneself or the last administrator. */
  lemma DeleteExactly(t: Table, actor: Id, id: Id)
    requires id in t && forall o :: o in t && o != id ==> t[o].login != "deleted-" + id
    ensures var v := Delete(t, actor, id, true);
            if actor == id || LastAdmin(t, id) then v == t
            else
              && OnlyRow(t, v, id) && v[id].status == Deleted && v[id].login == "deleted-" + id
              && v[id].email == "" && v[id].issuer == "" && v[id].subject == ""
  {
    if ActiveAdmin(t, id) { LastAdminIff(t, id); }
  }

  // ----- who becomes an administrator -----

  predicate HasAdminRole(t: Table, id: Id) { id in t && t[id].role == Admin }

  /**
    A login changes the role of nobody but the user it returns for the first time, and makes that one an
    administrator exactly if the identity provider says so.
   */
  lemma LoginRoles(env: Env, t: Table, op: Op, id: Id)
    requires op.Login?
    ensures var (v, r) := Resolve(env, t, op.issuer, op.auto, op.claims, op.answers);
            && (HasAdminRole(v, id) <==> HasAdminRole(t, id) || (r == Resolved(id, true) && op.claims.admin))
            && (id in v && id !in t ==> r == Resolved(id, true))
  {
    var ans := op.answers;
    if ans.identity.Some? && ans.identity.value in t {
      var k := ans.identity.value;
      AdoptRoles(env, t[k := Tombstone(k, t[k])], op.issuer, op.auto, op.claims, ans, id);
    } else {
      AdoptRoles(env, t, op.issuer, op.auto, op.claims, ans, id);
    }
  }

  lemma AdoptRoles(env: Env, t: Table, issuer: string, auto: bool, c: Claims, ans: Answers, id: Id)
    ensures var (v, r) := Adopt(env, t, issuer, auto, c, ans);
            && (HasAdminRole(v, id) <==> HasAdminRole(t, id) || (r == Resolved(id, true) && c.admin))
            && (id in v && id !in t ==> r == Resolved(id, true))
  {
  }

  /** The account a first login creates belongs to the provider and carries the address it asserted. */
  lemma CreatedAccount(env: Env, t: Table, op: Op, id: Id)
    requires op.Login? && id !in t && id in Step(env, t, op)
    ensures op.auto
    ensures var u := Step(env, t, op)[id];
            && u.provider == Oidc && u.email == op.claims.email && u.status == Active
            && u.issuer == op.issuer && u.subject == op.claims.subject
            && (u.role == Admin <==> op.claims.admin)
  {
  }

  /** Steps that may make an active administrator: by name, or by a login that carries the claim. */
  predicate Promotes(op: Op) {
    || (op.Login? && op.claims.admin) || (op.EditUser? && op.role == Admin && !op.disabled)
    || (op.CreateUser? && op.role == Admin) || op.SetupAdmin?
  }

  lemma StepPromotes(env: Env, t: Table, op: Op, id: Id)
    requires !Promotes(op) && ActiveAdmin(Step(env, t, op), id)
    ensures ActiveAdmin(t, id)
  {
    if op.Login? {
      LoginRoles(env, t, op, id);
      LoginWakesNobody(env, t, op, id);
    }
  }

  /** A login makes no account active that was not. */
  lemma LoginWakesNobody(env: Env, t: Table, op: Op, id: Id)
    requires op.Login? && id in t
    ensures var v := Step(env, t, op); id in v && (v[id].status == Active ==> t[id].status == Active)
  {
    var ans := op.answers;
    if ans.identity.Some? && ans.identity.value in t {
      var k := ans.identity.value;
      AdoptBinding(env, t[k := Tombstone(k, t[k])], op.issuer, op.auto, op.claims, ans, id);
    } else {
      AdoptBinding(env, t, op.issuer, op.auto, op.claims, ans, id);
    }
  }

  /** Without an administrator's say or the identity provider's claim, nobody becomes an active administrator. */
  lemma {:induction false} NobodyPromoted(env: Env, t: Table, ops: seq<Op>)
    requires forall i :: 0 <= i < |ops| ==> !Promotes(ops[i])
    ensures Admins(Exec(env, t, ops)) <= Admins(t)
  {
    if ops != [] {
      var n := |ops| - 1;
      assert forall i :: 0 <= i < n ==> ops[..n][i] == ops[i];
      NobodyPromoted(env, t, ops[..n]);
      var m := Exec(env, t, ops[..n]);
      forall id | id in Admins(Step(env, m, ops[n])) ensures id in Admins(m) { StepPromotes(env, m, ops[n], id); }
    }
  }

  // ----- the same person comes back to the same account -----

  /**
    After a login, and whatever happens to the table that neither tombstones nor disables the user, the
    next login with that identity returns the same user and changes nothing.
   */
  lemma SameUserAgain(env: Env, t: Table, login: Op, between: seq<Op>, again: Op, id: Id)
    requires login.Login? && again.Login? && Unique(t) && Truthful(env, t, login)
    requires var r := Resolve(env, t, login.issuer, login.auto, login.claims, login.answers).1;
             r == Resolved(id, true) || r == Resolved(id, false)
    requires again.issuer == login.issuer && again.claims.subject == login.claims.subject
    requires Spares(env, Step(env, t, login), between, id)
    requires var v := Exec(env, Step(env, t, login), between);
             && Truthful(env, v, again) && ByIdentity(v, again.issuer, again.claims.subject, again.answers.identity)
             && (id in v ==> v[id].status == Active)
    ensures var v := Exec(env, Step(env, t, login), between);
            Resolve(env, v, again.issuer, again.auto, again.claims, again.answers) == (v, Resolved(id, false))
  {
    var u := Step(env, t, login);
    var v := Exec(env, u, between);
    LoginReturnsActiveHolder(env, t, login);
    StepUnique(env, t, login);
    EveryRunKeeps(env, u, between);
    BindingLasts(env, u, between, id);
    assert Holds(v, id, again.issuer, again.claims.subject);
    var k := again.answers.identity.value;
    assert Apart(v, k, id);
  }

  /** Two first logins of one identity, neither of which saw the other: both end at the same user. */
  lemma RacingLogins(env: Env, t: Table, one: Op, two: Op)
    requires one.Login? && two.Login? && Unique(t) && Truthful(env, t, one)
    requires one.issuer == two.issuer && one.claims.subject == two.claims.subject
    requires Truthful(env, Step(env, t, one), two) && two.answers.identity.None?
    ensures var (u, first) := Resolve(env, t, one.issuer, one.auto, one.claims, one.answers);
            var (v, second) := Resolve(env, u, two.issuer, two.auto, two.claims, two.answers);
            first.Resolved? && second.Resolved? ==> first.id == second.id && v == u
  {
    var (u, first) := Resolve(env, t, one.issuer, one.auto, one.claims, one.answers);
    var (v, second) := Resolve(env, u, two.issuer, two.auto, two.claims, two.answers);
    LoginReturnsActiveHolder(env, t, one);
    StepUnique(env, t, one);
    if first.Resolved? {
      TakenIdentity(env, u, two.issuer, two.auto, two.claims, two.answers, first.id);
      if second.Resolved? { assert Apart(u, first.id, second.id); }
    }
  }

  /** Once the identity is taken, a login that missed it writes nothing. */
  lemma TakenIdentity(env: Env, t: Table, issuer: string, auto: bool, c: Claims, ans: Answers, holder: Id)
    requires Holds(t, holder, issuer, c.subject) && c.subject != "" && ans.identity.None?
    requires ans.winner.Some? ==> Holds(t, ans.winner.value, issuer, c.subject)
    ensures var (v, r) := Resolve(env, t, issuer, auto, c, ans);
            v == t && (r.Resolved? ==> Holds(t, r.id, issuer, c.subject))
  {
    forall id, u: User | id != holder && u.issuer == issuer && u.subject == c.subject ensures Clashes(t, id, u) {
      assert SameIdentity(u, t[holder]);
    }
    var cand := Candidate(env, t, c, ans);
    if cand.Some? && cand.value in t { assert cand.value == holder ==> !Linkable(env, t[cand.value], issuer, c); }
  }
}
