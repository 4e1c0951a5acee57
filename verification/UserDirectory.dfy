/**
  The user operations as the code runs them on the stored rows: AdminEditUser and AdminDeleteUser of
  internal/application/auth.go, linkExistingLocalUser and resolveOIDCIdentity of
  internal/application/oidc.go, each proved to be the step of module Identity it stands for.
 */
module UserDirectory {
  import I = Identity

  function WithoutSlash(s: string): string { if s != "" && s[0] == '/' then s[1..] else s }

  /** oidcRole: the claim that makes an administrator is a group, named with or without a leading slash. */
  method OidcRole(groups: seq<string>, adminGroup: string) returns (role: I.Role)
    ensures role == I.Admin <==>
              adminGroup != "" && exists i :: 0 <= i < |groups| && WithoutSlash(groups[i]) == WithoutSlash(adminGroup)
  {
    if adminGroup == "" { return I.Member; }
    for i := 0 to |groups|
      invariant forall k :: 0 <= k < i ==> WithoutSlash(groups[k]) != WithoutSlash(adminGroup)
    {
      if WithoutSlash(groups[i]) == WithoutSlash(adminGroup) { return I.Admin; }
    }
    role := I.Member;
  }

  class Directory {
    var users: I.Table

    method CountAdmins() returns (n: nat)
      ensures n == |I.Admins(users)|
    {
      n := 0;
      var left := users.Keys;
      while left != {}
        invariant left <= users.Keys
        invariant n == |set id | id in I.Admins(users) && id !in left|
        decreases left
      {
        var id :| id in left;
        ghost var before := set o | o in I.Admins(users) && o !in left;
        ghost var after := set o | o in I.Admins(users) && o !in left - {id};
        if users[id].role == I.Admin && users[id].status == I.Active {
          n := n + 1;
          assert after == before + {id};
        } else {
          assert after == before;
        }
        left := left - {id};
      }
      assert (set id | id in I.Admins(users) && id !in left) == I.Admins(users);
    }

    /** UpdateUser: refused when the row is gone or a unique column is taken. */
    method UpdateUser(id: I.Id, u: I.User, ok: bool) returns (done: bool)
      modifies this
      ensures done == I.Update(old(users), id, u, ok).Some?
      ensures users == I.OrElse(I.Update(old(users), id, u, ok), old(users))
    {
      done := ok && id in users && !I.Clashes(users, id, u);
      if done { users := users[id := u]; }
    }

    method CreateUser(id: I.Id, u: I.User, ok: bool) returns (done: bool)
      modifies this
      ensures done == I.Insert(old(users), id, u, ok).Some?
      ensures users == I.OrElse(I.Insert(old(users), id, u, ok), old(users))
    {
      done := ok && id !in users && !I.Clashes(users, id, u);
      if done { users := users[id := u]; }
    }

    method AdminEditUser(id: I.Id, email: I.Option<string>, role: I.Role, disabled: bool, ok: bool)
      modifies this
      ensures users == I.Edit(old(users), id, email, role, disabled, ok)
      ensures I.Admins(old(users)) != {} ==> I.Admins(users) != {}
    {
      if I.Admins(users) != {} { I.EditKeepsAdmin(users, id, email, role, disabled, ok); }
      if id !in users { return; }
      var u := users[id];
      var status := if disabled then I.Disabled else I.Active;
      if u.role == I.Admin && u.status == I.Active && (role != I.Admin || status != I.Active) {
        var n := CountAdmins();
        if n <= 1 { return; }
      }
      u := u.(role := role, status := status);
      if email.Some? { u := u.(email := email.value); }
      var _ := UpdateUser(id, u, ok);
    }

    method AdminDeleteUser(actor: I.Id, id: I.Id, ok: bool)
      modifies this
      ensures users == I.Delete(old(users), actor, id, ok)
      ensures I.Admins(old(users)) != {} ==> I.Admins(users) != {}
    {
      if I.Admins(users) != {} { I.DeleteKeepsAdmin(users, actor, id, ok); }
      if actor == id || id !in users { return; }
      var u := users[id];
      if u.role == I.Admin && u.status == I.Active {
        var n := CountAdmins();
        if n <= 1 { return; }
      }
      u := I.Tombstone(id, u);
      var _ := UpdateUser(id, u, ok);
    }

    method LinkExistingLocalUser(env: I.Env, issuer: string, c: I.Claims, ans: I.Answers)
        returns (linked: I.Option<I.Id>)
      modifies this
      ensures var cand := I.Candidate(env, old(users), c, ans);
              var fits := cand.Some? && cand.value in old(users) && I.Linkable(env, old(users)[cand.value], issuer, c);
              var t :=
                if fits then I.Update(old(users), cand.value, I.Linked(old(users)[cand.value], issuer, c), ans.linked)
                else I.None;
              users == I.OrElse(t, old(users)) && linked == if t.Some? then cand else I.None
    {
      var cand := I.Candidate(env, users, c, ans);
      if cand.None? || cand.value !in users || users[cand.value].status != I.Active { return I.None; }
      var u := users[cand.value];
      var preprovisioned := u.provider == I.Oidc && u.subject == "" && u.issuer == issuer;
      if u.subject != "" || (u.provider != I.Local && !preprovisioned) { return I.None; }
      if preprovisioned && (c.unverified || u.email == "" || env.fold(u.email) != env.fold(c.email)) { return I.None; }
      u := u.(issuer := issuer, subject := c.subject);
      if u.email == "" { u := u.(email := c.email); }
      if c.admin { u := u.(role := I.Admin); }
      var done := UpdateUser(cand.value, u, ans.linked);
      linked := if done then cand else I.None;
    }

    method ResolveOidcIdentity(env: I.Env, issuer: string, auto: bool, c: I.Claims, ans: I.Answers)
        returns (r: I.Outcome)
      modifies this
      ensures (users, r) == I.Resolve(env, old(users), issuer, auto, c, ans)
      ensures forall id :: I.HasAdminRole(users, id) <==>
                I.HasAdminRole(old(users), id) || (r == I.Resolved(id, true) && c.admin)
    {
      forall id
        ensures var (v, q) := I.Resolve(env, users, issuer, auto, c, ans);
                I.HasAdminRole(v, id) <==> I.HasAdminRole(users, id) || (q == I.Resolved(id, true) && c.admin)
      {
        I.LoginRoles(env, users, I.Login(issuer, auto, c, ans), id);
      }
      if ans.identity.Some? && ans.identity.value in users {
        var id := ans.identity.value;
        var u := users[id];
        if u.status != I.Deleted {
          return if u.status == I.Active then I.Resolved(id, false) else I.Refused;
        }
        var released := UpdateUser(id, I.Tombstone(id, u), ans.tombstoned);
        if !released { return I.Refused; }
      }
      r := AdoptIdentity(env, issuer, auto, c, ans);
    }

    method AdoptIdentity(env: I.Env, issuer: string, auto: bool, c: I.Claims, ans: I.Answers) returns (r: I.Outcome)
      modifies this
      ensures (users, r) == I.Adopt(env, old(users), issuer, auto, c, ans)
    {
      var linked := LinkExistingLocalUser(env, issuer, c, ans);
      if linked.Some? { return I.Resolved(linked.value, true); }
      if !auto { return I.Refused; }
      var created := CreateUser(ans.newId, I.Provisioned(env, issuer, c, ans.loginTaken), ans.created);
      if created { return I.Resolved(ans.newId, true); }
      if ans.winner.Some? && ans.winner.value in users && users[ans.winner.value].status == I.Active {
        return I.Resolved(ans.winner.value, false);
      }
      return I.Refused;
    }
  }
}
