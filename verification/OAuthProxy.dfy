/**
  The DCR-compatible OAuth proxy of internal/application/mcp_oauth_proxy.go: consent, state, code and
  refresh legs whose only memory is the sealed envelopes they hand out.

  Sealing is symbolic: an envelope opens only if the server sealed it, and only under its own kind.
  Everything else is in the callers' hands -- any sealed envelope, nonce, verifier or upstream code
  may be presented by anyone at any time, clients come and go, and the supported scopes change.
  Each leg reads the clock when it checks its input and again when it seals its output.
 */
module OAuthProxy {

  datatype Option<+T> = None | Some(value: T)

  const STATE_TTL: int := 600
  const CODE_TTL: int := 90

  /** What net/url makes of a URI. */
  datatype Url = Url(scheme: string, hostname: string, port: string, path: string, rawQuery: string, fragment: string,
                     hasUser: bool)

  /** The library functions the protocol rests on. */
  datatype Web = Web(
    parse: string -> Option<Url>,
    loopback: string -> bool,           // isLoopbackHost
    s256: string -> string,             // base64url(SHA-256(.))
    tokenHash: string -> string,
    sameResource: string -> bool)       // sameOAuthResource against the configured resource

  datatype Client = Client(redirectUris: seq<string>, authMethod: string, secretHash: string)

  datatype Request = Request(responseType: string, clientId: string, redirectUri: string, state: string,
                             scope: seq<string>, challenge: string, challengeMethod: string, resource: string)

  datatype Envelope =
    | Consent(client: string, redirectUri: string, state: string, challenge: string, scopes: seq<string>,
              nonce: string, expiresAt: int)
    | Login(client: string, redirectUri: string, state: string, challenge: string, scopes: seq<string>,
            verifier: string, expiresAt: int)
    | Code(client: string, redirectUri: string, challenge: string, scopes: seq<string>, upstreamCode: string,
           verifier: string, expiresAt: int)
    | Refresh(client: string, upstreamRefresh: string)

  /** What the server did, with what it knew at the time. */
  datatype Event =
    | Prepared(request: Request, registered: seq<string>, supported: seq<string>, defaults: seq<string>,
               nonce: string, env: Envelope, startedAt: int, sealedAt: int)
    | Begun(consent: Envelope, nonce: string, allow: bool, env: Envelope, startedAt: int, sealedAt: int)
    | Completed(login: Envelope, providerError: string, env: Envelope, startedAt: int, sealedAt: int)
    | Exchanged(code: Envelope, clientId: string, client: Client, secret: string, redirectUri: string, verifier: string,
                startedAt: int, minted: Option<Envelope>)
    | Refreshed(from: Envelope, clientId: string, client: Client, secret: string, minted: Option<Envelope>)

  datatype System = System(now: int, enabled: bool, supported: seq<string>, defaults: seq<string>,
                           clients: map<string, Client>, sealed: set<Envelope>, log: seq<Event>)

  // ----- checks -----

  predicate RedirectUriMatches(web: Web, registered: string, requested: string) {
    registered == requested ||
    (var a, b := web.parse(registered), web.parse(requested);
     && a.Some? && b.Some?
     && a.value.scheme == "http" && b.value.scheme == "http"
     && web.loopback(a.value.hostname) && a.value.hostname == b.value.hostname
     && a.value.path == b.value.path && a.value.rawQuery == b.value.rawQuery
     && !a.value.hasUser && !b.value.hasUser && b.value.fragment == "")
  }

  predicate Registered(web: Web, uris: seq<string>, requested: string) {
    exists i :: 0 <= i < |uris| && RedirectUriMatches(web, uris[i], requested)
  }

  predicate ChallengeChar(c: char) {
    'a' <= c <= 'z' || 'A' <= c <= 'Z' || '0' <= c <= '9' || c == '-' || c == '.' || c == '_' || c == '~'
  }

  predicate ValidChallenge(s: string) { 43 <= |s| <= 128 && forall i :: 0 <= i < |s| ==> ChallengeChar(s[i]) }

  predicate PkceMatches(web: Web, verifier: string, challenge: string) {
    43 <= |verifier| <= 128 && web.s256(verifier) == challenge
  }

  /** resolveProxyScopes, as a value. */
  function Narrow(requested: seq<string>, supported: seq<string>): (r: seq<string>)
    ensures forall s :: s in r <==> s in requested && s in supported
    ensures forall i, j :: 0 <= i < j < |r| ==> r[i] != r[j]
  {
    if requested == [] then []
    else
      var last := requested[|requested| - 1];
      var r := Narrow(requested[..|requested| - 1], supported);
      assert requested == requested[..|requested| - 1] + [last];
      if last in supported && last !in r then r + [last] else r
  }

  function Allowed(scopes: seq<string>, supported: seq<string>): (r: seq<string>)
    ensures forall s :: s in r <==> s in scopes && s in supported
  {
    if scopes == [] then []
    else (if scopes[0] in supported then [scopes[0]] else []) + Allowed(scopes[1..], supported)
  }

  function ResolveScopes(requested: seq<string>, supported: seq<string>, defaults: seq<string>): (r: seq<string>)
    ensures forall s :: s in r ==> s in supported
    ensures (exists s :: s in requested && s in supported) ==> forall s :: s in r <==> s in requested && s in supported
    ensures (forall s :: s in requested ==> s !in supported) ==> forall s :: s in r <==> s in defaults && s in supported
  {
    var out := Narrow(requested, supported);
    if out == [] then Allowed(defaults, supported)
    else
      assert out[0] in out;
      out
  }

  method ResolveProxyScopes(requested: seq<string>, supported: seq<string>, defaults: seq<string>)
      returns (out: seq<string>)
    ensures out == ResolveScopes(requested, supported, defaults)
  {
    out := [];
    for i := 0 to |requested|
      invariant out == Narrow(requested[..i], supported)
    {
      assert requested[..i + 1][..i] == requested[..i];
      if requested[i] in supported && requested[i] !in out {
        out := out + [requested[i]];
      }
    }
    assert requested[..|requested|] == requested;
    if |out| == 0 {
      var rest := |defaults|;
      assert defaults[rest..] == [];
      while rest > 0
        invariant 0 <= rest <= |defaults|
        invariant out == Allowed(defaults[rest..], supported)
      {
        rest := rest - 1;
        assert defaults[rest..][1..] == defaults[rest + 1..];
        if defaults[rest] in supported {
          out := [defaults[rest]] + out;
        }
      }
      assert defaults[0..] == defaults;
    }
  }

  /** The redirect target of a request: its own, or the only one registered. */
  function TargetUri(c: Client, req: Request): string {
    if req.redirectUri == "" && |c.redirectUris| == 1 then c.redirectUris[0] else req.redirectUri
  }

  /** authenticateProxyClient */
  predicate Authenticates(web: Web, c: Client, secret: string) {
    c.authMethod == "none" ||
    (c.authMethod in {"client_secret_basic", "client_secret_post"} && secret != ""
     && web.tokenHash(secret) == c.secretHash)
  }

  // ----- steps -----

  datatype Op =
    | Advance(seconds: nat)
    | Configure(enabled: bool, supported: seq<string>, defaults: seq<string>)
    | Register(id: string, client: Client)
    | Forget(id: string)
    | Prepare(request: Request, nonce: string, latency: nat)
    | Begin(consent: Envelope, nonce: string, allow: bool, verifier: string, upstreamUp: bool, latency: nat)
    | Complete(login: Envelope, upstreamCode: string, providerError: string, latency: nat)
    | Exchange(code: Envelope, clientId: string, secret: string, redirectUri: string, verifier: string,
               upstream: Option<string>)
    | Renew(refresh: Envelope, clientId: string, secret: string, upstream: Option<string>)

  predicate PrepareOk(web: Web, s: System, req: Request, nonce: string) {
    && s.enabled && req.clientId != "" && |req.clientId| <= 128 && req.clientId in s.clients
    && (req.redirectUri == "" ==> |s.clients[req.clientId].redirectUris| == 1)
    && Registered(web, s.clients[req.clientId].redirectUris, TargetUri(s.clients[req.clientId], req))
    && |req.state| <= 2048 && req.responseType == "code"
    && req.challengeMethod == "S256" && ValidChallenge(req.challenge)
    && (req.resource != "" ==> web.sameResource(req.resource))
    && ResolveScopes(req.scope, s.supported, s.defaults) != []
    && nonce != ""
  }

  predicate BeginOk(s: System, env: Envelope, nonce: string) {
    && s.enabled && env in s.sealed && env.Consent? && s.now <= env.expiresAt
    && nonce != "" && env.nonce == nonce && env.client in s.clients
  }

  predicate CompleteOk(s: System, env: Envelope, upstreamCode: string, providerError: string) {
    && s.enabled && env in s.sealed && env.Login? && s.now <= env.expiresAt
    && providerError == "" && upstreamCode != "" && |upstreamCode| <= 4096
  }

  predicate ClientOk(web: Web, s: System, id: string, secret: string) {
    s.enabled && id != "" && |id| <= 128 && id in s.clients && Authenticates(web, s.clients[id], secret)
  }

  predicate ExchangeOk(web: Web, s: System, env: Envelope, id: string, secret: string, redirectUri: string,
                       verifier: string) {
    && ClientOk(web, s, id, secret)
    && env in s.sealed && env.Code? && env.client == id && s.now <= env.expiresAt
    && (redirectUri == "" || redirectUri == env.redirectUri)
    && PkceMatches(web, verifier, env.challenge)
  }

  predicate RenewOk(web: Web, s: System, env: Envelope, id: string, secret: string) {
    ClientOk(web, s, id, secret) && env in s.sealed && env.Refresh? && env.client == id && env.upstreamRefresh != ""
  }

  function Record(s: System, at: int, e: Event, minted: Option<Envelope>): System {
    s.(now := at, log := s.log + [e], sealed := if minted.Some? then s.sealed + {minted.value} else s.sealed)
  }

  /** The refresh envelope handed out when the upstream answer carries a refresh token. */
  function Minted(id: string, upstream: Option<string>): Option<Envelope> {
    if upstream.Some? && upstream.value != "" then Some(Refresh(id, upstream.value)) else None
  }

  function Step(web: Web, s: System, op: Op): System {
    match op
    case Advance(seconds) => s.(now := s.now + seconds)
    case Configure(enabled, supported, defaults) => s.(enabled := enabled, supported := supported, defaults := defaults)
    case Register(id, client) => if id in s.clients then s else s.(clients := s.clients[id := client])
    case Forget(id) => s.(clients := s.clients - {id})
    case Prepare(req, nonce, latency) =>
      if !PrepareOk(web, s, req, nonce) then s
      else
        var c := s.clients[req.clientId];
        var at := s.now + latency;
        var env := Consent(req.clientId, TargetUri(c, req), req.state, req.challenge,
                           ResolveScopes(req.scope, s.supported, s.defaults), nonce, at + STATE_TTL);
        Record(s, at, Prepared(req, c.redirectUris, s.supported, s.defaults, nonce, env, s.now, at), Some(env))
    case Begin(env, nonce, allow, verifier, upstreamUp, latency) =>
      if !BeginOk(s, env, nonce) || !allow || !upstreamUp then s
      else
        var at := s.now + latency;
        var login := Login(env.client, env.redirectUri, env.state, env.challenge, env.scopes, verifier, at + STATE_TTL);
        Record(s, at, Begun(env, nonce, allow, login, s.now, at), Some(login))
    case Complete(env, upstreamCode, providerError, latency) =>
      if !CompleteOk(s, env, upstreamCode, providerError) then s
      else
        var at := s.now + latency;
        var code := Code(env.client, env.redirectUri, env.challenge, env.scopes, upstreamCode, env.verifier,
                         at + CODE_TTL);
        Record(s, at, Completed(env, providerError, code, s.now, at), Some(code))
    case Exchange(env, id, secret, redirectUri, verifier, upstream) =>
      if !ExchangeOk(web, s, env, id, secret, redirectUri, verifier) then s
      else
        var minted := Minted(id, upstream);
        Record(s, s.now, Exchanged(env, id, s.clients[id], secret, redirectUri, verifier, s.now, minted), minted)
    case Renew(env, id, secret, upstream) =>
      if !RenewOk(web, s, env, id, secret) then s
      else
        var minted := Minted(id, upstream);
        Record(s, s.now, Refreshed(env, id, s.clients[id], secret, minted), minted)
  }

  /** Whose client a step speaks for. */
  function Speaker(op: Op): string
    requires op.Prepare? || op.Begin? || op.Exchange? || op.Renew?
  {
    match op
    case Prepare(req, _, _) => req.clientId
    case Begin(env, _, _, _, _, _) => env.client
    case Exchange(_, id, _, _, _, _) => id
    case Renew(_, id, _, _) => id
  }

  /** While the proxy is off, or for a client that is not registered (any more), no leg does anything. */
  lemma OffOrUnknownDoesNothing(web: Web, s: System, op: Op)
    requires op.Prepare? || op.Begin? || op.Complete? || op.Exchange? || op.Renew?
    requires !s.enabled || (!op.Complete? && Speaker(op) !in s.clients)
    ensures Step(web, s, op) == s
  {
  }

  function Run(web: Web, s: System, ops: seq<Op>): System {
    if ops == [] then s else Step(web, Run(web, s, ops[..|ops| - 1]), ops[|ops| - 1])
  }

  function Initial(now: int): System { System(now, false, [], [], map[], {}, []) }

  // ----- provenance -----

  /**
    A registered target: the very string, or the same http URL of this machine on another port, with no user
    and no fragment.
   */
  ghost predicate SameTarget(web: Web, registered: string, requested: string) {
    registered == requested ||
    (web.parse(registered).Some? && web.parse(requested).Some?
     && var a, b := web.parse(registered).value, web.parse(requested).value;
        && b == a.(port := b.port, fragment := "") && b.scheme == "http" && web.loopback(b.hostname) && !b.hasUser)
  }

  /** What the server admits as a registered redirect target is exactly that. */
  lemma MatchesIffSameTarget(web: Web, registered: string, requested: string)
    ensures RedirectUriMatches(web, registered, requested) <==> SameTarget(web, registered, requested)
  {
  }

  ghost predicate ForRegistered(web: Web, uris: seq<string>, target: string) {
    exists i :: 0 <= i < |uris| && SameTarget(web, uris[i], target)
  }

  /** The scopes are supported ones the request names, or defaults where it names none that is supported. */
  predicate FairScopes(scopes: seq<string>, requested: seq<string>, supported: seq<string>, defaults: seq<string>) {
    && scopes != [] && (forall s :: s in scopes ==> s in supported)
    && ((forall s :: s in scopes ==> s in requested)
        || ((forall s :: s in scopes ==> s in defaults) && forall s :: s in requested ==> s !in supported))
  }

  /** A request of the envelope's client, to the target it names or the only one, for supported scopes. */
  ghost predicate PreparedWell(web: Web, e: Event) {
    && e.Prepared? && e.env.Consent?
    && e.env.client == e.request.clientId && e.env.challenge == e.request.challenge && e.env.state == e.request.state
    && e.nonce != "" && e.env.nonce == e.nonce
    && e.request.responseType == "code" && e.request.challengeMethod == "S256" && 43 <= |e.request.challenge| <= 128
    && ForRegistered(web, e.registered, e.env.redirectUri)
    && (if e.request.redirectUri == "" then e.registered == [e.env.redirectUri]
        else e.env.redirectUri == e.request.redirectUri)
    && 0 < |e.request.clientId| <= 128
    && (e.request.resource == "" || web.sameResource(e.request.resource)) && |e.request.state| <= 2048
    && FairScopes(e.env.scopes, e.request.scope, e.supported, e.defaults)
    && e.env.expiresAt == e.sealedAt + STATE_TTL && e.startedAt <= e.sealedAt
  }

  lemma AdmittedIsRegistered(web: Web, uris: seq<string>, requested: string)
    requires Registered(web, uris, requested)
    ensures ForRegistered(web, uris, requested)
  {
    var i :| 0 <= i < |uris| && RedirectUriMatches(web, uris[i], requested);
    MatchesIffSameTarget(web, uris[i], requested);
  }

  /** An allowed consent, confirmed with its nonce in time, carried over into the login state. */
  ghost predicate BegunFrom(e: Event, p: Event) {
    && e.Begun? && p.Prepared? && p.env.Consent? && e.env.Login?
    && e.consent == p.env && e.allow && e.nonce == p.env.nonce
    && e.env.client == p.env.client && e.env.redirectUri == p.env.redirectUri && e.env.state == p.env.state
    && e.env.challenge == p.env.challenge && e.env.scopes == p.env.scopes
    && e.startedAt <= p.env.expiresAt && e.env.expiresAt == e.sealedAt + STATE_TTL && e.startedAt <= e.sealedAt
  }

  ghost predicate CompletedFrom(e: Event, b: Event) {
    && e.Completed? && b.Begun? && b.env.Login? && e.env.Code?
    && e.login == b.env && e.providerError == "" && 0 < |e.env.upstreamCode| <= 4096
    && e.env.client == b.env.client && e.env.redirectUri == b.env.redirectUri
    && e.env.challenge == b.env.challenge && e.env.scopes == b.env.scopes && e.env.verifier == b.env.verifier
    && e.startedAt <= b.env.expiresAt && e.env.expiresAt == e.sealedAt + CODE_TTL && e.startedAt <= e.sealedAt
  }

  /** A client registered without a secret needs none; any other presents the one whose hash is on record. */
  predicate ProvedItself(web: Web, c: Client, secret: string) {
    if c.authMethod == "none" then true
    else secret != "" && c.secretHash == web.tokenHash(secret)
         && (c.authMethod == "client_secret_post" || c.authMethod == "client_secret_basic")
  }

  lemma AuthenticatesIffProved(web: Web, c: Client, secret: string)
    ensures Authenticates(web, c, secret) <==> ProvedItself(web, c, secret)
  {
  }

  predicate IsRefreshOf(env: Envelope, id: string) { env.Refresh? && env.client == id && env.upstreamRefresh != "" }

  ghost predicate ExchangedFrom(web: Web, e: Event, c: Event) {
    && e.Exchanged? && c.Completed? && c.env.Code?
    && e.code == c.env && e.clientId == c.env.client
    && ProvedItself(web, e.client, e.secret)
    && web.s256(e.verifier) == c.env.challenge && 43 <= |e.verifier| <= 128
    && (e.redirectUri == "" || e.redirectUri == c.env.redirectUri)
    && e.startedAt <= c.env.expiresAt
    && (e.minted.Some? ==> IsRefreshOf(e.minted.value, e.clientId))
  }

  ghost predicate RefreshedFrom(web: Web, e: Event, d: Event) {
    && e.Refreshed? && (d.Exchanged? || d.Refreshed?)
    && d.minted == Some(e.from) && d.clientId == e.clientId && ProvedItself(web, e.client, e.secret)
    && (e.minted.Some? ==> IsRefreshOf(e.minted.value, e.clientId))
  }

  /** Event n rests on an earlier event of the log. */
  ghost predicate Grounded(web: Web, log: seq<Event>, n: nat)
    requires n < |log|
  {
    match log[n]
    case Prepared(_, _, _, _, _, _, _, _) => PreparedWell(web, log[n])
    case Begun(_, _, _, _, _, _) => exists m :: 0 <= m < n && BegunFrom(log[n], log[m])
    case Completed(_, _, _, _, _) => exists m :: 0 <= m < n && CompletedFrom(log[n], log[m])
    case Exchanged(_, _, _, _, _, _, _, _) => exists m :: 0 <= m < n && ExchangedFrom(web, log[n], log[m])
    case Refreshed(_, _, _, _, _) => exists m :: 0 <= m < n && RefreshedFrom(web, log[n], log[m])
  }

  /** The event sealed the envelope, as an envelope of its own kind. */
  predicate Sealed(e: Event, env: Envelope) {
    match e
    case Prepared(_, _, _, _, _, x, _, _) => x == env && env.Consent?
    case Begun(_, _, _, x, _, _) => x == env && env.Login?
    case Completed(_, _, x, _, _) => x == env && env.Code?
    case Exchanged(_, id, _, _, _, _, _, x) => x == Some(env) && env.Refresh? && env.client == id
    case Refreshed(_, id, _, _, x) => x == Some(env) && env.Refresh? && env.client == id
  }

  ghost predicate Inv(web: Web, s: System) {
    && (forall n :: 0 <= n < |s.log| ==> Grounded(web, s.log, n))
    && (forall env :: env in s.sealed ==> exists n :: 0 <= n < |s.log| && Sealed(s.log[n], env))
  }

  lemma GroundedPrefix(web: Web, log: seq<Event>, e: Event, n: nat)
    requires n < |log| && Grounded(web, log, n)
    ensures Grounded(web, log + [e], n)
  {
    assert forall m :: 0 <= m <= n ==> (log + [e])[m] == log[m];
  }

  /** Recording one grounded event and the envelope it sealed keeps the invariant. */
  lemma RecordKeeps(web: Web, s: System, at: int, e: Event, minted: Option<Envelope>)
    requires Inv(web, s)
    requires Grounded(web, s.log + [e], |s.log|)
    requires minted.Some? ==> Sealed(e, minted.value)
    ensures Inv(web, Record(s, at, e, minted))
  {
    var t := Record(s, at, e, minted);
    forall n | 0 <= n < |t.log| ensures Grounded(web, t.log, n) {
      if n < |s.log| { GroundedPrefix(web, s.log, e, n); }
    }
    forall env | env in t.sealed ensures exists n :: 0 <= n < |t.log| && Sealed(t.log[n], env) {
      if env in s.sealed {
        var n :| 0 <= n < |s.log| && Sealed(s.log[n], env);
        assert t.log[n] == s.log[n];
      } else {
        assert t.log[|s.log|] == e;
      }
    }
  }

  lemma PrepareKeeps(web: Web, s: System, req: Request, nonce: string, latency: nat)
    requires Inv(web, s)
    ensures Inv(web, Step(web, s, Prepare(req, nonce, latency)))
  {
    if PrepareOk(web, s, req, nonce) {
      var t := Step(web, s, Prepare(req, nonce, latency));
      var e := t.log[|s.log|];
      AdmittedIsRegistered(web, e.registered, e.env.redirectUri);
      assert PreparedWell(web, e);
      assert (s.log + [e])[|s.log|] == e;
      RecordKeeps(web, s, s.now + latency, e, Some(e.env));
    }
  }

  lemma BeginKeeps(web: Web, s: System, op: Op)
    requires Inv(web, s) && op.Begin?
    ensures Inv(web, Step(web, s, op))
  {
    if BeginOk(s, op.consent, op.nonce) && op.allow && op.upstreamUp {
      var t := Step(web, s, op);
      var e := t.log[|s.log|];
      var m :| 0 <= m < |s.log| && Sealed(s.log[m], op.consent);
      assert Grounded(web, s.log, m);
      assert BegunFrom(e, s.log[m]);
      assert (s.log + [e])[|s.log|] == e && (s.log + [e])[m] == s.log[m];
      RecordKeeps(web, s, s.now + op.latency, e, Some(e.env));
    }
  }

  lemma CompleteKeeps(web: Web, s: System, op: Op)
    requires Inv(web, s) && op.Complete?
    ensures Inv(web, Step(web, s, op))
  {
    if CompleteOk(s, op.login, op.upstreamCode, op.providerError) {
      var t := Step(web, s, op);
      var e := t.log[|s.log|];
      var m :| 0 <= m < |s.log| && Sealed(s.log[m], op.login);
      assert CompletedFrom(e, s.log[m]);
      assert (s.log + [e])[|s.log|] == e && (s.log + [e])[m] == s.log[m];
      RecordKeeps(web, s, s.now + op.latency, e, Some(e.env));
    }
  }

  lemma ExchangeKeeps(web: Web, s: System, op: Op)
    requires Inv(web, s) && op.Exchange?
    ensures Inv(web, Step(web, s, op))
  {
    if ExchangeOk(web, s, op.code, op.clientId, op.secret, op.redirectUri, op.verifier) {
      var t := Step(web, s, op);
      var e := t.log[|s.log|];
      var m :| 0 <= m < |s.log| && Sealed(s.log[m], op.code);
      assert ExchangedFrom(web, e, s.log[m]);
      assert (s.log + [e])[|s.log|] == e && (s.log + [e])[m] == s.log[m];
      RecordKeeps(web, s, s.now, e, e.minted);
    }
  }

  lemma RenewKeeps(web: Web, s: System, op: Op)
    requires Inv(web, s) && op.Renew?
    ensures Inv(web, Step(web, s, op))
  {
    if RenewOk(web, s, op.refresh, op.clientId, op.secret) {
      var t := Step(web, s, op);
      var e := t.log[|s.log|];
      var m :| 0 <= m < |s.log| && Sealed(s.log[m], op.refresh);
      assert RefreshedFrom(web, e, s.log[m]);
      assert (s.log + [e])[|s.log|] == e && (s.log + [e])[m] == s.log[m];
      RecordKeeps(web, s, s.now, e, e.minted);
    }
  }

  lemma {:induction false} RunKeeps(web: Web, now: int, ops: seq<Op>)
    ensures Inv(web, Run(web, Initial(now), ops))
  {
    if ops != [] {
      RunKeeps(web, now, ops[..|ops| - 1]);
      var s := Run(web, Initial(now), ops[..|ops| - 1]);
      var op := ops[|ops| - 1];
      match op
      case Prepare(req, nonce, latency) => PrepareKeeps(web, s, req, nonce, latency);
      case Begin(_, _, _, _, _, _) => BeginKeeps(web, s, op);
      case Complete(_, _, _, _) => CompleteKeeps(web, s, op);
      case Exchange(_, _, _, _, _, _) => ExchangeKeeps(web, s, op);
      case Renew(_, _, _, _) => RenewKeeps(web, s, op);
      case _ => assert Step(web, s, op).log == s.log && Step(web, s, op).sealed == s.sealed;
    }
  }

  function Latency(e: Event): int
    requires !e.Exchanged? && !e.Refreshed?
  {
    e.sealedAt - e.startedAt
  }

  /** Everything an exchange is bound to, leg by leg. */
  ghost predicate Chain(web: Web, p: Event, b: Event, c: Event, e: Event) {
    && PreparedWell(web, p) && BegunFrom(b, p) && CompletedFrom(c, b) && ExchangedFrom(web, e, c)
    && p.request.clientId == e.clientId
    && p.request.challenge == web.s256(e.verifier)
    && ForRegistered(web, p.registered, e.code.redirectUri)
    && (p.request.redirectUri == "" || p.request.redirectUri == e.code.redirectUri)
    && (e.redirectUri == "" || e.redirectUri == p.env.redirectUri)
    && FairScopes(e.code.scopes, p.request.scope, p.supported, p.defaults)
    && b.allow && b.nonce == p.nonce
    && e.startedAt - p.startedAt <= STATE_TTL + STATE_TTL + CODE_TTL + Latency(p) + Latency(b) + Latency(c)
  }

  /**
    In every run each upstream code exchange goes back, through one code, one login state and one
    allowed consent, to a request of the same client -- and at most 1290 seconds, plus the time
    the three earlier legs themselves took, lie between.
   */
  lemma ExchangeProvenance(web: Web, now: int, ops: seq<Op>, n: nat)
    requires n < |Run(web, Initial(now), ops).log| && Run(web, Initial(now), ops).log[n].Exchanged?
    ensures Authorized(web, Run(web, Initial(now), ops).log, n)
  {
    RunKeeps(web, now, ops);
    ChainOf(web, Run(web, Initial(now), ops).log, n);
  }

  /** Event n has its whole chain before it. */
  ghost predicate Authorized(web: Web, log: seq<Event>, n: nat) {
    n < |log| && exists i, j, k :: 0 <= i < j < k < n && Chain(web, log[i], log[j], log[k], log[n])
  }

  lemma ChainOf(web: Web, log: seq<Event>, n: nat)
    requires forall m :: 0 <= m < |log| ==> Grounded(web, log, m)
    requires n < |log| && log[n].Exchanged?
    ensures Authorized(web, log, n)
  {
    assert Grounded(web, log, n);
    var k :| 0 <= k < n && ExchangedFrom(web, log[n], log[k]);
    assert Grounded(web, log, k);
    var j :| 0 <= j < k && CompletedFrom(log[k], log[j]);
    assert Grounded(web, log, j);
    var i :| 0 <= i < j && BegunFrom(log[j], log[i]);
    assert Grounded(web, log, i);
    assert Chain(web, log[i], log[j], log[k], log[n]);
  }

  /** Event n is the exchange m, or a refresh that used the envelope minted by an event descending from m. */
  ghost predicate Descends(web: Web, log: seq<Event>, n: nat, m: nat) {
    && n < |log|
    && if n == m then log[n].Exchanged?
       else
         log[n].Refreshed? && exists k :: 0 <= k < n && RefreshedFrom(web, log[n], log[k]) && Descends(web, log, k, m)
  }

  lemma {:induction false} DescendsFromExchange(web: Web, log: seq<Event>, n: nat) returns (m: nat)
    requires forall i :: 0 <= i < |log| ==> Grounded(web, log, i)
    requires n < |log| && (log[n].Exchanged? || log[n].Refreshed?)
    ensures m <= n && Descends(web, log, n, m) && log[m].Exchanged? && log[m].clientId == log[n].clientId
    decreases n
  {
    m := n;
    if log[n].Refreshed? {
      assert Grounded(web, log, n);
      var k :| 0 <= k < n && RefreshedFrom(web, log[n], log[k]);
      m := DescendsFromExchange(web, log, k);
      assert RefreshedFrom(web, log[n], log[k]) && Descends(web, log, k, m);
    }
  }

  /** The event that sealed the envelope descends, refresh by refresh, from an authorized exchange of its client. */
  ghost predicate Rooted(web: Web, log: seq<Event>, env: Envelope, n: nat, m: nat) {
    && m <= n < |log| && env.Refresh? && Sealed(log[n], env) && Descends(web, log, n, m)
    && log[m].Exchanged? && log[m].clientId == env.client && Authorized(web, log, m)
  }

  /**
    Every refresh envelope was sealed by a code exchange of its client or by a refresh that goes back,
    envelope by envelope, to one, and that exchange has the whole chain of ExchangeProvenance.
   */
  lemma RefreshProvenance(web: Web, now: int, ops: seq<Op>, env: Envelope)
    requires env in Run(web, Initial(now), ops).sealed && env.Refresh?
    ensures exists n, m :: Rooted(web, Run(web, Initial(now), ops).log, env, n, m)
  {
    RunKeeps(web, now, ops);
    var log := Run(web, Initial(now), ops).log;
    var n :| 0 <= n < |log| && Sealed(log[n], env);
    var m := DescendsFromExchange(web, log, n);
    ChainOf(web, log, m);
    assert Rooted(web, log, env, n, m);
  }

  // ----- an honest login goes through -----

  /** A request the proxy has no reason to refuse. */
  ghost predicate HonestRequest(web: Web, s: System, req: Request) {
    && s.enabled && 0 < |req.clientId| <= 128 && req.clientId in s.clients
    && (var uris := s.clients[req.clientId].redirectUris;
        if req.redirectUri == "" then |uris| == 1 else ForRegistered(web, uris, req.redirectUri))
    && |req.state| <= 2048 && req.responseType == "code"
    && req.challengeMethod == "S256" && 43 <= |req.challenge| <= 128
    && (forall i :: 0 <= i < |req.challenge| ==> ChallengeChar(req.challenge[i]))
    && (req.resource == "" || web.sameResource(req.resource))
    && ((exists x :: x in req.scope && x in s.supported) || (exists x :: x in s.defaults && x in s.supported))
  }

  /** One more event, and what it sealed. */
  predicate Adds(s: System, t: System, e: Event, env: Envelope) {
    && t.log == s.log + [e] && t.sealed == s.sealed + {env} && t.clients == s.clients && t.enabled == s.enabled
    && Sealed(e, env)
  }

  lemma PrepareWorks(web: Web, s: System, req: Request, nonce: string, latency: nat) returns (env: Envelope)
    requires HonestRequest(web, s, req) && nonce != ""
    ensures var t := Step(web, s, Prepare(req, nonce, latency));
            && |t.log| == |s.log| + 1 && Adds(s, t, t.log[|s.log|], env) && t.now == s.now + latency
            && env.Consent? && env.client == req.clientId && env.nonce == nonce && env.challenge == req.challenge
            && env.expiresAt == t.now + 600
  {
    var c := s.clients[req.clientId];
    var uris := c.redirectUris;
    if req.redirectUri == "" {
      assert RedirectUriMatches(web, uris[0], TargetUri(c, req));
    } else {
      var i :| 0 <= i < |uris| && SameTarget(web, uris[i], req.redirectUri);
      MatchesIffSameTarget(web, uris[i], req.redirectUri);
      assert RedirectUriMatches(web, uris[i], TargetUri(c, req));
    }
    env := Step(web, s, Prepare(req, nonce, latency)).log[|s.log|].env;
  }

  lemma BeginWorks(web: Web, s: System, consent: Envelope, wait: nat, verifier: string, latency: nat)
      returns (env: Envelope)
    requires s.enabled && consent in s.sealed && consent.Consent? && consent.client in s.clients
    requires consent.nonce != "" && s.now + wait <= consent.expiresAt
    ensures var m := Step(web, s, Advance(wait));
            var t := Step(web, m, Begin(consent, consent.nonce, true, verifier, true, latency));
            && |t.log| == |s.log| + 1 && Adds(s, t, t.log[|s.log|], env) && t.now == s.now + wait + latency
            && env.Login? && env.client == consent.client && env.challenge == consent.challenge
            && env.redirectUri == consent.redirectUri && env.expiresAt == t.now + 600 && env.verifier == verifier
  {
    env := Step(web, Step(web, s, Advance(wait)), Begin(consent, consent.nonce, true, verifier, true, latency))
           .log[|s.log|].env;
  }

  lemma CompleteWorks(web: Web, s: System, login: Envelope, wait: nat, upstreamCode: string, latency: nat)
      returns (env: Envelope)
    requires s.enabled && login in s.sealed && login.Login? && s.now + wait <= login.expiresAt
    requires 0 < |upstreamCode| <= 4096
    ensures var t := Step(web, Step(web, s, Advance(wait)), Complete(login, upstreamCode, "", latency));
            && |t.log| == |s.log| + 1 && Adds(s, t, t.log[|s.log|], env) && t.now == s.now + wait + latency
            && env.Code? && env.client == login.client && env.challenge == login.challenge
            && env.redirectUri == login.redirectUri && env.expiresAt == t.now + 90
            && env.upstreamCode == upstreamCode && env.verifier == login.verifier
  {
    env := Step(web, Step(web, s, Advance(wait)), Complete(login, upstreamCode, "", latency)).log[|s.log|].env;
  }

  /** The client shows the verifier of its challenge and proves itself; with it, what the exchange is given back for. */
  lemma ExchangeWorks(web: Web, s: System, code: Envelope, wait: nat, secret: string, redirectUri: string,
                      verifier: string, refresh: string)
    requires s.enabled && code in s.sealed && code.Code? && s.now + wait <= code.expiresAt
    requires 0 < |code.client| <= 128 && code.client in s.clients && ProvedItself(web, s.clients[code.client], secret)
    requires redirectUri == "" || redirectUri == code.redirectUri
    requires 43 <= |verifier| <= 128 && web.s256(verifier) == code.challenge && refresh != ""
    ensures var m := Step(web, s, Advance(wait));
            var t := Step(web, m, Exchange(code, code.client, secret, redirectUri, verifier, Some(refresh)));
            && |t.log| == |s.log| + 1 && Adds(s, t, t.log[|s.log|], Refresh(code.client, refresh))
            && t.log[|s.log|].Exchanged? && t.log[|s.log|].code == code
  {
    AuthenticatesIffProved(web, s.clients[code.client], secret);
  }

  /** A refresh envelope is good for a new one, at any later time. */
  lemma RenewWorks(web: Web, s: System, env: Envelope, wait: nat, secret: string, refresh: string)
    requires s.enabled && env in s.sealed && env.Refresh? && env.upstreamRefresh != "" && refresh != ""
    requires 0 < |env.client| <= 128 && env.client in s.clients && ProvedItself(web, s.clients[env.client], secret)
    ensures var t := Step(web, Step(web, s, Advance(wait)), Renew(env, env.client, secret, Some(refresh)));
            && |t.log| == |s.log| + 1 && Adds(s, t, t.log[|s.log|], Refresh(env.client, refresh))
            && t.log[|s.log|].Refreshed? && t.log[|s.log|].from == env
  {
    AuthenticatesIffProved(web, s.clients[env.client], secret);
  }

  /** What the participants of one login bring, and how long they take between the legs. */
  datatype Journey = Journey(request: Request, nonce: string, upstreamVerifier: string, upstreamCode: string,
                             secret: string, verifier: string, refresh: string,
                             toConsent: nat, toLogin: nat, toExchange: nat)

  /** They take at most ten minutes to consent, ten to log in and ninety seconds to exchange the code. */
  ghost predicate Prompt(web: Web, s: System, j: Journey) {
    && HonestRequest(web, s, j.request) && j.nonce != "" && 0 < |j.upstreamCode| <= 4096
    && 43 <= |j.verifier| <= 128 && web.s256(j.verifier) == j.request.challenge
    && ProvedItself(web, s.clients[j.request.clientId], j.secret) && j.refresh != ""
    && j.toConsent <= 600 && j.toLogin <= 600 && j.toExchange <= 90
  }

  /**
    The legs fit together: on any state of the proxy, a request it has no reason to refuse, carried through
    consent, login and exchange in time, is exchanged for the client's refresh token.
   */
  lemma HonestLoginSucceeds(web: Web, s: System, j: Journey) returns (ops: seq<Op>)
    requires Prompt(web, s, j)
    ensures var t := Run(web, s, ops);
            && |t.log| == |s.log| + 4 && t.log[|s.log| + 3].Exchanged?
            && t.log[|s.log| + 3].clientId == j.request.clientId && t.log[|s.log| + 3].code.Code?
            && t.log[|s.log| + 3].code.upstreamCode == j.upstreamCode
            && t.log[|s.log| + 3].code.verifier == j.upstreamVerifier
            && Refresh(j.request.clientId, j.refresh) in t.sealed
  {
    var consent := PrepareWorks(web, s, j.request, j.nonce, 0);
    var a := Step(web, s, Prepare(j.request, j.nonce, 0));
    var login := BeginWorks(web, a, consent, j.toConsent, j.upstreamVerifier, 0);
    var legs := [Prepare(j.request, j.nonce, 0), Advance(j.toConsent),
                 Begin(consent, consent.nonce, true, j.upstreamVerifier, true, 0)];
    RunThree(web, s, legs);
    var b := Run(web, s, legs);
    var code := CompleteWorks(web, b, login, j.toLogin, j.upstreamCode, 0);
    var more := [Advance(j.toLogin), Complete(login, j.upstreamCode, "", 0), Advance(j.toExchange)];
    RunThree(web, b, more);
    var c := Step(web, Step(web, b, more[0]), more[1]);
    ExchangeWorks(web, c, code, j.toExchange, j.secret, "", j.verifier, j.refresh);
    ops := legs + more + [Exchange(code, code.client, j.secret, "", j.verifier, Some(j.refresh))];
    RunAppend(web, s, legs, more);
    assert ops[..|ops| - 1] == legs + more;
    assert Run(web, s, ops) == Step(web, Run(web, b, more), ops[|ops| - 1]);
    assert |c.log| == |s.log| + 3;
  }

  lemma RunThree(web: Web, s: System, ops: seq<Op>)
    requires |ops| == 3
    ensures Run(web, s, ops) == Step(web, Step(web, Step(web, s, ops[0]), ops[1]), ops[2])
  {
    assert ops[..2][..1] == ops[..1] && ops[..1][..0] == [];
    assert Run(web, s, ops[..1]) == Step(web, s, ops[0]);
    assert Run(web, s, ops[..2]) == Step(web, Run(web, s, ops[..1]), ops[1]);
  }

  lemma {:induction false} RunAppend(web: Web, s: System, a: seq<Op>, b: seq<Op>)
    ensures Run(web, s, a + b) == Run(web, Run(web, s, a), b)
  {
    if b == [] {
      assert a + b == a;
    } else {
      var n := |b| - 1;
      RunAppend(web, s, a, b[..n]);
      assert (a + b)[..|a| + n] == a + b[..n];
    }
  }

  /** A registration names a client once; one that was forgotten can do nothing until it registers anew. */
  lemma RegistrationLasts(web: Web, s: System, id: string, client: Client, other: Client, op: Op)
    requires id !in s.clients && (op.Prepare? || op.Begin? || op.Exchange? || op.Renew?) && Speaker(op) == id
    ensures var t := Step(web, s, Register(id, client));
            && id in t.clients && t.clients[id] == client && Step(web, t, Register(id, other)) == t
            && Step(web, Step(web, t, Forget(id)), op) == Step(web, t, Forget(id))
  {
  }

  /** Once switched off, nothing is recorded or sealed until it is configured again. */
  lemma {:induction false} StaysOff(web: Web, s: System, ops: seq<Op>)
    requires !s.enabled && forall i :: 0 <= i < |ops| ==> !ops[i].Configure?
    ensures var t := Run(web, s, ops); !t.enabled && t.log == s.log && t.sealed == s.sealed
  {
    if ops != [] { StaysOff(web, s, ops[..|ops| - 1]); }
  }

  lemma SwitchedOff(web: Web, s: System, supported: seq<string>, defaults: seq<string>, ops: seq<Op>)
    requires forall i :: 0 <= i < |ops| ==> !ops[i].Configure?
    ensures var t := Run(web, Step(web, s, Configure(false, supported, defaults)), ops);
            t.log == s.log && t.sealed == s.sealed
  {
    StaysOff(web, Step(web, s, Configure(false, supported, defaults)), ops);
  }

  /** The proxy just configured, with one client. */
  function Configured(now: int, supported: seq<string>, defaults: seq<string>, id: string, client: Client): System {
    System(now, true, supported, defaults, map[id := client], {}, [])
  }

  /** From nothing: once it is switched on and a client has registered, that client's honest login succeeds. */
  lemma FirstLogin(web: Web, now: int, supported: seq<string>, defaults: seq<string>, client: Client, j: Journey)
    returns (ops: seq<Op>)
    requires Prompt(web, Configured(now, supported, defaults, j.request.clientId, client), j)
    ensures [Configure(true, supported, defaults), Register(j.request.clientId, client)] <= ops
    ensures Refresh(j.request.clientId, j.refresh) in Run(web, Initial(now), ops).sealed
  {
    var first := [Configure(true, supported, defaults), Register(j.request.clientId, client)];
    var s := Configured(now, supported, defaults, j.request.clientId, client);
    assert first[..1] == [] + [first[0]] && first[..1][..0] == [];
    assert Run(web, Initial(now), first[..1]) == Step(web, Initial(now), first[0]);
    assert Run(web, Initial(now), first) == s;
    var rest := HonestLoginSucceeds(web, s, j);
    RunAppend(web, Initial(now), first, rest);
    ops := first + rest;
  }
}
