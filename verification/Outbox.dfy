/**
  Approval, send and retry: Send, deliver and applySendResult of internal/application/send.go,
  ProcessRetries of internal/application/scheduler.go, and the edits of internal/application/compose.go.

  A send is the steps the code takes between store calls -- read the draft, consume the approval,
  create the outbound row, hand the message to SMTP, record the outcome -- and any other send, edit
  or retry tick may fall between two of them; a send that stops half-way is one whose next step
  never comes.  Any number of workers may retry: a worker lists due rows once and works through the
  rows as it read them, and nothing claims a row.  Recording an outcome may fail, and the code ignores
  that; it writes by id, whatever the row has become.
  `smtp` is the history of messages handed to the server; `account`, `version` and `token` of a row
  record what it was approved from.
 */
module Outbox {
  import opened SendPayload

  type Id = nat

  datatype Status = Queued | RetryWait | Sent | Failed | Uncertain

  /** How one delivery ends; a blocked one never reaches SMTP. */
  datatype Verdict = Accepted | AnswerLost | Temporary | Permanent | Blocked

  datatype Approval = Approval(hash: string, draft: Id, account: Account, version: Version, expiresAt: int, used: bool)
  datatype Draft = Draft(account: Id, open: bool, versions: seq<Version>)
  datatype Row = Row(draft: Id, number: nat, key: string, status: Status, attempts: nat, due: int,
                     token: Id, account: Account, version: Version)
  datatype Submission = Submission(out: Id, version: Version, from: string, verdict: Verdict)

  datatype Stage = Reading | Consumed | Created(out: Id) | Delivered(out: Id, verdict: Verdict)
  datatype Sending = Sending(draft: Id, account: Account, version: Version, key: string, token: Id, stage: Stage)

  /** A worker in a tick: the rows it listed, as they were then, and the one it is at. */
  datatype Turn = Resting | Attempting(out: Id, verdict: Verdict)
  datatype Worker = Worker(todo: map<Id, Row>, turn: Turn)

  datatype System = System(now: int, accounts: map<Id, Account>, drafts: map<Id, Draft>, approvals: map<Id, Approval>,
                           rows: map<Id, Row>, smtp: seq<Submission>, sends: map<Id, Sending>, workers: map<Id, Worker>)

  datatype Env = Env(hash: (Account, Version) -> string, sendable: (Account, Version) -> bool,
                     maxRetries: int, backoff: nat -> int)

  function MaxAttempts(env: Env): (m: int)
    ensures m >= 1
  {
    if env.maxRetries <= 0 then 1 else env.maxRetries
  }

  const EMPTY := System(0, map[], map[], map[], map[], [], map[], map[])

  datatype Op =
    | Advance(seconds: nat)
    | SetAccount(id: Id, account: Account)
    | NewDraft(id: Id, accountId: Id, first: Version)
    | Edit(id: Id, content: Version)
    | Close(id: Id)
    | Approve(token: Id, draft: Id, ttl: int)
    | StartSend(sid: Id, draft: Id, token: Id, key: string)
    | Consume(sid: Id)
    | Create(sid: Id, out: Id)
    | Deliver(sid: Id, verdict: Verdict)
    | Finish(sid: Id, written: bool)
    | List(w: Id, outs: set<Id>)
    | Pick(w: Id, out: Id, readable: bool, verdict: Verdict)
    | Settle(w: Id, written: bool)
    | Abandon(w: Id, out: Id, written: bool)

  function Current(d: Draft): Version
    requires d.versions != []
  {
    d.versions[|d.versions| - 1]
  }

  /** The row after an attempt: a retry while any are left, otherwise an end. */
  function AfterResult(env: Env, row: Row, verdict: Verdict, now: int): Row {
    var attempts := row.attempts + 1;
    var done := row.(attempts := attempts, due := 0);
    match verdict
    case Accepted => done.(status := Sent)
    case AnswerLost => done.(status := Uncertain)
    case Temporary =>
      if attempts < MaxAttempts(env) then done.(status := RetryWait, due := now + env.backoff(attempts))
      else done.(status := Failed)
    case _ => done.(status := Failed)
  }

  /** What is logged when a version is handed to SMTP. */
  function Submitted(log: seq<Submission>, out: Id, v: Version, from: string, verdict: Verdict): seq<Submission> {
    if verdict == Blocked then log else log + [Submission(out, v, from, verdict)]
  }

  predicate KeyTaken(s: System, key: string) { exists o :: o in s.rows && s.rows[o].key == key }

  predicate ConsumeOk(env: Env, s: System, x: Sending) {
    && x.token in s.approvals && !s.approvals[x.token].used && s.now < s.approvals[x.token].expiresAt
    && s.approvals[x.token].hash == env.hash(x.account, x.version)
  }

  /** GetDraft and GetAccount answer. */
  predicate Reads(s: System, draft: Id) {
    draft in s.drafts && s.drafts[draft].versions != [] && s.drafts[draft].account in s.accounts
  }

  predicate Due(s: System, out: Id) {
    out in s.rows && s.rows[out].status == RetryWait && s.rows[out].due <= s.now
  }

  function WorkerOf(s: System, w: Id): Worker { if w in s.workers then s.workers[w] else Worker(map[], Resting) }

  /** The row as worker w listed it. */
  function Snapshot(s: System, w: Id, out: Id): Row
    requires out in WorkerOf(s, w).todo
  {
    WorkerOf(s, w).todo[out]
  }

  /** Row out is next for worker w. */
  predicate Listed(s: System, w: Id, out: Id) {
    WorkerOf(s, w).turn == Resting && out in WorkerOf(s, w).todo && out in s.rows
  }

  predicate Attempts(s: System, w: Id, out: Id) {
    && WorkerOf(s, w).turn.Attempting? && WorkerOf(s, w).turn.out == out
    && out in WorkerOf(s, w).todo && out in s.rows
  }

  /** UPDATE of the columns an outcome has; what the row is bound to stays. */
  function Overwritten(r: Row, t: Row): Row { r.(status := t.status, attempts := t.attempts, due := t.due) }

  function WithWorker(s: System, w: Id, x: Worker): System { s.(workers := s.workers[w := x]) }

  /** The version a retry sends: the recorded one, or the current one if that cannot be read. */
  function RetryVersion(d: Draft, number: nat, readable: bool): Version
    requires d.versions != []
  {
    if readable && 1 <= number <= |d.versions| then d.versions[number - 1] else Current(d)
  }

  function Step(env: Env, s: System, op: Op): System {
    match op
    case Advance(seconds) => s.(now := s.now + seconds)
    case SetAccount(id, account) => s.(accounts := s.accounts[id := account])
    case NewDraft(id, accountId, first) =>
      if id in s.drafts then s else s.(drafts := s.drafts[id := Draft(accountId, true, [first.(number := 1)])])
    case Edit(id, content) => EditStep(s, id, content)
    case Close(id) => if id in s.drafts then s.(drafts := s.drafts[id := s.drafts[id].(open := false)]) else s
    case Approve(token, draft, ttl) => ApproveStep(env, s, token, draft, ttl)
    case StartSend(sid, draft, token, key) => StartStep(env, s, sid, draft, token, key)
    case Consume(sid) => ConsumeStep(env, s, sid)
    case Create(sid, out) => CreateStep(s, sid, out)
    case Deliver(sid, verdict) => DeliverStep(s, sid, verdict)
    case Finish(sid, written) => FinishStep(env, s, sid, written)
    case List(w, outs) => ListStep(s, w, outs)
    case Pick(w, out, readable, verdict) => PickStep(s, w, out, readable, verdict)
    case Settle(w, written) => SettleStep(env, s, w, written)
    case Abandon(w, out, written) => AbandonStep(s, w, out, written)
  }

  /** AddDraftVersion: the next number, on an open draft only. */
  function EditStep(s: System, id: Id, content: Version): System {
    if id !in s.drafts || !s.drafts[id].open then s
    else
      var d := s.drafts[id];
      s.(drafts := s.drafts[id := d.(versions := d.versions + [content.(number := |d.versions| + 1)])])
  }

  function ApproveStep(env: Env, s: System, token: Id, draft: Id, ttl: int): System {
    if token in s.approvals || !Reads(s, draft) then s
    else
      var a, v := s.accounts[s.drafts[draft].account], Current(s.drafts[draft]);
      if !env.sendable(a, v) then s
      else
        var expires := s.now + if ttl <= 0 then 600 else ttl;
        s.(approvals := s.approvals[token := Approval(env.hash(a, v), draft, a, v, expires, false)])
  }

  function StartStep(env: Env, s: System, sid: Id, draft: Id, token: Id, key: string): System {
    if sid in s.sends || !Reads(s, draft) || KeyTaken(s, key) then s
    else
      var a, v := s.accounts[s.drafts[draft].account], Current(s.drafts[draft]);
      if !env.sendable(a, v) then s else s.(sends := s.sends[sid := Sending(draft, a, v, key, token, Reading)])
  }

  function ConsumeStep(env: Env, s: System, sid: Id): System {
    if sid !in s.sends || s.sends[sid].stage != Reading then s
    else
      var x := s.sends[sid];
      if !ConsumeOk(env, s, x) then s.(sends := s.sends - {sid})
      else s.(approvals := s.approvals[x.token := s.approvals[x.token].(used := true)],
              sends := s.sends[sid := x.(stage := Consumed)])
  }

  function CreateStep(s: System, sid: Id, out: Id): System {
    if sid !in s.sends || s.sends[sid].stage != Consumed || out in s.rows then s
    else
      var x := s.sends[sid];
      if KeyTaken(s, x.key) then s.(sends := s.sends - {sid})
      else s.(rows := s.rows[out := Row(x.draft, x.version.number, x.key, Queued, 0, 0, x.token, x.account, x.version)],
              sends := s.sends[sid := x.(stage := Created(out))])
  }

  function DeliverStep(s: System, sid: Id, verdict: Verdict): System {
    if sid !in s.sends || !s.sends[sid].stage.Created? then s
    else
      var x := s.sends[sid];
      s.(smtp := Submitted(s.smtp, x.stage.out, x.version, x.account.email, verdict),
         sends := s.sends[sid := x.(stage := Delivered(x.stage.out, verdict))])
  }

  function FinishStep(env: Env, s: System, sid: Id, written: bool): System {
    if sid !in s.sends || !s.sends[sid].stage.Delivered? || s.sends[sid].stage.out !in s.rows then s
    else
      var st := s.sends[sid].stage;
      var rows := if written then s.rows[st.out := AfterResult(env, s.rows[st.out], st.verdict, s.now)] else s.rows;
      s.(rows := rows, sends := s.sends - {sid})
  }

  /** ListDueRetries: some of the due rows, as they are now. */
  function ListStep(s: System, w: Id, outs: set<Id>): System {
    if WorkerOf(s, w).turn != Resting then s
    else WithWorker(s, w, Worker(DueRows(s, outs), Resting))
  }

  function DueRows(s: System, outs: set<Id>): map<Id, Row> { map o | o in outs && Due(s, o) :: s.rows[o] }

  function PickStep(s: System, w: Id, out: Id, readable: bool, verdict: Verdict): System {
    if !Listed(s, w, out) || !Reads(s, Snapshot(s, w, out).draft) then s
    else
      var r := Snapshot(s, w, out);
      var d := s.drafts[r.draft];
      WithWorker(s, w, WorkerOf(s, w).(turn := Attempting(out, verdict)))
      .(smtp := Submitted(s.smtp, out, RetryVersion(d, r.number, readable), s.accounts[d.account].email, verdict))
  }

  /** The outcome of the attempt, computed from the row as it was listed. */
  function SettleStep(env: Env, s: System, w: Id, written: bool): System {
    if !WorkerOf(s, w).turn.Attempting? || !Attempts(s, w, WorkerOf(s, w).turn.out) then s
    else
      var o, x := WorkerOf(s, w).turn.out, WorkerOf(s, w);
      var t := AfterResult(env, Snapshot(s, w, o), x.turn.verdict, s.now);
      WithWorker(s, w, Worker(x.todo - {o}, Resting))
      .(rows := if written then s.rows[o := Overwritten(s.rows[o], t)] else s.rows)
  }

  /** The draft or the account cannot be read. */
  function AbandonStep(s: System, w: Id, out: Id, written: bool): System {
    if !Listed(s, w, out) then s
    else
      var t := Snapshot(s, w, out).(status := Failed, due := 0);
      WithWorker(s, w, Worker(WorkerOf(s, w).todo - {out}, Resting))
      .(rows := if written then s.rows[out := Overwritten(s.rows[out], t)] else s.rows)
  }

  function Exec(env: Env, s: System, ops: seq<Op>): System {
    if ops == [] then s else Step(env, Exec(env, s, ops[..|ops| - 1]), ops[|ops| - 1])
  }

  function Run(env: Env, ops: seq<Op>): System { Exec(env, EMPTY, ops) }

  /** Which steps leave the rows, the sends and the workers alone. */
  lemma SameRows(env: Env, s: System, op: Op)
    requires !op.Create? && !op.Finish? && !op.Settle? && !op.Abandon?
    ensures Step(env, s, op).rows == s.rows
  {
  }

  lemma SameSends(env: Env, s: System, op: Op)
    requires !op.StartSend? && !op.Consume? && !op.Create? && !op.Deliver? && !op.Finish?
    ensures Step(env, s, op).sends == s.sends
  {
  }

  lemma SameWorkers(env: Env, s: System, op: Op)
    requires !op.List? && !op.Pick? && !op.Settle? && !op.Abandon?
    ensures Step(env, s, op).workers == s.workers
  {
  }

  /** The steps that write rows, each by its own function. */
  lemma RowSteps(env: Env, s: System, op: Op)
    ensures op.Create? ==> Step(env, s, op) == CreateStep(s, op.sid, op.out)
    ensures op.Finish? ==> Step(env, s, op) == FinishStep(env, s, op.sid, op.written)
    ensures op.Settle? ==> Step(env, s, op) == SettleStep(env, s, op.w, op.written)
    ensures op.Abandon? ==> Step(env, s, op) == AbandonStep(s, op.w, op.out, op.written)
  {
  }

  lemma {:induction false} ExecAppend(env: Env, s: System, ops: seq<Op>, more: seq<Op>)
    ensures Exec(env, s, ops + more) == Exec(env, Exec(env, s, ops), more)
  {
    if more == [] {
      assert ops + more == ops;
    } else {
      var n := |more| - 1;
      ExecAppend(env, s, ops, more[..n]);
      assert (ops + more)[..|ops| + n] == ops + more[..n];
    }
  }

  lemma ExecTwo(env: Env, s: System, a: Op, b: Op)
    ensures Exec(env, s, [a]) == Step(env, s, a)
    ensures Exec(env, s, [a, b]) == Step(env, Step(env, s, a), b)
  {
    assert [a][..0] == [] && [a, b][..1] == [a];
  }

  // ----- approval binding -----

  predicate DraftOk(s: System, d: Id) {
    d in s.drafts ==>
      && s.drafts[d].versions != []
      && forall k :: 0 <= k < |s.drafts[d].versions| ==> s.drafts[d].versions[k].number == k + 1
  }

  /** v is a version of the draft, and stays one: versions are only ever appended. */
  predicate IsVersion(s: System, draft: Id, v: Version) {
    draft in s.drafts && 1 <= v.number <= |s.drafts[draft].versions| && s.drafts[draft].versions[v.number - 1] == v
  }

  /** The token's approval was issued over this content and has been consumed. */
  predicate Approved(env: Env, s: System, token: Id, a: Account, v: Version) {
    token in s.approvals && s.approvals[token].used && s.approvals[token].hash == env.hash(a, v) && env.sendable(a, v)
  }

  predicate ApprovalOk(env: Env, s: System, t: Id) {
    t in s.approvals ==>
      var a := s.approvals[t];
      a.hash == env.hash(a.account, a.version) && env.sendable(a.account, a.version) && IsVersion(s, a.draft, a.version)
  }

  /** The row a send created is the one it was approved for. */
  predicate Owns(s: System, x: Sending, out: Id) {
    out in s.rows && s.rows[out].token == x.token && s.rows[out].account == x.account
        && s.rows[out].version == x.version
  }

  predicate SendingOk(env: Env, s: System, sid: Id) {
    sid in s.sends ==>
      var x := s.sends[sid];
      && IsVersion(s, x.draft, x.version) && env.sendable(x.account, x.version)
      && (x.stage != Reading ==> Approved(env, s, x.token, x.account, x.version))
      && (x.stage.Created? || x.stage.Delivered? ==> Owns(s, x, x.stage.out))
  }

  predicate RowOk(env: Env, s: System, o: Id) {
    o in s.rows ==>
      var r := s.rows[o];
      Approved(env, s, r.token, r.account, r.version) && IsVersion(s, r.draft, r.version)
          && r.number == r.version.number
  }

  predicate RowsApart(s: System, o: Id, p: Id) {
    o in s.rows && p in s.rows && o != p ==> s.rows[o].token != s.rows[p].token
  }

  predicate HoldsToken(s: System, x: Id) { x in s.sends && s.sends[x].stage == Consumed }

  predicate RowSendApart(s: System, o: Id, x: Id) {
    o in s.rows && HoldsToken(s, x) ==> s.rows[o].token != s.sends[x].token
  }

  predicate SendsApart(s: System, x: Id, y: Id) {
    HoldsToken(s, x) && HoldsToken(s, y) && x != y ==> s.sends[x].token != s.sends[y].token
  }

  /** No approval stands behind two rows, nor behind a row and a send about to create one. */
  ghost predicate TokensApart(s: System) {
    && (forall o, p :: RowsApart(s, o, p))
    && (forall o, x :: RowSendApart(s, o, x))
    && (forall x, y :: SendsApart(s, x, y))
  }

  /** A listed row is bound to what it is bound to now. */
  predicate SnapshotOk(s: System, w: Id, o: Id) {
    o in WorkerOf(s, w).todo ==> o in s.rows && Snapshot(s, w, o) == Overwritten(s.rows[o], Snapshot(s, w, o))
  }

  ghost predicate Entities(env: Env, s: System) {
    && (forall d :: DraftOk(s, d)) && (forall t :: ApprovalOk(env, s, t))
    && (forall x :: SendingOk(env, s, x)) && (forall o :: RowOk(env, s, o))
    && (forall w, o :: SnapshotOk(s, w, o))
  }

  ghost predicate Core(env: Env, s: System) { Entities(env, s) && TokensApart(s) }

  /** Submission i carries the version its row was approved for. */
  predicate Carries(s: System, i: nat) {
    i < |s.smtp| ==> s.smtp[i].out in s.rows && s.smtp[i].version == s.rows[s.smtp[i].out].version
  }

  ghost predicate Bound(env: Env, s: System) {
    Core(env, s) && forall i :: Carries(s, i)
  }

  predicate Readable(op: Op) { op.Pick? ==> op.readable }

  // ----- what no step undoes -----

  predicate DraftKept(s: System, t: System, d: Id) {
    d in s.drafts ==> d in t.drafts && s.drafts[d].versions <= t.drafts[d].versions
  }

  predicate ApprovalKept(s: System, t: System, k: Id) {
    k in s.approvals ==>
      k in t.approvals && (t.approvals[k] == s.approvals[k] || t.approvals[k] == s.approvals[k].(used := true))
  }

  predicate RowKept(s: System, t: System, o: Id) {
    o in s.rows ==>
      o in t.rows && t.rows[o] == Overwritten(s.rows[o], t.rows[o])
  }

  /** Versions are only appended, approvals only used up, and a row stays bound as it was created. */
  ghost predicate Kept(s: System, t: System) {
    && (forall d :: DraftKept(s, t, d)) && (forall k :: ApprovalKept(s, t, k)) && (forall o :: RowKept(s, t, o))
    && s.smtp <= t.smtp
  }

  lemma DraftsKept(env: Env, s: System, op: Op, d: Id)
    ensures DraftKept(s, Step(env, s, op), d)
  {
  }

  lemma RowsKept(env: Env, s: System, op: Op, o: Id)
    ensures RowKept(s, Step(env, s, op), o)
  {
    if op.Create? || op.Finish? || op.Settle? || op.Abandon? { RowSteps(env, s, op); } else { SameRows(env, s, op); }
  }

  lemma ApprovalsKept(env: Env, s: System, op: Op, k: Id)
    ensures ApprovalKept(s, Step(env, s, op), k)
  {
  }

  lemma StepKept(env: Env, s: System, op: Op)
    ensures Kept(s, Step(env, s, op))
  {
    var t := Step(env, s, op);
    forall d ensures DraftKept(s, t, d) { DraftsKept(env, s, op, d); }
    forall k ensures ApprovalKept(s, t, k) { ApprovalsKept(env, s, op, k); }
    forall o ensures RowKept(s, t, o) { RowsKept(env, s, op, o); }
  }

  lemma {:induction false} ExecKept(env: Env, s: System, ops: seq<Op>)
    ensures Kept(s, Exec(env, s, ops))
  {
    if ops != [] {
      var m := Exec(env, s, ops[..|ops| - 1]);
      ExecKept(env, s, ops[..|ops| - 1]);
      StepKept(env, m, ops[|ops| - 1]);
      KeptTransitive(s, m, Exec(env, s, ops));
    }
  }

  lemma KeptTransitive(s: System, m: System, t: System)
    requires Kept(s, m) && Kept(m, t)
    ensures Kept(s, t)
  {
    forall d ensures DraftKept(s, t, d) { assert DraftKept(s, m, d) && DraftKept(m, t, d); }
    forall k ensures ApprovalKept(s, t, k) { assert ApprovalKept(s, m, k) && ApprovalKept(m, t, k); }
    forall o ensures RowKept(s, t, o) { assert RowKept(s, m, o) && RowKept(m, t, o); }
  }

  // ----- every step keeps the binding -----

  lemma VersionStays(s: System, t: System, draft: Id, v: Version)
    requires Kept(s, t) && IsVersion(s, draft, v)
    ensures IsVersion(t, draft, v)
  {
    assert DraftKept(s, t, draft);
  }

  lemma ApprovedStays(env: Env, s: System, t: System, token: Id, a: Account, v: Version)
    requires Kept(s, t) && Approved(env, s, token, a, v)
    ensures Approved(env, t, token, a, v)
  {
    assert ApprovalKept(s, t, token);
  }

  lemma ApprovalStays(env: Env, s: System, t: System, k: Id)
    requires Kept(s, t) && ApprovalOk(env, s, k) && k in s.approvals
    ensures ApprovalOk(env, t, k)
  {
    assert ApprovalKept(s, t, k);
    VersionStays(s, t, s.approvals[k].draft, s.approvals[k].version);
  }

  lemma RowStays(env: Env, s: System, t: System, o: Id)
    requires Kept(s, t) && RowOk(env, s, o) && o in s.rows
    ensures RowOk(env, t, o)
  {
    assert RowKept(s, t, o);
    VersionStays(s, t, s.rows[o].draft, s.rows[o].version);
    ApprovedStays(env, s, t, s.rows[o].token, s.rows[o].account, s.rows[o].version);
  }

  lemma SendingStays(env: Env, s: System, t: System, x: Id)
    requires Kept(s, t) && SendingOk(env, s, x) && x in s.sends && x in t.sends && t.sends[x] == s.sends[x]
    ensures SendingOk(env, t, x)
  {
    var y := s.sends[x];
    VersionStays(s, t, y.draft, y.version);
    if y.stage != Reading { ApprovedStays(env, s, t, y.token, y.account, y.version); }
    if y.stage.Created? || y.stage.Delivered? { assert RowKept(s, t, y.stage.out); }
  }

  lemma DraftStays(env: Env, s: System, op: Op, d: Id)
    requires DraftOk(s, d)
    ensures DraftOk(Step(env, s, op), d)
  {
  }

  lemma SnapshotsStay(env: Env, s: System, op: Op, w: Id, o: Id)
    requires SnapshotOk(s, w, o)
    ensures SnapshotOk(Step(env, s, op), w, o)
  {
    RowsKept(env, s, op, o);
    if o in WorkerOf(Step(env, s, op), w).todo { TodoStep(env, s, op, w, o); }
  }

  /** A worker's list only shrinks, or is read anew from the rows. */
  lemma TodoStep(env: Env, s: System, op: Op, w: Id, o: Id)
    requires o in WorkerOf(Step(env, s, op), w).todo
    ensures || (o in WorkerOf(s, w).todo && Snapshot(Step(env, s, op), w, o) == Snapshot(s, w, o))
            || (op.List? && op.w == w && Due(s, o) && Step(env, s, op).rows == s.rows
                && Snapshot(Step(env, s, op), w, o) == s.rows[o])
  {
    if !op.List? && !op.Pick? && !op.Settle? && !op.Abandon? { SameWorkers(env, s, op); }
  }

  /** Only what a step adds or changes remains to be checked. */
  lemma Unchanged(env: Env, s: System, op: Op, t: System)
    requires Core(env, s) && t == Step(env, s, op)
    ensures Kept(s, t) && (forall d :: DraftOk(t, d)) && (forall w, o :: SnapshotOk(t, w, o))
    ensures forall k {:trigger ApprovalOk(env, t, k)} :: k in s.approvals ==> ApprovalOk(env, t, k)
    ensures forall o {:trigger RowOk(env, t, o)} :: o in s.rows ==> RowOk(env, t, o)
    ensures forall x {:trigger SendingOk(env, t, x)} ::
            x in s.sends && x in t.sends && t.sends[x] == s.sends[x] ==> SendingOk(env, t, x)
  {
    StepKept(env, s, op);
    forall d ensures DraftOk(t, d) { assert DraftOk(s, d); DraftStays(env, s, op, d); }
    forall w, o ensures SnapshotOk(t, w, o) {
      assert SnapshotOk(s, w, o);
      SnapshotsStay(env, s, op, w, o);
    }
    KeptUnchanged(env, s, t);
  }

  lemma KeptUnchanged(env: Env, s: System, t: System)
    requires Core(env, s) && Kept(s, t)
    ensures forall k {:trigger ApprovalOk(env, t, k)} :: k in s.approvals ==> ApprovalOk(env, t, k)
    ensures forall o {:trigger RowOk(env, t, o)} :: o in s.rows ==> RowOk(env, t, o)
    ensures forall x {:trigger SendingOk(env, t, x)} ::
            x in s.sends && x in t.sends && t.sends[x] == s.sends[x] ==> SendingOk(env, t, x)
  {
    forall k | k in s.approvals ensures ApprovalOk(env, t, k) { ApprovalStays(env, s, t, k); }
    forall o | o in s.rows ensures RowOk(env, t, o) { RowStays(env, s, t, o); }
    forall x | x in s.sends && x in t.sends && t.sends[x] == s.sends[x] ensures SendingOk(env, t, x) {
      SendingStays(env, s, t, x);
    }
  }

  lemma SameTokens(s: System, t: System)
    requires TokensApart(s) && t.rows.Keys == s.rows.Keys && forall o :: RowKept(s, t, o)
    requires forall x :: HoldsToken(t, x) ==> HoldsToken(s, x) && t.sends[x].token == s.sends[x].token
    ensures TokensApart(t)
  {
    forall o, p ensures RowsApart(t, o, p) { assert RowsApart(s, o, p) && RowKept(s, t, o) && RowKept(s, t, p); }
    forall o, x ensures RowSendApart(t, o, x) { assert RowSendApart(s, o, x) && RowKept(s, t, o); }
    forall x, y ensures SendsApart(t, x, y) { assert SendsApart(s, x, y); }
  }

  lemma DraftStepKeeps(env: Env, s: System, op: Op)
    requires Core(env, s) && (op.NewDraft? || op.Close? || op.Edit?)
    ensures Core(env, Step(env, s, op))
  {
    var t := Step(env, s, op);
    Unchanged(env, s, op, t);
    SameTokens(s, t);
  }

  lemma ApproveKeeps(env: Env, s: System, op: Op)
    requires Core(env, s) && op.Approve?
    ensures Core(env, Step(env, s, op))
  {
    var t := Step(env, s, op);
    Unchanged(env, s, op, t);
    assert DraftOk(s, op.draft);
    SameTokens(s, t);
  }

  lemma StartKeeps(env: Env, s: System, op: Op)
    requires Core(env, s) && op.StartSend?
    ensures Core(env, Step(env, s, op))
  {
    var t := Step(env, s, op);
    Unchanged(env, s, op, t);
    assert DraftOk(s, op.draft);
    SameTokens(s, t);
  }

  /** The token of a successful consume was unused, so no row and no other send holds it. */
  lemma ConsumedTokenIsNew(env: Env, s: System, sid: Id)
    requires Core(env, s) && sid in s.sends && s.sends[sid].stage == Reading && ConsumeOk(env, s, s.sends[sid])
    ensures TokensApart(ConsumeStep(env, s, sid))
  {
    var t := ConsumeStep(env, s, sid);
    forall o, p ensures RowsApart(t, o, p) { assert RowsApart(s, o, p); }
    forall o, x ensures RowSendApart(t, o, x) { assert RowSendApart(s, o, x); assert RowOk(env, s, o); }
    forall x, y ensures SendsApart(t, x, y) {
      assert SendsApart(s, x, y);
      assert SendingOk(env, s, x) && SendingOk(env, s, y);
    }
  }

  lemma ConsumeKeeps(env: Env, s: System, sid: Id)
    requires Core(env, s) && sid in s.sends && s.sends[sid].stage == Reading
    ensures Core(env, ConsumeStep(env, s, sid))
  {
    var t := ConsumeStep(env, s, sid);
    Unchanged(env, s, Consume(sid), t);
    assert SendingOk(env, s, sid);
    if ConsumeOk(env, s, s.sends[sid]) {
      assert SendingOk(env, t, sid) by { VersionStays(s, t, s.sends[sid].draft, s.sends[sid].version); }
      ConsumedTokenIsNew(env, s, sid);
    } else {
      SameTokens(s, t);
    }
  }

  lemma CreatedTokensApart(s: System, sid: Id, out: Id)
    requires TokensApart(s) && HoldsToken(s, sid) && out !in s.rows && !KeyTaken(s, s.sends[sid].key)
    ensures TokensApart(CreateStep(s, sid, out))
  {
    var t := CreateStep(s, sid, out);
    forall o, p ensures RowsApart(t, o, p) {
      assert RowsApart(s, o, p) && RowSendApart(s, o, sid) && RowSendApart(s, p, sid);
    }
    forall o, x ensures RowSendApart(t, o, x) { assert RowSendApart(s, o, x) && SendsApart(s, sid, x); }
    forall x, y ensures SendsApart(t, x, y) { assert SendsApart(s, x, y); }
  }

  lemma CreateKeeps(env: Env, s: System, sid: Id, out: Id)
    requires Core(env, s) && sid in s.sends && s.sends[sid].stage == Consumed && out !in s.rows
    ensures Core(env, CreateStep(s, sid, out))
  {
    var t := CreateStep(s, sid, out);
    Unchanged(env, s, Create(sid, out), t);
    assert SendingOk(env, s, sid);
    if KeyTaken(s, s.sends[sid].key) {
      SameTokens(s, t);
    } else {
      var x := s.sends[sid];
      VersionStays(s, t, x.draft, x.version);
      ApprovedStays(env, s, t, x.token, x.account, x.version);
      CreatedTokensApart(s, sid, out);
    }
  }

  /** Steps after a row exists: submitting, listing, recording; and the clock and the accounts. */
  predicate Progresses(op: Op) {
    || op.Deliver? || op.Finish? || op.List? || op.Pick? || op.Settle? || op.Abandon? || op.Advance? || op.SetAccount?
  }

  predicate SendingMoved(s: System, t: System, x: Id) {
    x in t.sends ==>
      x in s.sends &&
      (t.sends[x] == s.sends[x] ||
       (s.sends[x].stage.Created? && t.sends[x].stage.Delivered? && t.sends[x] == s.sends[x].(stage := t.sends[x].stage)
        && t.sends[x].stage.out == s.sends[x].stage.out))
  }

  lemma ProgressChanges(env: Env, s: System, op: Op)
    requires Progresses(op)
    ensures var t := Step(env, s, op); t.rows.Keys == s.rows.Keys && t.approvals == s.approvals && t.drafts == s.drafts
    ensures forall x :: SendingMoved(s, Step(env, s, op), x)
  {
  }

  lemma ProgressKeeps(env: Env, s: System, op: Op, t: System)
    requires Core(env, s) && Progresses(op) && t == Step(env, s, op)
    ensures Core(env, t)
  {
    ProgressChanges(env, s, op);
    Unchanged(env, s, op, t);
    forall x ensures SendingOk(env, t, x) {
      assert SendingMoved(s, t, x) && SendingOk(env, s, x);
      MovedStays(env, s, t, x);
    }
    forall x ensures HoldsToken(t, x) ==> HoldsToken(s, x) && t.sends[x].token == s.sends[x].token {
      assert SendingMoved(s, t, x);
    }
    SameTokens(s, t);
  }

  lemma MovedStays(env: Env, s: System, t: System, x: Id)
    requires Kept(s, t) && SendingMoved(s, t, x) && SendingOk(env, s, x)
    ensures SendingOk(env, t, x)
  {
    if x in t.sends && t.sends[x] != s.sends[x] {
      var y := s.sends[x];
      VersionStays(s, t, y.draft, y.version);
      ApprovedStays(env, s, t, y.token, y.account, y.version);
      assert RowKept(s, t, y.stage.out);
    } else if x in t.sends {
      SendingStays(env, s, t, x);
    }
  }

  lemma StepKeeps(env: Env, s: System, op: Op)
    requires Core(env, s)
    ensures Core(env, Step(env, s, op))
  {
    match op
    case NewDraft(_, _, _) => DraftStepKeeps(env, s, op);
    case Close(_) => DraftStepKeeps(env, s, op);
    case Edit(id, content) => DraftStepKeeps(env, s, op);
    case Approve(_, _, _) => ApproveKeeps(env, s, op);
    case StartSend(_, _, _, _) => StartKeeps(env, s, op);
    case Consume(sid) => if sid in s.sends && s.sends[sid].stage == Reading { ConsumeKeeps(env, s, sid); }
    case Create(sid, out) =>
      if sid in s.sends && s.sends[sid].stage == Consumed && out !in s.rows { CreateKeeps(env, s, sid, out); }
    case _ => ProgressKeeps(env, s, op, Step(env, s, op));
  }

  // ----- every submission carries its row's version -----

  /** What a step adds to the log. */
  function Sends(s: System, op: Op): seq<Submission> {
    if op.Deliver? && op.sid in s.sends && s.sends[op.sid].stage.Created? then
      var x := s.sends[op.sid];
      Submitted([], x.stage.out, x.version, x.account.email, op.verdict)
    else if op.Pick? && Listed(s, op.w, op.out) && Reads(s, Snapshot(s, op.w, op.out).draft) then
      var r := Snapshot(s, op.w, op.out);
      var d := s.drafts[r.draft];
      Submitted([], op.out, RetryVersion(d, r.number, op.readable), s.accounts[d.account].email, op.verdict)
    else []
  }

  lemma SmtpAfter(env: Env, s: System, op: Op)
    ensures Step(env, s, op).smtp == s.smtp + Sends(s, op)
  {
  }

  lemma SentCarries(env: Env, s: System, op: Op)
    requires Entities(env, s) && Readable(op) && Sends(s, op) != []
    ensures var x := Sends(s, op)[0]; x.out in s.rows && x.version == s.rows[x.out].version
  {
    if op.Deliver? {
      assert SendingOk(env, s, op.sid);
    } else {
      assert SnapshotOk(s, op.w, op.out) && RowOk(env, s, op.out);
      assert DraftOk(s, s.rows[op.out].draft);
    }
  }

  lemma StepCarries(env: Env, s: System, op: Op)
    requires Bound(env, s) && Readable(op)
    ensures Bound(env, Step(env, s, op))
  {
    var t := Step(env, s, op);
    StepKeeps(env, s, op);
    SmtpAfter(env, s, op);
    if Sends(s, op) != [] { SentCarries(env, s, op); }
    forall i: nat ensures Carries(t, i) {
      assert Carries(s, i);
      if i < |t.smtp| { RowsKept(env, s, op, t.smtp[i].out); }
    }
  }

  ghost predicate AllReadable(ops: seq<Op>) { forall i :: 0 <= i < |ops| ==> Readable(ops[i]) }

  lemma {:induction false} ExecBound(env: Env, s: System, ops: seq<Op>)
    requires Bound(env, s) && AllReadable(ops)
    ensures Bound(env, Exec(env, s, ops))
  {
    if ops != [] {
      var before := ops[..|ops| - 1];
      assert forall i :: 0 <= i < |before| ==> before[i] == ops[i];
      ExecBound(env, s, before);
      StepCarries(env, Exec(env, s, before), ops[|ops| - 1]);
    }
  }

  lemma RunBound(env: Env, ops: seq<Op>)
    requires AllReadable(ops)
    ensures Bound(env, Run(env, ops))
  {
    ExecBound(env, EMPTY, ops);
  }

  // ----- main results -----

  /** The digest and the checks of the send path. */
  ghost predicate Digests(env: Env, lib: Lib) {
    && Collisionless(lib)
    && (forall a, v :: env.hash(a, v) == PayloadHash(lib, a, v))
    && (forall a, v :: env.sendable(a, v) ==> Sendable(lib, a, v))
  }

  /**
    Behind submission i stands a consumed approval of its row, issued over the same mail from the same
    account; the sender address on the envelope is the subject of SenderIsApproved.
   */
  ghost predicate Backed(lib: Lib, s: System, i: nat) {
    i < |s.smtp| ==>
      && s.smtp[i].out in s.rows
      && var row := s.rows[s.smtp[i].out];
      && row.token in s.approvals
      && var approval := s.approvals[row.token];
      && approval.used
      && IsVersion(s, row.draft, s.smtp[i].version)
      && IsVersion(s, approval.draft, approval.version)
      && SameMail(lib, approval.account, approval.version, row.account, s.smtp[i].version)
  }

  /** Step i of the run creates row o, whose approval has been used up by then. */
  ghost predicate UsedBefore(env: Env, ops: seq<Op>, i: nat, o: Id) {
    i < |ops| && o !in Run(env, ops[..i]).rows && o in Run(env, ops[..i + 1]).rows ==>
      var token := Run(env, ops[..i + 1]).rows[o].token;
      token in Run(env, ops[..i]).approvals && Run(env, ops[..i]).approvals[token].used
  }

  /**
    In every interleaving of edits, approvals, sends and retries, each submission carries a version
    over which an approval was issued; that approval was used up before the row existed, and two rows
    never share one.
   */
  lemma SubmissionsAreApproved(env: Env, lib: Lib, ops: seq<Op>)
    requires Digests(env, lib) && AllReadable(ops)
    ensures forall i :: Backed(lib, Run(env, ops), i)
    ensures forall i, o :: UsedBefore(env, ops, i, o)
    ensures forall o, p :: RowsApart(Run(env, ops), o, p)
  {
    var s := Run(env, ops);
    RunBound(env, ops);
    forall i: nat ensures Backed(lib, s, i) {
      if i < |s.smtp| { SubmissionIsApproved(env, lib, s, i); }
    }
    forall i: nat, o ensures UsedBefore(env, ops, i, o) {
      if i < |ops| { RowAfterApproval(env, ops, i, o); }
    }
  }

  lemma RowAfterApproval(env: Env, ops: seq<Op>, i: nat, o: Id)
    requires i < |ops|
    ensures UsedBefore(env, ops, i, o)
  {
    var s := Run(env, ops[..i]);
    RunCore(env, ops[..i]);
    assert ops[..i + 1][..i] == ops[..i];
    assert Run(env, ops[..i + 1]) == Step(env, s, ops[i]);
    if o !in s.rows && o in Run(env, ops[..i + 1]).rows { CreatedFromConsumed(env, s, ops[i], o); }
  }

  lemma CreatedFromConsumed(env: Env, s: System, op: Op, o: Id)
    requires Core(env, s) && o !in s.rows && o in Step(env, s, op).rows
    ensures var token := Step(env, s, op).rows[o].token; token in s.approvals && s.approvals[token].used
  {
    RowOrigin(env, s, op, o);
    assert SendingOk(env, s, op.sid);
  }

  lemma {:induction false} ExecCore(env: Env, s: System, ops: seq<Op>)
    requires Core(env, s)
    ensures Core(env, Exec(env, s, ops))
  {
    if ops != [] {
      ExecCore(env, s, ops[..|ops| - 1]);
      StepKeeps(env, Exec(env, s, ops[..|ops| - 1]), ops[|ops| - 1]);
    }
  }

  lemma RunCore(env: Env, ops: seq<Op>)
    ensures Core(env, Run(env, ops))
  {
    ExecCore(env, EMPTY, ops);
  }

  lemma SubmissionIsApproved(env: Env, lib: Lib, s: System, i: nat)
    requires Digests(env, lib) && Bound(env, s) && i < |s.smtp|
    ensures Backed(lib, s, i)
  {
    assert Carries(s, i);
    var row := s.rows[s.smtp[i].out];
    assert RowOk(env, s, s.smtp[i].out) && ApprovalOk(env, s, row.token);
    var approval := s.approvals[row.token];
    PayloadHashBinds(lib, approval.account, approval.version, row.account, row.version);
  }

  /** The state after the edit and whatever comes before the send starts. */
  function Edited(env: Env, s: System, draft: Id, content: Version, during: seq<Op>): System {
    Exec(env, Step(env, s, Edit(draft, content)), during)
  }

  /** Once a draft has been edited, no approval issued before can be used to send it. */
  lemma EditRevokes(env: Env, lib: Lib, before: seq<Op>, draft: Id, content: Version, during: seq<Op>, after: seq<Op>,
                    token: Id, sid: Id, key: string)
    requires Digests(env, lib)
    requires IssuedFor(Run(env, before), token, draft)
    requires var m := Edited(env, Run(env, before), draft, content, during);
             Reads(m, draft) && IsOpen(Exec(env, m, after), sid, Opened(m, draft, token, key))
    ensures Refused(env, Exec(env, Edited(env, Run(env, before), draft, content, during), after), sid)
  {
    RunCore(env, before);
    var s := Run(env, before);
    var m := Edited(env, s, draft, content, during);
    EditedStates(env, s, draft, content, during);
    RevokedFrom(env, lib, s, draft, content, m, after, token, sid, key);
  }

  /** The approval is there, for this draft, and the draft can still be edited. */
  predicate IssuedFor(s: System, token: Id, draft: Id) {
    token in s.approvals && s.approvals[token].draft == draft && draft in s.drafts && s.drafts[draft].open
  }

  predicate IsOpen(t: System, sid: Id, x: Sending) { sid in t.sends && t.sends[sid] == x }

  lemma EditedStates(env: Env, s: System, draft: Id, content: Version, during: seq<Op>)
    requires Core(env, s)
    ensures Core(env, Edited(env, s, draft, content, during))
    ensures Kept(Step(env, s, Edit(draft, content)), Edited(env, s, draft, content, during))
  {
    var e := Step(env, s, Edit(draft, content));
    StepKeeps(env, s, Edit(draft, content));
    ExecCore(env, e, during);
    ExecKept(env, e, during);
  }

  lemma RevokedFrom(env: Env, lib: Lib, s: System, draft: Id, content: Version, m: System, after: seq<Op>, token: Id,
                    sid: Id, key: string)
    requires Digests(env, lib) && Core(env, s) && Core(env, m) && Kept(EditStep(s, draft, content), m)
    requires IssuedFor(s, token, draft)
    requires Reads(m, draft) && IsOpen(Exec(env, m, after), sid, Opened(m, draft, token, key))
    ensures Refused(env, Exec(env, m, after), sid)
  {
    var t := Exec(env, m, after);
    ExecCore(env, m, after);
    ExecKept(env, m, after);
    StaleVersion(env, s, EditStep(s, draft, content), m, t, draft, content, token);
    OtherVersionRefused(env, lib, t, sid);
  }

  /** The send ends here; approvals and rows are as they were. */
  predicate Refused(env: Env, t: System, sid: Id) { ConsumeStep(env, t, sid) == t.(sends := t.sends - {sid}) }

  /** An approval of another version number does not open the send. */
  lemma OtherVersionRefused(env: Env, lib: Lib, t: System, sid: Id)
    requires Digests(env, lib) && Core(env, t) && sid in t.sends && t.sends[sid].token in t.approvals
    requires t.approvals[t.sends[sid].token].version.number != t.sends[sid].version.number
             && t.sends[sid].stage == Reading
    ensures Refused(env, t, sid)
  {
    var x := t.sends[sid];
    assert SendingOk(env, t, sid) && ApprovalOk(env, t, x.token);
    var approval := t.approvals[x.token];
    PayloadHashBinds(lib, approval.account, approval.version, x.account, x.version);
  }

  /** The send that StartSend opens on the state m. */
  function Opened(m: System, draft: Id, token: Id, key: string): Sending
    requires Reads(m, draft)
  {
    Sending(draft, m.accounts[m.drafts[draft].account], Current(m.drafts[draft]), key, token, Reading)
  }

  lemma StaleVersion(env: Env, s: System, e: System, m: System, t: System, draft: Id, content: Version, token: Id)
    requires Core(env, s) && Core(env, m) && Kept(e, m) && Kept(m, t)
    requires draft in s.drafts && s.drafts[draft].open && token in s.approvals && s.approvals[token].draft == draft
    requires e == EditStep(s, draft, content)
    ensures draft in m.drafts && m.drafts[draft].versions != []
    ensures token in t.approvals && t.approvals[token].version.number < Current(m.drafts[draft]).number
  {
    assert ApprovalOk(env, s, token) && DraftOk(m, draft) && DraftKept(e, m, draft);
    assert ApprovalKept(e, m, token) && ApprovalKept(m, t, token);
  }

  /**
    When a retry submits exactly what was approved, in every run: the version comes from the row's
    record or, if that cannot be read, is the current one; the sender is the account's as it is now.
   */
  lemma RetrySubmitsApproved(env: Env, ops: seq<Op>, w: Id, out: Id, readable: bool, verdict: Verdict)
    requires verdict != Blocked && Listed(Run(env, ops), w, out) && Reads(Run(env, ops), Run(env, ops).rows[out].draft)
    ensures var s := Run(env, ops);
            var d := s.drafts[s.rows[out].draft];
            var t := Step(env, s, Pick(w, out, readable, verdict));
            && |t.smtp| == |s.smtp| + 1
            && (t.smtp[|s.smtp|] == Submission(out, s.rows[out].version, s.rows[out].account.email, verdict)
                <==> ((readable || |d.versions| == s.rows[out].number)
                      && s.accounts[d.account].email == s.rows[out].account.email))
  {
    var s := Run(env, ops);
    RunCore(env, ops);
    assert SnapshotOk(s, w, out) && RowOk(env, s, out) && DraftOk(s, s.rows[out].draft);
  }

  // ----- approvals expire -----

  /** Step j of the run issued the approval, for ten minutes unless asked otherwise, and `until` is when it expires. */
  ghost predicate IssuedUntil(env: Env, ops: seq<Op>, j: nat, token: Id, until: int) {
    && j < |ops| && ops[j].Approve? && ops[j].token == token && token !in Run(env, ops[..j]).approvals
    && until == Run(env, ops[..j]).now + if ops[j].ttl > 0 then ops[j].ttl else 600
  }

  lemma ApprovalOrigin(env: Env, s: System, op: Op, k: Id)
    requires k in Step(env, s, op).approvals && k !in s.approvals
    ensures op.Approve? && op.token == k
    ensures Step(env, s, op).approvals[k].expiresAt == s.now + if op.ttl > 0 then op.ttl else 600
  {
  }

  lemma {:induction false} ExpiryCounts(env: Env, ops: seq<Op>, token: Id) returns (j: nat)
    requires token in Run(env, ops).approvals
    ensures IssuedUntil(env, ops, j, token, Run(env, ops).approvals[token].expiresAt)
  {
    var n := |ops| - 1;
    var s := Run(env, ops[..n]);
    if token in s.approvals {
      j := ExpiryCounts(env, ops[..n], token);
      Prefixes(ops);
      ApprovalsKept(env, s, ops[n], token);
    } else {
      ApprovalOrigin(env, s, ops[n], token);
      j := n;
    }
  }

  /** Step i of the run uses the approval up. */
  ghost predicate UsesUp(env: Env, ops: seq<Op>, i: nat, token: Id) {
    && i < |ops| && token in Run(env, ops[..i]).approvals && !Run(env, ops[..i]).approvals[token].used
    && token in Run(env, ops[..i + 1]).approvals && Run(env, ops[..i + 1]).approvals[token].used
  }

  lemma UseStep(env: Env, s: System, op: Op, k: Id)
    requires k in s.approvals && !s.approvals[k].used && Step(env, s, op).approvals[k].used
    ensures op.Consume? && op.sid in s.sends && s.sends[op.sid].token == k && s.now < s.approvals[k].expiresAt
  {
  }

  /**
    In every run an approval is used up only by a send that names it, and only before the time it was
    issued for has run out.
   */
  lemma UsedInTime(env: Env, ops: seq<Op>, i: nat, token: Id)
    requires UsesUp(env, ops, i, token)
    ensures ops[i].Consume? && ops[i].sid in Run(env, ops[..i]).sends
            && Run(env, ops[..i]).sends[ops[i].sid].token == token
    ensures exists j: nat, until ::
            j < i && IssuedUntil(env, ops[..i], j, token, until) && Run(env, ops[..i]).now < until
  {
    var s := Run(env, ops[..i]);
    assert ops[..i + 1][..i] == ops[..i];
    assert Run(env, ops[..i + 1]) == Step(env, s, ops[i]);
    UseStep(env, s, ops[i], token);
    var j := ExpiryCounts(env, ops[..i], token);
    assert IssuedUntil(env, ops[..i], j, token, s.approvals[token].expiresAt);
  }

  // ----- the sender -----

  /** The account behind the draft exists and has this address. */
  predicate SentFrom(s: System, draft: Id, email: string) {
    draft in s.drafts && s.drafts[draft].account in s.accounts && s.accounts[s.drafts[draft].account].email == email
  }

  predicate SendSender(s: System, x: Id) { x in s.sends ==> SentFrom(s, s.sends[x].draft, s.sends[x].account.email) }
  predicate RowSender(s: System, o: Id) { o in s.rows ==> SentFrom(s, s.rows[o].draft, s.rows[o].account.email) }

  predicate LogSender(s: System, i: nat) {
    i < |s.smtp| ==> s.smtp[i].out in s.rows && s.smtp[i].from == s.rows[s.smtp[i].out].account.email
  }

  ghost predicate Senders(s: System) {
    (forall x :: SendSender(s, x)) && (forall o :: RowSender(s, o)) && (forall i :: LogSender(s, i))
  }

  /** An account keeps the address it has. */
  predicate Steady(s: System, op: Op) {
    op.SetAccount? && op.id in s.accounts ==> op.account.email == s.accounts[op.id].email
  }

  lemma SentFromStays(env: Env, s: System, op: Op, draft: Id, email: string)
    requires SentFrom(s, draft, email) && Steady(s, op)
    ensures SentFrom(Step(env, s, op), draft, email)
  {
  }

  lemma SendOrigin(env: Env, s: System, op: Op, x: Id)
    requires x in Step(env, s, op).sends
    ensures var y := Step(env, s, op).sends[x];
            if x in s.sends then y.draft == s.sends[x].draft && y.account == s.sends[x].account
            else SentFrom(s, y.draft, y.account.email)
  {
    match op
    case StartSend(sid, draft, token, key) => StartOrigin(env, s, sid, draft, token, key, x);
    case Consume(sid) => ConsumeOrigin(env, s, sid, x);
    case Create(sid, out) => CreateOrigin(s, sid, out, x);
    case Deliver(_, _) => ProgressChanges(env, s, op); assert SendingMoved(s, Step(env, s, op), x);
    case Finish(_, _) => ProgressChanges(env, s, op); assert SendingMoved(s, Step(env, s, op), x);
    case _ => SameSends(env, s, op);
  }

  lemma StartOrigin(env: Env, s: System, sid: Id, draft: Id, token: Id, key: string, x: Id)
    requires x in StartStep(env, s, sid, draft, token, key).sends
    ensures var y := StartStep(env, s, sid, draft, token, key).sends[x];
            if x in s.sends then y == s.sends[x] else SentFrom(s, y.draft, y.account.email)
  {
  }

  lemma ConsumeOrigin(env: Env, s: System, sid: Id, x: Id)
    requires x in ConsumeStep(env, s, sid).sends
    ensures x in s.sends
            && ConsumeStep(env, s, sid).sends[x] == s.sends[x].(stage := ConsumeStep(env, s, sid).sends[x].stage)
  {
  }

  lemma CreateOrigin(s: System, sid: Id, out: Id, x: Id)
    requires x in CreateStep(s, sid, out).sends
    ensures x in s.sends
            && CreateStep(s, sid, out).sends[x] == s.sends[x].(stage := CreateStep(s, sid, out).sends[x].stage)
  {
  }

  lemma RowOrigin(env: Env, s: System, op: Op, o: Id)
    requires o in Step(env, s, op).rows && o !in s.rows
    ensures op.Create? && op.sid in s.sends && s.sends[op.sid].stage == Consumed
    ensures var r, x := Step(env, s, op).rows[o], s.sends[op.sid];
            r.draft == x.draft && r.account == x.account && r.token == x.token && r.status == Queued && r.attempts == 0
  {
    if op.Create? || op.Finish? || op.Settle? || op.Abandon? { RowSteps(env, s, op); } else { SameRows(env, s, op); }
  }

  lemma LogOrigin(env: Env, s: System, op: Op)
    requires Core(env, s) && Senders(s) && Sends(s, op) != []
    ensures var x := Sends(s, op)[0]; x.out in s.rows && x.from == s.rows[x.out].account.email
  {
    if op.Deliver? {
      assert SendingOk(env, s, op.sid);
    } else {
      assert SnapshotOk(s, op.w, op.out) && RowSender(s, op.out);
    }
  }

  lemma StepSenders(env: Env, s: System, op: Op)
    requires Core(env, s) && Senders(s) && Steady(s, op)
    ensures Senders(Step(env, s, op))
  {
    var t := Step(env, s, op);
    forall x ensures SendSender(t, x) { StepSendSender(env, s, op, x); }
    forall o ensures RowSender(t, o) { StepRowSender(env, s, op, o); }
    SmtpAfter(env, s, op);
    if Sends(s, op) != [] { LogOrigin(env, s, op); }
    forall i: nat ensures LogSender(t, i) {
      assert LogSender(s, i);
      if i < |t.smtp| { RowsKept(env, s, op, t.smtp[i].out); }
    }
  }

  lemma StepSendSender(env: Env, s: System, op: Op, x: Id)
    requires Senders(s) && Steady(s, op)
    ensures SendSender(Step(env, s, op), x)
  {
    assert SendSender(s, x);
    if x in Step(env, s, op).sends {
      var y := Step(env, s, op).sends[x];
      SendOrigin(env, s, op, x);
      SentFromStays(env, s, op, y.draft, y.account.email);
    }
  }

  lemma StepRowSender(env: Env, s: System, op: Op, o: Id)
    requires Senders(s) && Steady(s, op)
    ensures RowSender(Step(env, s, op), o)
  {
    if o in Step(env, s, op).rows {
      if o in s.rows {
        assert RowSender(s, o);
        RowsKept(env, s, op, o);
      } else {
        RowOrigin(env, s, op, o);
        assert SendSender(s, op.sid);
      }
      var r := Step(env, s, op).rows[o];
      SentFromStays(env, s, op, r.draft, r.account.email);
    }
  }

  /** As long as accounts keep their addresses every submission, first or retried, goes out under the approved one. */
  lemma {:induction false} SenderIsApproved(env: Env, ops: seq<Op>)
    requires forall i :: 0 <= i < |ops| ==> Steady(Run(env, ops[..i]), ops[i])
    ensures Senders(Run(env, ops))
  {
    if ops != [] {
      var n := |ops| - 1;
      Prefixes(ops);
      SenderIsApproved(env, ops[..n]);
      RunCore(env, ops[..n]);
      StepSenders(env, Run(env, ops[..n]), ops[n]);
    }
  }

  lemma Prefixes(ops: seq<Op>)
    requires ops != []
    ensures var n := |ops| - 1; forall i :: 0 <= i < n ==> ops[..n][i] == ops[i] && ops[..n][..i] == ops[..i]
  {
  }
}
