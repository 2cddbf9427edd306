/**
 The transactional outbox: several workers claim disjoint batches of pending messages
 (FOR UPDATE SKIP LOCKED), hand them to a queue that shares no transaction with the table,
 and save what happened. A worker may crash anywhere; the database then undoes its batch
 and keeps what it had, while the queue keeps what it was given.
 */
module Outbox {
  import opened Wrappers

  const BATCH_SIZE: nat := 50
  const MAX_DISPATCH_ATTEMPTS: nat := 10
  const KEEP_DISPATCHED_MS: int := 7 * 24 * 60 * 60 * 1000
  /** The payload of a row whose job was queued. */
  const EMPTY := "{}"

  type Id = nat
  datatype Status = Pending | Dispatched | Failed

  /** `failedAt`: when each counted attempt failed (history; the table keeps only their number). */
  datatype Message = Message(
    payload: string, status: Status, attempts: nat, availableAt: int,
    dispatchedAt: Option<int>, failedAt: seq<int>)

  function Pow2(n: nat): nat { if n == 0 then 1 else 2 * Pow2(n - 1) }

  /** dispatchBackoffMs */
  function BackoffMs(attempts: nat): int {
    var ms := Pow2(attempts) * 1000;
    if ms < 5 * 60 * 1000 then ms else 5 * 60 * 1000
  }

  /** enqueue(): the row its transaction commits. */
  function Enqueued(payload: string, now: int, delayMs: nat): Message {
    Message(payload, Pending, 0, now + delayMs, None, [])
  }

  /** How one dispatch ended, and when. */
  datatype Answer = Accepted(at: int) | Rejected(at: int) | TimedOut(at: int)

  /** dispatch(): the message after it. */
  function Dispatch(m: Message, answer: Answer): Message {
    if answer.Accepted? then
      m.(status := Dispatched, dispatchedAt := Some(answer.at), payload := EMPTY)
    else
      var attempts := m.attempts + 1;
      var failedAt := m.failedAt + [answer.at];
      if attempts >= MAX_DISPATCH_ATTEMPTS then m.(attempts := attempts, failedAt := failedAt, status := Failed)
      else m.(attempts := attempts, failedAt := failedAt, availableAt := answer.at + BackoffMs(attempts))
  }

  /** relayBatch(): the claimed rows after the loop; a time-out leaves the rest for later. */
  function DispatchBatch(rows: seq<Message>, answers: seq<Answer>): (saved: seq<Message>)
    requires |rows| <= |answers|
    ensures |saved| == |rows|
  {
    if rows == [] then []
    else if answers[0].TimedOut? then [Dispatch(rows[0], answers[0])] + rows[1..]
    else [Dispatch(rows[0], answers[0])] + DispatchBatch(rows[1..], answers[1..])
  }

  /** An enqueued message holds its payload, has spent no attempt, and is due once its delay is over. */
  lemma EnqueuedIsDueAfterDelay(payload: string, now: int, delayMs: nat, at: int)
    ensures var m := Enqueued(payload, now, delayMs);
            && m.payload == payload && m.attempts == 0 && m.dispatchedAt.None?
            && (Due(m, at) <==> now + delayMs <= at)
  {
  }

  lemma {:induction false} BackoffIsCapped(n: nat)
    ensures n >= 9 ==> Pow2(n) >= 512 && BackoffMs(n) == 300_000
    decreases n
  {
    assert Pow2(1) == 2 && Pow2(2) == 4 && Pow2(3) == 8 && Pow2(4) == 16 && Pow2(5) == 32;
    assert Pow2(6) == 64 && Pow2(7) == 128 && Pow2(8) == 256 && Pow2(9) == 512;
    if n > 9 { BackoffIsCapped(n - 1); }
  }

  /** The seconds between a failed attempt and the next one. */
  lemma BackoffsAre(n: nat)
    ensures 1 <= n <= 8 ==> BackoffMs(n) == [2, 4, 8, 16, 32, 64, 128, 256][n - 1] * 1000
    ensures n > 8 ==> BackoffMs(n) == 5 * 60 * 1000
  {
    assert Pow2(1) == 2 && Pow2(2) == 4 && Pow2(3) == 8 && Pow2(4) == 16 && Pow2(5) == 32;
    assert Pow2(6) == 64 && Pow2(7) == 128 && Pow2(8) == 256;
    BackoffIsCapped(n);
  }

  /**
   What a dispatch leaves: an accepted message is stamped with the time and stripped of its payload; any
   other has spent an attempt, and is parked after the tenth or waits out its backoff.
   */
  lemma DispatchExactly(m: Message, answer: Answer)
    ensures var m' := Dispatch(m, answer);
            if answer.Accepted? then
              m' == Message("{}", Dispatched, m.attempts, m.availableAt, Some(answer.at), m.failedAt)
            else
              && m'.payload == m.payload && m'.dispatchedAt == m.dispatchedAt
              && m'.attempts == m.attempts + 1 && m'.failedAt == m.failedAt + [answer.at]
              && (m.attempts >= 9 ==> m'.status == Failed && m'.availableAt == m.availableAt)
              && (m.attempts < 9 ==>
                    && m'.status == m.status
                    && m'.availableAt - answer.at
                       == [2, 4, 8, 16, 32, 64, 128, 256, 300][m.attempts] * 1000)
  {
    BackoffsAre(m.attempts + 1);
  }

  // ---- The system ----------------------------------------------------------------------

  type Table = map<Id, Message>

  predicate Due(m: Message, now: int) { m.status.Pending? && m.availableAt <= now }

  /** What FOR UPDATE SKIP LOCKED may return while others save: some due rows nobody holds, at most a batch. */
  ghost predicate MayClaim(t: Table, locked: set<Id>, now: int, ids: seq<Id>) {
    && |ids| <= BATCH_SIZE
    && (forall i :: 0 <= i < |ids| ==> ids[i] in t && ids[i] !in locked && Due(t[ids[i]], now))
    && (forall i, j :: 0 <= i < j < |ids| ==> ids[i] != ids[j])
  }

  /** What it returns with nobody interfering: the earliest due rows, a full batch of them or all. */
  ghost predicate IsBatch(t: Table, locked: set<Id>, now: int, ids: seq<Id>) {
    && |ids| <= BATCH_SIZE
    && (forall i :: 0 <= i < |ids| ==> ids[i] in t && ids[i] !in locked && Due(t[ids[i]], now))
    && (forall i, j :: 0 <= i < j < |ids| ==> ids[i] != ids[j] && t[ids[i]].availableAt <= t[ids[j]].availableAt)
    && (forall id :: id in t && id !in locked && Due(t[id], now) && id !in ids ==>
          |ids| == BATCH_SIZE && forall i :: 0 <= i < |ids| ==> t[ids[i]].availableAt <= t[id].availableAt)
  }

  /** A worker's open transaction: the rows it locked, its copies, and how far it got. */
  datatype Batch = Batch(ids: seq<Id>, rows: seq<Message>, next: nat, stopped: bool)

  /**
   `jobs`: what is in Redis now; `accepted`: every job ever accepted; `unsettled`: adds that
   failed or timed out and may still land. `original`: the payload each message was
   committed with; `pruned`: messages deleted by prune().
   */
  datatype System = System(
    table: Table, workers: map<nat, Batch>, jobs: map<Id, string>, unsettled: set<(Id, string)>,
    accepted: set<(Id, string)>, original: map<Id, string>, pruned: set<Id>, now: int)

  datatype Action =
    | Enqueue(id: Id, payload: string, delayMs: nat)
    | Claim(w: nat, ids: seq<Id>)
    | DispatchNext(w: nat, accepted: bool, timedOut: bool)
    | Land(job: (Id, string))
    | Save(w: nat)
    | Crash(w: nat)
    | JobDone(id: Id)
    | Prune(cutoff: int)
    | Tick(ms: nat)

  ghost function Locked(s: System): set<Id> {
    set w, i | w in s.workers && 0 <= i < |s.workers[w].ids| :: s.workers[w].ids[i]
  }

  predicate Prunable(m: Message, cutoff: int) {
    m.status.Dispatched? && m.dispatchedAt.Some? && m.dispatchedAt.value < cutoff
  }

  ghost predicate Enabled(s: System, a: Action) {
    match a
    case Enqueue(id, _, _) => id !in s.original
    case Claim(w, ids) => w !in s.workers && MayClaim(s.table, Locked(s), s.now, ids)
    case DispatchNext(w, accepted, timedOut) =>
      && w in s.workers && !s.workers[w].stopped && s.workers[w].next < |s.workers[w].ids|
      && s.workers[w].next < |s.workers[w].rows| && !(accepted && timedOut)
    case Land(job) => job in s.unsettled
    case Save(w) =>
      && w in s.workers && (s.workers[w].stopped || s.workers[w].next == |s.workers[w].ids|)
      && |s.workers[w].rows| == |s.workers[w].ids|
    case Crash(w) => w in s.workers
    case JobDone(id) => id in s.jobs
    case Prune(cutoff) => cutoff <= s.now - KEEP_DISPATCHED_MS
    case Tick(_) => true
  }

  function Answered(accepted: bool, timedOut: bool, now: int): Answer {
    if accepted then Accepted(now) else if timedOut then TimedOut(now) else Rejected(now)
  }

  /** The queue takes one job per job id while that job is there. */
  function Add(jobs: map<Id, string>, job: (Id, string)): map<Id, string> {
    if job.0 in jobs then jobs else jobs[job.0 := job.1]
  }

  /** manager.save: the rows written back. */
  function WriteBack(t: Table, ids: seq<Id>, rows: seq<Message>): Table
    requires |ids| == |rows|
  {
    if ids == [] then t else WriteBack(t, ids[..|ids| - 1], rows[..|ids| - 1])[ids[|ids| - 1] := rows[|ids| - 1]]
  }

  function Step(s: System, a: Action): System
    requires Enabled(s, a)
  {
    match a
    case Enqueue(id, payload, delayMs) =>
      s.(table := s.table[id := Enqueued(payload, s.now, delayMs)], original := s.original[id := payload])
    case Claim(w, ids) =>
      s.(workers := s.workers[w := Batch(ids, seq(|ids|, i requires 0 <= i < |ids| => s.table[ids[i]]), 0, false)])
    case DispatchNext(w, accepted, timedOut) =>
      var b := s.workers[w];
      var job := (b.ids[b.next], b.rows[b.next].payload);
      var b' := Batch(b.ids, b.rows[b.next := Dispatch(b.rows[b.next], Answered(accepted, timedOut, s.now))],
                      b.next + 1, timedOut);
      if accepted then s.(workers := s.workers[w := b'], jobs := Add(s.jobs, job), accepted := s.accepted + {job})
      else s.(workers := s.workers[w := b'], unsettled := s.unsettled + {job})
    case Land(job) => s.(jobs := Add(s.jobs, job), accepted := s.accepted + {job}, unsettled := s.unsettled - {job})
    case Save(w) =>
      s.(table := WriteBack(s.table, s.workers[w].ids, s.workers[w].rows), workers := s.workers - {w})
    case Crash(w) => s.(workers := s.workers - {w})
    case JobDone(id) => s.(jobs := s.jobs - {id})
    case Prune(cutoff) =>
      s.(table := map id | id in s.table && !Prunable(s.table[id], cutoff) :: s.table[id],
         pruned := s.pruned + set id | id in s.table && Prunable(s.table[id], cutoff))
    case Tick(ms) => s.(now := s.now + ms)
  }

  ghost predicate Runs(s: System, actions: seq<Action>)
    decreases |actions|
  {
    actions == [] || (Enabled(s, actions[0]) && Runs(Step(s, actions[0]), actions[1..]))
  }

  ghost function Final(s: System, actions: seq<Action>): System
    requires Runs(s, actions)
    decreases |actions|
  {
    if actions == [] then s else Final(Step(s, actions[0]), actions[1..])
  }

  ghost predicate Initial(s: System) {
    s.table == map[] && s.workers == map[] && s.jobs == map[] && s.unsettled == {} && s.accepted == {}
    && s.original == map[] && s.pruned == {}
  }

  // ---- The invariant -------------------------------------------------------------------

  /** Failures are spaced by the backoff, and a pending message waits out the last one. */
  predicate Spaced(m: Message, now: int) {
    && |m.failedAt| == m.attempts
    && (forall i :: 0 <= i < |m.failedAt| ==> m.failedAt[i] <= now)
    && (forall i :: 0 < i < |m.failedAt| ==> m.failedAt[i - 1] + BackoffMs(i) <= m.failedAt[i])
    && (m.status.Pending? && m.attempts > 0 ==> m.failedAt[m.attempts - 1] + BackoffMs(m.attempts) <= m.availableAt)
  }

  predicate MessageOk(m: Message, id: Id, payload: string, accepted: set<(Id, string)>, now: int) {
    && (m.status.Failed? <==> m.attempts == MAX_DISPATCH_ATTEMPTS) && m.attempts <= MAX_DISPATCH_ATTEMPTS
    && (if m.status.Dispatched? then m.payload == EMPTY && m.dispatchedAt.Some? && (id, payload) in accepted
        else m.payload == payload)
    && Spaced(m, now)
  }

  ghost predicate TableOk(s: System) {
    forall id :: id in s.table ==>
      id in s.original && MessageOk(s.table[id], id, s.original[id], s.accepted, s.now)
  }

  /** Nothing is lost: a committed message is in the table, or was pruned after its job was accepted. */
  ghost predicate Conserved(s: System) {
    && s.original.Keys == s.table.Keys + s.pruned
    && s.table.Keys !! s.pruned
    && forall id :: id in s.pruned ==> id in s.original && (id, s.original[id]) in s.accepted
  }

  /** A worker's rows: locked rows are pending in the table; those not reached are as claimed. */
  ghost predicate BatchOk(s: System, b: Batch) {
    && |b.rows| == |b.ids| && b.next <= |b.ids| && (b.stopped ==> b.next > 0)
    && (forall i, j :: 0 <= i < j < |b.ids| ==> b.ids[i] != b.ids[j])
    && forall i :: 0 <= i < |b.ids| ==> RowOk(s, b, i)
  }

  ghost predicate RowOk(s: System, b: Batch, i: nat)
    requires i < |b.ids| == |b.rows|
  {
    var id := b.ids[i];
    && id in s.table && id in s.original && s.table[id].status.Pending? && s.table[id].availableAt <= s.now
    && MessageOk(b.rows[i], id, s.original[id], s.accepted, s.now)
    && (i >= b.next ==> b.rows[i] == s.table[id])
    && (i < b.next ==> b.rows[i].status.Pending? ==> b.rows[i].attempts == s.table[id].attempts + 1)
  }

  ghost predicate Disjoint(workers: map<nat, Batch>) {
    forall w, w', id :: w in workers && w' in workers && id in workers[w].ids && id in workers[w'].ids ==> w == w'
  }

  ghost predicate JobsOk(s: System) {
    && (forall job :: job in s.unsettled ==> job.0 in s.original && s.original[job.0] == job.1)
    && (forall job :: job in s.accepted ==> job.0 in s.original && s.original[job.0] == job.1)
    && (forall id :: id in s.jobs ==> (id, s.jobs[id]) in s.accepted)
  }

  ghost predicate Inv(s: System) {
    && TableOk(s) && Conserved(s) && JobsOk(s) && Disjoint(s.workers)
    && forall w :: w in s.workers ==> BatchOk(s, s.workers[w])
  }

  // ---- Each step keeps it ----------------------------------------------------------------

  lemma MessageStaysOk(m: Message, id: Id, payload: string, accepted: set<(Id, string)>, accepted': set<(Id, string)>,
                       now: int, now': int)
    requires MessageOk(m, id, payload, accepted, now) && accepted <= accepted' && now <= now'
    ensures MessageOk(m, id, payload, accepted', now')
  {
  }

  /** One dispatch keeps the message's accounts: payload, attempts and spacing. */
  lemma DispatchKeepsMessage(m: Message, id: Id, payload: string, accepted: set<(Id, string)>, answer: Answer)
    requires m.status.Pending? && m.availableAt <= answer.at && MessageOk(m, id, payload, accepted, answer.at)
    requires answer.Accepted? ==> (id, payload) in accepted
    ensures MessageOk(Dispatch(m, answer), id, payload, accepted, answer.at)
    ensures Dispatch(m, answer).status.Pending? ==> Dispatch(m, answer).attempts == m.attempts + 1
  {
    var m' := Dispatch(m, answer);
    if !answer.Accepted? {
      forall i | 0 < i < |m'.failedAt| ensures m'.failedAt[i - 1] + BackoffMs(i) <= m'.failedAt[i] {
        if i < |m.failedAt| { assert m'.failedAt[i] == m.failedAt[i] && m'.failedAt[i - 1] == m.failedAt[i - 1]; }
      }
    }
  }

  lemma {:induction false} WriteBackElsewhere(t: Table, ids: seq<Id>, rows: seq<Message>, id: Id)
    requires |ids| == |rows|
    ensures id in WriteBack(t, ids, rows) <==> id in t || id in ids
    ensures id in t && id !in ids ==> WriteBack(t, ids, rows)[id] == t[id]
  {
    if ids != [] {
      var n := |ids| - 1;
      WriteBackElsewhere(t, ids[..n], rows[..n], id);
      assert ids == ids[..n] + [ids[n]];
    }
  }

  lemma {:induction false} WriteBackAt(t: Table, ids: seq<Id>, rows: seq<Message>, i: nat)
    requires |ids| == |rows| && i < |ids| && forall j, k :: 0 <= j < k < |ids| ==> ids[j] != ids[k]
    ensures ids[i] in WriteBack(t, ids, rows) && WriteBack(t, ids, rows)[ids[i]] == rows[i]
  {
    var n := |ids| - 1;
    if i < n { WriteBackAt(t, ids[..n], rows[..n], i); }
  }

  /** Steps that leave the locked rows and the worker alone. */
  lemma BatchStaysOk(s: System, s': System, b: Batch)
    requires BatchOk(s, b) && s.now <= s'.now && s.accepted <= s'.accepted
    requires forall id :: id in b.ids ==>
      && id in s.table && id in s.original && id in s'.table && id in s'.original
      && s'.table[id] == s.table[id] && s'.original[id] == s.original[id]
    ensures BatchOk(s', b)
  {
    forall i | 0 <= i < |b.ids| ensures RowOk(s', b, i) {
      assert RowOk(s, b, i) && b.ids[i] in b.ids;
      MessageStaysOk(b.rows[i], b.ids[i], s.original[b.ids[i]], s.accepted, s'.accepted, s.now, s'.now);
    }
  }

  lemma EnqueueKeepsInv(s: System, a: Action)
    requires Inv(s) && Enabled(s, a) && a.Enqueue?
    ensures Inv(Step(s, a))
  {
    var s' := Step(s, a);
    forall w | w in s'.workers ensures BatchOk(s', s'.workers[w]) {
      forall id | id in s.workers[w].ids ensures id in s.table && id in s.original {
        var i :| 0 <= i < |s.workers[w].ids| && s.workers[w].ids[i] == id;
        assert RowOk(s, s.workers[w], i);
      }
      BatchStaysOk(s, s', s.workers[w]);
    }
  }

  lemma ClaimKeepsInv(s: System, a: Action)
    requires Inv(s) && Enabled(s, a) && a.Claim?
    ensures Inv(Step(s, a))
  {
    var s' := Step(s, a);
    var b := s'.workers[a.w];
    forall i | 0 <= i < |b.ids| ensures RowOk(s', b, i) {
      assert MessageOk(s.table[b.ids[i]], b.ids[i], s.original[b.ids[i]], s.accepted, s.now);
    }
    forall w | w in s'.workers ensures BatchOk(s', s'.workers[w]) {
      if w != a.w {
        LockedRowsExist(s, w);
        BatchStaysOk(s, s', s.workers[w]);
      }
    }
    forall w, id | w in s.workers && id in s.workers[w].ids ensures id in Locked(s) {
      var i :| 0 <= i < |s.workers[w].ids| && s.workers[w].ids[i] == id;
    }
  }

  lemma LockedRowsExist(s: System, w: nat)
    requires Inv(s) && w in s.workers
    ensures forall id :: id in s.workers[w].ids ==> id in s.table && id in s.original && s.table[id].status.Pending?
  {
    forall id | id in s.workers[w].ids ensures id in s.table && id in s.original && s.table[id].status.Pending? {
      var i :| 0 <= i < |s.workers[w].ids| && s.workers[w].ids[i] == id;
      assert RowOk(s, s.workers[w], i);
    }
  }

  /** A dispatch keeps the accounts of each row of its batch. */
  lemma DispatchKeepsRow(s: System, a: Action, i: nat)
    requires Inv(s) && Enabled(s, a) && a.DispatchNext? && i < |s.workers[a.w].ids|
    ensures var b' := Step(s, a).workers[a.w]; i < |b'.ids| == |b'.rows| && RowOk(Step(s, a), b', i)
  {
    var s', b := Step(s, a), s.workers[a.w];
    assert RowOk(s, b, i);
    var payload := s.original[b.ids[i]];
    if i == b.next {
      var answer := Answered(a.accepted, a.timedOut, s.now);
      MessageStaysOk(b.rows[i], b.ids[i], payload, s.accepted, s'.accepted, s.now, s.now);
      DispatchKeepsMessage(b.rows[i], b.ids[i], payload, s'.accepted, answer);
    } else {
      MessageStaysOk(b.rows[i], b.ids[i], payload, s.accepted, s'.accepted, s.now, s.now);
    }
  }

  lemma DispatchKeepsJobs(s: System, a: Action)
    requires Inv(s) && Enabled(s, a) && a.DispatchNext?
    ensures JobsOk(Step(s, a)) && s.accepted <= Step(s, a).accepted
  {
    var b := s.workers[a.w];
    assert RowOk(s, b, b.next);
  }

  lemma DispatchKeepsInv(s: System, a: Action)
    requires Inv(s) && Enabled(s, a) && a.DispatchNext?
    ensures Inv(Step(s, a))
  {
    var s' := Step(s, a);
    DispatchKeepsJobs(s, a);
    forall w | w in s'.workers ensures BatchOk(s', s'.workers[w]) {
      if w != a.w {
        LockedRowsExist(s, w);
        BatchStaysOk(s, s', s.workers[w]);
      } else {
        forall i: nat | i < |s.workers[w].ids| ensures RowOk(s', s'.workers[w], i) { DispatchKeepsRow(s, a, i); }
      }
    }
    forall id | id in s'.table ensures MessageOk(s'.table[id], id, s'.original[id], s'.accepted, s'.now) {
      MessageStaysOk(s.table[id], id, s.original[id], s.accepted, s'.accepted, s'.now, s'.now);
    }
  }

  /** Saving writes back rows in order, and touches no row of another worker. */
  lemma SaveKeepsTable(s: System, a: Action)
    requires Inv(s) && Enabled(s, a) && a.Save?
    ensures var t := Step(s, a).table;
            && t.Keys == s.table.Keys && TableOk(Step(s, a))
            && forall id :: id in t && id !in s.workers[a.w].ids ==> t[id] == s.table[id]
  {
    var b, t := s.workers[a.w], Step(s, a).table;
    LockedRowsExist(s, a.w);
    forall id ensures (id in t <==> id in s.table) && (id in t && id !in b.ids ==> t[id] == s.table[id]) {
      WriteBackElsewhere(s.table, b.ids, b.rows, id);
    }
    forall id | id in t && id in b.ids ensures MessageOk(t[id], id, s.original[id], s.accepted, s.now) {
      var i :| 0 <= i < |b.ids| && b.ids[i] == id;
      assert RowOk(s, b, i);
      WriteBackAt(s.table, b.ids, b.rows, i);
    }
  }

  lemma SaveKeepsInv(s: System, a: Action)
    requires Inv(s) && Enabled(s, a) && a.Save?
    ensures Inv(Step(s, a))
  {
    var s' := Step(s, a);
    SaveKeepsTable(s, a);
    forall w | w in s'.workers ensures BatchOk(s', s'.workers[w]) {
      LockedRowsExist(s, w);
      assert forall id :: id in s.workers[w].ids ==> id !in s.workers[a.w].ids;
      BatchStaysOk(s, s', s.workers[w]);
    }
  }

  lemma PruneKeepsInv(s: System, a: Action)
    requires Inv(s) && Enabled(s, a) && a.Prune?
    ensures Inv(Step(s, a))
  {
    var s' := Step(s, a);
    forall w | w in s'.workers ensures BatchOk(s', s'.workers[w]) {
      LockedRowsExist(s, w);
      BatchStaysOk(s, s', s.workers[w]);
    }
  }

  /** The queue's own steps, crashes and the clock. */
  lemma OtherStepKeepsInv(s: System, a: Action)
    requires Inv(s) && Enabled(s, a)
    requires a.Land? || a.Crash? || a.JobDone? || a.Tick?
    ensures Inv(Step(s, a))
  {
    var s' := Step(s, a);
    forall w | w in s'.workers ensures BatchOk(s', s'.workers[w]) {
      LockedRowsExist(s, w);
      BatchStaysOk(s, s', s.workers[w]);
    }
    forall id | id in s'.table ensures MessageOk(s'.table[id], id, s'.original[id], s'.accepted, s'.now) {
      MessageStaysOk(s.table[id], id, s.original[id], s.accepted, s'.accepted, s.now, s'.now);
    }
  }

  lemma StepKeepsInv(s: System, a: Action)
    requires Inv(s) && Enabled(s, a)
    ensures Inv(Step(s, a))
  {
    match a
    case Enqueue(_, _, _) => EnqueueKeepsInv(s, a);
    case Claim(_, _) => ClaimKeepsInv(s, a);
    case DispatchNext(_, _, _) => DispatchKeepsInv(s, a);
    case Save(_) => SaveKeepsInv(s, a);
    case Prune(_) => PruneKeepsInv(s, a);
    case _ => OtherStepKeepsInv(s, a);
  }

  lemma {:induction false} RunKeepsInv(s: System, actions: seq<Action>)
    requires Inv(s) && Runs(s, actions)
    ensures Inv(Final(s, actions))
    decreases |actions|
  {
    if actions != [] {
      StepKeepsInv(s, actions[0]);
      RunKeepsInv(Step(s, actions[0]), actions[1..]);
    }
  }

  // ---- Main results: conservation ----------------------------------------------------------

  /**
   After any run with any crashes, a committed message is in the table or was pruned after
   its job was accepted; pending and failed rows still hold their payload, dispatched rows
   hold none, and their job was accepted under the message's id with that payload.
   */
  lemma MessagesAreConserved(s: System, actions: seq<Action>, id: Id)
    requires Initial(s) && Runs(s, actions) && id in Final(s, actions).original
    ensures var s1 := Final(s, actions);
            var job := (id, s1.original[id]);
            if id in s1.table then
              && (s1.table[id].status.Dispatched? ==> job in s1.accepted && s1.table[id].payload == EMPTY)
              && (!s1.table[id].status.Dispatched? ==> s1.table[id].payload == s1.original[id])
              && (s1.table[id].status.Failed? <==> s1.table[id].attempts == MAX_DISPATCH_ATTEMPTS)
            else id in s1.pruned && job in s1.accepted
  {
    RunKeepsInv(s, actions);
    var s1 := Final(s, actions);
    assert id in s1.table.Keys + s1.pruned;
    if id in s1.table { assert MessageOk(s1.table[id], id, s1.original[id], s1.accepted, s1.now); }
  }

  /** No two workers hold the same message, and what the queue holds came from a message. */
  lemma WorkersHoldDisjointBatches(s: System, actions: seq<Action>, w: nat, w': nat, id: Id)
    requires Initial(s) && Runs(s, actions)
    requires w in Final(s, actions).workers && w' in Final(s, actions).workers
    requires id in Final(s, actions).workers[w].ids && id in Final(s, actions).workers[w'].ids
    ensures w == w'
    ensures id in Final(s, actions).table && Final(s, actions).table[id].status.Pending?
  {
    RunKeepsInv(s, actions);
    LockedRowsExist(Final(s, actions), w);
  }

  /** A message is parked as failed no sooner than 810 seconds after its first failure. */
  lemma TenFailuresTakeTime(s: System, actions: seq<Action>, id: Id)
    requires Initial(s) && Runs(s, actions)
    requires id in Final(s, actions).table && Final(s, actions).table[id].status.Failed?
    ensures var f := Final(s, actions).table[id].failedAt;
            |f| == MAX_DISPATCH_ATTEMPTS && f[9] - f[0] >= 810_000
  {
    RunKeepsInv(s, actions);
    var s1 := Final(s, actions);
    assert MessageOk(s1.table[id], id, s1.original[id], s1.accepted, s1.now);
    var f := s1.table[id].failedAt;
    assert Pow2(1) == 2 && Pow2(2) == 4 && Pow2(3) == 8 && Pow2(4) == 16 && Pow2(5) == 32;
    assert Pow2(6) == 64 && Pow2(7) == 128 && Pow2(8) == 256 && Pow2(9) == 512;
    assert f[8] + BackoffMs(9) <= f[9] && f[7] + BackoffMs(8) <= f[8] && f[6] + BackoffMs(7) <= f[7];
    assert f[5] + BackoffMs(6) <= f[6] && f[4] + BackoffMs(5) <= f[5] && f[3] + BackoffMs(4) <= f[4];
    assert f[2] + BackoffMs(3) <= f[3] && f[1] + BackoffMs(2) <= f[2] && f[0] + BackoffMs(1) <= f[1];
  }

  /** prune() takes what was dispatched before its cutoff, so at least a week ago, and nothing else. */
  lemma PruneTakesOldDispatched(s: System, cutoff: int, id: Id)
    requires Inv(s) && Enabled(s, Prune(cutoff)) && id in s.table
    ensures var after, m := Step(s, Prune(cutoff)).table, s.table[id];
            && (id !in after <==> m.status == Dispatched && m.dispatchedAt.Some? && m.dispatchedAt.value < cutoff)
            && (id !in after ==> m.dispatchedAt.value + 7 * 24 * 60 * 60 * 1000 < s.now)
            && (id in after ==> after[id] == m)
  {
  }

  ghost predicate Waits(s: System, id: Id) {
    id in s.table && s.table[id].status.Pending? && (forall w :: w in s.workers ==> id !in s.workers[w].ids)
  }

  lemma StepKeepsWaiting(s: System, a: Action, id: Id)
    requires Inv(s) && Enabled(s, a) && Waits(s, id) && s.now < s.table[id].availableAt
    ensures Waits(Step(s, a), id) && Step(s, a).table[id] == s.table[id]
  {
    if a.Save? { WriteBackElsewhere(s.table, s.workers[a.w].ids, s.workers[a.w].rows, id); }
  }

  lemma {:induction false} TimeGoesOn(s: System, actions: seq<Action>)
    requires Runs(s, actions)
    ensures s.now <= Final(s, actions).now
    decreases |actions|
  {
    if actions != [] { TimeGoesOn(Step(s, actions[0]), actions[1..]); }
  }

  /** Until its delay, or its backoff, is over nobody claims a message and nothing happens to it. */
  lemma {:induction false} MessageWaitsUntilDue(s: System, actions: seq<Action>, id: Id)
    requires Inv(s) && Waits(s, id) && Runs(s, actions) && Final(s, actions).now < s.table[id].availableAt
    ensures Waits(Final(s, actions), id) && Final(s, actions).table[id] == s.table[id]
    decreases |actions|
  {
    if actions != [] {
      TimeGoesOn(s, actions);
      StepKeepsInv(s, actions[0]);
      StepKeepsWaiting(s, actions[0], id);
      MessageWaitsUntilDue(Step(s, actions[0]), actions[1..], id);
    }
  }

  lemma {:induction false} AcceptedStaysQueued(s: System, actions: seq<Action>, job: (Id, string))
    requires Inv(s) && Runs(s, actions) && JobDone(job.0) !in actions && (job in s.accepted ==> job.0 in s.jobs)
    ensures job in Final(s, actions).accepted ==> job.0 in Final(s, actions).jobs
    decreases |actions|
  {
    if actions != [] {
      StepKeepsInv(s, actions[0]);
      AcceptedStaysQueued(Step(s, actions[0]), actions[1..], job);
    }
  }

  /** The job of a dispatched message is in the queue, with the payload it was committed with, until it is done. */
  lemma DispatchedIsQueued(s: System, actions: seq<Action>, id: Id)
    requires Initial(s) && Runs(s, actions) && JobDone(id) !in actions
    requires id in Final(s, actions).table && Final(s, actions).table[id].status == Dispatched
    ensures var s1 := Final(s, actions); id in s1.jobs && id in s1.original && s1.jobs[id] == s1.original[id]
  {
    RunKeepsInv(s, actions);
    var s1 := Final(s, actions);
    assert MessageOk(s1.table[id], id, s1.original[id], s1.accepted, s1.now);
    AcceptedStaysQueued(s, actions, (id, s1.original[id]));
  }

  // ---- Main results: the drain ends --------------------------------------------------------

  /** Attempts a pending row has left. */
  function Left(m: Message): nat {
    if m.status.Pending? && m.attempts <= MAX_DISPATCH_ATTEMPTS then MAX_DISPATCH_ATTEMPTS - m.attempts else 0
  }

  ghost function TotalLeft(t: Table): nat
    decreases |t|
  {
    if t == map[] then 0
    else
      var id :| id in t;
      Left(t[id]) + TotalLeft(t - {id})
  }

  lemma {:induction false} TotalWithout(t: Table, id: Id)
    requires id in t
    ensures TotalLeft(t) == Left(t[id]) + TotalLeft(t - {id})
    decreases |t|
  {
    var first :| first in t && TotalLeft(t) == Left(t[first]) + TotalLeft(t - {first});
    if first != id {
      assert (t - {first}) - {id} == (t - {id}) - {first};
      TotalWithout(t - {first}, id);
      TotalWithout(t - {id}, first);
    }
  }

  lemma TotalAfterUpdate(t: Table, id: Id, m: Message)
    requires id in t
    ensures TotalLeft(t[id := m]) == TotalLeft(t) - Left(t[id]) + Left(m)
  {
    TotalWithout(t, id);
    TotalWithout(t[id := m], id);
    assert t[id := m] - {id} == t - {id};
  }

  /** Writing rows back with no more attempts left, and the first with fewer, lowers the total. */
  lemma {:induction false} WriteBackLowers(t: Table, ids: seq<Id>, rows: seq<Message>)
    requires |ids| == |rows| && forall i, j :: 0 <= i < j < |ids| ==> ids[i] != ids[j]
    requires forall i :: 0 <= i < |ids| ==> ids[i] in t && Left(rows[i]) <= Left(t[ids[i]])
    requires |ids| > 0 ==> Left(rows[0]) < Left(t[ids[0]])
    ensures |ids| > 0 ==> TotalLeft(WriteBack(t, ids, rows)) < TotalLeft(t)
  {
    if |ids| > 0 {
      var n := |ids| - 1;
      WriteBackLowers(t, ids[..n], rows[..n]);
      WriteBackElsewhere(t, ids[..n], rows[..n], ids[n]);
      assert ids[n] !in ids[..n];
      if n == 0 { assert WriteBack(t, ids[..n], rows[..n]) == t; }
      TotalAfterUpdate(WriteBack(t, ids[..n], rows[..n]), ids[n], rows[n]);
    }
  }

  /** Every saved non-empty batch uses up attempts: the sum over pending rows of (10 - attempts) falls. */
  lemma SavedBatchUsesAttempts(s: System, a: Action)
    requires Inv(s) && Enabled(s, a) && a.Save? && s.workers[a.w].ids != []
    ensures TotalLeft(Step(s, a).table) < TotalLeft(s.table)
  {
    var b := s.workers[a.w];
    forall i | 0 <= i < |b.ids|
      ensures b.ids[i] in s.table && Left(b.rows[i]) <= Left(s.table[b.ids[i]])
              && (i == 0 ==> Left(b.rows[i]) < Left(s.table[b.ids[i]]))
    {
      assert RowOk(s, b, i);
      assert MessageOk(s.table[b.ids[i]], b.ids[i], s.original[b.ids[i]], s.accepted, s.now);
    }
    WriteBackLowers(s.table, b.ids, b.rows);
  }

  /** Rows after a timed-out one are saved as they were claimed, without spending an attempt. */
  lemma RestOfBatchIsUntouched(s: System, a: Action, i: nat)
    requires Inv(s) && Enabled(s, a) && a.Save? && s.workers[a.w].next <= i < |s.workers[a.w].ids|
    ensures var id := s.workers[a.w].ids[i];
            id in s.table && id in Step(s, a).table && Step(s, a).table[id] == s.table[id]
  {
    var b := s.workers[a.w];
    assert RowOk(s, b, i);
    WriteBackAt(s.table, b.ids, b.rows, i);
  }

  // ---- One worker's relay, statement by statement ---------------------------------------------

  lemma {:induction false} DispatchBatchAt(rows: seq<Message>, answers: seq<Answer>, i: nat)
    requires i < |rows| <= |answers|
    ensures DispatchBatch(rows, answers)[i] ==
      if exists j :: 0 <= j < i && answers[j].TimedOut? then rows[i] else Dispatch(rows[i], answers[i])
  {
    if !answers[0].TimedOut? && |rows| > 1 {
      DispatchBatchAt(rows[1..], answers[1..], if i == 0 then 0 else i - 1);
      assert forall j :: 0 <= j < |answers| - 1 ==> answers[1..][j] == answers[j + 1];
    }
  }

  class OutboxMessage {
    var payload: string
    var status: Status
    var attempts: nat
    var availableAt: int
    var dispatchedAt: Option<int>
    var failedAt: seq<int>

    constructor (m: Message)
      ensures Row() == m
    {
      payload, status, attempts := m.payload, m.status, m.attempts;
      availableAt, dispatchedAt := m.availableAt, m.dispatchedAt;
      failedAt := m.failedAt;
    }

    function Row(): Message
      reads this
    {
      Message(payload, status, attempts, availableAt, dispatchedAt, failedAt)
    }

    /** dispatch(): false when it timed out. */
    method DispatchOne(answer: Answer) returns (more: bool)
      modifies this
      ensures Row() == Dispatch(old(Row()), answer) && more == !answer.TimedOut?
    {
      if answer.Accepted? {
        status := Dispatched;
        dispatchedAt := Some(answer.at);
        payload := EMPTY;
        return true;
      }
      attempts := attempts + 1;
      failedAt := failedAt + [answer.at];
      if attempts >= MAX_DISPATCH_ATTEMPTS { status := Failed; }
      else { availableAt := answer.at + BackoffMs(attempts); }
      return !answer.TimedOut?;
    }
  }

  /** A row is pending only with attempts left. */
  ghost predicate Countable(t: Table) {
    forall id :: id in t && t[id].status.Pending? ==> t[id].attempts < MAX_DISPATCH_ATTEMPTS
  }

  ghost function RowsOf(t: Table, ids: seq<Id>): seq<Message>
    requires forall i :: 0 <= i < |ids| ==> ids[i] in t
  {
    seq(|ids|, i requires 0 <= i < |ids| => t[ids[i]])
  }

  /** What one relayBatch() leaves: the rows of some batch, dispatched in order. */
  ghost predicate Relayed(before: Table, after: Table, now: int, answers: seq<Answer>, ids: seq<Id>) {
    && IsBatch(before, {}, now, ids) && |ids| <= |answers|
    && after == WriteBack(before, ids, DispatchBatch(RowsOf(before, ids), answers))
  }

  lemma RelayUsesAttempts(before: Table, after: Table, now: int, answers: seq<Answer>, ids: seq<Id>)
    requires Countable(before) && |ids| <= |answers| && Relayed(before, after, now, answers, ids) && ids != []
    ensures Countable(after) && TotalLeft(after) < TotalLeft(before)
  {
    var rows := RowsOf(before, ids);
    var saved := DispatchBatch(rows, answers);
    forall i | 0 <= i < |ids|
      ensures |saved| == |ids| && Left(saved[i]) <= Left(before[ids[i]])
              && (i == 0 ==> Left(saved[i]) < Left(before[ids[i]]))
              && (saved[i].status.Pending? ==> saved[i].attempts < MAX_DISPATCH_ATTEMPTS)
    {
      DispatchBatchAt(rows, answers, i);
    }
    WriteBackLowers(before, ids, saved);
    forall id | id in after && after[id].status.Pending? ensures after[id].attempts < MAX_DISPATCH_ATTEMPTS {
      WriteBackElsewhere(before, ids, saved, id);
      if id in ids {
        var i :| 0 <= i < |ids| && ids[i] == id;
        WriteBackAt(before, ids, saved, i);
      }
    }
  }

  class OutboxRelay {
    var table: Table

    constructor (table: Table)
      ensures this.table == table
    {
      this.table := table;
    }

    method Earliest(ids: set<Id>) returns (first: Id)
      requires ids != {} && ids <= table.Keys
      ensures first in ids && forall id :: id in ids ==> table[first].availableAt <= table[id].availableAt
    {
      first :| first in ids;
      var rest := ids - {first};
      while rest != {}
        invariant rest <= ids && first in ids
        invariant forall id :: id in ids - rest ==> table[first].availableAt <= table[id].availableAt
        decreases rest
      {
        var id :| id in rest;
        if table[id].availableAt < table[first].availableAt { first := id; }
        rest := rest - {id};
      }
    }

    /** The claim query, with no other worker holding rows. */
    method ClaimBatch(now: int) returns (ids: seq<Id>)
      ensures IsBatch(table, {}, now, ids)
    {
      ids := [];
      var rest := set id | id in table && Due(table[id], now);
      ghost var due := rest;
      while rest != {} && |ids| < BATCH_SIZE
        invariant |ids| <= BATCH_SIZE && rest <= due
        invariant forall id :: id in due <==> id in rest || id in ids
        invariant forall i :: 0 <= i < |ids| ==> ids[i] in due && ids[i] !in rest
        invariant forall i, j :: 0 <= i < j < |ids| ==>
          ids[i] != ids[j] && table[ids[i]].availableAt <= table[ids[j]].availableAt
        invariant forall i, id :: 0 <= i < |ids| && id in rest ==> table[ids[i]].availableAt <= table[id].availableAt
        decreases rest
      {
        var first := Earliest(rest);
        ids := ids + [first];
        rest := rest - {first};
      }
    }

    method ReadBatch(ids: seq<Id>) returns (messages: seq<OutboxMessage>)
      requires forall i :: 0 <= i < |ids| ==> ids[i] in table
      ensures |messages| == |ids| && fresh(messages)
      ensures forall i :: 0 <= i < |ids| ==> messages[i].Row() == table[ids[i]]
      ensures forall i, j :: 0 <= i < j < |messages| ==> messages[i] != messages[j]
    {
      messages := [];
      for i := 0 to |ids|
        invariant |messages| == i && fresh(messages)
        invariant forall j :: 0 <= j < i ==> messages[j].Row() == table[ids[j]]
        invariant forall j, k :: 0 <= j < k < i ==> messages[j] != messages[k]
      {
        var message := new OutboxMessage(table[ids[i]]);
        messages := messages + [message];
      }
    }

    static method DispatchUntilTimeout(messages: seq<OutboxMessage>, answers: seq<Answer>, ghost rows: seq<Message>)
      requires |messages| == |rows| <= |answers|
      requires forall i :: 0 <= i < |rows| ==> messages[i].Row() == rows[i]
      requires forall i, j :: 0 <= i < j < |messages| ==> messages[i] != messages[j]
      modifies messages
      ensures forall i :: 0 <= i < |rows| ==> messages[i].Row() == DispatchBatch(rows, answers)[i]
    {
      var next, more := 0, true;
      while next < |messages| && more
        invariant next <= |messages|
        invariant forall j :: 0 <= j < next - 1 ==> !answers[j].TimedOut?
        invariant more <==> next == 0 || !answers[next - 1].TimedOut?
        invariant forall j :: 0 <= j < |rows| ==>
          messages[j].Row() == if j < next then Dispatch(rows[j], answers[j]) else rows[j]
      {
        more := messages[next].DispatchOne(answers[next]);
        next := next + 1;
      }
      forall j | 0 <= j < |rows| ensures messages[j].Row() == DispatchBatch(rows, answers)[j] {
        DispatchBatchAt(rows, answers, j);
      }
    }

    method SaveAll(ids: seq<Id>, messages: seq<OutboxMessage>, ghost saved: seq<Message>)
      requires |messages| == |ids| == |saved|
      requires forall i :: 0 <= i < |ids| ==> messages[i].Row() == saved[i]
      modifies this
      ensures table == WriteBack(old(table), ids, saved)
    {
      for i := 0 to |ids|
        invariant table == WriteBack(old(table), ids[..i], saved[..i])
      {
        assert ids[..i + 1][..i] == ids[..i] && saved[..i + 1][..i] == saved[..i];
        table := table[ids[i] := messages[i].Row()];
      }
      assert ids[..|ids|] == ids && saved[..|ids|] == saved;
    }

    /** relayBatch(): claim, dispatch until one times out, save; returns how many were claimed. */
    method RelayBatch(now: int, answers: seq<Answer>) returns (count: nat, ghost ids: seq<Id>)
      requires |answers| >= BATCH_SIZE
      modifies this
      ensures Relayed(old(table), table, now, answers, ids) && count == |ids|
    {
      var claimed := ClaimBatch(now);
      ids := claimed;
      ghost var rows := RowsOf(table, ids);
      var messages := ReadBatch(claimed);
      DispatchUntilTimeout(messages, answers, rows);
      SaveAll(claimed, messages, DispatchBatch(rows, answers));
      count := |claimed|;
    }

    /**
     tick()'s loop: full batches are relayed until one is not full; it always ends, whatever the
     clock says each round. When the queue answers in the last one, no message is due after it.
     */
    method Drain(clock: nat -> int, answers: nat -> seq<Answer>) returns (last: nat)
      requires Countable(table) && forall round :: |answers(round)| >= BATCH_SIZE
      modifies this
      ensures Countable(table) && TotalLeft(table) <= TotalLeft(old(table))
      ensures Answering(answers(last), clock(last)) ==>
        forall id :: id in table && table[id].status == Pending ==> clock(last) < table[id].availableAt
    {
      last := 0;
      var before := table;
      var count, ids := RelayBatch(clock(last), answers(last));
      RelayEffect(before, table, clock(last), answers(last), ids);
      while count == BATCH_SIZE
        invariant Countable(table) && TotalLeft(table) <= TotalLeft(old(table))
        invariant Relayed(before, table, clock(last), answers(last), ids) && count == |ids|
        decreases TotalLeft(table), count == BATCH_SIZE
      {
        last := last + 1;
        before := table;
        count, ids := RelayBatch(clock(last), answers(last));
        RelayEffect(before, table, clock(last), answers(last), ids);
      }
      if Answering(answers(last), clock(last)) {
        LastBatchClearsDue(before, table, clock(last), answers(last), ids);
      }
    }
  }

  predicate Answering(answers: seq<Answer>, now: int) {
    forall i :: 0 <= i < |answers| ==> !answers[i].TimedOut? && now <= answers[i].at
  }

  lemma {:induction false} BackoffIsPositive(n: nat)
    ensures Pow2(n) >= 1 && BackoffMs(n) > 0
  {
    if n > 0 { BackoffIsPositive(n - 1); }
  }

  /** A batch that is not full held every due row; when the queue answers, none is due after it. */
  lemma LastBatchClearsDue(before: Table, after: Table, now: int, answers: seq<Answer>, ids: seq<Id>)
    requires Relayed(before, after, now, answers, ids) && |ids| < BATCH_SIZE && Answering(answers, now)
    ensures forall id :: id in after && after[id].status == Pending ==> now < after[id].availableAt
  {
    var rows := RowsOf(before, ids);
    var saved := DispatchBatch(rows, answers);
    if rows == [] { assert saved == []; }
    forall i | 0 <= i < |ids| ensures |saved| == |ids| && !Due(saved[i], now) {
      DispatchBatchAt(rows, answers, i);
      BackoffIsPositive(rows[i].attempts + 1);
    }
    forall id | id in after ensures !Due(after[id], now) {
      WriteBackElsewhere(before, ids, saved, id);
      if id in ids {
        var i :| 0 <= i < |ids| && ids[i] == id;
        WriteBackAt(before, ids, saved, i);
      }
    }
  }

  lemma RelayEffect(before: Table, after: Table, now: int, answers: seq<Answer>, ids: seq<Id>)
    requires Countable(before) && Relayed(before, after, now, answers, ids)
    ensures Countable(after)
    ensures ids != [] ==> TotalLeft(after) < TotalLeft(before)
    ensures ids == [] ==> after == before
  {
    if ids != [] { RelayUsesAttempts(before, after, now, answers, ids); }
  }
}
