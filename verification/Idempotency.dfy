/**
 Idempotency keys: the table of claims, its conditional statements, and any number of
 attempts in any number of processes running them interleaved. Every statement is atomic
 (Postgres re-checks its WHERE clause); a process may die between any two steps.
 */
module IdempotencyKeys {
  import opened Wrappers

  /** How long a key's outcome is kept (ms). */
  const TTL_MS: int := 86_400_000
  /** A lock older than this belongs to an attempt that died (ms). */
  const LEASE_MS: int := 60_000

  datatype Outcome = Outcome(status: int, body: string)
  datatype Status = InProgress | Completed(outcome: Outcome)

  datatype Record = Record(
    scopeKey: (string, string), requestHash: string, status: Status,
    lockedAt: int, lockId: nat, expiresAt: int)

  /** `id`s and lock ids are UUIDs: here the next unused number. */
  datatype Table = Table(rows: map<nat, Record>, nextId: nat, nextLock: nat)

  // ---- The statements ------------------------------------------------------------------

  ghost predicate Claimed(t: Table, scopeKey: (string, string)) {
    exists id :: id in t.rows && t.rows[id].scopeKey == scopeKey
  }

  /** INSERT; the unique (scope, key) index is the caller's guard. */
  function Insert(t: Table, scopeKey: (string, string), hash: string, expiresAt: int, now: int): Table {
    Table(t.rows[t.nextId := Record(scopeKey, hash, InProgress, now, t.nextLock, expiresAt)],
          t.nextId + 1, t.nextLock + 1)
  }

  predicate Abandoned(t: Table, id: nat, now: int) {
    id in t.rows && t.rows[id].status.InProgress? && t.rows[id].lockedAt < now - LEASE_MS
  }

  function TakeOver(t: Table, id: nat, now: int): Table {
    if Abandoned(t, id, now)
    then Table(t.rows[id := t.rows[id].(lockedAt := now, lockId := t.nextLock)], t.nextId, t.nextLock + 1)
    else t
  }

  /** The attempt with this lock id holds the key. */
  predicate Holds(t: Table, id: nat, lockId: nat) {
    id in t.rows && t.rows[id].lockId == lockId && t.rows[id].status.InProgress?
  }

  function Renew(t: Table, id: nat, lockId: nat, now: int): Table {
    if Holds(t, id, lockId) then t.(rows := t.rows[id := t.rows[id].(lockedAt := now)]) else t
  }

  function Complete(t: Table, id: nat, lockId: nat, outcome: Outcome): Table {
    if Holds(t, id, lockId) then t.(rows := t.rows[id := t.rows[id].(status := Completed(outcome))]) else t
  }

  function Release(t: Table, id: nat, lockId: nat): Table {
    if Holds(t, id, lockId) then t.(rows := t.rows - {id}) else t
  }

  function Delete(t: Table, id: nat): Table { t.(rows := t.rows - {id}) }

  function Prune(t: Table, cutoff: int): Table {
    t.(rows := map id | id in t.rows && t.rows[id].expiresAt >= cutoff :: t.rows[id])
  }

  // ---- Attempts ------------------------------------------------------------------------

  /**
   Where an attempt is: `tries` counts the rounds of begin()'s loop (at most two). `Found`
   holds the row as findOneBy read it; the row itself may have changed since.
   */
  datatype Attempt =
    | Inserting(scopeKey: (string, string), hash: string, tries: nat)
    | Finding(scopeKey: (string, string), hash: string, tries: nat)
    | Found(scopeKey: (string, string), hash: string, tries: nat, id: nat, row: Record)
    | Deleting(scopeKey: (string, string), hash: string, tries: nat, id: nat)
    | TakingOver(scopeKey: (string, string), hash: string, id: nat)
    | Running(scopeKey: (string, string), hash: string, id: nat, lockId: nat, lease: Lease)   // the handler runs
    | Storing(scopeKey: (string, string), hash: string, id: nat, lockId: nat, lease: Lease)   // it answered
    | Over

  /** When the attempt started and last renewed its lock, and when its record expires. */
  datatype Lease = Lease(startedAt: int, renewedAt: int, expiresAt: int)

  /** What happened, in order: handlers started, outcomes stored, outcomes replayed. */
  datatype Seen =
    | SeenStart(id: nat, hash: string)
    | SeenStore(id: nat, outcome: Outcome)
    | SeenReplay(id: nat, hash: string, outcome: Outcome)

  datatype System = System(table: Table, attempts: map<nat, Attempt>, now: int, seen: seq<Seen>)

  datatype Action =
    | Arrive(p: nat, scopeKey: (string, string), hash: string)
    | TryInsert(p: nat, preparedAt: int)
    | Find(p: nat)
    | Decide(p: nat, readAt: int)
    | DeleteExpired(p: nat)
    | TryTakeOver(p: nat)
    | Heartbeat(p: nat)
    | Finish(p: nat)
    | Store(p: nat, outcome: Outcome)
    | Free(p: nat)
    | GiveUp(p: nat)
    | Die(p: nat)
    | PruneExpired(cutoff: int)
    | Tick(ms: nat)

  ghost predicate Enabled(s: System, a: Action) {
    match a
    case Arrive(p, _, _) => p !in s.attempts
    case TryInsert(p, preparedAt) => p in s.attempts && s.attempts[p].Inserting? && preparedAt <= s.now
    case Find(p) => p in s.attempts && s.attempts[p].Finding?
    case Decide(p, readAt) => p in s.attempts && s.attempts[p].Found? && readAt <= s.now
    case DeleteExpired(p) => p in s.attempts && s.attempts[p].Deleting?
    case TryTakeOver(p) => p in s.attempts && s.attempts[p].TakingOver?
    case Heartbeat(p) => p in s.attempts && (s.attempts[p].Running? || s.attempts[p].Storing?)
    case Finish(p) => p in s.attempts && s.attempts[p].Running?
    case Store(p, _) => p in s.attempts && s.attempts[p].Storing?
    case Free(p) => p in s.attempts && s.attempts[p].Storing?
    case GiveUp(p) => p in s.attempts && s.attempts[p].Storing?
    case Die(p) => p in s.attempts
    case PruneExpired(cutoff) => cutoff <= s.now
    case Tick(_) => true
  }

  /** The end of a round of begin()'s loop: once more, or "in progress" after the second. */
  function NextRound(scopeKey: (string, string), hash: string, tries: nat): Attempt {
    if tries + 1 < 2 then Inserting(scopeKey, hash, tries + 1) else Over
  }

  function DecideOn(a: Attempt, readAt: int): Attempt
    requires a.Found?
  {
    if a.row.expiresAt <= readAt then Deleting(a.scopeKey, a.hash, a.tries, a.id)
    else if a.row.requestHash != a.hash then Over                                     // mismatch
    else if a.row.status.InProgress? then TakingOver(a.scopeKey, a.hash, a.id)
    else Over                                                                         // replay
  }

  function Replayed(a: Attempt, readAt: int): seq<Seen>
    requires a.Found?
  {
    if a.row.expiresAt > readAt && a.row.requestHash == a.hash && a.row.status.Completed?
    then [SeenReplay(a.id, a.hash, a.row.status.outcome)] else []
  }

  ghost function RowOf(t: Table, scopeKey: (string, string)): nat
    requires Claimed(t, scopeKey)
  {
    var id :| id in t.rows && t.rows[id].scopeKey == scopeKey; id
  }

  ghost function Step(s: System, a: Action): System
    requires Enabled(s, a)
  {
    match a
    case Arrive(p, scopeKey, hash) => s.(attempts := s.attempts[p := Inserting(scopeKey, hash, 0)])
    case TryInsert(p, preparedAt) =>
      var x := s.attempts[p];
      if Claimed(s.table, x.scopeKey) then
        s.(attempts := s.attempts[p := Finding(x.scopeKey, x.hash, x.tries)])
      else
        s.(table := Insert(s.table, x.scopeKey, x.hash, preparedAt + TTL_MS, s.now),
           attempts := s.attempts[p := Running(x.scopeKey, x.hash, s.table.nextId, s.table.nextLock,
                                               Lease(s.now, s.now, preparedAt + TTL_MS))],
           seen := s.seen + [SeenStart(s.table.nextId, x.hash)])
    case Find(p) =>
      var x := s.attempts[p];
      if Claimed(s.table, x.scopeKey) then
        var id := RowOf(s.table, x.scopeKey);
        s.(attempts := s.attempts[p := Found(x.scopeKey, x.hash, x.tries, id, s.table.rows[id])])
      else s.(attempts := s.attempts[p := NextRound(x.scopeKey, x.hash, x.tries)])
    case Decide(p, readAt) =>
      var x := s.attempts[p];
      s.(attempts := s.attempts[p := DecideOn(x, readAt)], seen := s.seen + Replayed(x, readAt))
    case DeleteExpired(p) =>
      var x := s.attempts[p];
      s.(table := Delete(s.table, x.id), attempts := s.attempts[p := NextRound(x.scopeKey, x.hash, x.tries)])
    case TryTakeOver(p) =>
      var x := s.attempts[p];
      if Abandoned(s.table, x.id, s.now) then
        s.(table := TakeOver(s.table, x.id, s.now),
           attempts := s.attempts[p := Running(x.scopeKey, x.hash, x.id, s.table.nextLock,
                                               Lease(s.now, s.now, s.table.rows[x.id].expiresAt))],
           seen := s.seen + [SeenStart(x.id, x.hash)])
      else s.(attempts := s.attempts[p := Over])
    case Heartbeat(p) =>
      var x := s.attempts[p];
      s.(table := Renew(s.table, x.id, x.lockId, s.now),
         attempts := s.attempts[p :=
           if Holds(s.table, x.id, x.lockId) then x.(lease := x.lease.(renewedAt := s.now)) else x])
    case Finish(p) =>
      var x := s.attempts[p];
      s.(attempts := s.attempts[p := Storing(x.scopeKey, x.hash, x.id, x.lockId, x.lease)])
    case Store(p, outcome) =>
      var x := s.attempts[p];
      s.(table := Complete(s.table, x.id, x.lockId, outcome), attempts := s.attempts[p := Over],
         seen := if Holds(s.table, x.id, x.lockId) then s.seen + [SeenStore(x.id, outcome)] else s.seen)
    case Free(p) =>
      s.(table := Release(s.table, s.attempts[p].id, s.attempts[p].lockId), attempts := s.attempts[p := Over])
    case GiveUp(p) => s.(attempts := s.attempts[p := Over])
    case Die(p) => s.(attempts := s.attempts - {p})
    case PruneExpired(cutoff) => s.(table := Prune(s.table, cutoff))
    case Tick(ms) => s.(now := s.now + ms)
  }

  ghost predicate Runs(s: System, actions: seq<Action>)
    decreases |actions|
  {
    actions == [] || (Enabled(s, actions[0]) && Runs(Step(s, actions[0]), actions[1..]))
  }

  ghost function Final(s: System, actions: seq<Action>): System
    requires Runs(s, actions)
    decreases |actions|
  {
    if actions == [] then s else Final(Step(s, actions[0]), actions[1..])
  }

  ghost predicate Initial(s: System) { s.table == Table(map[], 0, 0) && s.attempts == map[] && s.seen == [] }

  // ---- What every step keeps -------------------------------------------------------------

  ghost predicate TableOk(t: Table) {
    && (forall id :: id in t.rows ==> id < t.nextId && t.rows[id].lockId < t.nextLock)
    && (forall id, id' :: id in t.rows && id' in t.rows && t.rows[id].scopeKey == t.rows[id'].scopeKey ==> id == id')
  }

  predicate Owns(a: Attempt) { a.Running? || a.Storing? }

  /** An attempt's view of its record agrees with the record while that exists. */
  ghost predicate AttemptOk(t: Table, a: Attempt, now: int) {
    && (a.Found? ==>
          && a.id < t.nextId && a.row.scopeKey == a.scopeKey
          && (a.id in t.rows ==>
                && t.rows[a.id].scopeKey == a.scopeKey && t.rows[a.id].requestHash == a.row.requestHash
                && t.rows[a.id].expiresAt == a.row.expiresAt
                && (a.row.status.Completed? ==> t.rows[a.id].status == a.row.status)))
    && (a.Deleting? ==> a.id < t.nextId && (a.id in t.rows ==> t.rows[a.id].expiresAt <= now))
    && (a.TakingOver? || Owns(a) ==>
          && a.id < t.nextId
          && (a.id in t.rows ==> t.rows[a.id].scopeKey == a.scopeKey && t.rows[a.id].requestHash == a.hash))
    && (Owns(a) ==> a.lockId < t.nextLock && (a.id in t.rows ==> t.rows[a.id].expiresAt == a.lease.expiresAt))
  }

  predicate SameLock(a: Attempt, b: Attempt) { Owns(a) && Owns(b) && a.lockId == b.lockId }

  /** Lock ids are never issued twice. */
  ghost predicate LocksDistinct(attempts: map<nat, Attempt>) {
    forall p, q :: p in attempts && q in attempts && SameLock(attempts[p], attempts[q]) ==> p == q
  }

  ghost predicate Inv(s: System) {
    && TableOk(s.table)
    && LocksDistinct(s.attempts)
    && forall p :: p in s.attempts ==> AttemptOk(s.table, s.attempts[p], s.now)
  }

  /** How a statement may change the table as the other attempts see it. */
  ghost predicate RowsEvolve(t: Table, t': Table) {
    && t.nextId <= t'.nextId && t.nextLock <= t'.nextLock
    && forall id :: id in t'.rows && id < t.nextId ==>
         && id in t.rows
         && t'.rows[id].scopeKey == t.rows[id].scopeKey && t'.rows[id].requestHash == t.rows[id].requestHash
         && t'.rows[id].expiresAt == t.rows[id].expiresAt
         && (t.rows[id].status.Completed? ==> t'.rows[id].status == t.rows[id].status)
  }

  lemma OthersUnaffected(t: Table, t': Table, a: Attempt, now: int, now': int)
    requires AttemptOk(t, a, now) && RowsEvolve(t, t') && now <= now'
    ensures AttemptOk(t', a, now')
  {
  }

  /** Statements that delete rows only. */
  lemma DeletingEvolves(t: Table, t': Table)
    requires TableOk(t) && t'.nextId == t.nextId && t'.nextLock == t.nextLock
    requires forall id :: id in t'.rows ==> id in t.rows && t'.rows[id] == t.rows[id]
    ensures TableOk(t') && RowsEvolve(t, t')
  {
  }

  /** Statements that update one row's lock, or complete it. */
  lemma UpdatingEvolves(t: Table, t': Table, id: nat, row: Record)
    requires TableOk(t) && t'.nextId == t.nextId && t.nextLock <= t'.nextLock
    requires id in t.rows && t'.rows == t.rows[id := row] && row.lockId < t'.nextLock
    requires row.scopeKey == t.rows[id].scopeKey && row.requestHash == t.rows[id].requestHash
    requires row.expiresAt == t.rows[id].expiresAt && t.rows[id].status.InProgress?
    ensures TableOk(t') && RowsEvolve(t, t')
  {
  }

  lemma StepEvolvesTable(s: System, a: Action)
    requires Inv(s) && Enabled(s, a)
    ensures TableOk(Step(s, a).table) && RowsEvolve(s.table, Step(s, a).table) && s.now <= Step(s, a).now
  {
    var t, t' := s.table, Step(s, a).table;
    match a
    case TryInsert(p, preparedAt) =>
      InsertEvolves(s.table, s.attempts[p].scopeKey, s.attempts[p].hash, preparedAt + TTL_MS, s.now);
    case TryTakeOver(p) =>
      var id := s.attempts[p].id;
      if Abandoned(t, id, s.now) { UpdatingEvolves(t, t', id, t'.rows[id]); }
    case Heartbeat(p) =>
      var x := s.attempts[p];
      if Holds(t, x.id, x.lockId) { UpdatingEvolves(t, t', x.id, t'.rows[x.id]); }
    case Store(p, _) =>
      var x := s.attempts[p];
      if Holds(t, x.id, x.lockId) { UpdatingEvolves(t, t', x.id, t'.rows[x.id]); }
    case DeleteExpired(_) => DeletingEvolves(t, t');
    case Free(_) => DeletingEvolves(t, t');
    case PruneExpired(_) => DeletingEvolves(t, t');
    case _ =>
  }

  lemma InsertEvolves(t: Table, scopeKey: (string, string), hash: string, expiresAt: int, now: int)
    requires TableOk(t)
    ensures var t' := Insert(t, scopeKey, hash, expiresAt, now);
            RowsEvolve(t, t') && (!Claimed(t, scopeKey) ==> TableOk(t'))
  {
  }

  /** The attempt that takes the step, if any. */
  function Actor(a: Action): Option<nat> {
    if a.PruneExpired? || a.Tick? then None else Some(a.p)
  }

  lemma ReaderStaysOk(s: System, a: Action, p: nat)
    requires Inv(s) && Enabled(s, a) && Actor(a) == Some(p)
    requires a.Arrive? || a.Find? || a.Decide? || a.DeleteExpired?
    ensures AttemptOk(Step(s, a).table, Step(s, a).attempts[p], Step(s, a).now)
  {
    if p in s.attempts { assert AttemptOk(s.table, s.attempts[p], s.now); }
  }

  lemma ClaimerStaysOk(s: System, a: Action, p: nat)
    requires Inv(s) && Enabled(s, a) && Actor(a) == Some(p) && (a.TryInsert? || a.TryTakeOver?)
    ensures AttemptOk(Step(s, a).table, Step(s, a).attempts[p], Step(s, a).now)
  {
    assert AttemptOk(s.table, s.attempts[p], s.now);
  }

  lemma ActorStaysOk(s: System, a: Action, p: nat)
    requires Inv(s) && Enabled(s, a) && Actor(a) == Some(p) && p in Step(s, a).attempts
    ensures AttemptOk(Step(s, a).table, Step(s, a).attempts[p], Step(s, a).now)
  {
    if a.Arrive? || a.Find? || a.Decide? || a.DeleteExpired? {
      ReaderStaysOk(s, a, p);
    } else if a.TryInsert? || a.TryTakeOver? {
      ClaimerStaysOk(s, a, p);
    } else {
      StepEvolvesTable(s, a);
      OthersUnaffected(s.table, Step(s, a).table, s.attempts[p], s.now, Step(s, a).now);
    }
  }

  lemma StepKeepsLocks(s: System, a: Action)
    requires Inv(s) && Enabled(s, a)
    ensures LocksDistinct(Step(s, a).attempts)
  {
    var s' := Step(s, a);
    forall p, q | p in s'.attempts && q in s'.attempts && SameLock(s'.attempts[p], s'.attempts[q]) ensures p == q {
      if p in s.attempts && q in s.attempts {
        assert AttemptOk(s.table, s.attempts[p], s.now) && AttemptOk(s.table, s.attempts[q], s.now);
        assert SameLock(s.attempts[p], s.attempts[q]) ==> p == q;
      }
    }
  }

  lemma StepKeepsInv(s: System, a: Action)
    requires Inv(s) && Enabled(s, a)
    ensures Inv(Step(s, a)) && RowsEvolve(s.table, Step(s, a).table)
  {
    var s' := Step(s, a);
    StepEvolvesTable(s, a);
    StepKeepsLocks(s, a);
    forall p | p in s'.attempts ensures AttemptOk(s'.table, s'.attempts[p], s'.now) {
      if Actor(a) == Some(p) {
        ActorStaysOk(s, a, p);
      } else {
        OthersUnaffected(s.table, s'.table, s.attempts[p], s.now, s'.now);
      }
    }
  }

  lemma {:induction false} RunKeepsInv(s: System, actions: seq<Action>)
    requires Inv(s) && Runs(s, actions)
    ensures Inv(Final(s, actions))
    decreases |actions|
  {
    if actions != [] {
      StepKeepsInv(s, actions[0]);
      RunKeepsInv(Step(s, actions[0]), actions[1..]);
    }
  }

  // ---- Fencing -------------------------------------------------------------------------

  /** A lock that no longer holds its key never holds it again. */
  lemma {:induction false} SupersededForever(s: System, actions: seq<Action>, id: nat, lockId: nat)
    requires Inv(s) && Runs(s, actions)
    requires id < s.table.nextId && lockId < s.table.nextLock && !Holds(s.table, id, lockId)
    ensures !Holds(Final(s, actions).table, id, lockId)
    decreases |actions|
  {
    if actions != [] {
      StepKeepsInv(s, actions[0]);
      SupersededForever(Step(s, actions[0]), actions[1..], id, lockId);
    }
  }

  /** Only the attempt holding the current lock id changes the record: others' statements do nothing. */
  lemma OnlyTheHolderActs(s: System, p: nat, q: nat, outcome: Outcome)
    requires Inv(s) && p in s.attempts && q in s.attempts && p != q
    requires Owns(s.attempts[p]) && Owns(s.attempts[q]) && s.attempts[p].id == s.attempts[q].id
    requires Holds(s.table, s.attempts[p].id, s.attempts[p].lockId)
    ensures var x := s.attempts[q];
            && Renew(s.table, x.id, x.lockId, s.now) == s.table
            && Complete(s.table, x.id, x.lockId, outcome) == s.table
            && Release(s.table, x.id, x.lockId) == s.table
  {
  }

  /** History: each record's one request hash, and its outcome once stored. */
  datatype History = History(hashes: map<nat, string>, outcomes: map<nat, Outcome>)

  ghost predicate RowsOk(t: Table, h: History) {
    && (forall id :: id in h.hashes <==> 0 <= id < t.nextId)
    && (forall id :: id in h.outcomes ==> id < t.nextId)
    && (forall id :: id in t.rows ==> id in h.hashes && RowOk(id, t.rows[id], h)
                                      && (t.rows[id].status.InProgress? ==> id !in h.outcomes))
  }

  predicate RowOk(id: nat, row: Record, h: History) {
    && id in h.hashes && row.requestHash == h.hashes[id]
    && (row.status.Completed? ==> id in h.outcomes && h.outcomes[id] == row.status.outcome)
  }

  ghost predicate SnapshotsOk(attempts: map<nat, Attempt>, h: History) {
    forall p :: p in attempts && attempts[p].Found? ==> RowOk(attempts[p].id, attempts[p].row, h)
  }

  predicate SeenOk(e: Seen, h: History) {
    match e
    case SeenStart(id, hash) => id in h.hashes && h.hashes[id] == hash
    case SeenStore(id, outcome) => id in h.outcomes && h.outcomes[id] == outcome
    case SeenReplay(id, hash, outcome) =>
      id in h.hashes && h.hashes[id] == hash && id in h.outcomes && h.outcomes[id] == outcome
  }

  ghost predicate StoredOnce(seen: seq<Seen>) {
    forall i, j :: 0 <= i < j < |seen| && seen[i].SeenStore? && seen[j].SeenStore? ==> seen[i].id != seen[j].id
  }

  ghost predicate HistoryOk(s: System, h: History) {
    && RowsOk(s.table, h)
    && SnapshotsOk(s.attempts, h)
    && (forall i :: 0 <= i < |s.seen| ==> SeenOk(s.seen[i], h))
    && StoredOnce(s.seen)
  }

  function HistoryAfter(s: System, a: Action, claimed: bool, h: History): History {
    if a.TryInsert? && a.p in s.attempts && s.attempts[a.p].Inserting? && !claimed then
      h.(hashes := h.hashes[s.table.nextId := s.attempts[a.p].hash])
    else if a.Store? && a.p in s.attempts && s.attempts[a.p].Storing?
            && Holds(s.table, s.attempts[a.p].id, s.attempts[a.p].lockId) then
      h.(outcomes := h.outcomes[s.attempts[a.p].id := a.outcome])
    else h
  }

  lemma InsertKeepsRows(t: Table, h: History, scopeKey: (string, string), hash: string, expiresAt: int, now: int)
    requires RowsOk(t, h) && TableOk(t)
    ensures RowsOk(Insert(t, scopeKey, hash, expiresAt, now), h.(hashes := h.hashes[t.nextId := hash]))
  {
  }

  lemma CompleteKeepsRows(t: Table, h: History, id: nat, lockId: nat, outcome: Outcome)
    requires RowsOk(t, h) && id < t.nextId && Holds(t, id, lockId)
    ensures RowsOk(Complete(t, id, lockId, outcome), h.(outcomes := h.outcomes[id := outcome]))
  {
  }

  /** Statements that touch locks or delete rows record nothing new. */
  lemma LocksKeepRows(t: Table, t': Table, h: History)
    requires RowsOk(t, h) && t'.nextId == t.nextId
    requires forall id :: id in t'.rows ==>
      id in t.rows && t'.rows[id].requestHash == t.rows[id].requestHash && t'.rows[id].status == t.rows[id].status
    ensures RowsOk(t', h)
  {
  }

  lemma StepKeepsRows(s: System, a: Action, h: History)
    requires Inv(s) && Enabled(s, a) && HistoryOk(s, h)
    ensures RowsOk(Step(s, a).table, HistoryAfter(s, a, a.TryInsert? && Claimed(s.table, s.attempts[a.p].scopeKey), h))
  {
    if a.TryInsert? && !Claimed(s.table, s.attempts[a.p].scopeKey) {
      var x := s.attempts[a.p];
      InsertKeepsRows(s.table, h, x.scopeKey, x.hash, a.preparedAt + TTL_MS, s.now);
    } else if a.Store? && Holds(s.table, s.attempts[a.p].id, s.attempts[a.p].lockId) {
      var x := s.attempts[a.p];
      assert AttemptOk(s.table, x, s.now);
      CompleteKeepsRows(s.table, h, x.id, x.lockId, a.outcome);
    } else {
      LocksKeepRows(s.table, Step(s, a).table, h);
    }
  }

  /** What is recorded of a record never changes. */
  lemma HistoryGrows(s: System, a: Action, claimed: bool, h: History, e: Seen)
    requires RowsOk(s.table, h) && SeenOk(e, h)
    ensures SeenOk(e, HistoryAfter(s, a, claimed, h))
  {
  }

  lemma StepKeepsSnapshots(s: System, a: Action, claimed: bool, h: History)
    requires Inv(s) && Enabled(s, a) && HistoryOk(s, h)
    requires claimed == (a.TryInsert? && Claimed(s.table, s.attempts[a.p].scopeKey))
    ensures SnapshotsOk(Step(s, a).attempts, HistoryAfter(s, a, claimed, h))
  {
    var s', h' := Step(s, a), HistoryAfter(s, a, claimed, h);
    forall p | p in s'.attempts && s'.attempts[p].Found? ensures RowOk(s'.attempts[p].id, s'.attempts[p].row, h') {
      if p in s.attempts && s.attempts[p] == s'.attempts[p] { assert RowOk(s.attempts[p].id, s.attempts[p].row, h); }
    }
  }

  /** What a step adds to the history it has seen agrees with it. */
  lemma NewlySeenOk(s: System, a: Action, claimed: bool, h: History)
    requires Inv(s) && Enabled(s, a) && HistoryOk(s, h)
    requires claimed == (a.TryInsert? && Claimed(s.table, s.attempts[a.p].scopeKey))
    ensures s.seen <= Step(s, a).seen && |Step(s, a).seen| <= |s.seen| + 1
    ensures |Step(s, a).seen| > |s.seen| ==> SeenOk(Step(s, a).seen[|s.seen|], HistoryAfter(s, a, claimed, h))
    ensures |Step(s, a).seen| > |s.seen| && Step(s, a).seen[|s.seen|].SeenStore? ==>
              Step(s, a).seen[|s.seen|].id !in h.outcomes
  {
    if a.Decide? {
      assert RowOk(s.attempts[a.p].id, s.attempts[a.p].row, h);
    } else if a.TryTakeOver? || a.Store? {
      assert AttemptOk(s.table, s.attempts[a.p], s.now);
    }
  }

  lemma StepKeepsHistory(s: System, a: Action, h: History) returns (h': History)
    requires Inv(s) && Enabled(s, a) && HistoryOk(s, h)
    ensures HistoryOk(Step(s, a), h')
  {
    var s' := Step(s, a);
    var claimed := a.TryInsert? && Claimed(s.table, s.attempts[a.p].scopeKey);
    h' := HistoryAfter(s, a, claimed, h);
    StepKeepsRows(s, a, h);
    StepKeepsSnapshots(s, a, claimed, h);
    NewlySeenOk(s, a, claimed, h);
    forall i | 0 <= i < |s.seen| ensures SeenOk(s'.seen[i], h') {
      assert SeenOk(s.seen[i], h);
      HistoryGrows(s, a, claimed, h, s.seen[i]);
    }
  }

  lemma {:induction false} RunKeepsHistory(s: System, actions: seq<Action>, h: History) returns (h': History)
    requires Inv(s) && Runs(s, actions) && HistoryOk(s, h)
    ensures HistoryOk(Final(s, actions), h')
    decreases |actions|
  {
    if actions == [] { return h; }
    StepKeepsInv(s, actions[0]);
    h' := StepKeepsHistory(s, actions[0], h);
    h' := RunKeepsHistory(Step(s, actions[0]), actions[1..], h');
  }

  /**
   Over all runs: every attempt started on a record, and every replay of it, carries one
   request hash; at most one outcome is ever stored for a record; every replay is of it.
   */
  lemma OneHashOneOutcome(s: System, actions: seq<Action>, i: nat, j: nat)
    requires Initial(s) && Runs(s, actions)
    requires i < |Final(s, actions).seen| && j < |Final(s, actions).seen|
    requires Final(s, actions).seen[i].id == Final(s, actions).seen[j].id
    ensures var a, b := Final(s, actions).seen[i], Final(s, actions).seen[j];
            && (!a.SeenStore? && !b.SeenStore? ==> a.hash == b.hash)
            && (!a.SeenStart? && !b.SeenStart? ==> a.outcome == b.outcome)
            && (a.SeenStore? && b.SeenStore? ==> i == j)
  {
    assert StoredOnce(s.seen);
    var h := RunKeepsHistory(s, actions, History(map[], map[]));
    assert SeenOk(Final(s, actions).seen[i], h) && SeenOk(Final(s, actions).seen[j], h);
    assert StoredOnce(Final(s, actions).seen);
  }

  /** A late delete of an expired record never removes a newer claim of the same key. */
  lemma LateDeleteSparesNewClaim(s: System, actions: seq<Action>, p: nat, id: nat)
    requires Initial(s) && Runs(s, actions)
    requires p in Final(s, actions).attempts && Final(s, actions).attempts[p].Deleting?
    requires id in Final(s, actions).table.rows && Final(s, actions).now < Final(s, actions).table.rows[id].expiresAt
    ensures var s1 := Final(s, actions);
            && id in Step(s1, DeleteExpired(p)).table.rows
            && Step(s1, DeleteExpired(p)).table.rows[id] == s1.table.rows[id]
  {
    RunKeepsInv(s, actions);
  }

  // ---- Mutual exclusion ----------------------------------------------------------------

  /** Every running handler of this key renewed its lock within the lease, and its record has not expired. */
  ghost predicate Timely(s: System, key: (string, string)) {
    forall p :: p in s.attempts && s.attempts[p].Running? && s.attempts[p].scopeKey == key ==>
      s.now - s.attempts[p].lease.renewedAt <= LEASE_MS && s.now < s.attempts[p].lease.expiresAt
  }

  ghost predicate AlwaysTimely(s: System, actions: seq<Action>, key: (string, string))
    requires Runs(s, actions)
    decreases |actions|
  {
    Timely(s, key) && (actions == [] || AlwaysTimely(Step(s, actions[0]), actions[1..], key))
  }

  predicate HoldsFresh(t: Table, x: Attempt)
    requires x.Running?
  {
    Holds(t, x.id, x.lockId) && t.rows[x.id].lockedAt == x.lease.renewedAt
  }

  ghost predicate RunnersHold(s: System, key: (string, string)) {
    forall p :: p in s.attempts && s.attempts[p].Running? && s.attempts[p].scopeKey == key ==>
      HoldsFresh(s.table, s.attempts[p])
  }

  lemma StepKeepsRunnersHolding(s: System, a: Action, key: (string, string))
    requires Inv(s) && RunnersHold(s, key) && Timely(s, key) && Enabled(s, a)
    ensures RunnersHold(Step(s, a), key)
  {
    var s' := Step(s, a);
    forall p | p in s'.attempts && s'.attempts[p].Running? && s'.attempts[p].scopeKey == key
      ensures HoldsFresh(s'.table, s'.attempts[p])
    {
      if p in s.attempts && s.attempts[p].Running? { assert AttemptOk(s.table, s.attempts[p], s.now); }
    }
  }

  lemma {:induction false} RunKeepsRunnersHolding(s: System, actions: seq<Action>, key: (string, string))
    requires Inv(s) && RunnersHold(s, key) && Runs(s, actions) && AlwaysTimely(s, actions, key)
    ensures RunnersHold(Final(s, actions), key)
    decreases |actions|
  {
    if actions != [] {
      StepKeepsInv(s, actions[0]);
      StepKeepsRunnersHolding(s, actions[0], key);
      RunKeepsRunnersHolding(Step(s, actions[0]), actions[1..], key);
    }
  }

  /** No two attempts for one (scope, key) run their handlers at once, whatever attempts for other keys do. */
  lemma HandlersExcludeEachOther(s: System, actions: seq<Action>, key: (string, string), p: nat, q: nat)
    requires Initial(s) && Runs(s, actions) && AlwaysTimely(s, actions, key)
    requires p in Final(s, actions).attempts && Final(s, actions).attempts[p].Running?
    requires q in Final(s, actions).attempts && Final(s, actions).attempts[q].Running?
    requires Final(s, actions).attempts[p].scopeKey == key == Final(s, actions).attempts[q].scopeKey
    ensures p == q
  {
    RunKeepsInv(s, actions);
    RunKeepsRunnersHolding(s, actions, key);
    var s1 := Final(s, actions);
    assert AttemptOk(s1.table, s1.attempts[p], s1.now) && AttemptOk(s1.table, s1.attempts[q], s1.now);
  }

  // ---- How far the exclusion reaches -----------------------------------------------------

  /** Every running attempt renewed within the lease and is itself younger than the TTL. */
  ghost predicate Young(s: System) {
    forall p :: p in s.attempts && s.attempts[p].Running? ==>
      s.now - s.attempts[p].lease.renewedAt <= LEASE_MS && s.now - s.attempts[p].lease.startedAt < TTL_MS
  }

  ghost predicate AlwaysYoung(s: System, actions: seq<Action>)
    requires Runs(s, actions)
    decreases |actions|
  {
    Young(s) && (actions == [] || AlwaysYoung(Step(s, actions[0]), actions[1..]))
  }

  lemma {:induction false} Extend(s: System, actions: seq<Action>, a: Action)
    requires Runs(s, actions) && AlwaysYoung(s, actions) && Enabled(Final(s, actions), a)
    requires Young(Step(Final(s, actions), a))
    ensures Runs(s, actions + [a]) && AlwaysYoung(s, actions + [a])
    ensures Final(s, actions + [a]) == Step(Final(s, actions), a)
    decreases |actions|
  {
    if actions == [] {
      assert Runs(Step(s, a), []) && AlwaysYoung(Step(s, a), []);
      assert ([] + [a])[1..] == [];
    } else {
      Extend(Step(s, actions[0]), actions[1..], a);
      assert (actions + [a])[1..] == actions[1..] + [a];
    }
  }

  const SK := ("user:POST /stories", "key")

  function Clock0(): System { System(Table(map[], 0, 0), map[], 0, []) }

  ghost predicate Reached(s: System) {
    exists actions :: Runs(Clock0(), actions) && AlwaysYoung(Clock0(), actions) && Final(Clock0(), actions) == s
  }

  lemma ReachNext(s: System, a: Action)
    requires Reached(s) && Enabled(s, a) && Young(Step(s, a))
    ensures Reached(Step(s, a))
  {
    var actions :| Runs(Clock0(), actions) && AlwaysYoung(Clock0(), actions) && Final(Clock0(), actions) == s;
    Extend(Clock0(), actions, a);
  }

  const LATE := TTL_MS - 1000
  /** The record as its first claimant left it, and after the takeover. */
  const FIRST := Record(SK, "h", InProgress, 0, 0, TTL_MS)
  const TAKEN := Record(SK, "h", InProgress, LATE, 1, TTL_MS)
  const RUNNER := Running(SK, "h", 0, 1, Lease(LATE, LATE, TTL_MS))

  lemma OnlyRow(t: Table, row: Record)
    requires t.rows == map[0 := row] && row.scopeKey == SK
    ensures Claimed(t, SK) && RowOf(t, SK) == 0
  {
    assert 0 in t.rows;
  }

  /** A process claims the key and dies; the key stays claimed until a second before it expires. */
  lemma ClaimantDies()
    ensures Reached(System(Table(map[0 := FIRST], 1, 1), map[], LATE, [SeenStart(0, "h")]))
  {
    var s := Clock0();
    assert Runs(s, []) && AlwaysYoung(s, []) && Final(s, []) == s;
    ReachNext(s, Arrive(0, SK, "h"));
    s := Step(s, Arrive(0, SK, "h"));
    ReachNext(s, TryInsert(0, 0));
    s := Step(s, TryInsert(0, 0));
    assert s.table == Table(map[0 := FIRST], 1, 1) && s.seen == [SeenStart(0, "h")];
    ReachNext(s, Die(0));
    s := Step(s, Die(0));
    assert s.attempts == map[];
    ReachNext(s, Tick(LATE));
  }

  /** A retry takes the key over. */
  lemma RetryTakesOver()
    ensures Reached(System(Table(map[0 := TAKEN], 1, 2), map[1 := RUNNER], LATE,
                           [SeenStart(0, "h"), SeenStart(0, "h")]))
  {
    ClaimantDies();
    var t := Table(map[0 := FIRST], 1, 1);
    var seen := [SeenStart(0, "h")];
    OnlyRow(t, FIRST);
    var s := System(t, map[], LATE, seen);
    ReachNext(s, Arrive(1, SK, "h"));
    s := System(t, map[1 := Inserting(SK, "h", 0)], LATE, seen);
    ReachNext(s, TryInsert(1, 0));
    s := System(t, map[1 := Finding(SK, "h", 0)], LATE, seen);
    assert Step(System(t, map[1 := Inserting(SK, "h", 0)], LATE, seen), TryInsert(1, 0)) == s;
    ReachNext(s, Find(1));
    RetryTakesOverFound(t, seen);
  }

  lemma RetryTakesOverFound(t: Table, seen: seq<Seen>)
    requires t == Table(map[0 := FIRST], 1, 1) && Claimed(t, SK) && RowOf(t, SK) == 0 && seen == [SeenStart(0, "h")]
    requires Reached(Step(System(t, map[1 := Finding(SK, "h", 0)], LATE, seen), Find(1)))
    ensures Reached(System(Table(map[0 := TAKEN], 1, 2), map[1 := RUNNER], LATE,
                           [SeenStart(0, "h"), SeenStart(0, "h")]))
  {
    var s := System(t, map[1 := Found(SK, "h", 0, 0, FIRST)], LATE, seen);
    assert Step(System(t, map[1 := Finding(SK, "h", 0)], LATE, seen), Find(1)) == s;
    ReachNext(s, Decide(1, LATE));
    var s2 := System(t, map[1 := TakingOver(SK, "h", 0)], LATE, seen);
    assert seen + [] == seen && Step(s, Decide(1, LATE)) == s2;
    ReachNext(s2, TryTakeOver(1));
    assert Step(s2, TryTakeOver(1))
        == System(Table(map[0 := TAKEN], 1, 2), map[1 := RUNNER], LATE, seen + [SeenStart(0, "h")]);
  }

  ghost predicate ExpiredBesideRunner(s: System) {
    s.now == TTL_MS && s.table == Table(map[0 := TAKEN], 1, 2) && s.attempts == map[1 := RUNNER]
  }

  function Beside(newcomer: Attempt): map<nat, Attempt> { map[1 := RUNNER, 2 := newcomer] }

  const SECOND := Running(SK, "h", 1, 2, Lease(TTL_MS, TTL_MS, TTL_MS + TTL_MS))

  /** A newcomer finds the expired record. */
  lemma NewcomerFinds(s: System)
    requires Reached(s) && ExpiredBesideRunner(s)
    ensures Reached(s.(attempts := Beside(Found(SK, "h", 0, 0, TAKEN))))
  {
    OnlyRow(s.table, TAKEN);
    var s1, s2 := s.(attempts := Beside(Inserting(SK, "h", 0))), s.(attempts := Beside(Finding(SK, "h", 0)));
    ReachNext(s, Arrive(2, SK, "h"));
    assert Step(s, Arrive(2, SK, "h")) == s1;
    ReachNext(s1, TryInsert(2, 0));
    assert Step(s1, TryInsert(2, 0)) == s2;
    ReachNext(s2, Find(2));
    assert Step(s2, Find(2)) == s.(attempts := Beside(Found(SK, "h", 0, 0, TAKEN)));
  }

  /** It deletes it, and goes around the loop again. */
  lemma NewcomerDeletes(s: System)
    requires ExpiredBesideRunner(s) && Reached(s.(attempts := Beside(Found(SK, "h", 0, 0, TAKEN))))
    ensures Reached(s.(table := Table(map[], 1, 2), attempts := Beside(Inserting(SK, "h", 1))))
  {
    var s3 := s.(attempts := Beside(Found(SK, "h", 0, 0, TAKEN)));
    var s4 := s.(attempts := Beside(Deleting(SK, "h", 0, 0)));
    ReachNext(s3, Decide(2, TTL_MS));
    assert s.seen + [] == s.seen && Step(s3, Decide(2, TTL_MS)) == s4;
    ReachNext(s4, DeleteExpired(2));
    assert Step(s4, DeleteExpired(2)) == s.(table := Table(map[], 1, 2), attempts := Beside(Inserting(SK, "h", 1)));
  }

  /** Then it claims the key while the other attempt still runs. */
  lemma NewcomerStarts(s: System)
    requires ExpiredBesideRunner(s)
    requires Reached(s.(table := Table(map[], 1, 2), attempts := Beside(Inserting(SK, "h", 1))))
    ensures exists s' :: Reached(s') && s'.attempts == Beside(SECOND)
  {
    var s5 := s.(table := Table(map[], 1, 2), attempts := Beside(Inserting(SK, "h", 1)));
    ReachNext(s5, TryInsert(2, TTL_MS));
    assert Step(s5, TryInsert(2, TTL_MS)).attempts == Beside(SECOND);
  }

  /**
   It is the record's age that matters, not the attempt's: a takeover does not extend the
   record, so an attempt that took over late runs beside the request that deletes the
   expired record and claims the key afresh.
   */
  lemma YoungAttemptsMayOverlap()
    ensures exists actions, p, q ::
      && Runs(Clock0(), actions) && AlwaysYoung(Clock0(), actions) && p != q
      && p in Final(Clock0(), actions).attempts && Final(Clock0(), actions).attempts[p].Running?
      && q in Final(Clock0(), actions).attempts && Final(Clock0(), actions).attempts[q].Running?
      && Final(Clock0(), actions).attempts[p].scopeKey == Final(Clock0(), actions).attempts[q].scopeKey
  {
    RetryTakesOver();
    var s := System(Table(map[0 := TAKEN], 1, 2), map[1 := RUNNER], LATE, [SeenStart(0, "h"), SeenStart(0, "h")]);
    ReachNext(s, Tick(1000));
    var expired := s.(now := TTL_MS);
    NewcomerFinds(expired);
    NewcomerDeletes(expired);
    NewcomerStarts(expired);
    var s' :| Reached(s') && s'.attempts == Beside(SECOND);
    var actions :| Runs(Clock0(), actions) && AlwaysYoung(Clock0(), actions) && Final(Clock0(), actions) == s';
    assert 1 in s'.attempts && 2 in s'.attempts;
  }

  // ---- begin(), by one process -----------------------------------------------------------

  datatype BeginResult =
    | Started(id: nat, lockId: nat)
    | Replay(id: nat, outcome: Outcome)
    | InProgressElsewhere
    | Mismatch

  /** What begin() does when nothing interferes. */
  ghost function BeginAlone(t: Table, scopeKey: (string, string), hash: string, now: int): (Table, BeginResult) {
    if !Claimed(t, scopeKey) then
      (Insert(t, scopeKey, hash, now + TTL_MS, now), Started(t.nextId, t.nextLock))
    else
      var id := RowOf(t, scopeKey);
      var row := t.rows[id];
      if row.expiresAt <= now then
        (Insert(Delete(t, id), scopeKey, hash, now + TTL_MS, now), Started(t.nextId, t.nextLock))
      else if row.requestHash != hash then (t, Mismatch)
      else if row.status.Completed? then (t, Replay(id, row.status.outcome))
      else if Abandoned(t, id, now) then (TakeOver(t, id, now), Started(id, t.nextLock))
      else (t, InProgressElsewhere)
  }

  /** Of a key with an unexpired record: what is answered and what becomes of the table. */
  predicate AnswersFor(t: Table, id: nat, hash: string, now: int, t': Table, result: BeginResult)
    requires id in t.rows
  {
    var row := t.rows[id];
    var lapsed := row.status.InProgress? && now - row.lockedAt > 60 * 1000;
    && (result.Mismatch? <==> row.requestHash != hash)
    && (result.Replay? <==> row.requestHash == hash && row.status.Completed?)
    && (result.Replay? ==> result == Replay(id, row.status.outcome))
    && (result.Started? <==> row.requestHash == hash && lapsed)
    && (result.InProgressElsewhere? <==> row.requestHash == hash && row.status.InProgress? && !lapsed)
    && (if result.Started? then
          && result.id == id && result.lockId == t.nextLock
          && t' == Table(t.rows[id := Record(row.scopeKey, hash, InProgress, now, t.nextLock, row.expiresAt)],
                         t.nextId, t.nextLock + 1)
        else t' == t)
  }

  /** Of a key without one: it is claimed afresh under this hash, for a day; an expired record is gone. */
  ghost predicate ClaimsAfresh(
      t: Table, scopeKey: (string, string), hash: string, now: int, t': Table, result: BeginResult)
  {
    && result == Started(t.nextId, t.nextLock) && t'.nextId == t.nextId + 1 && t'.nextLock == t.nextLock + 1
    && t.nextId in t'.rows
    && t'.rows[t.nextId] == Record(scopeKey, hash, InProgress, now, t.nextLock, now + 24 * 60 * 60 * 1000)
    && forall id :: id != t.nextId ==>
         && (id in t'.rows <==> id in t.rows && t.rows[id].scopeKey != scopeKey)
         && (id in t'.rows ==> t'.rows[id] == t.rows[id])
  }

  /** begin() told from the record alone. */
  lemma BeginAnswersExactly(t: Table, scopeKey: (string, string), hash: string, now: int)
    requires TableOk(t)
    ensures var (t', result) := BeginAlone(t, scopeKey, hash, now);
            && (forall id :: id in t.rows && t.rows[id].scopeKey == scopeKey && now < t.rows[id].expiresAt ==>
                  AnswersFor(t, id, hash, now, t', result))
            && ((forall id :: id in t.rows && t.rows[id].scopeKey == scopeKey ==> t.rows[id].expiresAt <= now) ==>
                  ClaimsAfresh(t, scopeKey, hash, now, t', result))
  {
    if Claimed(t, scopeKey) {
      var id := RowOf(t, scopeKey);
      forall other | other in t.rows && t.rows[other].scopeKey == scopeKey ensures other == id {}
    }
  }

  /** pruneExpired(): records of which the cutoff has come go, the others stay as they are. */
  lemma PruneTakesTheExpired(s: System, cutoff: int, id: nat)
    requires Enabled(s, PruneExpired(cutoff)) && id in s.table.rows
    ensures var after := Step(s, PruneExpired(cutoff)).table.rows;
            && (id !in after <==> s.table.rows[id].expiresAt < cutoff)
            && (s.now <= s.table.rows[id].expiresAt ==> id in after && after[id] == s.table.rows[id])
  {
  }

  // ---- A second handler, over the steps of the system --------------------------------------

  /** Steps of one attempt after its arrival, with nothing in between. */
  ghost predicate OwnSteps(q: nat, actions: seq<Action>) {
    forall a :: a in actions ==> Actor(a) == Some(q) && !a.Arrive?
  }

  /** The record has expired, or the lease ran out and the request is the same one. */
  predicate MayStartBeside(s: System, x: Attempt, hash: string)
    requires x.Running? && x.id in s.table.rows
  {
    || x.lease.expiresAt <= s.now
    || (hash == x.hash && s.table.rows[x.id].lockedAt < s.now - LEASE_MS)
  }

  /** A new request for the key of a running handler, whose own steps lead from s to s'. */
  ghost predicate StartsBeside(s: System, p: nat, q: nat, hash: string, actions: seq<Action>)
    requires p in s.attempts && s.attempts[p].Running?
  {
    && OwnSteps(q, actions) && Runs(s, [Arrive(q, s.attempts[p].scopeKey, hash)] + actions)
    && var s' := Final(s, [Arrive(q, s.attempts[p].scopeKey, hash)] + actions);
       q in s'.attempts && s'.attempts[q].Running? && p in s'.attempts && s'.attempts[p].Running?
  }

  /** What the newcomer can have become while nothing lets it start. */
  ghost predicate Waiting(s: System, s': System, p: nat, q: nat, hash: string)
    requires p in s.attempts && s.attempts[p].Running? && s.attempts[p].id in s.table.rows
  {
    var x := s.attempts[p];
    && s'.table == s.table && s'.now == s.now
    && (q in s'.attempts ==>
          var y := s'.attempts[q];
          && (y.Inserting? || y.Finding? || y.Found? || y.TakingOver? || y.Over?)
          && (!y.Over? ==> y.scopeKey == x.scopeKey && y.hash == hash)
          && (y.Found? ==> y.id == x.id && y.row == s.table.rows[x.id])
          && (y.TakingOver? ==> y.id == x.id && hash == x.hash))
  }

  lemma StepKeepsWaiting(s: System, s': System, p: nat, q: nat, hash: string, a: Action)
    requires Inv(s) && p in s.attempts && p != q && s.attempts[p].Running?
    requires Holds(s.table, s.attempts[p].id, s.attempts[p].lockId) && !MayStartBeside(s, s.attempts[p], hash)
    requires Waiting(s, s', p, q, hash) && Enabled(s', a) && Actor(a) == Some(q) && !a.Arrive?
    ensures Waiting(s, Step(s', a), p, q, hash)
  {
    var x := s.attempts[p];
    assert AttemptOk(s.table, x, s.now);
    assert Claimed(s.table, x.scopeKey) && RowOf(s.table, x.scopeKey) == x.id;
  }

  lemma {:induction false} RunKeepsWaiting(s: System, s': System, p: nat, q: nat, hash: string, actions: seq<Action>)
    requires Inv(s) && p in s.attempts && p != q && s.attempts[p].Running?
    requires Holds(s.table, s.attempts[p].id, s.attempts[p].lockId) && !MayStartBeside(s, s.attempts[p], hash)
    requires Waiting(s, s', p, q, hash) && OwnSteps(q, actions) && Runs(s', actions)
    ensures Waiting(s, Final(s', actions), p, q, hash)
    decreases |actions|
  {
    if actions != [] {
      assert actions[0] in actions;
      StepKeepsWaiting(s, s', p, q, hash, actions[0]);
      assert OwnSteps(q, actions[1..]) by { forall a | a in actions[1..] ensures a in actions {} }
      RunKeepsWaiting(s, Step(s', actions[0]), p, q, hash, actions[1..]);
    }
  }

  lemma {:induction false} RunsOn(s: System, actions: seq<Action>, a: Action)
    requires Runs(s, actions) && Enabled(Final(s, actions), a)
    ensures Runs(s, actions + [a]) && Final(s, actions + [a]) == Step(Final(s, actions), a)
    decreases |actions|
  {
    if actions == [] {
      assert Runs(Step(s, a), []) && ([] + [a])[1..] == [];
    } else {
      RunsOn(Step(s, actions[0]), actions[1..], a);
      assert (actions + [a])[1..] == actions[1..] + [a];
    }
  }

  /** The newcomer arrives, meets the claim and finds the record. */
  lemma NewcomerReads(s: System, p: nat, q: nat, hash: string)
    requires Inv(s) && p in s.attempts && s.attempts[p].Running? && q !in s.attempts
    requires Holds(s.table, s.attempts[p].id, s.attempts[p].lockId)
    ensures var x := s.attempts[p];
            var run := [Arrive(q, x.scopeKey, hash)] + [TryInsert(q, s.now)] + [Find(q)];
            Runs(s, run) && Final(s, run)
              == s.(attempts := s.attempts[q := Found(x.scopeKey, hash, 0, x.id, s.table.rows[x.id])])
  {
    var x := s.attempts[p];
    assert AttemptOk(s.table, x, s.now);
    assert Claimed(s.table, x.scopeKey) && RowOf(s.table, x.scopeKey) == x.id;
    var arrive := Arrive(q, x.scopeKey, hash);
    assert Runs(s, []) && [] + [arrive] == [arrive];
    RunsOn(s, [], arrive);
    var s1 := s.(attempts := s.attempts[q := Inserting(x.scopeKey, hash, 0)]);
    assert Final(s, [arrive]) == s1;
    RunsOn(s, [arrive], TryInsert(q, s.now));
    assert Step(s1, TryInsert(q, s.now)) == s.(attempts := s.attempts[q := Finding(x.scopeKey, hash, 0)]);
    RunsOn(s, [arrive] + [TryInsert(q, s.now)], Find(q));
  }

  /** An expired record: the newcomer deletes it. */
  lemma NewcomerDeletesExpired(s: System, p: nat, q: nat, hash: string)
    requires Inv(s) && p in s.attempts && s.attempts[p].Running? && q !in s.attempts
    requires Holds(s.table, s.attempts[p].id, s.attempts[p].lockId) && s.attempts[p].lease.expiresAt <= s.now
    ensures var x := s.attempts[p];
            var run := [Arrive(q, x.scopeKey, hash)] + [TryInsert(q, s.now)] + [Find(q)] + [Decide(q, s.now)]
                       + [DeleteExpired(q)];
            Runs(s, run)
            && Final(s, run) == s.(table := Delete(s.table, x.id),
                                   attempts := s.attempts[q := Inserting(x.scopeKey, hash, 1)])
  {
    var x := s.attempts[p];
    assert AttemptOk(s.table, x, s.now);
    NewcomerReads(s, p, q, hash);
    var run := [Arrive(q, x.scopeKey, hash)] + [TryInsert(q, s.now)] + [Find(q)];
    RunsOn(s, run, Decide(q, s.now));
    assert s.seen + [] == s.seen;
    assert Final(s, run + [Decide(q, s.now)]) == s.(attempts := s.attempts[q := Deleting(x.scopeKey, hash, 0, x.id)]);
    RunsOn(s, run + [Decide(q, s.now)], DeleteExpired(q));
  }

  /** Then it claims the key in its second round. */
  lemma NewcomerReplacesExpired(s: System, p: nat, q: nat, hash: string)
    requires Inv(s) && p in s.attempts && s.attempts[p].Running? && q !in s.attempts
    requires Holds(s.table, s.attempts[p].id, s.attempts[p].lockId) && s.attempts[p].lease.expiresAt <= s.now
    ensures StartsBeside(s, p, q, hash,
                          [TryInsert(q, s.now)] + [Find(q)] + [Decide(q, s.now)] + [DeleteExpired(q)]
                          + [TryInsert(q, s.now)])
  {
    var x := s.attempts[p];
    assert AttemptOk(s.table, x, s.now);
    NewcomerDeletesExpired(s, p, q, hash);
    var run := [Arrive(q, x.scopeKey, hash)] + [TryInsert(q, s.now)] + [Find(q)] + [Decide(q, s.now)]
               + [DeleteExpired(q)];
    assert !Claimed(Delete(s.table, x.id), x.scopeKey);
    RunsOn(s, run, TryInsert(q, s.now));
    assert run + [TryInsert(q, s.now)] == [Arrive(q, x.scopeKey, hash)]
      + ([TryInsert(q, s.now)] + [Find(q)] + [Decide(q, s.now)] + [DeleteExpired(q)] + [TryInsert(q, s.now)]);
  }

  /** A lease that ran out: the newcomer takes the key over. */
  lemma NewcomerTakesOver(s: System, p: nat, q: nat, hash: string)
    requires Inv(s) && p in s.attempts && s.attempts[p].Running? && q !in s.attempts
    requires Holds(s.table, s.attempts[p].id, s.attempts[p].lockId) && s.attempts[p].lease.expiresAt > s.now
    requires hash == s.attempts[p].hash && s.table.rows[s.attempts[p].id].lockedAt < s.now - LEASE_MS
    ensures StartsBeside(s, p, q, hash, [TryInsert(q, s.now)] + [Find(q)] + [Decide(q, s.now)] + [TryTakeOver(q)])
  {
    var x := s.attempts[p];
    assert AttemptOk(s.table, x, s.now);
    NewcomerReads(s, p, q, hash);
    var run := [Arrive(q, x.scopeKey, hash)] + [TryInsert(q, s.now)] + [Find(q)];
    RunsOn(s, run, Decide(q, s.now));
    assert s.seen + [] == s.seen;
    assert Final(s, run + [Decide(q, s.now)]) == s.(attempts := s.attempts[q := TakingOver(x.scopeKey, hash, x.id)]);
    RunsOn(s, run + [Decide(q, s.now)], TryTakeOver(q));
    assert run + [Decide(q, s.now)] + [TryTakeOver(q)] == [Arrive(q, x.scopeKey, hash)]
      + ([TryInsert(q, s.now)] + [Find(q)] + [Decide(q, s.now)] + [TryTakeOver(q)]);
  }

  /**
   Beside a running handler that holds its key, the steps of a new request for the key can start
   a second handler exactly when the record has expired, or the lease ran out and the request is
   the same one.
   */
  lemma SecondHandlerExactly(s: System, p: nat, q: nat, hash: string)
    requires Inv(s) && p in s.attempts && s.attempts[p].Running? && q !in s.attempts
    requires Holds(s.table, s.attempts[p].id, s.attempts[p].lockId)
    ensures (exists actions :: StartsBeside(s, p, q, hash, actions)) <==> MayStartBeside(s, s.attempts[p], hash)
  {
    var x := s.attempts[p];
    if x.lease.expiresAt <= s.now {
      NewcomerReplacesExpired(s, p, q, hash);
    } else if MayStartBeside(s, x, hash) {
      NewcomerTakesOver(s, p, q, hash);
    } else {
      forall actions ensures !StartsBeside(s, p, q, hash, actions) {
        var arrive := Arrive(q, x.scopeKey, hash);
        if OwnSteps(q, actions) && Runs(s, [arrive] + actions) {
          assert ([arrive] + actions)[1..] == actions;
          RunKeepsWaiting(s, Step(s, arrive), p, q, hash, actions);
        }
      }
    }
  }

  // ---- A lone attempt, over the steps of the system -------------------------------------------

  /** A holder's outcome is stored, or its key freed. */
  lemma HolderSettles(s: System, p: nat, outcome: Outcome)
    requires Inv(s) && p in s.attempts && s.attempts[p].Storing?
    requires Holds(s.table, s.attempts[p].id, s.attempts[p].lockId)
    ensures var id := s.attempts[p].id;
            && id in Step(s, Store(p, outcome)).table.rows
            && Step(s, Store(p, outcome)).table.rows[id] == s.table.rows[id].(status := Completed(outcome))
            && Step(s, Store(p, outcome)).seen == s.seen + [SeenStore(id, outcome)]
            && !Claimed(Step(s, Free(p)).table, s.table.rows[id].scopeKey)
  {
  }

  /** The state after a lone attempt that ended as begin() answers. */
  ghost predicate EndsAs(s: System, s': System, q: nat, scopeKey: (string, string), hash: string, result: BeginResult) {
    && q in s'.attempts && s'.now == s.now
    && match result
       case Started(id, lockId) =>
         && id in s'.table.rows
         && s'.attempts[q] == Running(scopeKey, hash, id, lockId, Lease(s.now, s.now, s'.table.rows[id].expiresAt))
         && s'.seen == s.seen + [SeenStart(id, hash)]
       case Replay(id, outcome) => s'.attempts[q].Over? && s'.seen == s.seen + [SeenReplay(id, hash, outcome)]
       case _ => s'.attempts[q].Over? && s'.seen == s.seen
  }

  /** The steps of the system that a lone begin() takes. */
  ghost function LoneSteps(s: System, q: nat, scopeKey: (string, string), hash: string): seq<Action> {
    if !Claimed(s.table, scopeKey) then [Arrive(q, scopeKey, hash)] + [TryInsert(q, s.now)]
    else
      var first := [Arrive(q, scopeKey, hash)] + [TryInsert(q, s.now)] + [Find(q)] + [Decide(q, s.now)];
      var row := s.table.rows[RowOf(s.table, scopeKey)];
      if row.expiresAt <= s.now then first + [DeleteExpired(q)] + [TryInsert(q, s.now)]
      else if row.requestHash == hash && row.status.InProgress? then first + [TryTakeOver(q)]
      else first
  }

  /** Arriving, and the first insert. */
  lemma LoneArrival(s: System, q: nat, scopeKey: (string, string), hash: string)
    requires q !in s.attempts
    ensures var run := [Arrive(q, scopeKey, hash)] + [TryInsert(q, s.now)];
            && Runs(s, run)
            && Final(s, run) == Step(s.(attempts := s.attempts[q := Inserting(scopeKey, hash, 0)]), TryInsert(q, s.now))
  {
    var arrive := Arrive(q, scopeKey, hash);
    assert Runs(s, []) && [] + [arrive] == [arrive];
    RunsOn(s, [], arrive);
    RunsOn(s, [arrive], TryInsert(q, s.now));
  }

  /** Reading the record that has the key, and deciding on it. */
  lemma LoneDecision(s: System, q: nat, scopeKey: (string, string), hash: string)
    requires q !in s.attempts && Claimed(s.table, scopeKey)
    ensures var id := RowOf(s.table, scopeKey);
            var found := Found(scopeKey, hash, 0, id, s.table.rows[id]);
            var run := [Arrive(q, scopeKey, hash)] + [TryInsert(q, s.now)] + [Find(q)] + [Decide(q, s.now)];
            && Runs(s, run)
            && Final(s, run) == s.(attempts := s.attempts[q := DecideOn(found, s.now)],
                                   seen := s.seen + Replayed(found, s.now))
  {
    LoneArrival(s, q, scopeKey, hash);
    var run := [Arrive(q, scopeKey, hash)] + [TryInsert(q, s.now)];
    assert Final(s, run) == s.(attempts := s.attempts[q := Finding(scopeKey, hash, 0)]);
    RunsOn(s, run, Find(q));
    var id := RowOf(s.table, scopeKey);
    assert Final(s, run + [Find(q)])
        == s.(attempts := s.attempts[q := Found(scopeKey, hash, 0, id, s.table.rows[id])]);
    RunsOn(s, run + [Find(q)], Decide(q, s.now));
  }

  /** An expired record is deleted. */
  lemma LoneDeletion(s: System, q: nat, scopeKey: (string, string), hash: string)
    requires q !in s.attempts && Claimed(s.table, scopeKey)
    requires s.table.rows[RowOf(s.table, scopeKey)].expiresAt <= s.now
    ensures var run := [Arrive(q, scopeKey, hash)] + [TryInsert(q, s.now)] + [Find(q)] + [Decide(q, s.now)]
                       + [DeleteExpired(q)];
            && Runs(s, run)
            && Final(s, run) == s.(table := Delete(s.table, RowOf(s.table, scopeKey)),
                                   attempts := s.attempts[q := Inserting(scopeKey, hash, 1)])
  {
    var run := [Arrive(q, scopeKey, hash)] + [TryInsert(q, s.now)] + [Find(q)] + [Decide(q, s.now)];
    LoneDecision(s, q, scopeKey, hash);
    assert s.seen + [] == s.seen;
    RunsOn(s, run, DeleteExpired(q));
  }

  lemma DeletedIsUnclaimed(t: Table, scopeKey: (string, string))
    requires TableOk(t) && Claimed(t, scopeKey)
    ensures !Claimed(Delete(t, RowOf(t, scopeKey)), scopeKey)
  {
  }

  /** And the key claimed afresh in the second round. */
  lemma LoneRestart(s: System, q: nat, scopeKey: (string, string), hash: string)
    requires Inv(s) && q !in s.attempts && Claimed(s.table, scopeKey)
    requires s.table.rows[RowOf(s.table, scopeKey)].expiresAt <= s.now
    ensures var run := LoneSteps(s, q, scopeKey, hash);
            var (t', result) := BeginAlone(s.table, scopeKey, hash, s.now);
            Runs(s, run) && Final(s, run).table == t' && EndsAs(s, Final(s, run), q, scopeKey, hash, result)
  {
    var run := [Arrive(q, scopeKey, hash)] + [TryInsert(q, s.now)] + [Find(q)] + [Decide(q, s.now)]
               + [DeleteExpired(q)];
    LoneDeletion(s, q, scopeKey, hash);
    DeletedIsUnclaimed(s.table, scopeKey);
    RunsOn(s, run, TryInsert(q, s.now));
  }

  lemma LoneTakeOver(s: System, q: nat, scopeKey: (string, string), hash: string)
    requires Inv(s) && q !in s.attempts && Claimed(s.table, scopeKey)
    requires var row := s.table.rows[RowOf(s.table, scopeKey)];
             row.expiresAt > s.now && row.requestHash == hash && row.status.InProgress?
    ensures var run := LoneSteps(s, q, scopeKey, hash);
            var (t', result) := BeginAlone(s.table, scopeKey, hash, s.now);
            Runs(s, run) && Final(s, run).table == t' && EndsAs(s, Final(s, run), q, scopeKey, hash, result)
  {
    var id := RowOf(s.table, scopeKey);
    var run := [Arrive(q, scopeKey, hash)] + [TryInsert(q, s.now)] + [Find(q)] + [Decide(q, s.now)];
    LoneDecision(s, q, scopeKey, hash);
    assert s.seen + [] == s.seen;
    assert Final(s, run) == s.(attempts := s.attempts[q := TakingOver(scopeKey, hash, id)]);
    RunsOn(s, run, TryTakeOver(q));
  }

  /** begin() is the system's steps: with no others in between they end as it answers, for every table. */
  lemma LoneAttemptEndsAsBegin(s: System, q: nat, scopeKey: (string, string), hash: string)
    requires Inv(s) && q !in s.attempts
    ensures var run := LoneSteps(s, q, scopeKey, hash);
            var (t', result) := BeginAlone(s.table, scopeKey, hash, s.now);
            Runs(s, run) && Final(s, run).table == t' && EndsAs(s, Final(s, run), q, scopeKey, hash, result)
  {
    if !Claimed(s.table, scopeKey) {
      LoneArrival(s, q, scopeKey, hash);
    } else {
      var row := s.table.rows[RowOf(s.table, scopeKey)];
      if row.expiresAt <= s.now {
        LoneRestart(s, q, scopeKey, hash);
      } else if row.requestHash == hash && row.status.InProgress? {
        LoneTakeOver(s, q, scopeKey, hash);
      } else {
        LoneDecision(s, q, scopeKey, hash);
        assert s.seen + [] == s.seen;
      }
    }
  }

  class IdempotencyService {
    var table: Table

    constructor ()
      ensures table == Table(map[], 0, 0)
    {
      table := Table(map[], 0, 0);
    }

    /** renew(): true exactly when the attempt still holds its key, whose lease then starts over. */
    method RenewLock(id: nat, lockId: nat, now: int) returns (held: bool)
      modifies this
      ensures table == Renew(old(table), id, lockId, now) && held == Holds(old(table), id, lockId)
      ensures held ==> table == old(table).(rows := old(table).rows[id := old(table).rows[id].(lockedAt := now)])
      ensures held ==> !Abandoned(table, id, now + LEASE_MS) && Abandoned(table, id, now + LEASE_MS + 1)
      ensures !held ==> table == old(table)
    {
      held := id in table.rows && table.rows[id].lockId == lockId && table.rows[id].status.InProgress?;
      if held { table := table.(rows := table.rows[id := table.rows[id].(lockedAt := now)]); }
    }

    /** complete(): a second outcome under the same lock is not stored. */
    method StoreOutcome(id: nat, lockId: nat, outcome: Outcome) returns (stored: bool)
      modifies this
      ensures table == Complete(old(table), id, lockId, outcome) && stored == Holds(old(table), id, lockId)
      ensures stored ==>
        table == old(table).(rows := old(table).rows[id := old(table).rows[id].(status := Completed(outcome))])
      ensures !stored ==> table == old(table)
      ensures !Holds(table, id, lockId)
    {
      stored := id in table.rows && table.rows[id].lockId == lockId && table.rows[id].status.InProgress?;
      if stored { table := table.(rows := table.rows[id := table.rows[id].(status := Completed(outcome))]); }
    }

    /** release(): the key of an attempt that holds it may be claimed again. */
    method ReleaseKey(id: nat, lockId: nat)
      requires TableOk(table)
      modifies this
      ensures table == Release(old(table), id, lockId) && TableOk(table)
      ensures Holds(old(table), id, lockId) ==> !Claimed(table, old(table).rows[id].scopeKey)
      ensures Holds(old(table), id, lockId) ==> table == old(table).(rows := old(table).rows - {id})
      ensures !Holds(old(table), id, lockId) ==> table == old(table)
    {
      if id in table.rows && table.rows[id].lockId == lockId && table.rows[id].status.InProgress? {
        table := table.(rows := table.rows - {id});
      }
    }

    /** begin(): two rounds are enough when nothing interferes (BeginAnswersExactly: what it answers). */
    method Begin(scopeKey: (string, string), hash: string, now: int) returns (result: BeginResult)
      requires TableOk(table)
      modifies this
      ensures (table, result) == BeginAlone(old(table), scopeKey, hash, now)
      ensures TableOk(table)
    {
      result := InProgressElsewhere;
      var attempt := 0;
      while attempt < 2
        invariant attempt == 0 ==> table == old(table)
        invariant attempt > 0 ==>
          && Claimed(old(table), scopeKey) && old(table).rows[RowOf(old(table), scopeKey)].expiresAt <= now
          && table == Delete(old(table), RowOf(old(table), scopeKey))
        invariant attempt > 0 ==> !Claimed(table, scopeKey)
        invariant TableOk(table) && attempt <= 1
      {
        if !(exists id :: id in table.rows && table.rows[id].scopeKey == scopeKey) {
          result := Started(table.nextId, table.nextLock);
          InsertEvolves(table, scopeKey, hash, now + TTL_MS, now);
          table := Insert(table, scopeKey, hash, now + TTL_MS, now);
          return;
        }
        var id :| id in table.rows && table.rows[id].scopeKey == scopeKey;
        assert Claimed(table, scopeKey) && RowOf(table, scopeKey) == id;
        var existing := table.rows[id];
        if existing.expiresAt <= now {
          table := Delete(table, id);
          attempt := attempt + 1;
          continue;
        }
        if existing.requestHash != hash { return Mismatch; }
        if existing.status.InProgress? {
          if Abandoned(table, id, now) {
            result := Started(id, table.nextLock);
            table := TakeOver(table, id, now);
            return;
          }
          return InProgressElsewhere;
        }
        return Replay(id, existing.status.outcome);
      }
      assert false;
    }
  }
}
