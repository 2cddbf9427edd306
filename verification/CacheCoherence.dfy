/**
 The cache contract of BaseRepository over whole runs: read-through fills, commits,
 invalidations and clock ticks of any number of processes, interleaved in any order. Each
 script, commit and load is one atomic step.
 */
module CacheCoherence {
  import opened Wrappers
  import opened TagCaching

  type Id = string
  /** The columns of a row, or what a list query returns. */
  type Data = int
  datatype Ref = Ref(entity: string, id: Id)
  type Db = map<Ref, Data>

  // ---- Queries, loads and tags -------------------------------------------------------

  datatype Kind =
    | ByKey(matches: (Id, Data) -> bool)              // a row looked up by a unique key
    | Selection(pick: map<Id, Data> -> Option<Id>)    // a row picked by a query
    | Listing(view: map<Id, Data> -> Data)            // a list, count or boolean

  /** `embeds`: the rows of other entities that the loaded value contains (dependsOn). */
  datatype Query = Query(entity: string, kind: Kind, embeds: Data -> seq<Ref>)

  /** What each cache key stands for. */
  type Catalog = map<string, Query>

  datatype Value = Value(rowId: Option<Id>, data: Data, refs: seq<Ref>, rows: seq<Option<Data>>)

  function RowTag(entity: string, id: Id): string { entity + ":" + id }

  function ListTag(entity: string): string { entity + ":list" }

  function Lookup(db: Db, r: Ref): Option<Data> { if r in db then Some(db[r]) else None }

  ghost function Table(db: Db, entity: string): map<Id, Data> {
    map r: Ref | r in db && r.entity == entity :: r.id := db[r]
  }

  ghost predicate Answers(q: Query, db: Db, r: Ref)
    requires q.kind.ByKey?
  {
    r in db && r.entity == q.entity && q.kind.matches(r.id, db[r])
  }

  function Assemble(q: Query, db: Db, rowId: Option<Id>, data: Data): Value {
    var refs := q.embeds(data);
    Value(rowId, data, refs, seq(|refs|, i requires 0 <= i < |refs| => Lookup(db, refs[i])))
  }

  /** The database query behind a key; None is a null result, which is not cached. */
  ghost function Load(q: Query, db: Db): Option<Value> {
    match q.kind
    case ByKey(_) =>
      if exists r :: Answers(q, db, r) then
        var r :| Answers(q, db, r);
        Some(Assemble(q, db, Some(r.id), db[r]))
      else None
    case Selection(pick) =>
      var table := Table(db, q.entity);
      var id := pick(table);
      if id.Some? && id.value in table then Some(Assemble(q, db, id, table[id.value])) else None
    case Listing(view) =>
      Some(Assemble(q, db, None, view(Table(db, q.entity))))
  }

  function AddTag(tags: seq<string>, tag: string): seq<string> {
    if tag in tags then tags else tags + [tag]
  }

  function AddRowTags(tags: seq<string>, refs: seq<Ref>): seq<string> {
    if refs == [] then tags
    else AddTag(AddRowTags(tags, refs[..|refs| - 1]), RowTag(refs[|refs| - 1].entity, refs[|refs| - 1].id))
  }

  /** cacheSet: the tags stored with a value. */
  function CacheTags(q: Query, v: Value): seq<string> {
    var own := [q.entity, if v.rowId.Some? then RowTag(q.entity, v.rowId.value) else ListTag(q.entity)];
    var base := if q.kind.Selection? then AddTag(own, ListTag(q.entity)) else own;
    AddRowTags(base, v.refs)
  }

  lemma {:induction false} AddRowTagsContains(tags: seq<string>, refs: seq<Ref>, t: string)
    ensures t in AddRowTags(tags, refs)
       <==> t in tags || exists i :: 0 <= i < |refs| && t == RowTag(refs[i].entity, refs[i].id)
  {
    if refs != [] {
      var last := |refs| - 1;
      AddRowTagsContains(tags, refs[..last], t);
      assert forall i :: 0 <= i < last ==> refs[..last][i] == refs[i];
    }
  }

  /** The tags cacheSet collects, as a set: every embedded row, and the own row or list. */
  lemma CacheTagsAre(q: Query, v: Value, t: string)
    ensures t in CacheTags(q, v) <==>
      || t == q.entity
      || (v.rowId.Some? && t == RowTag(q.entity, v.rowId.value))
      || ((v.rowId.None? || q.kind.Selection?) && t == ListTag(q.entity))
      || exists i :: 0 <= i < |v.refs| && t == RowTag(v.refs[i].entity, v.refs[i].id)
  {
    var own := [q.entity, if v.rowId.Some? then RowTag(q.entity, v.rowId.value) else ListTag(q.entity)];
    var base := if q.kind.Selection? then AddTag(own, ListTag(q.entity)) else own;
    AddRowTagsContains(base, v.refs, t);
  }

  // ---- Writes ------------------------------------------------------------------------

  /** What the database constraints keep: keys are unique, embedded rows exist. */
  ghost predicate Sound(cat: Catalog, db: Db) {
    && (forall k, r, r' ::
          k in cat && cat[k].kind.ByKey? && Answers(cat[k], db, r) && Answers(cat[k], db, r') ==> r == r')
    && (forall k, i :: k in cat && Load(cat[k], db).Some? && 0 <= i < |Load(cat[k], db).value.refs|
          ==> Load(cat[k], db).value.refs[i] in db)
  }

  /**
   `after` is the table the write commits: the statement's own change, and whatever foreign-key
   actions (ON DELETE SET NULL, CASCADE) and cascaded saves do to other rows. `also`: tags the
   caller invalidates afterwards itself, such as with invalidateCacheByEntityId().
   */
  datatype Write =
    | RowWrite(ref: Ref, after: Db, also: set<string>)                             // create, update, save, delete
    | TouchedTx(entity: string, touched: set<Id>, after: Db, also: set<string>)    // transaction(work, { touched })
    | OpenTx(entity: string, after: Db, also: set<string>)                         // transaction(work)

  /** The tags invalidated once the write is committed: the repository's own, and the caller's. */
  function WriteTags(w: Write): set<string> {
    w.also +
    match w
    case RowWrite(r, _, _) => {ListTag(r.entity), RowTag(r.entity, r.id)}
    case TouchedTx(e, touched, _, _) => {ListTag(e)} + set id | id in touched :: RowTag(e, id)
    case OpenTx(e, _, _) => {e}
  }

  predicate Changed(before: Db, after: Db, r: Ref) { Lookup(before, r) != Lookup(after, r) }

  /** The write changes only what it names: the row, the rows in `touched` and new ones, the entity's rows. */
  ghost predicate ChangesWhatItNames(w: Write, db: Db) {
    forall r :: Changed(db, w.after, r) ==> Names(w, db, r)
  }

  predicate Names(w: Write, db: Db, r: Ref) {
    match w
    case RowWrite(own, _, _) => r == own
    case TouchedTx(e, touched, _, _) => r.entity == e && (r in db ==> r.id in touched)
    case OpenTx(e, _, _) => r.entity == e
  }

  /** A row embedded in the value changes. */
  ghost predicate Embeds(q: Query, v: Value, db: Db, after: Db) {
    exists i :: 0 <= i < |v.refs| && Changed(db, after, v.refs[i])
  }

  /** What changes a cached value: its own row, an embedded row, or which row or list the query gives. */
  ghost predicate Affects(q: Query, v: Value, db: Db, after: Db) {
    || Embeds(q, v, db, after)
    || (v.rowId.Some? && Changed(db, after, Ref(q.entity, v.rowId.value)))
    || match q.kind
       case ByKey(_) => false
       case Selection(pick) => pick(Table(after, q.entity)) != v.rowId
       case Listing(view) => view(Table(after, q.entity)) != v.data
  }

  lemma SameTable(db: Db, after: Db, entity: string)
    requires forall r: Ref :: r.entity == entity ==> !Changed(db, after, r)
    ensures Table(db, entity) == Table(after, entity)
  {
    var a, b := Table(db, entity), Table(after, entity);
    forall id | id in a ensures id in b && a[id] == b[id] {
      assert Ref(entity, id) in db && !Changed(db, after, Ref(entity, id));
    }
    forall id | id in b ensures id in a {
      assert Ref(entity, id) in after && !Changed(db, after, Ref(entity, id));
    }
  }

  lemma LoadShowsEmbeddedRows(q: Query, db: Db, v: Value, i: nat)
    requires Load(q, db) == Some(v) && i < |v.refs|
    ensures |v.rows| == |v.refs| && v.rows[i] == Lookup(db, v.refs[i])
  {
    if q.kind.ByKey? {
      var r :| Answers(q, db, r) && v == Assemble(q, db, Some(r.id), db[r]);
    }
  }

  lemma LoadShowsOwnRow(q: Query, db: Db, v: Value)
    requires Load(q, db) == Some(v) && v.rowId.Some?
    ensures Lookup(db, Ref(q.entity, v.rowId.value)) == Some(v.data)
    ensures q.kind.ByKey? ==> Answers(q, db, Ref(q.entity, v.rowId.value))
  {
    if q.kind.ByKey? {
      var r :| Answers(q, db, r) && v == Assemble(q, db, Some(r.id), db[r]);
      assert Assemble(q, db, Some(r.id), db[r]).rowId == Some(r.id);
    }
  }

  lemma LoadShowsAnswer(q: Query, db: Db, v: Value)
    requires Load(q, db) == Some(v)
    ensures q.kind.Selection? ==> q.kind.pick(Table(db, q.entity)) == v.rowId && v.rowId.Some?
    ensures q.kind.Listing? ==> q.kind.view(Table(db, q.entity)) == v.data && v.rowId.None?
    ensures q.kind.ByKey? ==> v.rowId.Some?
    ensures v.refs == q.embeds(v.data) && |v.rows| == |v.refs|
  {
    if q.kind.ByKey? {
      var r :| Answers(q, db, r) && v == Assemble(q, db, Some(r.id), db[r]);
    }
  }

  lemma AffectedLoadsChange(q: Query, db: Db, after: Db, v: Value)
    requires Load(q, db) == Some(v) && Affects(q, v, db, after)
    ensures Load(q, after) != Some(v)
  {
    if Load(q, after) == Some(v) {
      LoadShowsAnswer(q, after, v);
      if v.rowId.Some? {
        LoadShowsOwnRow(q, db, v);
        LoadShowsOwnRow(q, after, v);
      }
      var i :| 0 <= i < |v.refs| && Changed(db, after, v.refs[i]);
      LoadShowsEmbeddedRows(q, db, v, i);
      LoadShowsEmbeddedRows(q, after, v, i);
    }
  }

  lemma UnaffectedLoadsStay(cat: Catalog, k: string, db: Db, after: Db, v: Value)
    requires k in cat && Sound(cat, after) && Load(cat[k], db) == Some(v) && !Affects(cat[k], v, db, after)
    ensures Load(cat[k], after) == Some(v)
  {
    var q := cat[k];
    LoadShowsAnswer(q, db, v);
    forall i | 0 <= i < |v.refs| ensures v.rows[i] == Lookup(after, v.refs[i]) {
      LoadShowsEmbeddedRows(q, db, v, i);
      assert !Changed(db, after, v.refs[i]);
    }
    if v.rowId.Some? { LoadShowsOwnRow(q, db, v); }
    assert Assemble(q, after, v.rowId, v.data) == v;
    if q.kind.ByKey? {
      var own := Ref(q.entity, v.rowId.value);
      assert own in after && Answers(q, after, own);
    }
  }

  /** A cached value is what its load returns after a write exactly when the write does not affect it. */
  lemma LoadChangesExactly(cat: Catalog, k: string, db: Db, after: Db, v: Value)
    requires k in cat && Sound(cat, after) && Load(cat[k], db) == Some(v)
    ensures Load(cat[k], after) == Some(v) <==> !Affects(cat[k], v, db, after)
  {
    if Affects(cat[k], v, db, after) {
      AffectedLoadsChange(cat[k], db, after, v);
    } else {
      UnaffectedLoadsStay(cat, k, db, after, v);
    }
  }

  /**
   A write that changes only what it names affects no entry its tags miss; without `touched`, unless
   the entry embeds a row.
   */
  lemma UnreachedLoadsStay(cat: Catalog, k: string, db: Db, w: Write, v: Value)
    requires k in cat && Sound(cat, db) && Sound(cat, w.after) && ChangesWhatItNames(w, db)
    requires Load(cat[k], db) == Some(v)
    requires forall t :: t in CacheTags(cat[k], v) ==> t !in WriteTags(w)
    requires w.OpenTx? ==> !Embeds(cat[k], v, db, w.after)
    ensures !Affects(cat[k], v, db, w.after) && Load(cat[k], w.after) == Some(v)
  {
    var q, after := cat[k], w.after;
    CacheTagsAre(q, v, q.entity);
    CacheTagsAre(q, v, ListTag(q.entity));
    if v.rowId.Some? {
      CacheTagsAre(q, v, RowTag(q.entity, v.rowId.value));
      LoadShowsOwnRow(q, db, v);
      assert Changed(db, after, Ref(q.entity, v.rowId.value)) ==> Names(w, db, Ref(q.entity, v.rowId.value));
    }
    forall i | 0 <= i < |v.refs| ensures !Changed(db, after, v.refs[i]) {
      CacheTagsAre(q, v, RowTag(v.refs[i].entity, v.refs[i].id));
      assert v.refs[i] in db && (Changed(db, after, v.refs[i]) ==> Names(w, db, v.refs[i]));
    }
    LoadShowsAnswer(q, db, v);
    if !q.kind.ByKey? {
      forall r: Ref | r.entity == q.entity ensures !Changed(db, after, r) {
        assert Changed(db, after, r) ==> Names(w, db, r);
      }
      SameTable(db, after, q.entity);
    }
    LoadChangesExactly(cat, k, db, after, v);
  }

  // ---- The system --------------------------------------------------------------------

  /** A load slower than this is returned but not cached (ms). */
  const MAX_FILL_MS: int := 60_000

  /** A read-through fill after its miss: the fence is taken, then the value is loaded. */
  datatype Fill =
    | Fenced(key: string, since: nat, fencedAt: int)
    | Loaded(key: string, since: nat, fencedAt: int, value: Value)

  /** `pending`: for each committed write, the tags it has not invalidated yet. */
  datatype System = System(db: Db, cache: Store<Value>, fills: map<nat, Fill>, pending: map<nat, set<string>>)

  datatype Action =
    | TakeFence(p: nat, key: string)
    | LoadValue(p: nat)
    | StoreValue(p: nat, startedAt: int, checkedAt: int, ttl: real)
    | GiveUp(p: nat)
    | Commit(id: nat, write: Write)
    | Invalidate(id: nat, tag: string)
    | InvalidateAnyTag(tag: string)
    | Tick(ms: nat)

  ghost predicate Enabled(cat: Catalog, s: System, a: Action) {
    match a
    case TakeFence(p, key) => p !in s.fills && key in cat
    case LoadValue(p) => p in s.fills && s.fills[p].Fenced?
    case StoreValue(p, startedAt, checkedAt, ttl) =>
      && p in s.fills && s.fills[p].Loaded? && ttl > 0.0
      && s.fills[p].fencedAt <= startedAt <= checkedAt <= s.cache.now
      && checkedAt - startedAt < MAX_FILL_MS
    case GiveUp(p) => p in s.fills
    case Commit(id, w) => id !in s.pending && Sound(cat, w.after)
    case Invalidate(id, tag) => id in s.pending && tag in s.pending[id]
    case InvalidateAnyTag(_) => true
    case Tick(_) => true
  }

  ghost function Step(cat: Catalog, s: System, a: Action): System
    requires Enabled(cat, s, a)
  {
    match a
    case TakeFence(p, key) => s.(fills := s.fills[p := Fenced(key, s.cache.sequence, s.cache.now)])
    case LoadValue(p) =>
      var f := s.fills[p];
      if f.key in cat && Load(cat[f.key], s.db).Some? then
        s.(fills := s.fills[p := Loaded(f.key, f.since, f.fencedAt, Load(cat[f.key], s.db).value)])
      else s.(fills := s.fills - {p})
    case StoreValue(p, _, _, ttl) =>
      var f := s.fills[p];
      var tags := if f.key in cat then CacheTags(cat[f.key], f.value) else [];
      s.(cache := TagScript(s.cache, f.key, f.value, tags, ttl, Some(f.since)).0, fills := s.fills - {p})
    case GiveUp(p) => s.(fills := s.fills - {p})
    case Commit(id, w) => s.(db := w.after, pending := s.pending[id := WriteTags(w)])
    case Invalidate(id, tag) =>
      s.(cache := InvalidateScript(s.cache, tag), pending := s.pending[id := s.pending[id] - {tag}])
    case InvalidateAnyTag(tag) => s.(cache := InvalidateScript(s.cache, tag))
    case Tick(ms) => s.(cache := s.cache.(now := s.cache.now + ms))
  }

  ghost predicate Runs(cat: Catalog, s: System, actions: seq<Action>)
    decreases |actions|
  {
    actions == [] || (Enabled(cat, s, actions[0]) && Runs(cat, Step(cat, s, actions[0]), actions[1..]))
  }

  ghost function Final(cat: Catalog, s: System, actions: seq<Action>): System
    requires Runs(cat, s, actions)
    decreases |actions|
  {
    if actions == [] then s else Final(cat, Step(cat, s, actions[0]), actions[1..])
  }

  // ---- The invariant -----------------------------------------------------------------

  ghost predicate Fresh(cat: Catalog, db: Db, k: string, v: Value) {
    k in cat && Load(cat[k], db) == Some(v)
  }

  /** A committed write still has to invalidate one of the value's tags. */
  ghost predicate Awaited(cat: Catalog, s: System, k: string, v: Value) {
    k in cat && exists id, t :: id in s.pending && t in s.pending[id] && t in CacheTags(cat[k], v)
  }

  /** One of the value's tags was invalidated after the fence, and its record will be there. */
  ghost predicate Fenceable(cat: Catalog, s: System, k: string, v: Value, since: nat, fencedAt: int) {
    k in cat && exists t :: t in CacheTags(cat[k], v) && StampedAfter(s.cache, t, since, fencedAt)
  }

  predicate StampedAfter(c: Store<Value>, t: string, since: nat, fencedAt: int) {
    t in c.fences && c.fences[t].number > since && fencedAt + FENCE_TTL_MS <= c.fences[t].expiresAt
  }

  ghost predicate Tracked(cat: Catalog, c: Store<Value>, k: string) {
    && k in cat && k in c.entries
    && forall t :: t in CacheTags(cat[k], c.entries[k].value) ==> Holds(c.sets, t, k, c.entries[k].expiresAt, c.now)
  }

  ghost predicate EntriesTracked(cat: Catalog, s: System) {
    forall k :: LiveEntry(s.cache, k) ==> Tracked(cat, s.cache, k)
  }

  ghost predicate EntriesCoherent(cat: Catalog, s: System) {
    forall k :: LiveEntry(s.cache, k) ==>
      Fresh(cat, s.db, k, s.cache.entries[k].value) || Awaited(cat, s, k, s.cache.entries[k].value)
  }

  /** The fill's script still finds every invalidation record made since its fence. */
  predicate InTime(s: System, f: Fill) { s.cache.now < f.fencedAt + FENCE_TTL_MS }

  ghost predicate FillCoherent(cat: Catalog, s: System, f: Fill) {
    && f.since <= s.cache.sequence && f.fencedAt <= s.cache.now
    && (f.Loaded? && InTime(s, f) ==>
          || Fresh(cat, s.db, f.key, f.value)
          || Awaited(cat, s, f.key, f.value)
          || Fenceable(cat, s, f.key, f.value, f.since, f.fencedAt))
  }

  /** An invalidation numbered after a fence also came after it, so its record lasts as long as the fill may take. */
  ghost predicate StampsFollow(s: System, f: Fill) {
    forall t :: t in s.cache.fences && s.cache.fences[t].number > f.since ==>
      f.fencedAt + FENCE_TTL_MS <= s.cache.fences[t].expiresAt
  }

  ghost predicate FillsOk(cat: Catalog, s: System) {
    forall p :: p in s.fills ==>
      s.fills[p].key in cat && FillCoherent(cat, s, s.fills[p]) && StampsFollow(s, s.fills[p])
  }

  ghost predicate Inv(cat: Catalog, s: System) {
    && Sound(cat, s.db)
    && StampsInOrder(s.cache)
    && EntriesTracked(cat, s)
    && EntriesCoherent(cat, s)
    && FillsOk(cat, s)
  }

  ghost predicate Quiescent(s: System) {
    forall id :: id in s.pending ==> s.pending[id] == {}
  }

  /** Every live cached entry is what its load would return now. */
  ghost predicate AgreesWithTable(cat: Catalog, s: System) {
    forall k :: LiveEntry(s.cache, k) ==> Fresh(cat, s.db, k, s.cache.entries[k].value)
  }

  ghost predicate Initial(cat: Catalog, s: System) {
    && Sound(cat, s.db) && s.cache.entries == map[] && s.cache.fences == map[]
    && s.fills == map[] && s.pending == map[]
  }

  // ---- What the runs are asked for -------------------------------------------------------

  /**
   An entry in the cache, or a value about to be stored, that the write affects and no invalidation
   to come reaches.
   */
  ghost predicate LeftStale(cat: Catalog, s: System, w: Write, k: string, v: Value) {
    && k in cat && (forall t :: t in CacheTags(cat[k], v) ==> t !in WriteTags(w)) && !Awaited(cat, s, k, v)
    && Affects(cat[k], v, s.db, w.after)
  }

  /** The write leaves no such live entry, and no such fill that would be stored. */
  ghost predicate LeavesNothingStale(cat: Catalog, s: System, w: Write) {
    && (forall k :: LiveEntry(s.cache, k) ==> !LeftStale(cat, s, w, k, s.cache.entries[k].value))
    && forall p :: p in s.fills && s.fills[p].Loaded? && InTime(s, s.fills[p]) ==>
         var f := s.fills[p];
         Fenceable(cat, s, f.key, f.value, f.since, f.fencedAt) || !LeftStale(cat, s, w, f.key, f.value)
  }

  /** The script leaves its entry in the set of each of its tags for good (TrackedExactly). */
  ghost predicate Recorded(cat: Catalog, s: System, a: Action)
    requires Enabled(cat, s, a)
  {
    a.StoreValue? ==>
      var f := s.fills[a.p];
      f.key in cat ==>
        || Whole(a.ttl) || TtlMs(a.ttl) <= 0 || IsRefused(s.cache, CacheTags(cat[f.key], f.value), Some(f.since))
        || SetsSuffice(s.cache.sets, CacheTags(cat[f.key], f.value), f.key, s.cache.now, a.ttl, true)
  }

  /** A step that breaks no promise of the caller; `limit` is how long after its fence a script may run (ms). */
  ghost predicate Careful(cat: Catalog, s: System, a: Action, limit: int)
    requires Enabled(cat, s, a)
  {
    && (a.Commit? ==> LeavesNothingStale(cat, s, a.write))
    && Recorded(cat, s, a)
    && (a.StoreValue? ==> s.cache.now < s.fills[a.p].fencedAt + limit)
  }

  ghost predicate AllRecorded(cat: Catalog, s: System, actions: seq<Action>)
    requires Runs(cat, s, actions)
    decreases |actions|
  {
    actions == [] || (Recorded(cat, s, actions[0]) && AllRecorded(cat, Step(cat, s, actions[0]), actions[1..]))
  }

  ghost predicate AllCareful(cat: Catalog, s: System, actions: seq<Action>, limit: int)
    requires Runs(cat, s, actions)
    decreases |actions|
  {
    actions == []
    || (Careful(cat, s, actions[0], limit) && AllCareful(cat, Step(cat, s, actions[0]), actions[1..], limit))
  }

  // ---- Each step keeps the invariant ---------------------------------------------------

  lemma CommitKeepsValue(cat: Catalog, s: System, id: nat, w: Write, k: string, v: Value)
    requires Inv(cat, s) && Enabled(cat, s, Commit(id, w)) && !LeftStale(cat, s, w, k, v)
    requires Fresh(cat, s.db, k, v) || Awaited(cat, s, k, v)
    ensures var s' := Step(cat, s, Commit(id, w)); Fresh(cat, s'.db, k, v) || Awaited(cat, s', k, v)
  {
    var s' := Step(cat, s, Commit(id, w));
    if Awaited(cat, s, k, v) {
      var i, t :| i in s.pending && t in s.pending[i] && t in CacheTags(cat[k], v);
      assert i in s'.pending && t in s'.pending[i];
    } else if t :| t in CacheTags(cat[k], v) && t in WriteTags(w) {
      assert t in s'.pending[id];
    } else {
      UnaffectedLoadsStay(cat, k, s.db, w.after, v);
    }
  }

  /** What a commit leaves stale is neither what its load returns nor awaited afterwards. */
  lemma LeftStaleIsWrong(cat: Catalog, s: System, id: nat, w: Write, k: string, v: Value)
    requires Inv(cat, s) && Enabled(cat, s, Commit(id, w)) && LeftStale(cat, s, w, k, v) && Fresh(cat, s.db, k, v)
    ensures var s' := Step(cat, s, Commit(id, w)); !Fresh(cat, s'.db, k, v) && !Awaited(cat, s', k, v)
  {
    AffectedLoadsChange(cat[k], s.db, w.after, v);
    var s' := Step(cat, s, Commit(id, w));
    forall i, t | i in s'.pending && t in s'.pending[i] ensures t !in CacheTags(cat[k], v) {
      assert i == id ==> t in WriteTags(w);
    }
  }

  /**
   Writes that change only what they name leave nothing stale; without `touched`, unless an entry
   embeds a row they change.
   */
  lemma NamedChangesLeaveNothingStale(cat: Catalog, s: System, w: Write)
    requires Inv(cat, s) && Sound(cat, w.after) && ChangesWhatItNames(w, s.db)
    requires w.OpenTx? ==> forall k :: k in cat && Load(cat[k], s.db).Some? ==>
               !Embeds(cat[k], Load(cat[k], s.db).value, s.db, w.after)
    ensures LeavesNothingStale(cat, s, w)
  {
    forall k, v | Fresh(cat, s.db, k, v) ensures !LeftStale(cat, s, w, k, v) {
      if forall t :: t in CacheTags(cat[k], v) ==> t !in WriteTags(w) { UnreachedLoadsStay(cat, k, s.db, w, v); }
    }
    forall p | p in s.fills && s.fills[p].Loaded? && InTime(s, s.fills[p])
      ensures var f := s.fills[p];
              Fenceable(cat, s, f.key, f.value, f.since, f.fencedAt) || !LeftStale(cat, s, w, f.key, f.value)
    {
      assert FillCoherent(cat, s, s.fills[p]);
    }
  }

  lemma CommitKeepsFill(cat: Catalog, s: System, id: nat, w: Write, p: nat)
    requires Inv(cat, s) && Enabled(cat, s, Commit(id, w)) && LeavesNothingStale(cat, s, w) && p in s.fills
    ensures FillCoherent(cat, Step(cat, s, Commit(id, w)), s.fills[p])
  {
    var f, s' := s.fills[p], Step(cat, s, Commit(id, w));
    assert FillCoherent(cat, s, f);
    if f.Loaded? && InTime(s, f) {
      if Fenceable(cat, s, f.key, f.value, f.since, f.fencedAt) {
        var t :| t in CacheTags(cat[f.key], f.value) && StampedAfter(s.cache, t, f.since, f.fencedAt);
        assert StampedAfter(s'.cache, t, f.since, f.fencedAt);
      } else {
        CommitKeepsValue(cat, s, id, w, f.key, f.value);
      }
    }
  }

  lemma CommitKeepsInv(cat: Catalog, s: System, id: nat, w: Write)
    requires Inv(cat, s) && Enabled(cat, s, Commit(id, w)) && LeavesNothingStale(cat, s, w)
    ensures Inv(cat, Step(cat, s, Commit(id, w)))
  {
    var s' := Step(cat, s, Commit(id, w));
    forall k | LiveEntry(s'.cache, k)
      ensures Fresh(cat, s'.db, k, s'.cache.entries[k].value) || Awaited(cat, s', k, s'.cache.entries[k].value)
    {
      assert LiveEntry(s.cache, k);
      CommitKeepsValue(cat, s, id, w, k, s.cache.entries[k].value);
    }
    forall p | p in s'.fills ensures FillCoherent(cat, s', s'.fills[p]) && StampsFollow(s', s'.fills[p]) {
      CommitKeepsFill(cat, s, id, w, p);
      assert StampsFollow(s, s.fills[p]);
    }
    assert forall k :: LiveEntry(s'.cache, k) ==> LiveEntry(s.cache, k);
  }

  /** A commit keeps the contract exactly when it leaves nothing stale that no invalidation will reach. */
  lemma CommitKeepsInvExactly(cat: Catalog, s: System, id: nat, w: Write)
    requires Inv(cat, s) && Enabled(cat, s, Commit(id, w))
    ensures Inv(cat, Step(cat, s, Commit(id, w))) <==> LeavesNothingStale(cat, s, w)
  {
    var s' := Step(cat, s, Commit(id, w));
    if LeavesNothingStale(cat, s, w) {
      CommitKeepsInv(cat, s, id, w);
    } else if k :| LiveEntry(s.cache, k) && LeftStale(cat, s, w, k, s.cache.entries[k].value) {
      LeftStaleIsWrong(cat, s, id, w, k, s.cache.entries[k].value);
      assert LiveEntry(s'.cache, k);
    } else {
      var p :| p in s.fills && s.fills[p].Loaded? && InTime(s, s.fills[p])
               && !Fenceable(cat, s, s.fills[p].key, s.fills[p].value, s.fills[p].since, s.fills[p].fencedAt)
               && LeftStale(cat, s, w, s.fills[p].key, s.fills[p].value);
      var f := s.fills[p];
      LeftStaleIsWrong(cat, s, id, w, f.key, f.value);
      assert !Fenceable(cat, s', f.key, f.value, f.since, f.fencedAt);
      assert s'.fills[p] == f && !FillCoherent(cat, s', f);
    }
  }

  /** An invalidation drops every live entry that carries the tag. */
  lemma InvalidateDropsTagged(cat: Catalog, s: System, tag: string, k: string)
    requires EntriesTracked(cat, s) && LiveEntry(s.cache, k)
    requires tag in CacheTags(cat[k], s.cache.entries[k].value)
    ensures !LiveEntry(InvalidateScript(s.cache, tag), k)
  {
    assert Holds(s.cache.sets, tag, k, s.cache.entries[k].expiresAt, s.cache.now);
  }

  lemma InvalidateKeepsTracked(cat: Catalog, s: System, tag: string, k: string)
    requires EntriesTracked(cat, s) && LiveEntry(InvalidateScript(s.cache, tag), k)
    ensures LiveEntry(s.cache, k) && s.cache.entries[k] == InvalidateScript(s.cache, tag).entries[k]
    ensures Tracked(cat, InvalidateScript(s.cache, tag), k) && tag !in CacheTags(cat[k], s.cache.entries[k].value)
  {
    assert Tracked(cat, s.cache, k);
    var v := s.cache.entries[k].value;
    if tag in CacheTags(cat[k], v) { InvalidateDropsTagged(cat, s, tag, k); }
    forall t | t in CacheTags(cat[k], v)
      ensures Holds(InvalidateScript(s.cache, tag).sets, t, k, s.cache.entries[k].expiresAt, s.cache.now)
    {
      assert Holds(s.cache.sets, t, k, s.cache.entries[k].expiresAt, s.cache.now);
    }
  }

  lemma InvalidateKeepsInv(cat: Catalog, s: System, tag: string, pending: map<nat, set<string>>)
    requires Inv(cat, s)
    requires forall id, t :: id in s.pending && t in s.pending[id] && t != tag ==> id in pending && t in pending[id]
    ensures Inv(cat, s.(cache := InvalidateScript(s.cache, tag), pending := pending))
  {
    var s' := s.(cache := InvalidateScript(s.cache, tag), pending := pending);
    forall k | LiveEntry(s'.cache, k)
      ensures Tracked(cat, s'.cache, k)
      ensures Fresh(cat, s'.db, k, s'.cache.entries[k].value) || Awaited(cat, s', k, s'.cache.entries[k].value)
    {
      InvalidateKeepsTracked(cat, s, tag, k);
      var v := s.cache.entries[k].value;
      if !Fresh(cat, s.db, k, v) {
        var id, t :| id in s.pending && t in s.pending[id] && t in CacheTags(cat[k], v);
        assert id in s'.pending && t in s'.pending[id];
      }
    }
    forall p | p in s'.fills ensures FillCoherent(cat, s', s'.fills[p]) && StampsFollow(s', s'.fills[p]) {
      InvalidateKeepsFill(cat, s, tag, pending, s.fills[p]);
    }
  }

  lemma InvalidateKeepsFill(cat: Catalog, s: System, tag: string, pending: map<nat, set<string>>, f: Fill)
    requires f.key in cat && FillCoherent(cat, s, f) && StampsFollow(s, f) && StampsInOrder(s.cache)
    requires forall id, t :: id in s.pending && t in s.pending[id] && t != tag ==> id in pending && t in pending[id]
    ensures FillCoherent(cat, s.(cache := InvalidateScript(s.cache, tag), pending := pending), f)
    ensures StampsFollow(s.(cache := InvalidateScript(s.cache, tag), pending := pending), f)
  {
    var s' := s.(cache := InvalidateScript(s.cache, tag), pending := pending);
    if f.Loaded? && InTime(s, f) && !Fresh(cat, s.db, f.key, f.value) {
      var tags := CacheTags(cat[f.key], f.value);
      if tag in tags {
        assert StampedAfter(s'.cache, tag, f.since, f.fencedAt);
      } else if Awaited(cat, s, f.key, f.value) {
        var id, t :| id in s.pending && t in s.pending[id] && t in tags;
        assert id in s'.pending && t in s'.pending[id];
      } else {
        var t :| t in tags && StampedAfter(s.cache, t, f.since, f.fencedAt);
        assert StampedAfter(s'.cache, t, f.since, f.fencedAt);
      }
    }
  }

  /** Until FENCE_TTL_MS after the fence, TAG_SCRIPT still finds the record of a later invalidation. */
  lemma StampedIsRefused(cat: Catalog, s: System, f: Fill)
    requires f.Loaded? && InTime(s, f) && Fenceable(cat, s, f.key, f.value, f.since, f.fencedAt)
    ensures IsRefused(s.cache, CacheTags(cat[f.key], f.value), Some(f.since))
  {
    var tags := CacheTags(cat[f.key], f.value);
    var t :| t in tags && StampedAfter(s.cache, t, f.since, f.fencedAt);
    var i :| 0 <= i < |tags| && tags[i] == t;
    assert InvalidatedSince(s.cache, tags[i], f.since);
  }

  lemma RefusedIsStamped(cat: Catalog, s: System, f: Fill)
    requires f.Loaded? && f.key in cat && StampsFollow(s, f)
    requires IsRefused(s.cache, CacheTags(cat[f.key], f.value), Some(f.since))
    ensures Fenceable(cat, s, f.key, f.value, f.since, f.fencedAt)
  {
    var tags := CacheTags(cat[f.key], f.value);
    var i :| 0 <= i < |tags| && InvalidatedSince(s.cache, tags[i], f.since);
    assert StampedAfter(s.cache, tags[i], f.since, f.fencedAt);
  }

  /** The script leaves its own entry tracked, whatever it does to the others. */
  lemma StoredEntryTracked(cat: Catalog, s: System, a: Action)
    requires a.StoreValue? && Enabled(cat, s, a) && Recorded(cat, s, a) && s.fills[a.p].key in cat
    requires !IsRefused(s.cache, CacheTags(cat[s.fills[a.p].key], s.fills[a.p].value), Some(s.fills[a.p].since))
    requires TtlMs(a.ttl) > 0
    ensures Tracked(cat, Step(cat, s, a).cache, s.fills[a.p].key)
    ensures Step(cat, s, a).cache.entries[s.fills[a.p].key].value == s.fills[a.p].value
  {
    var f, s' := s.fills[a.p], Step(cat, s, a);
    var tags := CacheTags(cat[f.key], f.value);
    TrackedExactly(s.cache, f.key, f.value, tags, a.ttl, Some(f.since), true);
    forall t | t in tags ensures Holds(s'.cache.sets, t, f.key, s'.cache.entries[f.key].expiresAt, s.cache.now) {
      var i :| 0 <= i < |tags| && tags[i] == t;
      assert Listed(s'.cache.sets, tags[i], f.key, s.cache.now + TtlMs(a.ttl), s.cache.now, true);
    }
  }

  lemma OtherEntryTracked(cat: Catalog, s: System, a: Action, k: string)
    requires EntriesTracked(cat, s) && a.StoreValue? && Enabled(cat, s, a)
    requires LiveEntry(s.cache, k) && k in Step(cat, s, a).cache.entries
    requires Step(cat, s, a).cache.entries[k] == s.cache.entries[k] && s.fills[a.p].key in cat
    ensures Tracked(cat, Step(cat, s, a).cache, k)
  {
    var f, s' := s.fills[a.p], Step(cat, s, a);
    assert Tracked(cat, s.cache, k);
    forall t | t in CacheTags(cat[k], s.cache.entries[k].value)
      ensures Holds(s'.cache.sets, t, k, s.cache.entries[k].expiresAt, s.cache.now)
    {
      assert Holds(s.cache.sets, t, k, s.cache.entries[k].expiresAt, s.cache.now);
      OthersStayTracked(s.cache, f.key, f.value, CacheTags(cat[f.key], f.value), a.ttl, Some(f.since),
                        t, k, s.cache.entries[k].expiresAt);
    }
  }

  /** The entry is the fill's, just written. */
  ghost predicate Writes(cat: Catalog, s: System, a: Action, k: string)
    requires a.StoreValue? && Enabled(cat, s, a)
  {
    var f := s.fills[a.p];
    k == f.key && f.key in cat && TtlMs(a.ttl) > 0
    && !IsRefused(s.cache, CacheTags(cat[f.key], f.value), Some(f.since))
  }

  lemma StoredEntryCoherent(cat: Catalog, s: System, a: Action)
    requires Inv(cat, s) && a.StoreValue? && Enabled(cat, s, a) && InTime(s, s.fills[a.p])
    requires Writes(cat, s, a, s.fills[a.p].key)
    ensures var f, s' := s.fills[a.p], Step(cat, s, a);
            Fresh(cat, s'.db, f.key, f.value) || Awaited(cat, s', f.key, f.value)
  {
    var f, s' := s.fills[a.p], Step(cat, s, a);
    assert FillCoherent(cat, s, f);
    if Fenceable(cat, s, f.key, f.value, f.since, f.fencedAt) { StampedIsRefused(cat, s, f); }
    assert Awaited(cat, s, f.key, f.value) ==> Awaited(cat, s', f.key, f.value);
  }

  lemma StoreKeepsTracked(cat: Catalog, s: System, a: Action, k: string)
    requires EntriesTracked(cat, s) && a.StoreValue? && Enabled(cat, s, a) && Recorded(cat, s, a)
    requires s.fills[a.p].key in cat && LiveEntry(Step(cat, s, a).cache, k)
    ensures Tracked(cat, Step(cat, s, a).cache, k)
    ensures Writes(cat, s, a, k) || (LiveEntry(s.cache, k) && Step(cat, s, a).cache.entries[k] == s.cache.entries[k])
  {
    if Writes(cat, s, a, k) { StoredEntryTracked(cat, s, a); } else { OtherEntryTracked(cat, s, a, k); }
  }

  lemma StoreKeepsInv(cat: Catalog, s: System, a: Action)
    requires Inv(cat, s) && a.StoreValue? && Enabled(cat, s, a) && Recorded(cat, s, a) && InTime(s, s.fills[a.p])
    ensures Inv(cat, Step(cat, s, a))
  {
    var f, s' := s.fills[a.p], Step(cat, s, a);
    forall p | p in s'.fills ensures FillCoherent(cat, s', s'.fills[p]) && StampsFollow(s', s'.fills[p]) {
      CacheChangeKeepsFill(cat, s, s', s.fills[p]);
    }
    forall k | LiveEntry(s'.cache, k)
      ensures Tracked(cat, s'.cache, k)
      ensures Fresh(cat, s'.db, k, s'.cache.entries[k].value) || Awaited(cat, s', k, s'.cache.entries[k].value)
    {
      StoreKeepsTracked(cat, s, a, k);
      if Writes(cat, s, a, k) {
        StoredEntryCoherent(cat, s, a);
        StoredEntryTracked(cat, s, a);
      } else {
        assert Awaited(cat, s, k, s.cache.entries[k].value) ==> Awaited(cat, s', k, s.cache.entries[k].value);
      }
    }
  }

  lemma CacheChangeKeepsFill(cat: Catalog, s: System, s': System, f: Fill)
    requires FillCoherent(cat, s, f) && StampsFollow(s, f)
    requires s'.db == s.db && s'.pending == s.pending && s'.cache.fences == s.cache.fences
    requires s'.cache.sequence == s.cache.sequence && s.cache.now <= s'.cache.now
    ensures FillCoherent(cat, s', f) && StampsFollow(s', f)
  {
    if f.Loaded? && Fenceable(cat, s, f.key, f.value, f.since, f.fencedAt) {
      var t :| t in CacheTags(cat[f.key], f.value) && StampedAfter(s.cache, t, f.since, f.fencedAt);
      assert StampedAfter(s'.cache, t, f.since, f.fencedAt);
    }
  }

  /** Fences, loads and abandoned fills. */
  lemma FillStepKeepsInv(cat: Catalog, s: System, a: Action)
    requires Inv(cat, s) && Enabled(cat, s, a) && (a.TakeFence? || a.LoadValue? || a.GiveUp?)
    ensures Inv(cat, Step(cat, s, a))
  {
    var s' := Step(cat, s, a);
    forall p | p in s'.fills
      ensures s'.fills[p].key in cat && FillCoherent(cat, s', s'.fills[p]) && StampsFollow(s', s'.fills[p])
    {
      if p in s.fills { CacheChangeKeepsFill(cat, s, s', s.fills[p]); }
    }
    forall k, v | Awaited(cat, s, k, v) ensures Awaited(cat, s', k, v) {
      var id, t :| id in s.pending && t in s.pending[id] && t in CacheTags(cat[k], v);
    }
    assert EntriesTracked(cat, s') && EntriesCoherent(cat, s');
  }

  lemma TickKeepsTracked(cat: Catalog, c: Store<Value>, ms: nat, k: string)
    requires k in cat && Tracked(cat, c, k)
    ensures Tracked(cat, c.(now := c.now + ms), k)
  {
    forall t | t in CacheTags(cat[k], c.entries[k].value)
      ensures Holds(c.sets, t, k, c.entries[k].expiresAt, c.now + ms)
    {
      assert Holds(c.sets, t, k, c.entries[k].expiresAt, c.now);
    }
  }

  lemma TickKeepsInv(cat: Catalog, s: System, ms: nat)
    requires Inv(cat, s)
    ensures Inv(cat, Step(cat, s, Tick(ms)))
  {
    var s' := Step(cat, s, Tick(ms));
    forall p | p in s'.fills
      ensures s'.fills[p].key in cat && FillCoherent(cat, s', s'.fills[p]) && StampsFollow(s', s'.fills[p])
    {
      CacheChangeKeepsFill(cat, s, s', s.fills[p]);
    }
    forall k | LiveEntry(s'.cache, k)
      ensures Tracked(cat, s'.cache, k)
      ensures Fresh(cat, s'.db, k, s'.cache.entries[k].value) || Awaited(cat, s', k, s'.cache.entries[k].value)
    {
      assert LiveEntry(s.cache, k) && Tracked(cat, s.cache, k);
      TickKeepsTracked(cat, s.cache, ms, k);
      var v := s.cache.entries[k].value;
      assert Awaited(cat, s, k, v) ==> Awaited(cat, s', k, v);
    }
  }

  lemma StepKeepsInv(cat: Catalog, s: System, a: Action)
    requires Inv(cat, s) && Enabled(cat, s, a) && Careful(cat, s, a, FENCE_TTL_MS)
    ensures Inv(cat, Step(cat, s, a))
  {
    match a
    case Commit(id, w) => CommitKeepsInv(cat, s, id, w);
    case StoreValue(_, _, _, _) => StoreKeepsInv(cat, s, a);
    case Invalidate(id, tag) => InvalidateKeepsInv(cat, s, tag, s.pending[id := s.pending[id] - {tag}]);
    case InvalidateAnyTag(tag) => InvalidateKeepsInv(cat, s, tag, s.pending);
    case Tick(ms) => TickKeepsInv(cat, s, ms);
    case _ => FillStepKeepsInv(cat, s, a);
  }

  lemma {:induction false} RunKeepsInv(cat: Catalog, s: System, actions: seq<Action>)
    requires Inv(cat, s) && Runs(cat, s, actions) && AllCareful(cat, s, actions, FENCE_TTL_MS)
    ensures Inv(cat, Final(cat, s, actions))
    decreases |actions|
  {
    if actions != [] {
      StepKeepsInv(cat, s, actions[0]);
      RunKeepsInv(cat, Step(cat, s, actions[0]), actions[1..]);
    }
  }

  // ---- Main results ------------------------------------------------------------------

  /**
   In every interleaving, whenever no write is between its commit and its last
   invalidation, every live cached entry is what its load would return now.
   */
  lemma CacheAgreesWithTable(cat: Catalog, s: System, actions: seq<Action>)
    requires Initial(cat, s) && Runs(cat, s, actions) && AllCareful(cat, s, actions, FENCE_TTL_MS)
    requires Quiescent(Final(cat, s, actions))
    ensures AgreesWithTable(cat, Final(cat, s, actions))
  {
    RunKeepsInv(cat, s, actions);
  }

  /**
   At every moment, an entry that is not what its load returns now carries a tag some write still
   has to invalidate.
   */
  lemma StaleEntriesAreAwaited(cat: Catalog, s: System, actions: seq<Action>, k: string)
    requires Initial(cat, s) && Runs(cat, s, actions) && AllCareful(cat, s, actions, FENCE_TTL_MS)
    requires LiveEntry(Final(cat, s, actions).cache, k)
    requires !Fresh(cat, Final(cat, s, actions).db, k, Final(cat, s, actions).cache.entries[k].value)
    ensures Awaited(cat, Final(cat, s, actions), k, Final(cat, s, actions).cache.entries[k].value)
  {
    RunKeepsInv(cat, s, actions);
  }

  /** Tag tracking by itself: no matter what commits change and how late scripts run. */
  ghost predicate TrackingInv(cat: Catalog, s: System) {
    EntriesTracked(cat, s) && forall p :: p in s.fills ==> s.fills[p].key in cat
  }

  lemma StepKeepsTracking(cat: Catalog, s: System, a: Action)
    requires TrackingInv(cat, s) && Enabled(cat, s, a) && Recorded(cat, s, a)
    ensures TrackingInv(cat, Step(cat, s, a))
  {
    var s' := Step(cat, s, a);
    forall k | LiveEntry(s'.cache, k) ensures Tracked(cat, s'.cache, k) {
      match a
      case StoreValue(_, _, _, _) => StoreKeepsTracked(cat, s, a, k);
      case Invalidate(_, tag) => InvalidateKeepsTracked(cat, s, tag, k);
      case InvalidateAnyTag(tag) => InvalidateKeepsTracked(cat, s, tag, k);
      case Tick(ms) =>
        assert LiveEntry(s.cache, k) && Tracked(cat, s.cache, k);
        TickKeepsTracked(cat, s.cache, ms, k);
      case _ => assert LiveEntry(s.cache, k) && Tracked(cat, s.cache, k);
    }
  }

  lemma {:induction false} RunKeepsTracking(cat: Catalog, s: System, actions: seq<Action>)
    requires TrackingInv(cat, s) && Runs(cat, s, actions) && AllRecorded(cat, s, actions)
    ensures TrackingInv(cat, Final(cat, s, actions))
    decreases |actions|
  {
    if actions != [] {
      StepKeepsTracking(cat, s, actions[0]);
      RunKeepsTracking(cat, Step(cat, s, actions[0]), actions[1..]);
    }
  }

  /** At every moment, each live entry is in the live set of each of its tags. */
  lemma ExpiryNeverLosesAnEntry(cat: Catalog, s: System, actions: seq<Action>, k: string, t: string)
    requires Initial(cat, s) && Runs(cat, s, actions) && AllRecorded(cat, s, actions)
    requires LiveEntry(Final(cat, s, actions).cache, k)
    requires k in cat && t in CacheTags(cat[k], Final(cat, s, actions).cache.entries[k].value)
    ensures k in SetAt(Final(cat, s, actions).cache.sets, t, Final(cat, s, actions).cache.now).members
  {
    RunKeepsTracking(cat, s, actions);
    var c := Final(cat, s, actions).cache;
    assert Tracked(cat, c, k);
    assert Holds(c.sets, t, k, c.entries[k].expiresAt, c.now);
  }

  lemma StampOutlastsStep(cat: Catalog, s: System, a: Action, t: string, since: nat, fencedAt: int)
    requires StampsInOrder(s.cache) && Enabled(cat, s, a) && StampedAfter(s.cache, t, since, fencedAt)
    ensures StampsInOrder(Step(cat, s, a).cache) && StampedAfter(Step(cat, s, a).cache, t, since, fencedAt)
  {
  }

  lemma {:induction false} StampStays(
      cat: Catalog, s: System, actions: seq<Action>, t: string, since: nat, fencedAt: int)
    requires StampsInOrder(s.cache) && Runs(cat, s, actions)
    requires StampedAfter(s.cache, t, since, fencedAt)
    ensures StampedAfter(Final(cat, s, actions).cache, t, since, fencedAt)
    decreases |actions|
  {
    if actions != [] {
      StampOutlastsStep(cat, s, actions[0], t, since, fencedAt);
      StampStays(cat, Step(cat, s, actions[0]), actions[1..], t, since, fencedAt);
    }
  }

  /**
   A fill whose tag is invalidated between its fence and its script is refused, whatever
   happens in between, as long as the script runs within FENCE_TTL_MS of the fence.
   */
  lemma LateFillIsRefused(cat: Catalog, s: System, tag: string, actions: seq<Action>, f: Fill, a: Action)
    requires StampsInOrder(s.cache) && f.Loaded? && f.since <= s.cache.sequence && f.fencedAt <= s.cache.now
    requires f.key in cat && tag in CacheTags(cat[f.key], f.value)
    requires Runs(cat, Step(cat, s, InvalidateAnyTag(tag)), actions)
    requires a.StoreValue?
    requires var s1 := Final(cat, Step(cat, s, InvalidateAnyTag(tag)), actions);
             a.p in s1.fills && s1.fills[a.p] == f && Enabled(cat, s1, a) && InTime(s1, f)
    ensures var s1 := Final(cat, Step(cat, s, InvalidateAnyTag(tag)), actions);
            Step(cat, s1, a).cache == s1.cache.(entries := s1.cache.entries - {f.key})
  {
    var s0 := Step(cat, s, InvalidateAnyTag(tag));
    StampStays(cat, s0, actions, tag, f.since, f.fencedAt);
    StampedIsRefused(cat, Final(cat, s0, actions), f);
  }

  // ---- A write and its invalidations --------------------------------------------------------

  /** Whatever carefully happens next, the cache agrees with the table whenever no write is half done. */
  ghost predicate Safe(cat: Catalog, s: System) {
    forall actions ::
      Runs(cat, s, actions) && AllCareful(cat, s, actions, FENCE_TTL_MS) && Quiescent(Final(cat, s, actions))
      ==> AgreesWithTable(cat, Final(cat, s, actions))
  }

  /** The key is in none of these tags' sets. */
  ghost predicate Survives(c: Store<Value>, k: string, tags: set<string>) {
    forall t :: t in tags ==> k !in SetAt(c.sets, t, c.now).members
  }

  /**
   What can be checked before the write: it affects no live entry outside the sets of its tags, and
   no loaded value without any of its tags that would still be stored.
   */
  ghost predicate WriteIsHarmless(cat: Catalog, s: System, w: Write) {
    && (forall k :: LiveEntry(s.cache, k) && Survives(s.cache, k, WriteTags(w)) ==>
          k in cat && !Affects(cat[k], s.cache.entries[k].value, s.db, w.after))
    && forall p :: p in s.fills && s.fills[p].Loaded? && InTime(s, s.fills[p]) ==> FillIsHarmless(cat, s, w, s.fills[p])
  }

  ghost predicate FillIsHarmless(cat: Catalog, s: System, w: Write, f: Fill)
    requires f.Loaded?
  {
    f.key in cat &&
    var tags := CacheTags(cat[f.key], f.value);
    || (exists t :: t in tags && t in WriteTags(w))
    || IsRefused(s.cache, tags, Some(f.since))
    || !Affects(cat[f.key], f.value, s.db, w.after)
  }

  /** The cache after these tags are invalidated, one after the other. */
  function Invalidated(c: Store<Value>, order: seq<string>): Store<Value> {
    if order == [] then c else InvalidateScript(Invalidated(c, order[..|order| - 1]), order[|order| - 1])
  }

  lemma {:induction false} InvalidatedIs(c: Store<Value>, order: seq<string>, tags: set<string>)
    requires forall t :: t in order <==> t in tags
    ensures var after := Invalidated(c, order);
            && after.now == c.now && after.sequence == c.sequence + |order| && after.sets == c.sets - tags
            && (forall k :: k in after.entries <==> k in c.entries && Survives(c, k, tags))
            && (forall k :: k in after.entries ==> after.entries[k] == c.entries[k])
    ensures StampedOnly(c, Invalidated(c, order), tags)
    decreases |order|
  {
    if order != [] {
      var last, rest := order[|order| - 1], order[..|order| - 1];
      var restTags := set t | t in rest;
      assert order == rest + [last];
      InvalidatedIs(c, rest, restTags);
      assert tags == restTags + {last};
      var before := Invalidated(c, rest);
      forall k ensures k in InvalidateScript(before, last).entries <==> k in c.entries && Survives(c, k, tags) {
        assert last in restTags ==> SetAt(before.sets, last, c.now).members == {};
        assert last !in restTags ==> SetAt(before.sets, last, c.now) == SetAt(c.sets, last, c.now);
        assert Survives(c, k, tags) <==> Survives(c, k, restTags) && k !in SetAt(c.sets, last, c.now).members;
      }
    }
  }

  /** These tags, and no others, have new records, numbered after all that was before. */
  ghost predicate StampedOnly(c: Store<Value>, after: Store<Value>, tags: set<string>) {
    && (forall t :: t in tags ==> t in after.fences && c.sequence < after.fences[t].number <= after.sequence
                                  && after.fences[t].expiresAt == c.now + FENCE_TTL_MS)
    && forall t :: t !in tags ==> (t in after.fences <==> t in c.fences)
                                  && (t in c.fences ==> after.fences[t] == c.fences[t])
  }

  /** The write committed and its tags invalidated in this order. */
  function AfterWrite(s: System, id: nat, w: Write, order: seq<string>): System {
    System(w.after, Invalidated(s.cache, order), s.fills, s.pending[id := {}])
  }

  /** The order names the write's tags. */
  ghost predicate OrderOf(w: Write, order: seq<string>) { forall t :: t in order <==> t in WriteTags(w) }

  /** A commit from an up-to-date cache; `order` is how its tags are invalidated. */
  ghost predicate CleanCommit(cat: Catalog, s: System, id: nat, w: Write, order: seq<string>) {
    Inv(cat, s) && Quiescent(s) && id !in s.pending && Sound(cat, w.after) && OrderOf(w, order)
  }

  lemma SurvivorStays(cat: Catalog, s: System, id: nat, w: Write, order: seq<string>, k: string)
    requires CleanCommit(cat, s, id, w, order) && LiveEntry(AfterWrite(s, id, w, order).cache, k)
    ensures LiveEntry(s.cache, k) && Survives(s.cache, k, WriteTags(w))
    ensures s.cache.entries[k] == AfterWrite(s, id, w, order).cache.entries[k]
    ensures k in cat && Tracked(cat, AfterWrite(s, id, w, order).cache, k)
    ensures Fresh(cat, w.after, k, s.cache.entries[k].value)
            <==> !Affects(cat[k], s.cache.entries[k].value, s.db, w.after)
  {
    InvalidatedIs(s.cache, order, WriteTags(w));
    var v, after := s.cache.entries[k].value, Invalidated(s.cache, order);
    assert Tracked(cat, s.cache, k) && Fresh(cat, s.db, k, v);
    forall t | t in CacheTags(cat[k], v) ensures Holds(after.sets, t, k, s.cache.entries[k].expiresAt, s.cache.now) {
      assert Holds(s.cache.sets, t, k, s.cache.entries[k].expiresAt, s.cache.now);
      assert t !in WriteTags(w);
    }
    LoadChangesExactly(cat, k, s.db, w.after, v);
  }

  lemma HarmlessFillStays(cat: Catalog, s: System, id: nat, w: Write, order: seq<string>, f: Fill)
    requires OrderOf(w, order) && Quiescent(s) && StampsInOrder(s.cache) && Sound(cat, w.after)
    requires f.key in cat && FillCoherent(cat, s, f) && StampsFollow(s, f)
    requires f.Loaded? && InTime(s, f) ==> FillIsHarmless(cat, s, w, f)
    ensures FillCoherent(cat, AfterWrite(s, id, w, order), f) && StampsFollow(AfterWrite(s, id, w, order), f)
  {
    var s2 := AfterWrite(s, id, w, order);
    InvalidatedIs(s.cache, order, WriteTags(w));
    if f.Loaded? && InTime(s, f) {
      var tags := CacheTags(cat[f.key], f.value);
      if t :| t in tags && t in WriteTags(w) {
        assert StampedAfter(s2.cache, t, f.since, f.fencedAt);
      } else {
        if IsRefused(s.cache, tags, Some(f.since)) { RefusedIsStamped(cat, s, f); }
        if Fenceable(cat, s, f.key, f.value, f.since, f.fencedAt) {
          var t :| t in tags && StampedAfter(s.cache, t, f.since, f.fencedAt);
          assert StampedAfter(s2.cache, t, f.since, f.fencedAt);
        } else {
          assert !Awaited(cat, s, f.key, f.value);
          UnaffectedLoadsStay(cat, f.key, s.db, w.after, f.value);
        }
      }
    }
  }

  /** From an up-to-date cache, a harmless write keeps the whole contract. */
  lemma HarmlessKeepsInv(cat: Catalog, s: System, id: nat, w: Write, order: seq<string>)
    requires CleanCommit(cat, s, id, w, order) && WriteIsHarmless(cat, s, w)
    ensures Inv(cat, AfterWrite(s, id, w, order))
  {
    var s2 := AfterWrite(s, id, w, order);
    InvalidatedIs(s.cache, order, WriteTags(w));
    forall k | LiveEntry(s2.cache, k)
      ensures Tracked(cat, s2.cache, k) && Fresh(cat, s2.db, k, s2.cache.entries[k].value)
    {
      SurvivorStays(cat, s, id, w, order, k);
    }
    forall p | p in s2.fills ensures FillCoherent(cat, s2, s2.fills[p]) && StampsFollow(s2, s2.fills[p]) {
      HarmlessFillStays(cat, s, id, w, order, s.fills[p]);
    }
    assert StampsInOrder(s2.cache);
  }

  lemma StaleNowIsUnsafe(cat: Catalog, s: System, k: string)
    requires Quiescent(s) && LiveEntry(s.cache, k) && !Fresh(cat, s.db, k, s.cache.entries[k].value)
    ensures !Safe(cat, s)
  {
    assert Runs(cat, s, []) && AllCareful(cat, s, [], FENCE_TTL_MS) && Final(cat, s, []) == s;
  }

  /** A harmful live entry is stale at once. */
  lemma HarmfulEntryIsStale(cat: Catalog, s: System, id: nat, w: Write, order: seq<string>, k: string)
    requires CleanCommit(cat, s, id, w, order) && LiveEntry(s.cache, k) && Survives(s.cache, k, WriteTags(w))
    requires k in cat && Affects(cat[k], s.cache.entries[k].value, s.db, w.after)
    ensures !Safe(cat, AfterWrite(s, id, w, order))
  {
    InvalidatedIs(s.cache, order, WriteTags(w));
    assert LiveEntry(AfterWrite(s, id, w, order).cache, k);
    SurvivorStays(cat, s, id, w, order, k);
    StaleNowIsUnsafe(cat, AfterWrite(s, id, w, order), k);
  }

  /** A loaded value that is wrong by now, and that no invalidation refuses, turns the cache stale when stored. */
  lemma StoringWrongValueIsUnsafe(cat: Catalog, s: System, p: nat)
    requires Quiescent(s) && p in s.fills && s.fills[p].Loaded? && s.fills[p].key in cat
    requires s.fills[p].fencedAt <= s.cache.now && InTime(s, s.fills[p])
    requires !IsRefused(s.cache, CacheTags(cat[s.fills[p].key], s.fills[p].value), Some(s.fills[p].since))
    requires !Fresh(cat, s.db, s.fills[p].key, s.fills[p].value)
    ensures !Safe(cat, s)
  {
    var f := s.fills[p];
    assert (60.0 as real).Floor == 60 && TtlMs(60.0) == 60000;
    var a := StoreValue(p, s.cache.now, s.cache.now, 60.0);
    var s' := Step(cat, s, a);
    StoredEntryTracked(cat, s, a);
    TrackedExactly(s.cache, f.key, f.value, CacheTags(cat[f.key], f.value), 60.0, Some(f.since), true);
    assert LiveEntry(s'.cache, f.key) && !AgreesWithTable(cat, s');
    assert [a][1..] == [] && Runs(cat, s', []) && AllCareful(cat, s', [], FENCE_TTL_MS);
    assert Runs(cat, s, [a]) && AllCareful(cat, s, [a], FENCE_TTL_MS) && Final(cat, s, [a]) == s';
  }

  /** Invalidating other tags refuses nothing more. */
  lemma OtherTagsRefuseNothing(c: Store<Value>, w: Write, order: seq<string>, tags: seq<string>, since: nat)
    requires OrderOf(w, order) && (forall t :: t in tags ==> t !in WriteTags(w)) && !IsRefused(c, tags, Some(since))
    ensures !IsRefused(Invalidated(c, order), tags, Some(since))
  {
    InvalidatedIs(c, order, WriteTags(w));
    forall i | 0 <= i < |tags| ensures !InvalidatedSince(Invalidated(c, order), tags[i], since) {
      assert !InvalidatedSince(c, tags[i], since) && tags[i] !in WriteTags(w);
    }
  }

  lemma HarmfulFillIsWrong(cat: Catalog, s: System, w: Write, f: Fill)
    requires f.Loaded? && InTime(s, f) && f.key in cat && FillCoherent(cat, s, f) && Quiescent(s)
    requires !FillIsHarmless(cat, s, w, f)
    ensures Load(cat[f.key], w.after) != Some(f.value)
  {
    if Fenceable(cat, s, f.key, f.value, f.since, f.fencedAt) { StampedIsRefused(cat, s, f); }
    assert !Awaited(cat, s, f.key, f.value);
    AffectedLoadsChange(cat[f.key], s.db, w.after, f.value);
  }

  /** A harmful loaded value is stale once its script stores it. */
  lemma HarmfulFillTurnsStale(cat: Catalog, s: System, id: nat, w: Write, order: seq<string>, p: nat)
    requires Quiescent(s) && OrderOf(w, order)
    requires p in s.fills && s.fills[p].Loaded? && s.fills[p].key in cat && FillCoherent(cat, s, s.fills[p])
    requires InTime(s, s.fills[p]) && !FillIsHarmless(cat, s, w, s.fills[p])
    ensures !Safe(cat, AfterWrite(s, id, w, order))
  {
    var f := s.fills[p];
    HarmfulFillIsWrong(cat, s, w, f);
    OtherTagsRefuseNothing(s.cache, w, order, CacheTags(cat[f.key], f.value), f.since);
    InvalidatedIs(s.cache, order, WriteTags(w));
    StoringWrongValueIsUnsafe(cat, AfterWrite(s, id, w, order), p);
  }

  lemma InvIsSafe(cat: Catalog, s: System)
    requires Inv(cat, s)
    ensures Safe(cat, s)
  {
    forall actions |
      Runs(cat, s, actions) && AllCareful(cat, s, actions, FENCE_TTL_MS) && Quiescent(Final(cat, s, actions))
      ensures AgreesWithTable(cat, Final(cat, s, actions))
    {
      RunKeepsInv(cat, s, actions);
    }
  }

  /**
   From an up-to-date cache, after a write and the invalidation of its tags in any order, the cache
   stays right ever after, and the contract is kept, exactly when the write is harmless: nothing it
   affects is left behind, stored or about to be.
   */
  lemma WriteExactly(cat: Catalog, s: System, id: nat, w: Write, order: seq<string>)
    requires CleanCommit(cat, s, id, w, order)
    ensures Safe(cat, AfterWrite(s, id, w, order)) <==> WriteIsHarmless(cat, s, w)
    ensures Inv(cat, AfterWrite(s, id, w, order)) <==> WriteIsHarmless(cat, s, w)
  {
    var s2 := AfterWrite(s, id, w, order);
    if Inv(cat, s2) { InvIsSafe(cat, s2); }
    if WriteIsHarmless(cat, s, w) {
      HarmlessKeepsInv(cat, s, id, w, order);
    } else if k :| LiveEntry(s.cache, k) && Survives(s.cache, k, WriteTags(w))
                   && !(k in cat && !Affects(cat[k], s.cache.entries[k].value, s.db, w.after)) {
      assert Tracked(cat, s.cache, k);
      HarmfulEntryIsStale(cat, s, id, w, order, k);
    } else {
      var p :| p in s.fills && s.fills[p].Loaded? && InTime(s, s.fills[p]) && !FillIsHarmless(cat, s, w, s.fills[p]);
      HarmfulFillTurnsStale(cat, s, id, w, order, p);
    }
  }

  /** Runs that end in a given state, built up step by step. */
  ghost predicate Leads(cat: Catalog, s: System, actions: seq<Action>, s': System) {
    Runs(cat, s, actions) && Final(cat, s, actions) == s'
  }

  lemma {:induction false} LeadsOn(cat: Catalog, s: System, actions: seq<Action>, s': System, a: Action)
    requires Leads(cat, s, actions, s') && Enabled(cat, s', a)
    ensures Leads(cat, s, actions + [a], Step(cat, s', a))
    decreases |actions|
  {
    if actions == [] {
      assert Runs(cat, Step(cat, s, a), []) && ([] + [a])[1..] == [];
    } else {
      LeadsOn(cat, Step(cat, s, actions[0]), actions[1..], s', a);
      assert (actions + [a])[1..] == actions[1..] + [a];
    }
  }

  function Invalidations(id: nat, order: seq<string>): seq<Action> {
    if order == [] then [] else Invalidations(id, order[..|order| - 1]) + [Invalidate(id, order[|order| - 1])]
  }

  /** The write committed and the first of its tags invalidated. */
  ghost function MidWrite(s: System, id: nat, w: Write, done: seq<string>): System {
    System(w.after, Invalidated(s.cache, done), s.fills, s.pending[id := WriteTags(w) - set t | t in done])
  }

  lemma MidStep(cat: Catalog, s: System, id: nat, w: Write, rest: seq<string>, last: string)
    requires last in WriteTags(w) && last !in rest
    ensures Enabled(cat, MidWrite(s, id, w, rest), Invalidate(id, last))
    ensures Step(cat, MidWrite(s, id, w, rest), Invalidate(id, last)) == MidWrite(s, id, w, rest + [last])
  {
    assert (rest + [last])[..|rest|] == rest;
    assert WriteTags(w) - (set t | t in rest + [last]) == WriteTags(w) - (set t | t in rest) - {last};
    var mid := MidWrite(s, id, w, rest);
    assert mid.pending[id := mid.pending[id] - {last}] == MidWrite(s, id, w, rest + [last]).pending;
  }

  lemma CommitRun(cat: Catalog, s: System, id: nat, w: Write)
    requires id !in s.pending && Sound(cat, w.after)
    ensures Leads(cat, s, [Commit(id, w)], MidWrite(s, id, w, []))
  {
    assert Leads(cat, s, [], s);
    LeadsOn(cat, s, [], s, Commit(id, w));
    assert [] + [Commit(id, w)] == [Commit(id, w)];
    var none: seq<string> := [];
    assert WriteTags(w) - (set t | t in none) == WriteTags(w);
    assert Step(cat, s, Commit(id, w)) == MidWrite(s, id, w, []);
  }

  lemma MidWriteEnds(s: System, id: nat, w: Write, order: seq<string>)
    requires OrderOf(w, order)
    ensures MidWrite(s, id, w, order) == AfterWrite(s, id, w, order)
  {
    assert WriteTags(w) - (set t | t in order) == {};
  }

  /** The run of a commit and its invalidations, each tag once, ends in the state WriteExactly speaks of. */
  lemma {:induction false} WriteRun(cat: Catalog, s: System, id: nat, w: Write, order: seq<string>)
    requires id !in s.pending && Sound(cat, w.after) && (forall t :: t in order ==> t in WriteTags(w))
    requires forall i, j :: 0 <= i < j < |order| ==> order[i] != order[j]
    ensures Leads(cat, s, [Commit(id, w)] + Invalidations(id, order), MidWrite(s, id, w, order))
    ensures OrderOf(w, order) ==> MidWrite(s, id, w, order) == AfterWrite(s, id, w, order)
    decreases |order|
  {
    if order == [] {
      CommitRun(cat, s, id, w);
      assert [Commit(id, w)] + Invalidations(id, order) == [Commit(id, w)];
    } else {
      var rest, last := order[..|order| - 1], order[|order| - 1];
      assert order == rest + [last];
      WriteRun(cat, s, id, w, rest);
      MidStep(cat, s, id, w, rest, last);
      LeadsOn(cat, s, [Commit(id, w)] + Invalidations(id, rest), MidWrite(s, id, w, rest), Invalidate(id, last));
      assert [Commit(id, w)] + Invalidations(id, rest) + [Invalidate(id, last)]
          == [Commit(id, w)] + Invalidations(id, order);
    }
    if OrderOf(w, order) { MidWriteEnds(s, id, w, order); }
  }

  // ---- transaction() without `touched` -------------------------------------------------------

  /** What the write may leave stale when it changes the entity's rows only: entries that embed one. */
  ghost predicate OpenTxIsHarmless(cat: Catalog, s: System, w: Write)
    requires w.OpenTx?
  {
    && (forall k :: LiveEntry(s.cache, k) && k !in SetAt(s.cache.sets, w.entity, s.cache.now).members ==>
          k in cat && !Embeds(cat[k], s.cache.entries[k].value, s.db, w.after))
    && forall p :: p in s.fills && s.fills[p].Loaded? && InTime(s, s.fills[p]) ==>
         var f := s.fills[p];
         f.key in cat &&
         var tags := CacheTags(cat[f.key], f.value);
         w.entity in tags || IsRefused(s.cache, tags, Some(f.since)) || !Embeds(cat[f.key], f.value, s.db, w.after)
  }

  /** A write of one entity's rows affects an entry of another entity only through a row it embeds. */
  lemma OpenTxAffectsByEmbedding(cat: Catalog, k: string, db: Db, w: Write, v: Value)
    requires k in cat && Sound(cat, db) && Sound(cat, w.after) && w.OpenTx? && w.also == {} && ChangesWhatItNames(w, db)
    requires Load(cat[k], db) == Some(v) && w.entity !in CacheTags(cat[k], v)
    ensures Affects(cat[k], v, db, w.after) <==> Embeds(cat[k], v, db, w.after)
  {
    if !Embeds(cat[k], v, db, w.after) { UnreachedLoadsStay(cat, k, db, w, v); }
  }

  /**
   transaction() without `touched` invalidates the entity tag only, and an entry that embeds the
   entity's rows carries their row tags only. So when it changes the entity's rows only, the cache
   stays right exactly when nothing it leaves behind, stored or about to be, embeds a changed row.
   */
  lemma OpenTransactionExactly(cat: Catalog, s: System, id: nat, w: Write)
    requires Inv(cat, s) && Quiescent(s) && id !in s.pending && Sound(cat, w.after)
    requires w.OpenTx? && w.also == {} && ChangesWhatItNames(w, s.db)
    ensures Safe(cat, AfterWrite(s, id, w, [w.entity])) <==> OpenTxIsHarmless(cat, s, w)
    ensures Inv(cat, AfterWrite(s, id, w, [w.entity])) <==> OpenTxIsHarmless(cat, s, w)
  {
    WriteExactly(cat, s, id, w, [w.entity]);
    assert WriteTags(w) == {w.entity};
    forall k | LiveEntry(s.cache, k)
      ensures Survives(s.cache, k, WriteTags(w)) <==> k !in SetAt(s.cache.sets, w.entity, s.cache.now).members
      ensures Survives(s.cache, k, WriteTags(w)) ==>
                k in cat && (Affects(cat[k], s.cache.entries[k].value, s.db, w.after)
                             <==> Embeds(cat[k], s.cache.entries[k].value, s.db, w.after))
    {
      assert w.entity in WriteTags(w);
      assert Tracked(cat, s.cache, k) && Fresh(cat, s.db, k, s.cache.entries[k].value);
      if Survives(s.cache, k, WriteTags(w)) {
        assert w.entity in CacheTags(cat[k], s.cache.entries[k].value) ==>
                 Holds(s.cache.sets, w.entity, k, s.cache.entries[k].expiresAt, s.cache.now);
        OpenTxAffectsByEmbedding(cat, k, s.db, w, s.cache.entries[k].value);
      }
    }
    forall p | p in s.fills && s.fills[p].Loaded? && InTime(s, s.fills[p])
      ensures FillIsHarmless(cat, s, w, s.fills[p]) <==>
                var f := s.fills[p];
                var tags := CacheTags(cat[f.key], f.value);
                w.entity in tags || IsRefused(s.cache, tags, Some(f.since))
                || !Embeds(cat[f.key], f.value, s.db, w.after)
    {
      OpenTxFill(cat, s, w, s.fills[p]);
    }
  }

  lemma OpenTxFill(cat: Catalog, s: System, w: Write, f: Fill)
    requires Sound(cat, s.db) && Sound(cat, w.after) && w.OpenTx? && w.also == {} && ChangesWhatItNames(w, s.db)
    requires f.Loaded? && InTime(s, f) && f.key in cat && FillCoherent(cat, s, f) && Quiescent(s)
    ensures FillIsHarmless(cat, s, w, f) <==>
              var tags := CacheTags(cat[f.key], f.value);
              w.entity in tags || IsRefused(s.cache, tags, Some(f.since))
              || !Embeds(cat[f.key], f.value, s.db, w.after)
  {
    var tags := CacheTags(cat[f.key], f.value);
    assert w.entity in WriteTags(w) && !Awaited(cat, s, f.key, f.value);
    if w.entity !in tags && !IsRefused(s.cache, tags, Some(f.since)) {
      if Fenceable(cat, s, f.key, f.value, f.since, f.fencedAt) { StampedIsRefused(cat, s, f); }
      OpenTxAffectsByEmbedding(cat, f.key, s.db, w, f.value);
    }
  }

  const AUTHOR := Ref("user", "u")
  const STORY := Ref("story", "1")

  /** findById of a story, which embeds its author. */
  function StoryById(): Query {
    Query("story", ByKey((id: Id, data: Data) => id == "1"), (data: Data) => [AUTHOR])
  }

  lemma StoryLoads(db: Db)
    requires STORY in db
    ensures Load(StoryById(), db) == Some(Assemble(StoryById(), db, Some("1"), db[STORY]))
  {
    assert Answers(StoryById(), db, STORY);
  }

  const KEY := "story:id:1"

  function Stories(): Catalog { map[KEY := StoryById()] }

  function StoryAndAuthor(author: Data): Db { map[STORY := 10, AUTHOR := author] }

  function EmptyCache(db: Db): System { System(db, Store(map[], map[], map[], 0, 0), map[], map[]) }

  /** The story as cached, with the author it was read with. */
  function CachedStory(author: Data): Value { Assemble(StoryById(), StoryAndAuthor(author), Some("1"), 10) }

  lemma StoryTagsMissUserTag(author: Data)
    ensures "user" !in CacheTags(StoryById(), CachedStory(author))
  {
    CacheTagsAre(StoryById(), CachedStory(author), "user");
    assert |RowTag("story", "1")| == 7 && |RowTag("user", "u")| == 6;
  }

  /** Filling an empty cache with the story. */
  lemma StoryIsCached()
    ensures
      var s := EmptyCache(StoryAndAuthor(20));
      var a1, a2, a3 := TakeFence(0, KEY), LoadValue(0), StoreValue(0, 0, 0, 60.0);
      Enabled(Stories(), s, a1) && Enabled(Stories(), Step(Stories(), s, a1), a2) &&
      var s2 := Step(Stories(), Step(Stories(), s, a1), a2);
      Enabled(Stories(), s2, a3) &&
      var s3 := Step(Stories(), s2, a3);
      && s3.db == s.db && s3.pending == map[] && s3.cache.now == 0 && "user" !in s3.cache.sets
      && KEY in s3.cache.entries && s3.cache.entries[KEY] == Entry(CachedStory(20), 60000)
  {
    var db := StoryAndAuthor(20);
    StoryLoads(db);
    var s2 := EmptyCache(db).(fills := map[0 := Loaded(KEY, 0, 0, CachedStory(20))]);
    var tags := CacheTags(StoryById(), CachedStory(20));
    StoryTagsMissUserTag(20);
    assert (60.0 as real).Floor == 60 && TtlMs(60.0) == 60000;
    TrackFirstTouchesOnlyTags(map[], tags, |tags|, KEY, 0, 60.0 + SET_SLACK, "user");
  }

  lemma StaleAfterUserTransaction(s3: System)
    requires s3.db == StoryAndAuthor(20) && s3.pending == map[] && s3.cache.now == 0 && "user" !in s3.cache.sets
    requires KEY in s3.cache.entries && s3.cache.entries[KEY] == Entry(CachedStory(20), 60000)
    ensures
      var a4, a5 := Commit(0, OpenTx("user", StoryAndAuthor(21), {})), Invalidate(0, "user");
      Enabled(Stories(), s3, a4) && Enabled(Stories(), Step(Stories(), s3, a4), a5) &&
      var s5 := Step(Stories(), Step(Stories(), s3, a4), a5);
      Quiescent(s5) && !AgreesWithTable(Stories(), s5)
  {
    StoryLoads(StoryAndAuthor(21));
    var s4 := Step(Stories(), s3, Commit(0, OpenTx("user", StoryAndAuthor(21), {})));
    var s5 := Step(Stories(), s4, Invalidate(0, "user"));
    assert LiveEntry(s5.cache, KEY) && s5.cache.entries[KEY].value == CachedStory(20);
    assert CachedStory(20).rows[0] == Some(20) && CachedStory(21).rows[0] == Some(21);
  }

  /** A run of five steps, each enabled after the one before. */
  lemma FiveSteps(cat: Catalog, s: System, run: seq<Action>)
    requires |run| == 5 && Enabled(cat, s, run[0]) && Enabled(cat, Step(cat, s, run[0]), run[1])
    requires var s2 := Step(cat, Step(cat, s, run[0]), run[1]);
             Enabled(cat, s2, run[2]) && Enabled(cat, Step(cat, s2, run[2]), run[3])
             && Enabled(cat, Step(cat, Step(cat, s2, run[2]), run[3]), run[4])
    ensures var s2 := Step(cat, Step(cat, s, run[0]), run[1]);
            Leads(cat, s, run, Step(cat, Step(cat, Step(cat, s2, run[2]), run[3]), run[4]))
  {
    assert Leads(cat, s, run[..0], s);
    ghost var at := s;
    for i := 0 to 5
      invariant Leads(cat, s, run[..i], at)
      invariant i == 0 ==> at == s
      invariant i == 1 ==> at == Step(cat, s, run[0])
      invariant i == 2 ==> at == Step(cat, Step(cat, s, run[0]), run[1])
      invariant i == 3 ==> at == Step(cat, Step(cat, Step(cat, s, run[0]), run[1]), run[2])
      invariant i == 4 ==> at == Step(cat, Step(cat, Step(cat, Step(cat, s, run[0]), run[1]), run[2]), run[3])
      invariant i == 5 ==>
        at == Step(cat, Step(cat, Step(cat, Step(cat, Step(cat, s, run[0]), run[1]), run[2]), run[3]), run[4])
    {
      LeadsOn(cat, s, run[..i], at, run[i]);
      assert run[..i] + [run[i]] == run[..i + 1];
      at := Step(cat, at, run[i]);
    }
    assert run[..5] == run;
  }

  function StaleRun(): seq<Action> {
    [TakeFence(0, KEY), LoadValue(0), StoreValue(0, 0, 0, 60.0),
     Commit(0, OpenTx("user", StoryAndAuthor(21), {})), Invalidate(0, "user")]
  }

  lemma StaleRunEndsStale()
    ensures var s := EmptyCache(StoryAndAuthor(20));
            Runs(Stories(), s, StaleRun()) && Quiescent(Final(Stories(), s, StaleRun()))
            && !AgreesWithTable(Stories(), Final(Stories(), s, StaleRun()))
  {
    var cat, s, run := Stories(), EmptyCache(StoryAndAuthor(20)), StaleRun();
    StoryIsCached();
    StaleAfterUserTransaction(Step(cat, Step(cat, Step(cat, s, run[0]), run[1]), run[2]));
    FiveSteps(cat, s, run);
  }

  /** A cached story keeps the old author after a transaction() on users, with nothing left to invalidate. */
  lemma OpenTransactionLeavesStaleEntry()
    ensures exists cat, s, actions ::
      Initial(cat, s) && Runs(cat, s, actions)
      && Quiescent(Final(cat, s, actions)) && !AgreesWithTable(cat, Final(cat, s, actions))
  {
    StoryLoads(StoryAndAuthor(20));
    assert Initial(Stories(), EmptyCache(StoryAndAuthor(20)));
    StaleRunEndsStale();
  }

  /** The other way it fails: the story is loaded before the transaction and stored after it. */
  function StaleFillRun(): seq<Action> {
    [TakeFence(0, KEY), LoadValue(0), Commit(0, OpenTx("user", StoryAndAuthor(21), {})), Invalidate(0, "user"),
     StoreValue(0, 0, 0, 60.0)]
  }

  /** The story as loaded, about to be stored. */
  function StoryLoaded(): System {
    EmptyCache(StoryAndAuthor(20)).(fills := map[0 := Loaded(KEY, 0, 0, CachedStory(20))])
  }

  lemma StoryIsLoaded()
    ensures var s := EmptyCache(StoryAndAuthor(20));
            && Initial(Stories(), s)
            && Enabled(Stories(), s, TakeFence(0, KEY))
            && Enabled(Stories(), Step(Stories(), s, TakeFence(0, KEY)), LoadValue(0))
            && Step(Stories(), Step(Stories(), s, TakeFence(0, KEY)), LoadValue(0)) == StoryLoaded()
  {
    StoryLoads(StoryAndAuthor(20));
  }

  /** The transaction comes and goes without a trace on the loaded story. */
  lemma TransactionPassesBy()
    ensures var commit, invalidate := Commit(0, OpenTx("user", StoryAndAuthor(21), {})), Invalidate(0, "user");
            Enabled(Stories(), StoryLoaded(), commit)
            && Enabled(Stories(), Step(Stories(), StoryLoaded(), commit), invalidate)
            && Step(Stories(), Step(Stories(), StoryLoaded(), commit), invalidate)
               == System(StoryAndAuthor(21), InvalidateScript(StoryLoaded().cache, "user"),
                         StoryLoaded().fills, map[0 := {}])
  {
    StoryLoads(StoryAndAuthor(20));
    StoryLoads(StoryAndAuthor(21));
    var commit := Commit(0, OpenTx("user", StoryAndAuthor(21), {}));
    assert Enabled(Stories(), StoryLoaded(), commit);
    assert {"user"} - {"user"} == {};
  }

  /** What the last step stores is stale by then. */
  lemma LateStoreIsStale(s: System)
    requires s.db == StoryAndAuthor(21) && Quiescent(s) && s.cache.now == 0
    requires s.fills == StoryLoaded().fills && s.cache.entries == map[] && s.cache.fences.Keys == {"user"}
    ensures Enabled(Stories(), s, StoreValue(0, 0, 0, 60.0))
    ensures var s' := Step(Stories(), s, StoreValue(0, 0, 0, 60.0)); Quiescent(s') && !AgreesWithTable(Stories(), s')
  {
    StoryLoads(StoryAndAuthor(21));
    StoryTagsMissUserTag(20);
    var tags := CacheTags(StoryById(), CachedStory(20));
    assert !IsRefused(s.cache, tags, Some(0));
    assert (60.0 as real).Floor == 60 && TtlMs(60.0) == 60000;
    var s' := Step(Stories(), s, StoreValue(0, 0, 0, 60.0));
    assert LiveEntry(s'.cache, KEY) && s'.cache.entries[KEY].value == CachedStory(20);
    assert CachedStory(20).rows[0] == Some(20) && CachedStory(21).rows[0] == Some(21);
  }

  /** A loaded story is stored with the old author after a transaction() on users has come and gone. */
  lemma OpenTransactionLeavesStaleFill()
    ensures var s := EmptyCache(StoryAndAuthor(20));
            Initial(Stories(), s) && Runs(Stories(), s, StaleFillRun())
            && Quiescent(Final(Stories(), s, StaleFillRun()))
            && !AgreesWithTable(Stories(), Final(Stories(), s, StaleFillRun()))
  {
    var s, run := EmptyCache(StoryAndAuthor(20)), StaleFillRun();
    StoryIsLoaded();
    TransactionPassesBy();
    LateStoreIsStale(System(StoryAndAuthor(21), InvalidateScript(StoryLoaded().cache, "user"),
                            StoryLoaded().fills, map[0 := {}]));
    FiveSteps(Stories(), s, run);
  }

  // ---- A delete and its foreign-key actions ----------------------------------------------------

  const PARENT := Ref("story", "1")
  const CHILD := Ref("story", "2")
  const CHILD_KEY := "story:id:2"

  /** findById of the child story; its column is the id of its parent, 0 without one. */
  function ChildById(): Query { Query("story", ByKey((id: Id, data: Data) => id == "2"), (data: Data) => []) }

  function Children(): Catalog { map[CHILD_KEY := ChildById()] }

  const FAMILY: Db := map[PARENT := 0, CHILD := 1]
  /** The parent deleted, and the child's parentId set to null by the foreign key. */
  const ORPHAN: Db := map[CHILD := 0]

  function CachedChild(): Value { Assemble(ChildById(), FAMILY, Some("2"), 1) }

  lemma ChildLoads(db: Db)
    requires CHILD in db
    ensures Load(ChildById(), db) == Some(Assemble(ChildById(), db, Some("2"), db[CHILD]))
  {
    assert Answers(ChildById(), db, CHILD);
  }

  /** The child is read into the empty cache. */
  lemma ChildIsCached() returns (s3: System)
    ensures Initial(Children(), EmptyCache(FAMILY))
    ensures Leads(Children(), EmptyCache(FAMILY),
                  [TakeFence(0, CHILD_KEY)] + [LoadValue(0)] + [StoreValue(0, 0, 0, 60.0)], s3)
    ensures s3.db == FAMILY && s3.pending == map[] && s3.fills == map[] && s3.cache.now == 0
    ensures "story:list" !in s3.cache.sets && "story:1" !in s3.cache.sets
    ensures CHILD_KEY in s3.cache.entries && s3.cache.entries[CHILD_KEY] == Entry(CachedChild(), 60000)
  {
    var cat, s := Children(), EmptyCache(FAMILY);
    ChildLoads(FAMILY);
    assert Leads(cat, s, [], s) && [] + [TakeFence(0, CHILD_KEY)] == [TakeFence(0, CHILD_KEY)];
    LeadsOn(cat, s, [], s, TakeFence(0, CHILD_KEY));
    var s1 := Step(cat, s, TakeFence(0, CHILD_KEY));
    LeadsOn(cat, s, [TakeFence(0, CHILD_KEY)], s1, LoadValue(0));
    var s2 := s.(fills := map[0 := Loaded(CHILD_KEY, 0, 0, CachedChild())]);
    assert Step(cat, s1, LoadValue(0)) == s2;
    assert (60.0 as real).Floor == 60 && TtlMs(60.0) == 60000;
    LeadsOn(cat, s, [TakeFence(0, CHILD_KEY)] + [LoadValue(0)], s2, StoreValue(0, 0, 0, 60.0));
    s3 := Step(cat, s2, StoreValue(0, 0, 0, 60.0));
    ChildTags();
    var tags := CacheTags(ChildById(), CachedChild());
    TrackFirstTouchesOnlyTags(map[], tags, |tags|, CHILD_KEY, 0, 60.0 + SET_SLACK, "story:list");
    TrackFirstTouchesOnlyTags(map[], tags, |tags|, CHILD_KEY, 0, 60.0 + SET_SLACK, "story:1");
  }

  lemma ChildTags()
    ensures forall t :: t in CacheTags(ChildById(), CachedChild()) <==> t in {"story", "story:2"}
  {
    assert RowTag("story", "2") == "story:2";
    forall t ensures t in CacheTags(ChildById(), CachedChild()) <==> t in {"story", "story:2"} {
      CacheTagsAre(ChildById(), CachedChild(), t);
    }
  }

  lemma {:induction false} LeadsThrough(
      cat: Catalog, s: System, first: seq<Action>, mid: System, second: seq<Action>, end: System)
    requires Leads(cat, s, first, mid) && Leads(cat, mid, second, end)
    ensures Leads(cat, s, first + second, end)
    decreases |first|
  {
    if first == [] {
      assert first + second == second;
    } else {
      LeadsThrough(cat, Step(cat, s, first[0]), first[1..], mid, second, end);
      assert (first + second)[1..] == first[1..] + second;
    }
  }

  /** delete() of the parent story. */
  function DeleteParent(): Write { RowWrite(PARENT, ORPHAN, {}) }

  function ChildRun(): seq<Action> {
    [TakeFence(0, CHILD_KEY)] + [LoadValue(0)] + [StoreValue(0, 0, 0, 60.0)]
    + ([Commit(0, DeleteParent())] + Invalidations(0, ["story:list", "story:1"]))
  }

  /** The delete and its two invalidations pass the cached child by. */
  lemma DeletePassesChild(s3: System) returns (end: System)
    requires s3.db == FAMILY && s3.pending == map[] && s3.fills == map[] && s3.cache.now == 0
    requires "story:list" !in s3.cache.sets && "story:1" !in s3.cache.sets
    requires CHILD_KEY in s3.cache.entries && s3.cache.entries[CHILD_KEY] == Entry(CachedChild(), 60000)
    ensures Leads(Children(), s3, [Commit(0, DeleteParent())] + Invalidations(0, ["story:list", "story:1"]), end)
    ensures Quiescent(end) && !AgreesWithTable(Children(), end)
  {
    var w, order := DeleteParent(), ["story:list", "story:1"];
    ChildLoads(ORPHAN);
    assert ListTag("story") == "story:list" && RowTag("story", "1") == "story:1";
    assert WriteTags(w) == {"story:list", "story:1"};
    WriteRun(Children(), s3, 0, w, order);
    end := AfterWrite(s3, 0, w, order);
    InvalidatedIs(s3.cache, order, WriteTags(w));
    assert Survives(s3.cache, CHILD_KEY, WriteTags(w));
    assert LiveEntry(end.cache, CHILD_KEY) && end.cache.entries[CHILD_KEY].value == CachedChild();
    assert !Fresh(Children(), ORPHAN, CHILD_KEY, CachedChild());
  }

  /**
   delete() invalidates the lists and the row it deleted. The cached child keeps the parent that
   ON DELETE SET NULL took from its row, with nothing left to invalidate.
   */
  lemma DeleteLeavesStaleChild()
    ensures var s := EmptyCache(FAMILY);
            Initial(Children(), s) && Runs(Children(), s, ChildRun())
            && Quiescent(Final(Children(), s, ChildRun()))
            && !AgreesWithTable(Children(), Final(Children(), s, ChildRun()))
  {
    var s3 := ChildIsCached();
    var end := DeletePassesChild(s3);
    LeadsThrough(Children(), EmptyCache(FAMILY),
                 [TakeFence(0, CHILD_KEY)] + [LoadValue(0)] + [StoreValue(0, 0, 0, 60.0)],
                 s3, [Commit(0, DeleteParent())] + Invalidations(0, ["story:list", "story:1"]), end);
  }

  // ---- How late a script may run ---------------------------------------------------------

  /** Every careful run whose scripts run within `limit` of their fences ends with the cache right. */
  ghost predicate LimitKeepsCacheRight(limit: int) {
    forall cat, s, actions ::
      && Initial(cat, s) && Runs(cat, s, actions) && AllCareful(cat, s, actions, limit)
      && Quiescent(Final(cat, s, actions))
      ==> AgreesWithTable(cat, Final(cat, s, actions))
  }

  lemma {:induction false} CarefulWithin(cat: Catalog, s: System, actions: seq<Action>, limit: int, longer: int)
    requires Runs(cat, s, actions) && AllCareful(cat, s, actions, limit) && limit <= longer
    ensures AllCareful(cat, s, actions, longer)
    decreases |actions|
  {
    if actions != [] { CarefulWithin(cat, Step(cat, s, actions[0]), actions[1..], limit, longer); }
  }

  lemma {:induction false} Extend(cat: Catalog, s: System, actions: seq<Action>, a: Action, limit: int)
    requires Runs(cat, s, actions) && AllCareful(cat, s, actions, limit)
    requires Enabled(cat, Final(cat, s, actions), a) && Careful(cat, Final(cat, s, actions), a, limit)
    ensures Runs(cat, s, actions + [a]) && AllCareful(cat, s, actions + [a], limit)
    ensures Final(cat, s, actions + [a]) == Step(cat, Final(cat, s, actions), a)
    decreases |actions|
  {
    if actions == [] {
      assert Runs(cat, Step(cat, s, a), []) && AllCareful(cat, Step(cat, s, a), [], limit);
      assert ([] + [a])[1..] == [];
    } else {
      Extend(cat, Step(cat, s, actions[0]), actions[1..], a, limit);
      assert (actions + [a])[1..] == actions[1..] + [a];
    }
  }

  /** A careful run of the stories reaches the state. */
  ghost predicate Reached(s: System, limit: int) {
    var start := EmptyCache(StoryAndAuthor(20));
    exists actions ::
      Runs(Stories(), start, actions) && AllCareful(Stories(), start, actions, limit)
      && Final(Stories(), start, actions) == s
  }

  lemma ReachNext(s: System, a: Action, limit: int)
    requires Reached(s, limit) && Enabled(Stories(), s, a) && Careful(Stories(), s, a, limit)
    ensures Reached(Step(Stories(), s, a), limit)
  {
    var start := EmptyCache(StoryAndAuthor(20));
    var actions :| Runs(Stories(), start, actions) && AllCareful(Stories(), start, actions, limit)
                   && Final(Stories(), start, actions) == s;
    Extend(Stories(), start, actions, a, limit);
  }

  const EDITED := map[STORY := 11, AUTHOR := 20]

  lemma StoryLoadedIsReached(limit: int)
    ensures Reached(StoryLoaded(), limit)
  {
    var s := EmptyCache(StoryAndAuthor(20));
    assert Runs(Stories(), s, []) && AllCareful(Stories(), s, [], limit) && Final(Stories(), s, []) == s;
    StoryIsLoaded();
    ReachNext(s, TakeFence(0, KEY), limit);
    ReachNext(Step(Stories(), s, TakeFence(0, KEY)), LoadValue(0), limit);
  }

  function StoryEdited(): System {
    StoryLoaded().(db := EDITED, pending := map[0 := {"story:list", "story:1"}])
  }

  lemma EditStep()
    ensures Enabled(Stories(), StoryLoaded(), Commit(0, RowWrite(STORY, EDITED, {})))
    ensures Step(Stories(), StoryLoaded(), Commit(0, RowWrite(STORY, EDITED, {}))) == StoryEdited()
    ensures LeavesNothingStale(Stories(), StoryLoaded(), RowWrite(STORY, EDITED, {}))
  {
    StoryLoads(EDITED);
    assert ListTag("story") == "story:list" && RowTag("story", "1") == "story:1";
    assert WriteTags(RowWrite(STORY, EDITED, {})) == {"story:list", "story:1"};
    CacheTagsAre(StoryById(), CachedStory(20), "story:1");
  }

  /** The story is loaded, then edited. */
  lemma StoryIsEdited(limit: int)
    ensures Reached(StoryEdited(), limit)
  {
    StoryLoadedIsReached(limit);
    EditStep();
    ReachNext(StoryLoaded(), Commit(0, RowWrite(STORY, EDITED, {})), limit);
  }

  const INVALIDATED := map["story:list" := Stamp(1, FENCE_TTL_MS), "story:1" := Stamp(2, FENCE_TTL_MS)]

  /** Its tags are invalidated, and the fence TTL goes by. */
  lemma RecordsExpire(limit: int)
    ensures Reached(StoryLoaded().(db := EDITED, pending := map[0 := {}],
                                   cache := Store(map[], map[], INVALIDATED, 2, FENCE_TTL_MS)), limit)
  {
    StoryIsEdited(limit);
    var s := StoryEdited();
    ReachNext(s, Invalidate(0, "story:list"), limit);
    var s1 := s.(pending := map[0 := {"story:1"}],
                 cache := Store(map[], map[], map["story:list" := Stamp(1, FENCE_TTL_MS)], 1, 0));
    assert {"story:list", "story:1"} - {"story:list"} == {"story:1"};
    assert Step(Stories(), s, Invalidate(0, "story:list")) == s1;
    ReachNext(s1, Invalidate(0, "story:1"), limit);
    var s2 := s.(pending := map[0 := {}], cache := Store(map[], map[], INVALIDATED, 2, 0));
    assert {"story:1"} - {"story:1"} == {};
    assert Step(Stories(), s1, Invalidate(0, "story:1")) == s2;
    ReachNext(s2, Tick(FENCE_TTL_MS), limit);
    assert Step(Stories(), s2, Tick(FENCE_TTL_MS))
        == s2.(cache := Store(map[], map[], INVALIDATED, 2, FENCE_TTL_MS));
  }

  /** A script as late as that stores the unedited story. */
  lemma LateScriptStoresStale(limit: int)
    requires limit > FENCE_TTL_MS
    ensures exists s :: Reached(s, limit) && Quiescent(s) && !AgreesWithTable(Stories(), s)
  {
    RecordsExpire(limit);
    var s := StoryLoaded().(db := EDITED, pending := map[0 := {}],
                            cache := Store(map[], map[], INVALIDATED, 2, FENCE_TTL_MS));
    var a := StoreValue(0, 0, 0, 60.0);
    assert (60.0 as real).Floor == 60 && TtlMs(60.0) == 60000;
    ReachNext(s, a, limit);
    var s' := Step(Stories(), s, a);
    assert !IsRefused(s.cache, CacheTags(StoryById(), CachedStory(20)), Some(0));
    StoryLoads(EDITED);
    assert LiveEntry(s'.cache, KEY) && s'.cache.entries[KEY].value == CachedStory(20);
  }

  /** FENCE_TTL_MS is exactly how late: every run with earlier scripts is right, and one with a later script is not. */
  lemma ScriptLimitExactly(limit: int)
    ensures LimitKeepsCacheRight(limit) <==> limit <= FENCE_TTL_MS
  {
    if limit <= FENCE_TTL_MS {
      forall cat, s, actions | Initial(cat, s) && Runs(cat, s, actions) && AllCareful(cat, s, actions, limit)
                               && Quiescent(Final(cat, s, actions))
        ensures AgreesWithTable(cat, Final(cat, s, actions))
      {
        CarefulWithin(cat, s, actions, limit, FENCE_TTL_MS);
        CacheAgreesWithTable(cat, s, actions);
      }
    } else {
      LateScriptStoresStale(limit);
      StoryIsLoaded();
      var s :| Reached(s, limit) && Quiescent(s) && !AgreesWithTable(Stories(), s);
      var start := EmptyCache(StoryAndAuthor(20));
      var actions :| Runs(Stories(), start, actions) && AllCareful(Stories(), start, actions, limit)
                     && Final(Stories(), start, actions) == s;
      assert Initial(Stories(), start);
    }
  }
}
