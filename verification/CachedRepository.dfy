/**
 BaseRepository as one process runs it: cached() reads through the cache, and a write
 commits first and then invalidates tag by tag. The interleaved system is CacheCoherence;
 here a caller alone always reads what the table holds.
 */
module CachedRepositories {
  import opened Wrappers
  import opened TagCaching
  import opened CacheCoherence

  /** The TTL used when none is given, or one that is not positive (seconds). */
  const DEFAULT_TTL := 3600

  function SecondsOf(given: Option<int>): int { if given.Some? && given.value > 0 then given.value else DEFAULT_TTL }

  class CachedRepository {
    var db: Db
    const cache: TagCache<Value>

    constructor (cache: TagCache<Value>, db: Db)
      ensures this.cache == cache && this.db == db
    {
      this.cache, this.db := cache, db;
    }

    ghost function During(pending: set<string>): System
      reads this, cache
    {
      System(db, cache.State(), map[], map[0 := pending])
    }

    /** No write in flight, and the cache as the contract keeps it. */
    ghost predicate Valid(cat: Catalog)
      reads this, cache
    {
      Inv(cat, During({}))
    }

    /** cached(): the cached value, or the loaded one, which is then stored under its tags. */
    method Cached(ghost cat: Catalog, q: Query, key: string, load: Option<Value>, given: Option<int>)
      returns (value: Option<Value>)
      requires Valid(cat) && key in cat && cat[key] == q && load == Load(q, db)
      modifies cache
      ensures Valid(cat) && value == load
      ensures old(LiveEntry(cache.State(), key)) ==> cache.State() == old(cache.State())
      ensures load.Some? ==> LiveEntry(cache.State(), key) && cache.entries[key].value == load.value
      ensures load.Some? && !old(LiveEntry(cache.State(), key)) ==>
        cache.entries[key].expiresAt
        == cache.now + 1000 * if given.Some? && given.value > 0 then given.value else 3600
    {
      if LiveEntry(cache.State(), key) {
        value := Some(cache.entries[key].value);
        assert Quiescent(During({}));
        assert Fresh(cat, db, key, cache.entries[key].value);
        return;
      }
      var since := cache.Fence();
      value := load;
      if load.Some? {
        var ttl := SecondsOf(given);
        ghost var s := During({}).(fills := map[0 := Loaded(key, since, cache.now, load.value)]);
        ghost var a := StoreValue(0, cache.now, cache.now, ttl as real);
        assert Enabled(cat, s, a);
        StepKeepsInv(cat, s, a);
        NotRefused(cache.State(), CacheTags(q, load.value), since);
        assert TtlMs(ttl as real) == 1000 * ttl by { assert ttl as real * 1000.0 == (1000 * ttl) as real; }
        var _ := cache.SetWithTags(key, load.value, CacheTags(q, load.value), ttl as real, Some(since));
        assert During({}) == Step(cat, s, a);
      }
    }

    /** invalidateRowAndLists(): neither tag is awaited afterwards. */
    method InvalidateRowAndLists(ghost cat: Catalog, entity: string, id: Option<Id>, ghost pending: set<string>)
      modifies cache
      ensures cache.State() == Invalidated(old(cache.State()), RowAndLists(entity, id))
      ensures old(Inv(cat, During(pending))) ==> Inv(cat, During(pending - set t | t in RowAndLists(entity, id)))
    {
      ghost var before := During(pending);
      if Inv(cat, before) { RowAndListsKeepInv(cat, before, entity, id, pending); }
      var _ := cache.InvalidateTag(ListTag(entity));
      if id.Some? { var _ := cache.InvalidateTag(RowTag(entity, id.value)); }
      InvalidatedTwo(before.cache, entity, id);
    }

    /**
     create, update, delete, save and transaction(): commit, then invalidate. Alone, the cache agrees
     with the table again exactly when nothing that the write affects was left behind.
     */
    method Apply(ghost cat: Catalog, w: Write)
      requires Valid(cat) && Sound(cat, w.after)
      modifies this, cache
      ensures db == w.after
      ensures Valid(cat) <==> WriteIsHarmless(cat, old(During({})), w)
    {
      ghost var before := During({});
      db := w.after;
      ghost var own := InvalidateOwn(w);
      ghost var also := InvalidateAll(w.also);
      AppliedExactly(cat, before, w, own, also);
    }

    /** What the repository's own method invalidates. */
    method InvalidateOwn(w: Write) returns (ghost order: seq<string>)
      modifies cache
      ensures cache.State() == Invalidated(old(cache.State()), order)
      ensures forall t :: t in order <==> t in WriteTags(Without(w))
    {
      match w {
        case RowWrite(r, _, _) =>
          InvalidateRowAndLists(map[], r.entity, Some(r.id), {});
          order := RowAndLists(r.entity, Some(r.id));
        case TouchedTx(e, touched, _, _) =>
          InvalidateRowAndLists(map[], e, None, {});
          order := RowAndLists(e, None);
          ghost var rows := InvalidateTouched(e, touched);
          InvalidatedThen(old(cache.State()), order, rows);
          order := order + rows;
        case OpenTx(e, _, _) =>
          var _ := cache.InvalidateTag(e);
          order := [e];
          assert [e][..0] == [];
      }
    }

    /** The loop over `touched`. */
    method InvalidateTouched(e: string, touched: set<Id>) returns (ghost order: seq<string>)
      modifies cache
      ensures cache.State() == Invalidated(old(cache.State()), order)
      ensures forall t :: t in order <==>
                (touched != {} && t == ListTag(e)) || exists id :: id in touched && t == RowTag(e, id)
    {
      order := [];
      var ids := touched;
      while ids != {}
        invariant ids <= touched && cache.State() == Invalidated(old(cache.State()), order)
        invariant forall t :: t in order <==>
          (ids != touched && t == ListTag(e)) || exists id :: id in touched - ids && t == RowTag(e, id)
        decreases ids
      {
        var id :| id in ids;
        InvalidateRowAndLists(map[], e, Some(id), {});
        InvalidatedThen(old(cache.State()), order, RowAndLists(e, Some(id)));
        order := order + RowAndLists(e, Some(id));
        ids := ids - {id};
      }
    }

    /** What the caller invalidates afterwards. */
    method InvalidateAll(tags: set<string>) returns (ghost order: seq<string>)
      modifies cache
      ensures cache.State() == Invalidated(old(cache.State()), order)
      ensures forall t :: t in order <==> t in tags
    {
      order := [];
      var left := tags;
      while left != {}
        invariant left <= tags && cache.State() == Invalidated(old(cache.State()), order)
        invariant forall t :: t in order <==> t in tags - left
        decreases left
      {
        var tag :| tag in left;
        var _ := cache.InvalidateTag(tag);
        assert (order + [tag])[..|order|] == order;
        order := order + [tag];
        left := left - {tag};
      }
    }
  }

  function RowAndLists(entity: string, id: Option<Id>): seq<string> {
    [ListTag(entity)] + if id.Some? then [RowTag(entity, id.value)] else []
  }

  /** The write without the caller's own invalidations. */
  function Without(w: Write): Write { w.(also := {}) }

  lemma InvalidatedTwo(c: Store<Value>, entity: string, id: Option<Id>)
    ensures Invalidated(c, RowAndLists(entity, id))
            == var list := InvalidateScript(c, ListTag(entity));
               if id.Some? then InvalidateScript(list, RowTag(entity, id.value)) else list
  {
    var order := RowAndLists(entity, id);
    assert order[..1] == [ListTag(entity)] && order[..1][..0] == [];
    assert Invalidated(c, [ListTag(entity)]) == InvalidateScript(c, ListTag(entity));
  }

  lemma RowAndListsKeepInv(cat: Catalog, s: System, entity: string, id: Option<Id>, pending: set<string>)
    requires Inv(cat, s) && s.pending == map[0 := pending]
    ensures Inv(cat, s.(cache := Invalidated(s.cache, RowAndLists(entity, id)),
                        pending := map[0 := pending - set t | t in RowAndLists(entity, id)]))
  {
    InvalidatedTwo(s.cache, entity, id);
    var list := pending - {ListTag(entity)};
    InvalidateKeepsInv(cat, s, ListTag(entity), map[0 := list]);
    if id.Some? {
      var s1 := s.(cache := InvalidateScript(s.cache, ListTag(entity)), pending := map[0 := list]);
      InvalidateKeepsInv(cat, s1, RowTag(entity, id.value), map[0 := list - {RowTag(entity, id.value)}]);
      assert list - {RowTag(entity, id.value)} == pending - set t | t in RowAndLists(entity, id);
    } else {
      assert list == pending - set t | t in RowAndLists(entity, id);
    }
  }

  /** Apply as a whole: WriteExactly, for one process and no fills. */
  lemma AppliedExactly(cat: Catalog, s: System, w: Write, own: seq<string>, also: seq<string>)
    requires Inv(cat, s) && s.pending == map[0 := {}] && Sound(cat, w.after)
    requires (forall t :: t in own <==> t in WriteTags(Without(w))) && forall t :: t in also <==> t in w.also
    ensures Inv(cat, System(w.after, Invalidated(Invalidated(s.cache, own), also), s.fills, map[0 := {}]))
            <==> WriteIsHarmless(cat, s, w)
  {
    NothingPending(cat, s);
    InvalidatedThen(s.cache, own, also);
    OrderOfBoth(w, own, also);
    HarmIsNotPending(cat, s, w);
    WriteExactly(cat, s.(pending := map[]), 0, w, own + also);
  }

  lemma OrderOfBoth(w: Write, own: seq<string>, also: seq<string>)
    requires (forall t :: t in own <==> t in WriteTags(Without(w))) && forall t :: t in also <==> t in w.also
    ensures OrderOf(w, own + also)
  {
    forall t ensures t in own + also <==> t in WriteTags(w) { assert t in own + also <==> t in own || t in also; }
  }

  lemma HarmIsNotPending(cat: Catalog, s: System, w: Write)
    ensures WriteIsHarmless(cat, s.(pending := map[]), w) <==> WriteIsHarmless(cat, s, w)
  {
    var s' := s.(pending := map[]);
    forall p | p in s.fills && s.fills[p].Loaded?
      ensures FillIsHarmless(cat, s', w, s.fills[p]) <==> FillIsHarmless(cat, s, w, s.fills[p])
    {
    }
  }

  lemma {:induction false} InvalidatedThen(c: Store<Value>, first: seq<string>, second: seq<string>)
    ensures Invalidated(Invalidated(c, first), second) == Invalidated(c, first + second)
    decreases |second|
  {
    if second == [] {
      assert first + second == first;
    } else {
      InvalidatedThen(c, first, second[..|second| - 1]);
      assert (first + second)[..|first + second| - 1] == first + second[..|second| - 1];
    }
  }

  lemma NothingPending(cat: Catalog, s: System)
    requires Inv(cat, s) && Quiescent(s)
    ensures Inv(cat, s.(pending := map[])) && Quiescent(s.(pending := map[]))
  {
    var s' := s.(pending := map[]);
    assert forall k, v :: !Awaited(cat, s, k, v);
    forall p | p in s'.fills ensures FillCoherent(cat, s', s'.fills[p]) { assert FillCoherent(cat, s, s.fills[p]); }
  }

  lemma NotRefused(s: Store<Value>, tags: seq<string>, since: nat)
    requires StampsInOrder(s) && since == s.sequence
    ensures !IsRefused(s, tags, Some(since))
  {
  }
}
