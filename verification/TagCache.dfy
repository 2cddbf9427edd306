/**
 The Redis side of the application cache: entries, tag sets and fence records with their
 expiry times, and the two Lua scripts that change them. Each script is one atomic step.

 The functions say what a script does to the store; the class `TagCache` runs the scripts
 statement by statement and is proved against those functions.
 */
module TagCaching {
  import opened Wrappers

  /** How long a tag's invalidation number is kept (ms). */
  const FENCE_TTL_MS: int := 300_000
  /** A tag set outlives the entries it tracks by this much (seconds). */
  const SET_SLACK: real := 300.0

  datatype Entry<V> = Entry(value: V, expiresAt: int)
  /** `expiresAt` is None while the set has no TTL (Redis answers TTL -1). */
  datatype TagSet = TagSet(members: set<string>, expiresAt: Option<int>)
  datatype Stamp = Stamp(number: nat, expiresAt: int)

  datatype Store<V> = Store(
    entries: map<string, Entry<V>>,
    sets: map<string, TagSet>,
    fences: map<string, Stamp>,
    sequence: nat,
    now: int
  )

  datatype Outcome = Stored | Refused | Failed

  predicate LiveEntry<V>(s: Store<V>, key: string) {
    key in s.entries && s.now < s.entries[key].expiresAt
  }

  predicate LiveAt(expiresAt: Option<int>, now: int) {
    expiresAt.None? || now < expiresAt.value
  }

  /** The set as a command at `now` sees it: a missing or expired set is empty, without TTL. */
  function SetAt(sets: map<string, TagSet>, tag: string, now: int): TagSet {
    if tag in sets && LiveAt(sets[tag].expiresAt, now) then sets[tag] else TagSet({}, None)
  }

  /** Redis TTL: whole seconds, rounded to the nearest; -1 without a TTL. */
  function RedisTtl(expiresAt: Option<int>, now: int): int {
    if expiresAt.None? then -1 else (expiresAt.value - now + 500) / 1000
  }

  predicate Whole(seconds: real) { seconds.Floor as real == seconds }

  function TtlMs(ttl: real): int { (ttl * 1000.0 + 0.5).Floor }

  /** Invalidation numbers never pass the sequence, nor their records the fence TTL. */
  ghost predicate StampsInOrder<V>(s: Store<V>) {
    forall t :: t in s.fences ==> s.fences[t].number <= s.sequence && s.fences[t].expiresAt <= s.now + FENCE_TTL_MS
  }

  predicate InvalidatedSince<V>(s: Store<V>, tag: string, since: nat) {
    tag in s.fences && s.now < s.fences[tag].expiresAt && s.fences[tag].number > since
  }

  /** SADD, then EXPIRE when the set's TTL is shorter; false when EXPIRE rejects a fraction. */
  function Track(sets: map<string, TagSet>, tag: string, key: string, now: int, setTtl: real)
    : (map<string, TagSet>, bool)
  {
    var current := SetAt(sets, tag, now);
    var members := current.members + {key};
    if RedisTtl(current.expiresAt, now) as real < setTtl then
      if Whole(setTtl) then
        (sets[tag := TagSet(members, Some(now + 1000 * setTtl.Floor))], true)
      else
        (sets[tag := TagSet(members, current.expiresAt)], false)
    else
      (sets[tag := TagSet(members, current.expiresAt)], true)
  }

  /** The loop over the first `n` tags; an error stops it and keeps what was done. */
  function TrackFirst(sets: map<string, TagSet>, tags: seq<string>, n: nat, key: string, now: int, setTtl: real)
    : (map<string, TagSet>, bool)
    requires n <= |tags|
  {
    if n == 0 then (sets, true)
    else
      var before := TrackFirst(sets, tags, n - 1, key, now, setTtl);
      if before.1 then Track(before.0, tags[n - 1], key, now, setTtl) else before
  }

  predicate IsRefused<V>(s: Store<V>, tags: seq<string>, since: Option<nat>) {
    since.Some? && exists i :: 0 <= i < |tags| && InvalidatedSince(s, tags[i], since.value)
  }

  /** What TAG_SCRIPT does. */
  function TagScript<V>(s: Store<V>, key: string, value: V, tags: seq<string>, ttl: real, since: Option<nat>)
    : (Store<V>, Outcome)
  {
    if IsRefused(s, tags, since) then (s.(entries := s.entries - {key}), Refused)
    else if TtlMs(ttl) <= 0 then (s, Failed)
    else
      var (sets, ok) := TrackFirst(s.sets, tags, |tags|, key, s.now, ttl + SET_SLACK);
      (s.(entries := s.entries[key := Entry(value, s.now + TtlMs(ttl))], sets := sets),
       if ok then Stored else Failed)
  }

  /** What INVALIDATE_SCRIPT does. */
  function InvalidateScript<V>(s: Store<V>, tag: string): Store<V> {
    s.(sequence := s.sequence + 1,
       fences := s.fences[tag := Stamp(s.sequence + 1, s.now + FENCE_TTL_MS)],
       entries := s.entries - SetAt(s.sets, tag, s.now).members,
       sets := s.sets - {tag})
  }

  /** When the script refuses: a tag was invalidated after the fence; the key is then dropped, and nothing stored. */
  lemma RefusedExactly<V>(s: Store<V>, key: string, value: V, tags: seq<string>, ttl: real, since: Option<nat>)
    ensures var (s', outcome) := TagScript(s, key, value, tags, ttl, since);
            && (outcome.Refused? <==>
                  since.Some?
                  && exists t :: t in tags && t in s.fences && s.now < s.fences[t].expiresAt
                                 && s.fences[t].number > since.value)
            && (outcome.Refused? ==> key !in s'.entries && s'.sets == s.sets)
            && (!outcome.Refused? && TtlMs(ttl) <= 0 ==> outcome.Failed? && s' == s)
            && s'.fences == s.fences && s'.sequence == s.sequence && s'.now == s.now
            && forall k :: k != key ==>
                 (k in s'.entries <==> k in s.entries) && (k in s.entries ==> s'.entries[k] == s.entries[k])
  {
    if since.Some? {
      if t :| t in tags && InvalidatedSince(s, t, since.value) {
        var i :| 0 <= i < |tags| && tags[i] == t;
        assert InvalidatedSince(s, tags[i], since.value);
      }
    }
  }

  /** What an invalidation drops: the members of the tag's live set; and it stamps the tag, for five minutes. */
  lemma InvalidatedExactly<V>(s: Store<V>, tag: string, key: string)
    ensures var s' := InvalidateScript(s, tag);
            && (key in s'.entries <==>
                  && key in s.entries
                  && !(tag in s.sets && key in s.sets[tag].members
                       && (s.sets[tag].expiresAt.None? || s.now < s.sets[tag].expiresAt.value)))
            && (key in s'.entries ==> s'.entries[key] == s.entries[key])
            && s'.sequence == s.sequence + 1 && s'.now == s.now
            && s'.fences == s.fences[tag := Stamp(s.sequence + 1, s.now + 5 * 60 * 1000)]
            && s'.sets.Keys == s.sets.Keys - {tag}
  {
  }

  /** A TTL in milliseconds, to the nearest. */
  lemma TtlIsRounded(ttl: real)
    ensures ttl * 1000.0 - 0.5 < TtlMs(ttl) as real <= ttl * 1000.0 + 0.5
  {
  }

  // ---- Expiry arithmetic ------------------------------------------------------------

  /** What the next entry's TTL gives a set without one, at the least (ms). */
  const LEAST_SET_TTL_MS: int := 301_000

  /**
   The set lasts until then, as it is; `forGood` asks for more than no later script can shorten:
   a TTL only grows, and a set without one is given at least LEAST_SET_TTL_MS.
   */
  predicate Covers(expiresAt: Option<int>, until: int, now: int, forGood: bool) {
    if expiresAt.None? then forGood ==> until <= now + LEAST_SET_TTL_MS else until <= expiresAt.value
  }

  /** The key is in the tag's set for as long as its entry lives. */
  predicate Listed(sets: map<string, TagSet>, tag: string, key: string, until: int, now: int, forGood: bool) {
    tag in sets && key in sets[tag].members && Covers(sets[tag].expiresAt, until, now, forGood)
  }

  /** It is there for good (HeldForGoodExactly). */
  predicate Holds(sets: map<string, TagSet>, tag: string, key: string, until: int, now: int) {
    Listed(sets, tag, key, until, now, true)
  }

  /**
   Recording `key` under a tag keeps the set alive past any entry with that TTL, although
   Redis reports set TTLs rounded to seconds: the 300 s slack covers the rounding.
   */
  lemma TrackOutlivesEntry(sets: map<string, TagSet>, tag: string, key: string, now: int, ttl: real)
    requires ttl > 0.0 && Track(sets, tag, key, now, ttl + SET_SLACK).1
    ensures Holds(Track(sets, tag, key, now, ttl + SET_SLACK).0, tag, key, now + TtlMs(ttl), now)
  {
    var setTtl := ttl + SET_SLACK;
    var current := SetAt(sets, tag, now);
    assert TtlMs(ttl) as real <= ttl * 1000.0 + 0.5;
    if RedisTtl(current.expiresAt, now) as real < setTtl {
      assert setTtl.Floor as real == setTtl;
      assert (1000 * setTtl.Floor) as real == 1000.0 * setTtl;
    } else if current.expiresAt.Some? {
      var left := current.expiresAt.value - now;
      var seconds := (left + 500) / 1000;
      assert 1000 * seconds <= left + 500;
      assert (1000 * seconds) as real == 1000.0 * (seconds as real);
      assert 1000.0 * (seconds as real) >= 1000.0 * setTtl;
    }
  }

  /** A tag set only grows while it is alive: members stay and its expiry never moves before an entry it covers. */
  lemma TrackKeeps(sets: map<string, TagSet>, tag: string, key: string, now: int, setTtl: real,
                   other: string, member: string, until: int)
    requires Holds(sets, other, member, until, now) && now < until && setTtl > SET_SLACK
    ensures Holds(Track(sets, tag, key, now, setTtl).0, other, member, until, now)
  {
    var current := SetAt(sets, tag, now);
    assert Whole(setTtl) ==> setTtl.Floor >= 301;
    if other == tag && current.expiresAt.Some? && RedisTtl(current.expiresAt, now) as real < setTtl && Whole(setTtl) {
      var left := current.expiresAt.value - now;
      var seconds := (left + 500) / 1000;
      assert left + 500 < 1000 * seconds + 1000;
      assert (seconds as real) < setTtl.Floor as real;
    }
  }

  lemma {:induction false} TrackFirstKeeps(
    sets: map<string, TagSet>, tags: seq<string>, n: nat, key: string, now: int, setTtl: real,
    other: string, member: string, until: int)
    requires n <= |tags|
    requires Holds(sets, other, member, until, now) && now < until && setTtl > SET_SLACK
    ensures Holds(TrackFirst(sets, tags, n, key, now, setTtl).0, other, member, until, now)
  {
    if n > 0 {
      TrackFirstKeeps(sets, tags, n - 1, key, now, setTtl, other, member, until);
      var before := TrackFirst(sets, tags, n - 1, key, now, setTtl);
      if before.1 {
        TrackKeeps(before.0, tags[n - 1], key, now, setTtl, other, member, until);
      }
    }
  }

  /** After a loop that met no error, every tag's set holds the key as long as the entry lives. */
  lemma {:induction false} TrackFirstRecords(
    sets: map<string, TagSet>, tags: seq<string>, n: nat, key: string, now: int, ttl: real, i: nat)
    requires i < n <= |tags| && ttl > 0.0 && TtlMs(ttl) > 0
    requires TrackFirst(sets, tags, n, key, now, ttl + SET_SLACK).1
    ensures Holds(TrackFirst(sets, tags, n, key, now, ttl + SET_SLACK).0, tags[i], key, now + TtlMs(ttl), now)
  {
    var before := TrackFirst(sets, tags, n - 1, key, now, ttl + SET_SLACK);
    if i == n - 1 {
      TrackOutlivesEntry(before.0, tags[i], key, now, ttl);
    } else {
      TrackFirstRecords(sets, tags, n - 1, key, now, ttl, i);
      TrackKeeps(before.0, tags[n - 1], key, now, ttl + SET_SLACK, tags[i], key, now + TtlMs(ttl));
    }
  }

  lemma {:induction false} TrackFirstTouchesOnlyTags(
    sets: map<string, TagSet>, tags: seq<string>, n: nat, key: string, now: int, setTtl: real, tag: string)
    requires n <= |tags| && tag !in tags && tag !in sets
    ensures tag !in TrackFirst(sets, tags, n, key, now, setTtl).0
  {
    if n > 0 { TrackFirstTouchesOnlyTags(sets, tags, n - 1, key, now, setTtl, tag); }
  }

  lemma {:induction false} WholeTtlNeverFails(
    sets: map<string, TagSet>, tags: seq<string>, n: nat, key: string, now: int, setTtl: real)
    requires n <= |tags| && Whole(setTtl)
    ensures TrackFirst(sets, tags, n, key, now, setTtl).1
  {
    if n > 0 { WholeTtlNeverFails(sets, tags, n - 1, key, now, setTtl); }
  }

  /** The set of `tag` needs no EXPIRE for this TTL. */
  predicate LongEnough(sets: map<string, TagSet>, tag: string, now: int, setTtl: real) {
    setTtl <= RedisTtl(SetAt(sets, tag, now).expiresAt, now) as real
  }

  lemma {:induction false} FractionMeetsLongSets(
    sets: map<string, TagSet>, tags: seq<string>, n: nat, key: string, now: int, setTtl: real)
    requires n <= |tags| && !Whole(setTtl) && setTtl > 0.0
    ensures TrackFirst(sets, tags, n, key, now, setTtl).1
       <==> forall i :: 0 <= i < n ==> LongEnough(sets, tags[i], now, setTtl)
    ensures TrackFirst(sets, tags, n, key, now, setTtl).1 ==>
      forall t ::
        SetAt(TrackFirst(sets, tags, n, key, now, setTtl).0, t, now).expiresAt == SetAt(sets, t, now).expiresAt
  {
    if n > 0 {
      FractionMeetsLongSets(sets, tags, n - 1, key, now, setTtl);
      var before := TrackFirst(sets, tags, n - 1, key, now, setTtl);
      if before.1 {
        assert LongEnough(before.0, tags[n - 1], now, setTtl) == LongEnough(sets, tags[n - 1], now, setTtl);
      }
    }
  }

  /** The first tag whose set needs EXPIRE, among the first n; n when none does. */
  function FirstShort(sets: map<string, TagSet>, tags: seq<string>, n: nat, now: int, setTtl: real): (j: nat)
    requires n <= |tags|
    ensures j <= n && forall i :: 0 <= i < j ==> LongEnough(sets, tags[i], now, setTtl)
    ensures j < n ==> !LongEnough(sets, tags[j], now, setTtl)
  {
    if n == 0 then 0
    else
      var j := FirstShort(sets, tags, n - 1, now, setTtl);
      if j == n - 1 && LongEnough(sets, tags[j], now, setTtl) then n else j
  }

  lemma WholeShift(ttl: real)
    ensures Whole(ttl + SET_SLACK) ==> Whole(ttl)
  {
    var up := (ttl + SET_SLACK).Floor;
    assert (up - 300) as real == up as real - 300.0;
  }

  /**
   When setWithTags reports an entry as stored: exactly when it is not refused and EXPIRE
   rejects no fraction, because the TTL is whole seconds or no tag's set needs a longer one.
   */
  lemma StoredExactly<V>(s: Store<V>, key: string, value: V, tags: seq<string>, ttl: real, since: Option<nat>)
    requires TtlMs(ttl) > 0 && ttl > 0.0
    ensures TagScript(s, key, value, tags, ttl, since).1.Stored?
       <==> && !IsRefused(s, tags, since)
            && (Whole(ttl) || forall i :: 0 <= i < |tags| ==> LongEnough(s.sets, tags[i], s.now, ttl + SET_SLACK))
  {
    assert ttl.Floor as real + 300.0 == (ttl.Floor + 300) as real;
    if Whole(ttl) {
      assert (ttl + SET_SLACK).Floor == ttl.Floor + 300;
      WholeTtlNeverFails(s.sets, tags, |tags|, key, s.now, ttl + SET_SLACK);
    } else {
      WholeShift(ttl);
      FractionMeetsLongSets(s.sets, tags, |tags|, key, s.now, ttl + SET_SLACK);
    }
  }

  /** A stored entry is in the set of each of its tags, and no such set expires before it. */
  lemma StoredIsTracked<V>(
      s: Store<V>, key: string, value: V, tags: seq<string>, ttl: real, since: Option<nat>, tag: string)
    requires ttl > 0.0 && Whole(ttl) && TtlMs(ttl) > 0 && !IsRefused(s, tags, since) && tag in tags
    ensures var s' := TagScript(s, key, value, tags, ttl, since).0;
            && key in s'.entries && s'.entries[key] == Entry(value, s.now + TtlMs(ttl))
            && Holds(s'.sets, tag, key, s'.entries[key].expiresAt, s.now)
  {
    StoredExactly(s, key, value, tags, ttl, since);
    var i :| 0 <= i < |tags| && tags[i] == tag;
    TrackFirstRecords(s.sets, tags, |tags|, key, s.now, ttl, i);
  }

  /** The script loses no other entry from the set of one of its tags. */
  lemma OthersStayTracked<V>(s: Store<V>, key: string, value: V, tags: seq<string>, ttl: real, since: Option<nat>,
                             tag: string, member: string, until: int)
    requires Holds(s.sets, tag, member, until, s.now) && s.now < until && ttl > 0.0
    ensures Holds(TagScript(s, key, value, tags, ttl, since).0.sets, tag, member, until, s.now)
  {
    TrackFirstKeeps(s.sets, tags, |tags|, key, s.now, ttl + SET_SLACK, tag, member, until);
  }

  // ---- Never an entry without its tags -------------------------------------------------

  /** A set after some of the loop: the key joined it or not; its TTL is what it was. */
  predicate SetAfter(
      sets: map<string, TagSet>, after: map<string, TagSet>, key: string, now: int, t: string, joined: bool)
  {
    if joined then
      t in after && after[t] == TagSet(SetAt(sets, t, now).members + {key}, SetAt(sets, t, now).expiresAt)
    else
      (t in after <==> t in sets) && (t in sets ==> after[t] == sets[t])
  }

  lemma FractionTracksOne(sets: map<string, TagSet>, after: map<string, TagSet>, tag: string, key: string, now: int,
                          setTtl: real, t: string, joined: bool, tagJoined: bool)
    requires !Whole(setTtl) && setTtl > 0.0 && (t == tag ==> joined == tagJoined)
    requires SetAfter(sets, after, key, now, t, joined) && SetAfter(sets, after, key, now, tag, tagJoined)
    requires tagJoined ==> LongEnough(sets, tag, now, setTtl)
    ensures Track(after, tag, key, now, setTtl).1 == LongEnough(sets, tag, now, setTtl)
    ensures SetAfter(sets, Track(after, tag, key, now, setTtl).0, key, now, t, joined || t == tag)
  {
  }

  /** The tags whose sets the key joins: up to the first short one. */
  function Joined(sets: map<string, TagSet>, tags: seq<string>, n: nat, now: int, setTtl: real): seq<string>
    requires n <= |tags|
  {
    var j := FirstShort(sets, tags, n, now, setTtl);
    tags[..if j < n then j + 1 else n]
  }

  lemma JoinedStep(sets: map<string, TagSet>, tags: seq<string>, n: nat, now: int, setTtl: real)
    requires 0 < n <= |tags|
    ensures var rest := Joined(sets, tags, n - 1, now, setTtl);
            Joined(sets, tags, n, now, setTtl)
            == if FirstShort(sets, tags, n - 1, now, setTtl) == n - 1 then rest + [tags[n - 1]] else rest
  {
    assert tags[..n] == tags[..n - 1] + [tags[n - 1]];
  }

  /** A loop over a TTL that is a fraction: the key joins the sets up to the first short one, no TTL changes. */
  predicate TracksTo(
      sets: map<string, TagSet>, tags: seq<string>, n: nat, key: string, now: int, setTtl: real, t: string)
    requires n <= |tags|
  {
    var (after, ok) := TrackFirst(sets, tags, n, key, now, setTtl);
    && ok == (FirstShort(sets, tags, n, now, setTtl) == n)
    && SetAfter(sets, after, key, now, t, t in Joined(sets, tags, n, now, setTtl))
  }

  lemma FractionTracksStep(
    sets: map<string, TagSet>, tags: seq<string>, n: nat, key: string, now: int, setTtl: real, t: string)
    requires 0 < n <= |tags| && !Whole(setTtl) && setTtl > 0.0
    requires TracksTo(sets, tags, n - 1, key, now, setTtl, t)
    requires TracksTo(sets, tags, n - 1, key, now, setTtl, tags[n - 1])
    ensures TracksTo(sets, tags, n, key, now, setTtl, t)
  {
    var last, rest := tags[n - 1], Joined(sets, tags, n - 1, now, setTtl);
    var before := TrackFirst(sets, tags, n - 1, key, now, setTtl);
    JoinedStep(sets, tags, n, now, setTtl);
    if before.1 {
      FractionTracksOne(sets, before.0, last, key, now, setTtl, t, t in rest, last in rest);
      assert TrackFirst(sets, tags, n, key, now, setTtl) == Track(before.0, last, key, now, setTtl);
    } else {
      assert TrackFirst(sets, tags, n, key, now, setTtl) == before;
    }
  }

  lemma {:induction false} FractionTracks(
    sets: map<string, TagSet>, tags: seq<string>, n: nat, key: string, now: int, setTtl: real, t: string)
    requires n <= |tags| && !Whole(setTtl) && setTtl > 0.0
    ensures TracksTo(sets, tags, n, key, now, setTtl, t)
    decreases n
  {
    if n > 0 {
      FractionTracks(sets, tags, n - 1, key, now, setTtl, t);
      FractionTracks(sets, tags, n - 1, key, now, setTtl, tags[n - 1]);
      FractionTracksStep(sets, tags, n, key, now, setTtl, t);
    }
  }

  /**
   What the sets must hold before the call when the TTL is a fraction: from the first set that
   needs EXPIRE on, each set lasts as it is, and has the key unless the loop still adds it.
   */
  predicate SetsSuffice(sets: map<string, TagSet>, tags: seq<string>, key: string, now: int, ttl: real, forGood: bool) {
    var j := FirstShort(sets, tags, |tags|, now, ttl + SET_SLACK);
    forall i :: j <= i < |tags| ==>
      && Covers(SetAt(sets, tags[i], now).expiresAt, now + TtlMs(ttl), now, forGood)
      && (tags[i] in tags[..j + 1] || key in SetAt(sets, tags[i], now).members)
  }

  lemma LongEnoughCovers(sets: map<string, TagSet>, tag: string, now: int, ttl: real)
    requires ttl > 0.0 && LongEnough(sets, tag, now, ttl + SET_SLACK)
    ensures Covers(SetAt(sets, tag, now).expiresAt, now + TtlMs(ttl), now, true)
  {
    var e := SetAt(sets, tag, now).expiresAt;
    var seconds := RedisTtl(e, now);
    assert TtlMs(ttl) as real <= ttl * 1000.0 + 0.5;
    if e.Some? {
      assert 1000 * seconds <= e.value - now + 500;
      assert (1000 * seconds) as real == 1000.0 * (seconds as real);
      assert 1000.0 * (seconds as real) >= 1000.0 * (ttl + SET_SLACK);
    }
  }

  /** One tag after a call whose TTL is a fraction. */
  lemma FractionListsExactly(sets: map<string, TagSet>, tags: seq<string>, key: string, now: int, ttl: real,
                             forGood: bool, i: nat)
    requires ttl > 0.0 && TtlMs(ttl) > 0 && !Whole(ttl + SET_SLACK) && i < |tags|
    ensures var j := FirstShort(sets, tags, |tags|, now, ttl + SET_SLACK);
            Listed(TrackFirst(sets, tags, |tags|, key, now, ttl + SET_SLACK).0, tags[i], key,
                   now + TtlMs(ttl), now, forGood)
            <==> i < j
                 || (Covers(SetAt(sets, tags[i], now).expiresAt, now + TtlMs(ttl), now, forGood)
                     && (tags[i] in tags[..j + 1] || key in SetAt(sets, tags[i], now).members))
  {
    var j := FirstShort(sets, tags, |tags|, now, ttl + SET_SLACK);
    FractionTracks(sets, tags, |tags|, key, now, ttl + SET_SLACK, tags[i]);
    if i < j {
      LongEnoughCovers(sets, tags[i], now, ttl);
      assert Joined(sets, tags, |tags|, now, ttl + SET_SLACK)[i] == tags[i];
    }
  }

  /**
   Never an entry without its tags: once the script wrote the entry, every tag's set holds the
   key until the entry expires exactly when the TTL is whole seconds, or the sets suffice as
   they are. With `forGood` the sets hold it whatever scripts run afterwards.
   */
  lemma TrackedExactly<V>(s: Store<V>, key: string, value: V, tags: seq<string>, ttl: real, since: Option<nat>,
                          forGood: bool)
    requires ttl > 0.0 && TtlMs(ttl) > 0 && !IsRefused(s, tags, since)
    ensures var s' := TagScript(s, key, value, tags, ttl, since).0;
            && key in s'.entries && s'.entries[key] == Entry(value, s.now + TtlMs(ttl))
            && ((forall i :: 0 <= i < |tags| ==> Listed(s'.sets, tags[i], key, s.now + TtlMs(ttl), s.now, forGood))
                <==> Whole(ttl) || SetsSuffice(s.sets, tags, key, s.now, ttl, forGood))
  {
    if Whole(ttl) {
      forall i | 0 <= i < |tags|
        ensures Listed(TagScript(s, key, value, tags, ttl, since).0.sets, tags[i], key,
                       s.now + TtlMs(ttl), s.now, forGood)
      {
        StoredIsTracked(s, key, value, tags, ttl, since, tags[i]);
      }
    } else {
      WholeShift(ttl);
      forall i: nat | i < |tags|
        ensures var j := FirstShort(s.sets, tags, |tags|, s.now, ttl + SET_SLACK);
                Listed(TagScript(s, key, value, tags, ttl, since).0.sets, tags[i], key,
                       s.now + TtlMs(ttl), s.now, forGood)
                <==> i < j
                     || (Covers(SetAt(s.sets, tags[i], s.now).expiresAt, s.now + TtlMs(ttl), s.now, forGood)
                         && (tags[i] in tags[..j + 1] || key in SetAt(s.sets, tags[i], s.now).members))
      {
        FractionListsExactly(s.sets, tags, key, s.now, ttl, forGood, i);
      }
    }
  }

  /** A later entry of the tag: when it is stored, its key and its TTL. */
  datatype Later = Later(at: int, key: string, ttl: real)

  /** They come one after the other from now on, while the entry lives. */
  ghost predicate Schedule(later: seq<Later>, now: int, until: int) {
    && (forall i :: 0 <= i < |later| ==> now <= later[i].at < until && later[i].ttl > 0.0)
    && forall i, j :: 0 <= i < j < |later| ==> later[i].at <= later[j].at
  }

  /** The tag's set after them. */
  ghost function AfterAll(sets: map<string, TagSet>, tag: string, later: seq<Later>): map<string, TagSet> {
    if later == [] then sets
    else
      var last := later[|later| - 1];
      Track(AfterAll(sets, tag, later[..|later| - 1]), tag, last.key, last.at, last.ttl + SET_SLACK).0
  }

  lemma {:induction false} HeldThroughout(sets: map<string, TagSet>, tag: string, key: string, until: int, now: int,
                                          later: seq<Later>)
    requires Holds(sets, tag, key, until, now) && Schedule(later, now, until)
    ensures Holds(AfterAll(sets, tag, later), tag, key, until, if later == [] then now else later[|later| - 1].at)
    decreases |later|
  {
    if later != [] {
      var last, rest := later[|later| - 1], later[..|later| - 1];
      HeldThroughout(sets, tag, key, until, now, rest);
      assert Holds(AfterAll(sets, tag, rest), tag, key, until, last.at);
      TrackKeeps(AfterAll(sets, tag, rest), tag, last.key, last.at, last.ttl + SET_SLACK, tag, key, until);
    }
  }

  /** What "for good" means: whatever entries of the tag are stored while the entry lives, its set still has the key. */
  lemma HeldForGoodExactly(sets: map<string, TagSet>, tag: string, key: string, until: int, now: int)
    requires now < until
    ensures Holds(sets, tag, key, until, now)
            <==> forall later :: Schedule(later, now, until) ==>
                   Listed(AfterAll(sets, tag, later), tag, key, until, now, false)
  {
    if Holds(sets, tag, key, until, now) {
      forall later | Schedule(later, now, until)
        ensures Listed(AfterAll(sets, tag, later), tag, key, until, now, false)
      {
        HeldThroughout(sets, tag, key, until, now, later);
      }
    } else {
      assert Schedule([], now, until) && AfterAll(sets, tag, []) == sets;
      if Listed(sets, tag, key, until, now, false) { UntimedSetIsShortened(sets, tag, key, until, now); }
    }
  }

  lemma UntimedSetIsShortened(sets: map<string, TagSet>, tag: string, key: string, until: int, now: int)
    requires now < until && Listed(sets, tag, key, until, now, false) && !Holds(sets, tag, key, until, now)
    ensures Schedule([Later(now, key, 1.0)], now, until)
    ensures !Listed(AfterAll(sets, tag, [Later(now, key, 1.0)]), tag, key, until, now, false)
  {
    assert [Later(now, key, 1.0)][..0] == [] && (301.0 as real).Floor == 301;
    assert AfterAll(sets, tag, [Later(now, key, 1.0)]) == Track(sets, tag, key, now, 301.0).0;
  }

  /**
   An input: a set without TTL does not hold a long-lived key for good: the next entry of the tag gives the set
   its own TTL, and the first entry outlives the set.
   */
  lemma UntimedSetIsCutShort()
    ensures var s: Store<int> := Store(map[], map[], map[], 0, 0);
            var s1 := TagScript(s, "k", 1, ["t"], 1000.5, None).0;
            var s2 := TagScript(s1, "m", 2, ["t"], 1.0, None).0;
            && Listed(s1.sets, "t", "k", 1000500, 0, false)
            && LiveEntry(s2.(now := 400000), "k")
            && LiveEntry(InvalidateScript(s2.(now := 400000), "t"), "k")
  {
    var s: Store<int> := Store(map[], map[], map[], 0, 0);
    assert (1300.5 as real).Floor == 1300 && (1000500.5 as real).Floor == 1000500;
    assert (301.0 as real).Floor == 301 && (1000.5 as real).Floor == 1000;
    var one := TrackFirst(s.sets, ["t"], 1, "k", 0, 1300.5).0;
    assert one == Track(s.sets, "t", "k", 0, 1300.5).0 && !Whole(1300.5);
    assert SetAt(s.sets, "t", 0).members + {"k"} == {"k"};
    assert one == map["t" := TagSet({"k"}, None)];
    assert TrackFirst(one, ["t"], 1, "m", 0, 301.0) == Track(one, "t", "m", 0, 301.0);
  }

  /** A fractional TTL on an empty cache leaves a live entry that none of its later tags reaches. */
  lemma FractionalTtlLeavesEntryUntagged()
    ensures var s: Store<int> := Store(map[], map[], map[], 0, 0);
            var (s', outcome) := TagScript(s, "story:id:7", 1, ["story", "story:7"], 0.5, None);
            && outcome.Failed?
            && LiveEntry(s', "story:id:7")
            && LiveEntry(InvalidateScript(s', "story:7"), "story:id:7")
  {
    var s: Store<int> := Store(map[], map[], map[], 0, 0);
    var tags := ["story", "story:7"];
    assert (300.5 as real).Floor == 300 && (500.5 as real).Floor == 500;
    var one := TrackFirst(s.sets, tags, 1, "story:id:7", 0, 300.5);
    assert one == Track(s.sets, "story", "story:id:7", 0, 300.5);
    assert TrackFirst(s.sets, tags, 2, "story:id:7", 0, 300.5) == one;
    assert "story:7" != "story";
  }

  // ---- The scripts, statement by statement -------------------------------------------

  class TagCache<V> {
    var entries: map<string, Entry<V>>
    var sets: map<string, TagSet>
    var fences: map<string, Stamp>
    var sequence: nat
    var now: int

    constructor (start: int)
      ensures State() == Store(map[], map[], map[], 0, start)
    {
      entries, sets, fences, sequence, now := map[], map[], map[], 0, start;
    }

    function State(): Store<V>
      reads this
    {
      Store(entries, sets, fences, sequence, now)
    }

    /**
     fence(): the number that tells the invalidations so far, which refuse no fill, from the
     next one of any tag, which does.
     */
    method Fence() returns (since: nat)
      ensures StampsInOrder(State()) ==> forall tags :: !IsRefused(State(), tags, Some(since))
      ensures forall tag :: InvalidatedSince(InvalidateScript(State(), tag), tag, since)
      ensures since == sequence
    {
      since := sequence;
    }

    /** setWithTags(): runs TAG_SCRIPT. */
    method SetWithTags(key: string, value: V, tags: seq<string>, ttl: real, since: Option<nat>)
      returns (outcome: Outcome)
      modifies this
      ensures (State(), outcome) == TagScript(old(State()), key, value, tags, ttl, since)
    {
      if since.Some? {
        for i := 0 to |tags|
          invariant State() == old(State())
          invariant forall j :: 0 <= j < i ==> !InvalidatedSince(State(), tags[j], since.value)
        {
          if tags[i] in fences && now < fences[tags[i]].expiresAt && fences[tags[i]].number > since.value {
            assert InvalidatedSince(State(), tags[i], since.value);
            entries := entries - {key};
            return Refused;
          }
        }
      }
      if TtlMs(ttl) <= 0 { return Failed; }
      entries := entries[key := Entry(value, now + TtlMs(ttl))];
      var ok := RecordUnder(key, tags, ttl + SET_SLACK);
      return if ok then Stored else Failed;
    }

    /** TAG_SCRIPT's second loop: SADD and EXPIRE per tag; false when EXPIRE rejects a fraction. */
    method RecordUnder(key: string, tags: seq<string>, setTtl: real) returns (ok: bool)
      modifies this`sets
      ensures (sets, ok) == TrackFirst(old(sets), tags, |tags|, key, now, setTtl)
    {
      ghost var before := sets;
      for i := 0 to |tags|
        invariant (sets, true) == TrackFirst(before, tags, i, key, now, setTtl)
      {
        ghost var soFar := sets;
        var current := SetAt(sets, tags[i], now);
        sets := sets[tags[i] := TagSet(current.members + {key}, current.expiresAt)];
        if RedisTtl(current.expiresAt, now) as real < setTtl {
          if !Whole(setTtl) {
            assert TrackFirst(before, tags, i + 1, key, now, setTtl) == (sets, false);
            StopsAtError(before, tags, i + 1, key, now, setTtl);
            return false;
          }
          sets := sets[tags[i] := TagSet(current.members + {key}, Some(now + 1000 * setTtl.Floor))];
        }
        assert sets == Track(soFar, tags[i], key, now, setTtl).0;
      }
      return true;
    }

    /** invalidateTag(): runs INVALIDATE_SCRIPT; returns how many keys the set held. */
    method InvalidateTag(tag: string) returns (count: nat)
      modifies this
      ensures State() == InvalidateScript(old(State()), tag)
      ensures count == |SetAt(old(sets), tag, old(now)).members|
    {
      sequence := sequence + 1;
      fences := fences[tag := Stamp(sequence, now + FENCE_TTL_MS)];
      var members := SetAt(sets, tag, now).members;
      count := |members|;
      ghost var all := members;
      while members != {}
        invariant members <= all
        invariant entries == old(entries) - (all - members)
        invariant sequence == old(sequence) + 1 && sets == old(sets) && now == old(now)
        invariant fences == old(fences)[tag := Stamp(old(sequence) + 1, old(now) + FENCE_TTL_MS)]
        decreases members
      {
        var key :| key in members;
        entries := entries - {key};
        members := members - {key};
      }
      assert all - members == all;
      sets := sets - {tag};
    }
  }

  lemma {:induction false} StopsAtError(
    sets: map<string, TagSet>, tags: seq<string>, n: nat, key: string, now: int, setTtl: real)
    requires n <= |tags|
    requires !TrackFirst(sets, tags, n, key, now, setTtl).1
    ensures TrackFirst(sets, tags, |tags|, key, now, setTtl) == TrackFirst(sets, tags, n, key, now, setTtl)
    decreases |tags| - n
  {
    if n < |tags| { StopsAtError(sets, tags, n + 1, key, now, setTtl); }
  }
}
