/**
 The renumbering of story versions that share a number: the oldest keeps it, the others go
 after the story's highest number, oldest first.
 */
module Renumbering {
  /** A version row; the order of the ids stands for the order of the UUIDs. */
  datatype Row = Row(id: nat, storyId: int, version: int, createdAt: int)

  /** A table: each id once. */
  type Table = set<Row>

  ghost predicate IdsAreKeys(t: Table) { forall a, b :: a in t && b in t && a.id == b.id ==> a == b }

  /** ORDER BY "createdAt", "id" */
  predicate UpTo(a: Row, b: Row) { a.createdAt < b.createdAt || (a.createdAt == b.createdAt && a.id <= b.id) }

  predicate SameNumber(a: Row, b: Row) { a.storyId == b.storyId && a.version == b.version }

  /** ROW_NUMBER of r in s: how many rows of s come up to it. */
  ghost function Rank(s: set<Row>, r: Row): nat { |set x | x in s && UpTo(x, r)| }

  ghost function Group(t: Table, r: Row): set<Row> { set x | x in t && SameNumber(x, r) }

  /** The rows past the first of their number. */
  ghost function Extra(t: Table): set<Row> { set r | r in t && Rank(Group(t, r), r) > 1 }

  ghost function ExtraOf(t: Table, story: int): set<Row> { set r | r in Extra(t) && r.storyId == story }

  ghost predicate IsTop(t: Table, story: int, top: int) {
    (exists r :: r in t && r.storyId == story && r.version == top)
    && forall r :: r in t && r.storyId == story ==> r.version <= top
  }

  lemma {:induction false} TopExists(t: Table, r: Row) returns (top: int)
    requires r in t
    ensures IsTop(t, r.storyId, top)
    decreases |t|
  {
    if x :| x in t && x.storyId == r.storyId && x != r {
      top := TopExists(t - {r}, x);
      if top < r.version {
        top := r.version;
      } else {
        var y :| y in t - {r} && y.storyId == r.storyId && y.version == top;
        assert y in t;
      }
    } else {
      top := r.version;
    }
  }

  /** MAX("versionNumber") of the story */
  ghost function Top(t: Table, r: Row): (top: int)
    requires r in t
    ensures IsTop(t, r.storyId, top)
  {
    assert exists top :: IsTop(t, r.storyId, top) by { var top := TopExists(t, r); }
    var top :| IsTop(t, r.storyId, top);
    top
  }

  /** The updated row. */
  ghost function Renumber(t: Table, r: Row): Row
    requires r in t
  {
    if r in Extra(t) then r.(version := Top(t, r) + Rank(ExtraOf(t, r.storyId), r)) else r
  }

  ghost function Renumbered(t: Table): Table { set r | r in t :: Renumber(t, r) }

  // ---- Ranks ---------------------------------------------------------------------------------

  lemma RanksOrder(t: Table, s: set<Row>, a: Row, b: Row)
    requires IdsAreKeys(t) && s <= t && a in s && b in s
    ensures Rank(s, a) < Rank(s, b) <==> !UpTo(b, a)
    ensures Rank(s, a) >= 1
    ensures a != b ==> Rank(s, a) != Rank(s, b)
  {
    var upToA, upToB := set x | x in s && UpTo(x, a), set x | x in s && UpTo(x, b);
    assert a in upToA && b in upToB;
    if UpTo(b, a) {
      assert upToB <= upToA;
      Smaller(upToB, upToA);
      if a != b {
        assert a !in upToB;
        Smaller(upToB, upToA - {a});
      }
    } else {
      assert b !in upToA && upToA <= upToB - {b};
      Smaller(upToA, upToB - {b});
    }
  }

  lemma {:induction false} Smaller(a: set<Row>, b: set<Row>)
    requires a <= b
    ensures |a| <= |b|
    decreases |a|
  {
    if x :| x in a { Smaller(a - {x}, b - {x}); }
  }

  /** A row is past the first of its number exactly when an earlier row has the same number. */
  lemma ExtraExactly(t: Table, r: Row)
    requires IdsAreKeys(t) && r in t
    ensures r in Extra(t) <==> exists x :: x in t && x != r && SameNumber(x, r) && UpTo(x, r)
  {
    var upTo := set x | x in Group(t, r) && UpTo(x, r);
    assert r in upTo;
    if x :| x in t && x != r && SameNumber(x, r) && UpTo(x, r) {
      assert x in upTo;
      Smaller({x, r}, upTo);
    } else {
      assert upTo == {r};
    }
  }

  // ---- What the update does --------------------------------------------------------------------

  /**
   A row keeps its number exactly when no other row of its story with that number was created earlier,
   or at the same time with a smaller id; nothing but the number changes.
   */
  lemma OldestKeepsNumber(t: Table, r: Row)
    requires IdsAreKeys(t) && r in t
    ensures Renumber(t, r) == r <==>
              !exists x :: x in t && x.storyId == r.storyId && x.version == r.version
                           && (x.createdAt < r.createdAt || (x.createdAt == r.createdAt && x.id < r.id))
    ensures Renumber(t, r) == r.(version := Renumber(t, r).version)
  {
    ExtraExactly(t, r);
    if r in Extra(t) {
      RanksOrder(t, ExtraOf(t, r.storyId), r, r);
      var x :| x in t && x != r && SameNumber(x, r) && UpTo(x, r);
      assert x.id != r.id;
    }
  }

  /** The rows that move are those whose number an older row of the story has. */
  lemma MovedExactly(t: Table, r: Row)
    requires IdsAreKeys(t) && r in t
    ensures r in Extra(t) <==> Renumber(t, r).version != r.version
  {
    if r in Extra(t) { RanksOrder(t, ExtraOf(t, r.storyId), r, r); }
  }

  /** Rows that move go above every number their story had, the one created earlier (or with the smaller id) first. */
  lemma MovedGoOnTopInOrder(t: Table, a: Row, b: Row)
    requires IdsAreKeys(t) && a in t && b in t && a.storyId == b.storyId && Renumber(t, a).version != a.version
    ensures Renumber(t, a).version > b.version
    ensures Renumber(t, b).version != b.version ==>
              (Renumber(t, a).version < Renumber(t, b).version
               <==> a.createdAt < b.createdAt || (a.createdAt == b.createdAt && a.id < b.id))
  {
    MovedExactly(t, a);
    MovedExactly(t, b);
    assert a != b ==> a.id != b.id;
    RanksOrder(t, ExtraOf(t, a.storyId), a, a);
    if b in Extra(t) {
      RanksOrder(t, ExtraOf(t, a.storyId), a, b);
      TopsAgree(t, a, b);
    }
  }

  lemma TopsAgree(t: Table, a: Row, b: Row)
    requires a in t && b in t && a.storyId == b.storyId
    ensures Top(t, a) == Top(t, b)
  {
  }

  lemma DistinctNumbers(t: Table, a: Row, b: Row)
    requires IdsAreKeys(t) && a in t && b in t && a != b && a.storyId == b.storyId
    ensures Renumber(t, a).version != Renumber(t, b).version
  {
    MovedExactly(t, a);
    MovedExactly(t, b);
    assert a.id != b.id;
    if a in Extra(t) {
      MovedGoOnTopInOrder(t, a, b);
      if b in Extra(t) { MovedGoOnTopInOrder(t, b, a); }
    } else if b in Extra(t) {
      MovedGoOnTopInOrder(t, b, a);
    } else {
      ExtraExactly(t, a);
      ExtraExactly(t, b);
      assert UpTo(a, b) || UpTo(b, a);
    }
  }

  ghost predicate NumbersAreUnique(t: Table) { forall a, b :: a in t && b in t && SameNumber(a, b) ==> a == b }

  /** After the update the unique index can be created: whatever the table was. */
  lemma RenumberedIsUnique(t: Table)
    requires IdsAreKeys(t)
    ensures IdsAreKeys(Renumbered(t)) && NumbersAreUnique(Renumbered(t))
  {
    forall a, b | a in Renumbered(t) && b in Renumbered(t) && (a.id == b.id || SameNumber(a, b)) ensures a == b {
      var x :| x in t && Renumber(t, x) == a;
      var y :| y in t && Renumber(t, y) == b;
      if x != y && a.storyId == b.storyId { DistinctNumbers(t, x, y); }
    }
  }

  /** A table without duplicates is left alone; so running the update again changes nothing. */
  lemma UpdateIsIdempotent(t: Table)
    requires IdsAreKeys(t)
    ensures NumbersAreUnique(t) <==> Renumbered(t) == t
    ensures Renumbered(Renumbered(t)) == Renumbered(t)
  {
    UniqueIsUnchanged(t);
    RenumberedIsUnique(t);
    UniqueIsUnchanged(Renumbered(t));
  }

  lemma UniqueIsUnchanged(t: Table)
    requires IdsAreKeys(t)
    ensures NumbersAreUnique(t) ==> Renumbered(t) == t
  {
    if NumbersAreUnique(t) {
      forall r | r in t ensures Renumber(t, r) == r { OldestKeepsNumber(t, r); }
    }
  }

  // ---- No gaps -------------------------------------------------------------------------------------

  lemma {:induction false} Newest(s: set<Row>) returns (r: Row)
    requires s != {}
    ensures r in s && forall x :: x in s ==> UpTo(x, r)
    decreases |s|
  {
    var some :| some in s;
    r := some;
    if s - {some} != {} {
      var n := Newest(s - {some});
      if UpTo(some, n) { r := n; }
    }
    forall x | x in s ensures UpTo(x, r) { assert x == some || x in s - {some}; }
  }

  /** ROW_NUMBER gives out every number from 1 to the size of the partition. */
  lemma {:induction false} RanksFill(t: Table, s: set<Row>, n: nat) returns (r: Row)
    requires IdsAreKeys(t) && s <= t && 1 <= n <= |s|
    ensures r in s && Rank(s, r) == n
    decreases |s|
  {
    var last := Newest(s);
    if n == |s| {
      r := last;
      assert (set x | x in s && UpTo(x, r)) == s;
    } else {
      r := RanksFill(t, s - {last}, n);
      assert !UpTo(last, r);
      assert (set x | x in s && UpTo(x, r)) == (set x | x in s - {last} && UpTo(x, r));
    }
  }

  /** The numbers of the rows past the first of theirs. */
  lemma ExtraTakeTheNextNumbers(t: Table, story: int, top: int, n: int)
    requires IdsAreKeys(t) && IsTop(t, story, top)
    ensures (exists x :: x in ExtraOf(t, story) && Renumber(t, x).version == n)
            <==> top < n <= top + |ExtraOf(t, story)|
  {
    var extra := ExtraOf(t, story);
    if x :| x in extra && Renumber(t, x).version == n {
      assert Top(t, x) == top;
      RanksOrder(t, extra, x, x);
      Smaller((set y | y in extra && UpTo(y, x)), extra);
    }
    if top < n <= top + |extra| {
      var x := RanksFill(t, extra, n - top);
      assert Top(t, x) == top;
    }
  }

  lemma MovedAreExtra(t: Table, story: int)
    requires IdsAreKeys(t)
    ensures (set x | x in t && x.storyId == story && Renumber(t, x).version != x.version) == ExtraOf(t, story)
  {
    forall x | x in t ensures x in Extra(t) <==> Renumber(t, x).version != x.version { MovedExactly(t, x); }
  }

  /** The moved rows of a story take exactly the numbers that follow its highest one. */
  lemma MovedTakeTheNextNumbers(t: Table, story: int, top: int, n: int)
    requires IdsAreKeys(t) && (exists r :: r in t && r.storyId == story && r.version == top)
    requires forall r :: r in t && r.storyId == story ==> r.version <= top
    ensures var moved := set x | x in t && x.storyId == story && Renumber(t, x).version != x.version;
            (exists x :: x in moved && Renumber(t, x).version == n) <==> top < n <= top + |moved|
  {
    MovedAreExtra(t, story);
    ExtraTakeTheNextNumbers(t, story, top, n);
  }
}
