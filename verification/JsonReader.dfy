/**
 A reader of JSON without white space (RFC 8259), independent of the printer: what it reads
 from a printed value is that value, with the keys of its objects in order.
 */
module JsonReading {
  import opened Wrappers
  import opened CanonicalJson

  // ---- Strings ---------------------------------------------------------------------------------

  function HexValue(c: Unit): (d: Option<int>)
    ensures d.Some? ==> 0 <= d.value < 16
  {
    if 48 <= c <= 57 then Some(c - 48)
    else if 97 <= c <= 102 then Some(c - 87)
    else if 65 <= c <= 70 then Some(c - 55)
    else None
  }

  /** Four hexadecimal digits. */
  function ReadHex(t: Text): (r: Option<Unit>)
    requires |t| == 4
  {
    var a, b, c, d := HexValue(t[0]), HexValue(t[1]), HexValue(t[2]), HexValue(t[3]);
    if a.Some? && b.Some? && c.Some? && d.Some?
    then Some(((a.value * 16 + b.value) * 16 + c.value) * 16 + d.value)
    else None
  }

  /** What a backslash and this unit stand for: section 7 of RFC 8259. */
  function Escaped(c: Unit): Option<Unit> {
    match c
    case 34 => Some(34)
    case 92 => Some(92)
    case 47 => Some(47)
    case 98 => Some(8)
    case 102 => Some(12)
    case 110 => Some(10)
    case 114 => Some(13)
    case 116 => Some(9)
    case _ => None
  }

  function Before(c: Unit, r: Option<(Text, Text)>): Option<(Text, Text)> {
    if r.Some? then Some(([c] + r.value.0, r.value.1)) else None
  }

  /** A string from behind its opening quote, and what follows it. */
  function ReadChars(t: Text): (r: Option<(Text, Text)>)
    ensures r.Some? ==> |r.value.1| < |t|
    decreases |t|
  {
    if t == [] || t[0] < 32 then None
    else if t[0] == QUOTE then Some(([], t[1..]))
    else if t[0] != BACKSLASH then Before(t[0], ReadChars(t[1..]))
    else if |t| < 2 then None
    else if t[1] == 117 then
      if |t| < 6 then None
      else match ReadHex(t[2..6])
           case None => None
           case Some(c) => Before(c, ReadChars(t[6..]))
    else
      match Escaped(t[1])
      case None => None
      case Some(c) => Before(c, ReadChars(t[2..]))
  }

  // ---- Values ----------------------------------------------------------------------------------

  /** How many units of a number the text starts with. */
  function NumberRun(t: Text): (n: nat)
    ensures n <= |t| && (forall i :: 0 <= i < n ==> NumberUnit(t[i])) && (n < |t| ==> !NumberUnit(t[n]))
  {
    if t == [] || !NumberUnit(t[0]) then 0 else 1 + NumberRun(t[1..])
  }

  function ReadLiteral(t: Text, literal: Text, v: Json): (r: Option<(Json, Text)>)
    requires literal != []
    ensures r.Some? ==> |r.value.1| < |t|
  {
    if literal <= t then Some((v, t[|literal|..])) else None
  }

  /** A value and what follows it. */
  function ReadValue(t: Text): (r: Option<(Json, Text)>)
    ensures r.Some? ==> |r.value.1| < |t|
    decreases |t|, 0
  {
    if t == [] then None
    else if t[0] == QUOTE then
      match ReadChars(t[1..])
      case None => None
      case Some((chars, rest)) => Some((String(chars), rest))
    else if t[0] == OPEN_ARRAY then
      if |t| > 1 && t[1] == CLOSE_ARRAY then Some((Array([]), t[2..]))
      else match ReadItems(t[1..])
           case None => None
           case Some((items, rest)) => Some((Array(items), rest))
    else if t[0] == OPEN_OBJECT then
      if |t| > 1 && t[1] == CLOSE_OBJECT then Some((Object([]), t[2..]))
      else match ReadEntries(t[1..])
           case None => None
           case Some((entries, rest)) => Some((Object(entries), rest))
    else if 48 <= t[0] <= 57 || t[0] == 45 then
      var n := NumberRun(t);
      Some((Number(t[..n]), t[n..]))
    else if t[0] == 110 then ReadLiteral(t, [110, 117, 108, 108], Null)
    else if t[0] == 116 then ReadLiteral(t, [116, 114, 117, 101], Bool(true))
    else ReadLiteral(t, [102, 97, 108, 115, 101], Bool(false))
  }

  /** The items of an array, up to its closing bracket. */
  function ReadItems(t: Text): (r: Option<(seq<Json>, Text)>)
    ensures r.Some? ==> |r.value.1| < |t|
    decreases |t|, 1
  {
    match ReadValue(t)
    case None => None
    case Some((v, rest)) =>
      if rest == [] then None
      else if rest[0] == CLOSE_ARRAY then Some(([v], rest[1..]))
      else if rest[0] != COMMA then None
      else
        match ReadItems(rest[1..])
        case None => None
        case Some((items, after)) => Some(([v] + items, after))
  }

  /** A key, a colon and a value. */
  function ReadEntry(t: Text): (r: Option<(Entry, Text)>)
    ensures r.Some? ==> |r.value.1| < |t|
    decreases |t|, 1
  {
    if t == [] || t[0] != QUOTE then None
    else
      match ReadChars(t[1..])
      case None => None
      case Some((key, rest)) =>
        if rest == [] || rest[0] != COLON then None
        else
          match ReadValue(rest[1..])
          case None => None
          case Some((v, after)) => Some((Entry(key, v), after))
  }

  /** The entries of an object, up to its closing bracket. */
  function ReadEntries(t: Text): (r: Option<(seq<Entry>, Text)>)
    ensures r.Some? ==> |r.value.1| < |t|
    decreases |t|, 2
  {
    match ReadEntry(t)
    case None => None
    case Some((e, rest)) =>
      if rest == [] then None
      else if rest[0] == CLOSE_OBJECT then Some(([e], rest[1..]))
      else if rest[0] != COMMA then None
      else
        match ReadEntries(rest[1..])
        case None => None
        case Some((entries, after)) => Some(([e] + entries, after))
  }

  /** A text that is one value. */
  function ReadJson(t: Text): Option<Json> {
    match ReadValue(t)
    case None => None
    case Some((v, rest)) => if rest == [] then Some(v) else None
  }

  // ---- The value with its keys in order ----------------------------------------------------------

  function Canonical(v: Json): Json
    decreases v
  {
    match v
    case Array(items) => Array(seq(|items|, i requires 0 <= i < |items| => Canonical(items[i])))
    case Object(entries) =>
      var sorted := Sorted(entries);
      Object(seq(|sorted|, i requires 0 <= i < |sorted| =>
        SortedEntry(entries, i);
        Entry(sorted[i].key, Canonical(sorted[i].value))))
    case _ => v
  }

  function CanonicalEntry(e: Entry): Entry { Entry(e.key, Canonical(e.value)) }

  function CanonicalEntries(entries: seq<Entry>): seq<Entry> {
    seq(|entries|, i requires 0 <= i < |entries| => CanonicalEntry(entries[i]))
  }

  lemma CanonicalObject(entries: seq<Entry>)
    ensures Canonical(Object(entries)) == Object(CanonicalEntries(Sorted(entries)))
  {
    var sorted := Sorted(entries);
    forall i | 0 <= i < |sorted| ensures sorted[i] in entries { SortedEntry(entries, i); }
    assert seq(|sorted|, i requires 0 <= i < |sorted| =>
        SortedEntry(entries, i);
        Entry(sorted[i].key, Canonical(sorted[i].value))) == CanonicalEntries(sorted);
  }

  /** It is the same value. */
  lemma {:induction false} CanonicalIsSame(v: Json)
    requires WellFormed(v)
    ensures Same(v, Canonical(v))
    decreases v
  {
    match v {
      case Array(items) =>
        forall i | 0 <= i < |items| ensures Same(items[i], Canonical(items[i])) { CanonicalIsSame(items[i]); }
      case Object(entries) =>
        CanonicalObject(entries);
        CanonicalKeys(entries);
        var entries' := CanonicalEntries(Sorted(entries));
        forall e, f | e in entries && f in entries' && e.key == f.key ensures Same(e.value, f.value) {
          var i :| 0 <= i < |entries'| && entries'[i] == f;
          SortedEntry(entries, i);
          assert Sorted(entries)[i] == e;
          CanonicalIsSame(e.value);
        }
      case _ =>
    }
  }

  lemma CanonicalKeys(entries: seq<Entry>)
    ensures Keys(entries) == Keys(CanonicalEntries(Sorted(entries)))
  {
    var entries' := CanonicalEntries(Sorted(entries));
    forall k ensures k in Keys(entries) <==> k in Keys(entries') {
      if k in Keys(entries) {
        var e :| e in entries && e.key == k;
        var i := SortedAt(entries, e);
        assert entries'[i] in entries' && entries'[i].key == k;
      }
      if k in Keys(entries') {
        var f :| f in entries' && f.key == k;
        var i :| 0 <= i < |entries'| && entries'[i] == f;
        SortedEntry(entries, i);
      }
    }
  }

  // ---- Reading what was printed --------------------------------------------------------------------

  lemma HexIsRead(c: Unit)
    ensures ReadHex(HexEscape(c)[2..6]) == Some(c)
  {
    var t := HexEscape(c)[2..6];
    assert t == [HexDigit(c / 16 / 16 / 16), HexDigit(c / 16 / 16 % 16), HexDigit(c / 16 % 16), HexDigit(c % 16)];
    assert c == c / 16 * 16 + c % 16 && c / 16 == c / 16 / 16 * 16 + c / 16 % 16;
    assert c / 16 / 16 == c / 16 / 16 / 16 * 16 + c / 16 / 16 % 16;
  }

  function Ahead(s: Text, r: Option<(Text, Text)>): Option<(Text, Text)> {
    if r.Some? then Some((s + r.value.0, r.value.1)) else None
  }

  lemma UnitIsRead(c: Unit, x: Text)
    requires c >= 32 && c != QUOTE && c != BACKSLASH
    ensures ReadChars([c] + x) == Before(c, ReadChars(x))
  {
    assert ([c] + x)[1..] == x;
  }

  lemma ShortEscapeIsRead(c: Unit, x: Text)
    requires c != 117 && Escaped(c).Some?
    ensures ReadChars([BACKSLASH, c] + x) == Before(Escaped(c).value, ReadChars(x))
  {
    assert ([BACKSLASH, c] + x)[2..] == x;
  }

  lemma HexEscapeIsRead(c: Unit, x: Text)
    ensures ReadChars(HexEscape(c) + x) == Before(c, ReadChars(x))
  {
    var t := HexEscape(c) + x;
    HexIsRead(c);
    assert t[0] == BACKSLASH && t[1] == 117 && t[2..6] == HexEscape(c)[2..6] && t[6..] == x;
  }

  /** A printed piece is read as the units it was printed for. */
  lemma PieceIsRead(s: Text, x: Text)
    requires s != []
    ensures ReadChars(Piece(s) + x) == Ahead(s[..PieceLength(s)], ReadChars(x))
  {
    var p := Piece(s);
    if PieceLength(s) == 2 {
      assert p + x == [s[0]] + ([s[1]] + x) && s[..2] == [s[0]] + [s[1]];
      UnitIsRead(s[0], [s[1]] + x);
      UnitIsRead(s[1], x);
      var r := ReadChars(x);
      if r.Some? { assert [s[0]] + ([s[1]] + r.value.0) == s[..2] + r.value.0; }
    } else {
      assert s[..1] == [s[0]];
      if p == HexEscape(s[0]) {
        HexEscapeIsRead(s[0], x);
      } else if |p| == 2 {
        ShortEscapeIsRead(p[1], x);
      } else {
        UnitIsRead(s[0], x);
      }
    }
  }

  lemma {:induction false} CharsAreRead(s: Text, x: Text)
    ensures ReadChars(Escape(s) + [QUOTE] + x) == Some((s, x))
    decreases |s|
  {
    if s == [] {
      assert Escape(s) + [QUOTE] + x == [QUOTE] + x;
    } else {
      EscapeStep(s, x);
      PieceIsRead(s, Escape(s[PieceLength(s)..]) + [QUOTE] + x);
      CharsAreRead(s[PieceLength(s)..], x);
    }
  }

  lemma QuoteIsRead(s: Text, x: Text)
    ensures var t := Quote(s) + x; t[0] == QUOTE && ReadChars(t[1..]) == Some((s, x))
  {
    BracketedRest(QUOTE, Escape(s), QUOTE, x);
    CharsAreRead(s, x);
  }

  lemma {:induction false} NumberIsRun(t: Text, x: Text)
    requires (forall i :: 0 <= i < |t| ==> NumberUnit(t[i])) && Stops(x)
    ensures NumberRun(t + x) == |t|
    decreases |t|
  {
    if t == [] {
      assert t + x == x;
    } else {
      assert (t + x)[1..] == t[1..] + x;
      NumberIsRun(t[1..], x);
    }
  }

  lemma ScalarIsRead(v: Json, x: Text)
    requires !v.Array? && !v.Object? && (v.Number? ==> Stops(x))
    ensures ReadValue(Stringify(v) + x) == Some((v, x))
  {
    var t := Stringify(v) + x;
    match v {
      case Null => assert t[4..] == x;
      case Bool(b) => assert t[if b then 4 else 5..] == x;
      case Number(n) =>
        NumberIsRun(n, x);
        assert t[..|n|] == n && t[|n|..] == x && t[0] == n[0];
      case String(s) => QuoteIsRead(s, x);
    }
  }

  /** The items of an array from the k-th on. */
  lemma {:induction false} ItemsAreRead(v: Json, k: nat, x: Text)
    requires v.Array? && k < |v.items|
    ensures ReadItems(Join(ItemTexts(v.items)[k..]) + [CLOSE_ARRAY] + x)
            == Some((Canonical(v).items[k..], x))
    decreases v, 0, |v.items| - k
  {
    var xs := ItemTexts(v.items)[k..];
    JoinSplits(xs, CLOSE_ARRAY, x);
    var after := AfterFirst(xs, CLOSE_ARRAY, x);
    ValueIsRead(v.items[k], after);
    var items := Canonical(v).items;
    if |xs| == 1 {
      assert after[1..] == x && items[k..] == [items[k]];
    } else {
      assert xs[1..] == ItemTexts(v.items)[k + 1..];
      assert after[1..] == Join(xs[1..]) + [CLOSE_ARRAY] + x;
      ItemsAreRead(v, k + 1, x);
      assert items[k..] == [items[k]] + items[k + 1..];
    }
  }

  lemma {:induction false} EntryIsRead(v: Json, k: nat, x: Text)
    requires v.Object? && k < |v.entries| && Stops(x)
    ensures var e := Sorted(v.entries)[k]; ReadEntry(EntryText(e) + x) == Some((CanonicalEntry(e), x))
    decreases v, 0, 0
  {
    var e := Sorted(v.entries)[k];
    SortedEntry(v.entries, k);
    var value := Stringify(e.value);
    EntrySplits(e.key, value, x);
    QuoteIsRead(e.key, [COLON] + (value + x));
    ValueIsRead(e.value, x);
    assert ([COLON] + (value + x))[1..] == value + x;
  }

  /** One entry read, and then the rest of them. */
  lemma EntriesStep(t: Text, e: Entry, after: Text, entries: seq<Entry>, x: Text)
    requires ReadEntry(t) == Some((e, after)) && after != []
    requires if after[0] == CLOSE_OBJECT then entries == [] && x == after[1..]
             else after[0] == COMMA && ReadEntries(after[1..]) == Some((entries, x))
    ensures ReadEntries(t) == Some(([e] + entries, x))
  {
    if entries == [] { assert [e] + entries == [e]; }
  }

  /** The entries of an object from the k-th in order on. */
  lemma {:induction false} EntriesAreRead(v: Json, k: nat, x: Text)
    requires v.Object? && k < |v.entries|
    ensures ReadEntries(Join(EntryTexts(Sorted(v.entries))[k..]) + [CLOSE_OBJECT] + x)
            == Some((CanonicalEntries(Sorted(v.entries))[k..], x))
    decreases v, 0, |v.entries| - k
  {
    var texts, entries := EntryTexts(Sorted(v.entries)), CanonicalEntries(Sorted(v.entries));
    var xs := texts[k..];
    JoinSplits(xs, CLOSE_OBJECT, x);
    var after := AfterFirst(xs, CLOSE_OBJECT, x);
    EntryIsRead(v, k, after);
    assert entries[k..] == [entries[k]] + entries[k + 1..];
    if |xs| == 1 {
      assert after[1..] == x;
    } else {
      assert xs[1..] == texts[k + 1..];
      assert after[1..] == Join(xs[1..]) + [CLOSE_OBJECT] + x;
      EntriesAreRead(v, k + 1, x);
    }
    EntriesStep(xs[0] + after, entries[k], after, entries[k + 1..], x);
  }

  /** A printed value, whatever follows it that ends a number, is read as the value with its keys in order. */
  lemma {:induction false} ValueIsRead(v: Json, x: Text)
    requires v.Number? ==> Stops(x)
    ensures ReadValue(Stringify(v) + x) == Some((Canonical(v), x))
    decreases v, 1, 0
  {
    match v {
      case Array(items) => ArrayIsRead(v, x);
      case Object(entries) => ObjectIsRead(v, x);
      case _ => ScalarIsRead(v, x);
    }
  }

  lemma {:induction false} ArrayIsRead(v: Json, x: Text)
    requires v.Array?
    ensures ReadValue(Stringify(v) + x) == Some((Canonical(v), x))
    decreases v, 0, |v.items| + 1
  {
    var texts, t := ItemTexts(v.items), Stringify(v) + x;
    ArrayText(v.items);
    BracketedRest(OPEN_ARRAY, Join(texts), CLOSE_ARRAY, x);
    if v.items == [] {
      assert t == [OPEN_ARRAY] + ([CLOSE_ARRAY] + x) && t[2..] == x;
    } else {
      JoinSplits(texts, CLOSE_ARRAY, x);
      StartsWithFirstUnit(v.items[0]);
      assert texts[0..] == texts && Canonical(v).items[0..] == Canonical(v).items;
      ItemsAreRead(v, 0, x);
      assert t[1] == t[1..][0];
    }
  }

  lemma EmptyObjectIsRead(v: Json, x: Text)
    requires v == Object([])
    ensures ReadValue(Stringify(v) + x) == Some((Canonical(v), x))
  {
    ObjectText([]);
    CanonicalObject([]);
    assert EntryTexts(Sorted([])) == [] && CanonicalEntries(Sorted([])) == [];
    var t := Stringify(v) + x;
    assert t == [OPEN_OBJECT] + ([CLOSE_OBJECT] + x) && t[2..] == x;
  }

  lemma {:induction false} ObjectIsRead(v: Json, x: Text)
    requires v.Object?
    ensures ReadValue(Stringify(v) + x) == Some((Canonical(v), x))
    decreases v, 0, |v.entries| + 1
  {
    if v.entries == [] {
      EmptyObjectIsRead(v, x);
    } else {
      var texts, t := EntryTexts(Sorted(v.entries)), Stringify(v) + x;
      var entries := CanonicalEntries(Sorted(v.entries));
      ObjectText(v.entries);
      CanonicalObject(v.entries);
      BracketedRest(OPEN_OBJECT, Join(texts), CLOSE_OBJECT, x);
      JoinSplits(texts, CLOSE_OBJECT, x);
      assert texts[0..] == texts && entries[0..] == entries;
      EntriesAreRead(v, 0, x);
      assert t[1] == t[1..][0] == QUOTE;
    }
  }

  /** The keys of every object in the value stand in the order of their code units. */
  ghost predicate KeysInOrder(v: Json) {
    match v
    case Array(items) => forall x :: x in items ==> KeysInOrder(x)
    case Object(entries) => Ordered(KeySeq(entries)) && forall e :: e in entries ==> KeysInOrder(e.value)
    case _ => true
  }

  lemma {:induction false} CanonicalIsInOrder(v: Json)
    ensures KeysInOrder(Canonical(v))
    decreases v
  {
    match v {
      case Array(items) =>
        forall x | x in Canonical(v).items ensures KeysInOrder(x) {
          var i :| 0 <= i < |items| && Canonical(v).items[i] == x;
          CanonicalIsInOrder(items[i]);
        }
      case Object(entries) =>
        CanonicalObject(entries);
        SortedOrders(entries);
        var entries' := CanonicalEntries(Sorted(entries));
        assert KeySeq(entries') == KeySeq(Sorted(entries));
        forall e | e in entries' ensures KeysInOrder(e.value) {
          var i :| 0 <= i < |entries'| && entries'[i] == e;
          SortedEntry(entries, i);
          CanonicalIsInOrder(Sorted(entries)[i].value);
        }
      case _ =>
    }
  }

  /** The printed text is JSON of the value: a reader gets the same value back, with every object's keys in order. */
  lemma PrintedIsReadBack(v: Json)
    requires WellFormed(v)
    ensures exists w :: ReadJson(Stringify(v)) == Some(w) && Same(v, w) && KeysInOrder(w)
  {
    CanonicalIsInOrder(v);
    assert Stringify(v) + [] == Stringify(v);
    ValueIsRead(v, []);
    CanonicalIsSame(v);
  }
}
