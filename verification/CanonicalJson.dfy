/**
 The canonical printer behind the request fingerprint: object keys sorted, everything else
 as JSON.stringify prints it. Equal texts mean equal values up to key order, and the
 concatenation of a printed query object and a printed body determines both.
 */
module CanonicalJson {
  /** A UTF-16 code unit: what JavaScript strings are made of and sorted by. */
  type Unit = c: int | 0 <= c < 0x1_0000
  type Text = seq<Unit>

  const QUOTE: Unit := 34
  const COMMA: Unit := 44
  const COLON: Unit := 58
  const BACKSLASH: Unit := 92
  const OPEN_ARRAY: Unit := 91
  const CLOSE_ARRAY: Unit := 93
  const OPEN_OBJECT: Unit := 123
  const CLOSE_OBJECT: Unit := 125

  /** Digits, sign, point and exponent. */
  predicate NumberUnit(c: Unit) { 48 <= c <= 57 || c == 45 || c == 43 || c == 46 || c == 101 }

  /** A number is what Number.prototype.toString prints for it. */
  type NumberText = t: Text |
    t != [] && (48 <= t[0] <= 57 || t[0] == 45) && forall i :: 0 <= i < |t| ==> NumberUnit(t[i])
    witness [48]

  datatype Entry = Entry(key: Text, value: Json)

  datatype Json =
    | Null
    | Bool(value: bool)
    | Number(digits: NumberText)
    | String(chars: Text)
    | Array(items: seq<Json>)
    | Object(entries: seq<Entry>)

  // ---- JSON.stringify of a string ------------------------------------------------------------

  predicate HighSurrogate(c: Unit) { 0xd800 <= c < 0xdc00 }

  predicate LowSurrogate(c: Unit) { 0xdc00 <= c < 0xe000 }

  /** A lower-case hexadecimal digit. */
  function HexDigit(d: int): Unit
    requires 0 <= d < 16
  {
    if d < 10 then 48 + d else 87 + d
  }

  /** backslash, u, four digits */
  function HexEscape(c: Unit): Text {
    [BACKSLASH, 117, HexDigit(c / 16 / 16 / 16), HexDigit(c / 16 / 16 % 16), HexDigit(c / 16 % 16), HexDigit(c % 16)]
  }

  /** How many units the next piece takes: a surrogate pair is kept together. */
  function PieceLength(s: Text): nat
    requires s != []
  {
    if HighSurrogate(s[0]) && |s| > 1 && LowSurrogate(s[1]) then 2 else 1
  }

  /** The next piece as printed: controls, quotes, backslashes and lone surrogates are escaped. */
  function Piece(s: Text): Text
    requires s != []
  {
    var c := s[0];
    if PieceLength(s) == 2 then s[..2]
    else if c == 8 then [BACKSLASH, 98]
    else if c == 9 then [BACKSLASH, 116]
    else if c == 10 then [BACKSLASH, 110]
    else if c == 12 then [BACKSLASH, 102]
    else if c == 13 then [BACKSLASH, 114]
    else if c == QUOTE || c == BACKSLASH then [BACKSLASH, c]
    else if c < 32 || HighSurrogate(c) || LowSurrogate(c) then HexEscape(c)
    else [c]
  }

  function Escape(s: Text): Text {
    if s == [] then [] else Piece(s) + Escape(s[PieceLength(s)..])
  }

  function Quote(s: Text): Text { [QUOTE] + Escape(s) + [QUOTE] }

  // ---- stableStringify -----------------------------------------------------------------------

  /** The order of Array.prototype.sort on strings: by UTF-16 code units. */
  predicate AtMost(a: Text, b: Text) {
    a == [] || (b != [] && (a[0] < b[0] || (a[0] == b[0] && AtMost(a[1..], b[1..]))))
  }

  /** Nothing comes before its own beginning; else the first unit that differs decides. */
  lemma {:induction false} AtMostExactly(a: Text, b: Text)
    ensures AtMost(a, b)
            <==> a <= b || exists i :: 0 <= i < |a| && i < |b| && a[..i] == b[..i] && a[i] < b[i]
    decreases |a|
  {
    if a != [] && b != [] && a[0] == b[0] {
      AtMostExactly(a[1..], b[1..]);
      if i :| 0 <= i < |a| - 1 && i < |b| - 1 && a[1..][..i] == b[1..][..i] && a[1..][i] < b[1..][i] {
        assert a[..i + 1] == [a[0]] + a[1..][..i] && b[..i + 1] == [b[0]] + b[1..][..i];
        assert a[i + 1] < b[i + 1];
      }
      if i :| 0 <= i < |a| && i < |b| && a[..i] == b[..i] && a[i] < b[i] {
        assert a[1..][..i - 1] == a[..i][1..] && b[1..][..i - 1] == b[..i][1..];
        assert a[1..][i - 1] < b[1..][i - 1];
      }
      assert a <= b <==> a[1..] <= b[1..];
    } else if a != [] && b != [] && a[0] < b[0] {
      assert a[..0] == b[..0];
    }
  }

  /** The escapes of JSON.stringify: section 25.5.2.3 of ECMA-262. */
  lemma EscapesAre(c: Unit)
    ensures c in {8, 9, 10, 12, 13} ==>
              Quote([c]) == [34, 92, if c == 8 then 98 else if c == 9 then 116 else if c == 10 then 110
                                     else if c == 12 then 102 else 114, 34]
    ensures c in {34, 92} ==> Quote([c]) == [34, 92, c, 34]
    ensures c < 32 && c !in {8, 9, 10, 12, 13} ==>
              Quote([c]) == [34, 92, 117, 48, 48, 48 + c / 16, if c % 16 < 10 then 48 + c % 16 else 87 + c % 16, 34]
    ensures c >= 32 && c !in {34, 92} && !(0xd800 <= c <= 0xdfff) ==> Quote([c]) == [34, c, 34]
    ensures 0xd800 <= c <= 0xdfff ==> |Quote([c])| == 8 && Quote([c])[..5] == [34, 92, 117, 100, HexDigit(c / 256 % 16)]
  {
    assert [c][1..] == [] && Escape([c]) == Piece([c]) + [];
  }

  function Insert(e: Entry, sorted: seq<Entry>): (r: seq<Entry>)
    ensures multiset(r) == multiset(sorted) + multiset{e}
  {
    if sorted == [] || AtMost(e.key, sorted[0].key) then [e] + sorted
    else
      assert sorted == [sorted[0]] + sorted[1..];
      [sorted[0]] + Insert(e, sorted[1..])
  }

  /** Object.keys(value).sort(), with the values. */
  function Sorted(entries: seq<Entry>): (r: seq<Entry>)
    ensures multiset(r) == multiset(entries)
    ensures |r| == |entries|
  {
    if entries == [] then []
    else
      assert entries == [entries[0]] + entries[1..];
      var r := Insert(entries[0], Sorted(entries[1..]));
      assert |multiset(r)| == |multiset(entries)|;
      r
  }

  function Join(texts: seq<Text>): Text {
    if texts == [] then []
    else if |texts| == 1 then texts[0]
    else texts[0] + [COMMA] + Join(texts[1..])
  }

  lemma SortedEntry(entries: seq<Entry>, i: nat)
    requires i < |entries|
    ensures Sorted(entries)[i] in entries
  {
    assert Sorted(entries)[i] in multiset(Sorted(entries));
  }

  function Stringify(v: Json): Text
    decreases v
  {
    match v
    case Null => [110, 117, 108, 108]
    case Bool(b) => if b then [116, 114, 117, 101] else [102, 97, 108, 115, 101]
    case Number(t) => t
    case String(s) => Quote(s)
    case Array(items) =>
      [OPEN_ARRAY] + Join(seq(|items|, i requires 0 <= i < |items| => Stringify(items[i]))) + [CLOSE_ARRAY]
    case Object(entries) =>
      var sorted := Sorted(entries);
      [OPEN_OBJECT]
      + Join(seq(|sorted|, i requires 0 <= i < |sorted| =>
          SortedEntry(entries, i);
          Quote(sorted[i].key) + [COLON] + Stringify(sorted[i].value)))
      + [CLOSE_OBJECT]
  }

  // ---- Equality up to key order ----------------------------------------------------------------

  ghost predicate DistinctKeys(entries: seq<Entry>) {
    forall i, j :: 0 <= i < j < |entries| ==> entries[i].key != entries[j].key
  }

  /** A JavaScript object has each key once. */
  ghost predicate WellFormed(v: Json) {
    match v
    case Array(items) => forall x :: x in items ==> WellFormed(x)
    case Object(entries) => DistinctKeys(entries) && forall e :: e in entries ==> WellFormed(e.value)
    case _ => true
  }

  ghost function Keys(entries: seq<Entry>): set<Text> { set e | e in entries :: e.key }

  /** The same value: objects have the same keys, and under each the same value. */
  ghost predicate Same(a: Json, b: Json) {
    match a
    case Array(items) =>
      b.Array? && |items| == |b.items| && forall i :: 0 <= i < |items| ==> Same(items[i], b.items[i])
    case Object(entries) =>
      && b.Object? && Keys(entries) == Keys(b.entries)
      && forall e, f :: e in entries && f in b.entries && e.key == f.key ==> Same(e.value, f.value)
    case _ => a == b
  }

  // ---- Strings print uniquely --------------------------------------------------------------------

  lemma HexDigitsDiffer(d: int, e: int)
    requires 0 <= d < 16 && 0 <= e < 16 && HexDigit(d) == HexDigit(e)
    ensures d == e
  {
  }

  lemma HexEscapesDiffer(c: Unit, d: Unit)
    requires HexEscape(c) == HexEscape(d)
    ensures c == d
  {
    assert HexEscape(c)[2] == HexEscape(d)[2] && HexEscape(c)[3] == HexEscape(d)[3];
    assert HexEscape(c)[4] == HexEscape(d)[4] && HexEscape(c)[5] == HexEscape(d)[5];
    HexDigitsDiffer(c / 16 / 16 / 16, d / 16 / 16 / 16);
    HexDigitsDiffer(c / 16 / 16 % 16, d / 16 / 16 % 16);
    HexDigitsDiffer(c / 16 % 16, d / 16 % 16);
    HexDigitsDiffer(c % 16, d % 16);
  }

  /** How long a printed piece is follows from its first two units. */
  lemma PieceShape(s: Text)
    requires s != []
    ensures var p := Piece(s);
            && |p| == (if HighSurrogate(p[0]) then 2 else if p[0] != BACKSLASH then 1 else if p[1] == 117 then 6 else 2)
            && p[0] != QUOTE
            && (HighSurrogate(p[0]) <==> PieceLength(s) == 2)
  {
  }

  lemma PieceUnique(a: Text, b: Text, x: Text, y: Text)
    requires a != [] && b != [] && Piece(a) + x == Piece(b) + y
    ensures PieceLength(a) == PieceLength(b) && a[..PieceLength(a)] == b[..PieceLength(b)] && x == y
  {
    var p, q := Piece(a), Piece(b);
    PieceShape(a);
    PieceShape(b);
    assert p[0] == (p + x)[0] == (q + y)[0] == q[0];
    if p[0] == BACKSLASH {
      assert p[1] == (p + x)[1] == (q + y)[1] == q[1];
    }
    assert p == (p + x)[..|p|] == (q + y)[..|q|] == q;
    assert x == (p + x)[|p|..] == (q + y)[|q|..] == y;
    if |p| == 6 { HexEscapesDiffer(a[0], b[0]); }
  }

  lemma BracketedRest(open: Unit, body: Text, close: Unit, x: Text)
    ensures ([open] + body + [close] + x)[1..] == body + [close] + x
  {
  }

  lemma Regrouped(a: Text, b: Text, c: Text, d: Text)
    ensures (a + b) + c + d == a + (b + c + d)
  {
  }

  lemma EscapeStep(s: Text, x: Text)
    requires s != []
    ensures Escape(s) + [QUOTE] + x == Piece(s) + (Escape(s[PieceLength(s)..]) + [QUOTE] + x)
    ensures (Escape(s) + [QUOTE] + x)[0] != QUOTE
    ensures s == s[..PieceLength(s)] + s[PieceLength(s)..]
  {
    PieceShape(s);
    Regrouped(Piece(s), Escape(s[PieceLength(s)..]), [QUOTE], x);
  }

  lemma {:induction false} EscapeUnique(a: Text, b: Text, x: Text, y: Text)
    requires Escape(a) + [QUOTE] + x == Escape(b) + [QUOTE] + y
    ensures a == b && x == y
    decreases |a|
  {
    if a == [] || b == [] {
      if a != [] { EscapeStep(a, x); }
      if b != [] { EscapeStep(b, y); }
      assert x == (Escape([]) + [QUOTE] + x)[1..] && y == (Escape([]) + [QUOTE] + y)[1..];
    } else {
      EscapeStep(a, x);
      EscapeStep(b, y);
      var n, m := PieceLength(a), PieceLength(b);
      PieceUnique(a, b, Escape(a[n..]) + [QUOTE] + x, Escape(b[m..]) + [QUOTE] + y);
      EscapeUnique(a[n..], b[m..], x, y);
    }
  }

  lemma QuoteUnique(a: Text, b: Text, x: Text, y: Text)
    requires Quote(a) + x == Quote(b) + y
    ensures a == b && x == y
  {
    BracketedRest(QUOTE, Escape(a), QUOTE, x);
    BracketedRest(QUOTE, Escape(b), QUOTE, y);
    EscapeUnique(a, b, x, y);
  }

  // ---- Numbers and lists print uniquely ------------------------------------------------------------

  /** What may follow a number: nothing, or a unit no number contains. */
  predicate Stops(rest: Text) { rest == [] || !NumberUnit(rest[0]) }

  lemma LongerNumberContinues(a: NumberText, b: NumberText, x: Text, y: Text)
    requires a + x == b + y && |a| < |b|
    ensures !Stops(x)
  {
    assert x[0] == (a + x)[|a|] && b[|a|] == (b + y)[|a|];
  }

  lemma NumberUnique(a: NumberText, b: NumberText, x: Text, y: Text)
    requires a + x == b + y && Stops(x) && Stops(y)
    ensures a == b && x == y
  {
    if |a| < |b| { LongerNumberContinues(a, b, x, y); }
    if |b| < |a| { LongerNumberContinues(b, a, y, x); }
    assert a == (a + x)[..|a|] && b == (b + y)[..|b|];
    assert x == (a + x)[|a|..] && y == (b + y)[|b|..];
  }

  /** What follows an item: a comma or the closing bracket. */
  predicate Ends(rest: Text, close: Unit) { rest != [] && (rest[0] == COMMA || rest[0] == close) }

  ghost predicate ItemsUnique(xs: seq<Text>, ys: seq<Text>, close: Unit) {
    forall i, j, x, y ::
      0 <= i < |xs| && 0 <= j < |ys| && Ends(x, close) && Ends(y, close) && xs[i] + x == ys[j] + y ==>
      xs[i] == ys[j] && x == y
  }

  ghost predicate ItemsOpen(xs: seq<Text>, close: Unit) {
    forall i :: 0 <= i < |xs| ==> xs[i] != [] && xs[i][0] != close
  }

  /** What follows the first item of a list. */
  function AfterFirst(xs: seq<Text>, close: Unit, rest: Text): Text
    requires xs != []
  {
    if |xs| == 1 then [close] + rest else [COMMA] + (Join(xs[1..]) + [close] + rest)
  }

  lemma Regroup(a: Text, b: Text, c: Text, d: Text, e: Text)
    ensures (a + b + c) + d + e == a + (b + (c + d + e))
  {
  }

  lemma JoinSplits(xs: seq<Text>, close: Unit, rest: Text)
    requires xs != []
    ensures Join(xs) + [close] + rest == xs[0] + AfterFirst(xs, close, rest)
    ensures xs[0] != [] ==> (Join(xs) + [close] + rest)[0] == xs[0][0]
  {
    if |xs| == 1 {
      Regroup(xs[0], [], [], [close], rest);
      assert xs[0] + [] + [] == xs[0] && [] + ([] + [close] + rest) == [close] + rest;
    } else {
      Regroup(xs[0], [COMMA], Join(xs[1..]), [close], rest);
    }
  }

  lemma {:induction false} JoinUnique(xs: seq<Text>, ys: seq<Text>, close: Unit, x: Text, y: Text)
    requires close != COMMA && ItemsUnique(xs, ys, close) && ItemsOpen(xs, close) && ItemsOpen(ys, close)
    requires Join(xs) + [close] + x == Join(ys) + [close] + y
    ensures xs == ys && x == y
    decreases |xs|
  {
    var left, right := Join(xs) + [close] + x, Join(ys) + [close] + y;
    if xs == [] || ys == [] {
      if xs != [] { JoinSplits(xs, close, x); }
      if ys != [] { JoinSplits(ys, close, y); }
      assert x == left[1..] && y == right[1..];
    } else {
      JoinSplits(xs, close, x);
      JoinSplits(ys, close, y);
      var s, t := AfterFirst(xs, close, x), AfterFirst(ys, close, y);
      assert xs[0] + s == ys[0] + t;
      assert Ends(s, close) && Ends(t, close);
      assert s == t && xs[0] == ys[0];
      assert s[0] == t[0];
      if |xs| == 1 {
        assert x == s[1..] && y == t[1..];
      } else {
        assert s[1..] == Join(xs[1..]) + [close] + x && t[1..] == Join(ys[1..]) + [close] + y;
        TailsUnique(xs, ys, close);
        JoinUnique(xs[1..], ys[1..], close, x, y);
        assert xs == [xs[0]] + xs[1..] && ys == [ys[0]] + ys[1..];
      }
    }
  }

  lemma TailsUnique(xs: seq<Text>, ys: seq<Text>, close: Unit)
    requires xs != [] && ys != [] && ItemsUnique(xs, ys, close) && ItemsOpen(xs, close) && ItemsOpen(ys, close)
    ensures ItemsUnique(xs[1..], ys[1..], close) && ItemsOpen(xs[1..], close) && ItemsOpen(ys[1..], close)
  {
    forall i, j, x, y | 0 <= i < |xs| - 1 && 0 <= j < |ys| - 1 && Ends(x, close) && Ends(y, close)
                        && xs[1..][i] + x == ys[1..][j] + y
      ensures xs[1..][i] == ys[1..][j] && x == y
    {
      assert xs[i + 1] + x == ys[j + 1] + y;
    }
  }

  // ---- Values print uniquely ------------------------------------------------------------------------

  function ItemTexts(items: seq<Json>): seq<Text> {
    seq(|items|, i requires 0 <= i < |items| => Stringify(items[i]))
  }

  function EntryText(e: Entry): Text { Quote(e.key) + [COLON] + Stringify(e.value) }

  function EntryTexts(entries: seq<Entry>): seq<Text> {
    seq(|entries|, i requires 0 <= i < |entries| => EntryText(entries[i]))
  }

  lemma ArrayText(items: seq<Json>)
    ensures Stringify(Array(items)) == [OPEN_ARRAY] + Join(ItemTexts(items)) + [CLOSE_ARRAY]
  {
    assert seq(|items|, i requires 0 <= i < |items| => Stringify(items[i])) == ItemTexts(items);
  }

  lemma ObjectText(entries: seq<Entry>)
    ensures Stringify(Object(entries)) == [OPEN_OBJECT] + Join(EntryTexts(Sorted(entries))) + [CLOSE_OBJECT]
  {
    var sorted := Sorted(entries);
    forall i | 0 <= i < |sorted| ensures sorted[i] in entries { SortedEntry(entries, i); }
    assert seq(|sorted|, i requires 0 <= i < |sorted| =>
          SortedEntry(entries, i);
          Quote(sorted[i].key) + [COLON] + Stringify(sorted[i].value)) == EntryTexts(sorted);
  }

  /** The first unit tells the kind of value. */
  function FirstUnit(v: Json): Unit {
    match v
    case Null => 110
    case Bool(b) => if b then 116 else 102
    case Number(t) => t[0]
    case String(_) => QUOTE
    case Array(_) => OPEN_ARRAY
    case Object(_) => OPEN_OBJECT
  }

  lemma StartsWithFirstUnit(v: Json)
    ensures Stringify(v) != [] && Stringify(v)[0] == FirstUnit(v)
  {
  }

  /**
   No printed value is a proper prefix of another one's text, once a number is followed by
   something that ends it.
   */
  lemma {:induction false} PrefixFree(a: Json, b: Json, x: Text, y: Text)
    requires Stringify(a) + x == Stringify(b) + y
    requires (a.Number? ==> Stops(x)) && (b.Number? ==> Stops(y))
    ensures Stringify(a) == Stringify(b) && x == y
    decreases a
  {
    StartsWithFirstUnit(a);
    StartsWithFirstUnit(b);
    assert FirstUnit(a) == (Stringify(a) + x)[0] == (Stringify(b) + y)[0] == FirstUnit(b);
    match a {
      case Null => SamePrefix(Stringify(a), Stringify(b), x, y);
      case Bool(_) => SamePrefix(Stringify(a), Stringify(b), x, y);
      case Number(t) => NumberUnique(t, b.digits, x, y);
      case String(s) => QuoteUnique(s, b.chars, x, y);
      case Array(items) => ArraysPrefixFree(a, b, x, y);
      case Object(entries) => ObjectsPrefixFree(a, b, x, y);
    }
  }

  lemma SamePrefix(a: Text, b: Text, x: Text, y: Text)
    requires a + x == b + y && |a| == |b|
    ensures a == b && x == y
  {
    assert a == (a + x)[..|a|] && b == (b + y)[..|b|];
    assert x == (a + x)[|a|..] && y == (b + y)[|b|..];
  }

  lemma {:induction false} ArraysPrefixFree(a: Json, b: Json, x: Text, y: Text)
    requires a.Array? && b.Array? && Stringify(a) + x == Stringify(b) + y
    ensures ItemTexts(a.items) == ItemTexts(b.items) && Stringify(a) == Stringify(b) && x == y
    decreases a, 0
  {
    var xs, ys := ItemTexts(a.items), ItemTexts(b.items);
    forall i, j, s, t | 0 <= i < |xs| && 0 <= j < |ys| && Ends(s, CLOSE_ARRAY) && Ends(t, CLOSE_ARRAY)
                        && xs[i] + s == ys[j] + t
      ensures xs[i] == ys[j] && s == t
    {
      PrefixFree(a.items[i], b.items[j], s, t);
    }
    forall i | 0 <= i < |xs| ensures xs[i] != [] && xs[i][0] != CLOSE_ARRAY { StartsWithFirstUnit(a.items[i]); }
    forall i | 0 <= i < |ys| ensures ys[i] != [] && ys[i][0] != CLOSE_ARRAY { StartsWithFirstUnit(b.items[i]); }
    ArrayText(a.items);
    ArrayText(b.items);
    BracketedUnique(OPEN_ARRAY, CLOSE_ARRAY, Stringify(a), Stringify(b), xs, ys, x, y);
  }

  lemma EntrySplits(key: Text, value: Text, x: Text)
    ensures (Quote(key) + [COLON] + value) + x == Quote(key) + ([COLON] + (value + x))
  {
  }

  lemma EntryPrefixFree(e: Entry, f: Entry, x: Text, y: Text)
    requires EntryText(e) + x == EntryText(f) + y
    ensures e.key == f.key && Stringify(e.value) + x == Stringify(f.value) + y
  {
    var v, w := Stringify(e.value), Stringify(f.value);
    EntrySplits(e.key, v, x);
    EntrySplits(f.key, w, y);
    QuoteUnique(e.key, f.key, [COLON] + (v + x), [COLON] + (w + y));
    assert ([COLON] + (v + x))[1..] == v + x && ([COLON] + (w + y))[1..] == w + y;
  }

  lemma {:induction false} EntriesUnique(a: Json, b: Json)
    requires a.Object? && b.Object?
    ensures ItemsUnique(EntryTexts(Sorted(a.entries)), EntryTexts(Sorted(b.entries)), CLOSE_OBJECT)
    decreases a, 0
  {
    var es, fs := Sorted(a.entries), Sorted(b.entries);
    forall i, j, s, t | 0 <= i < |es| && 0 <= j < |fs| && Ends(s, CLOSE_OBJECT) && Ends(t, CLOSE_OBJECT)
                        && EntryTexts(es)[i] + s == EntryTexts(fs)[j] + t
      ensures EntryTexts(es)[i] == EntryTexts(fs)[j] && s == t
    {
      EntryPrefixFree(es[i], fs[j], s, t);
      SortedEntry(a.entries, i);
      PrefixFree(es[i].value, fs[j].value, s, t);
    }
  }

  lemma {:induction false} ObjectsPrefixFree(a: Json, b: Json, x: Text, y: Text)
    requires a.Object? && b.Object? && Stringify(a) + x == Stringify(b) + y
    ensures EntryTexts(Sorted(a.entries)) == EntryTexts(Sorted(b.entries)) && Stringify(a) == Stringify(b) && x == y
    decreases a, 1
  {
    ObjectText(a.entries);
    ObjectText(b.entries);
    EntriesUnique(a, b);
    BracketedUnique(OPEN_OBJECT, CLOSE_OBJECT, Stringify(a), Stringify(b),
                    EntryTexts(Sorted(a.entries)), EntryTexts(Sorted(b.entries)), x, y);
  }

  /** A bracketed list determines its items and the rest of the text. */
  lemma BracketedUnique(
      open: Unit, close: Unit, left: Text, right: Text, xs: seq<Text>, ys: seq<Text>, x: Text, y: Text)
    requires left == [open] + Join(xs) + [close] && right == [open] + Join(ys) + [close]
    requires left + x == right + y && close != COMMA && ItemsUnique(xs, ys, close)
    requires ItemsOpen(xs, close) && ItemsOpen(ys, close)
    ensures xs == ys && left == right && x == y
  {
    BracketedRest(open, Join(xs), close, x);
    BracketedRest(open, Join(ys), close, y);
    JoinUnique(xs, ys, close, x, y);
  }

  // ---- Sorting the keys ----------------------------------------------------------------------------

  lemma {:induction false} AtMostTotal(a: Text, b: Text)
    ensures AtMost(a, b) || AtMost(b, a)
    ensures AtMost(a, b) && AtMost(b, a) ==> a == b
    decreases |a|
  {
    if a != [] && b != [] && a[0] == b[0] {
      AtMostTotal(a[1..], b[1..]);
      assert a == [a[0]] + a[1..] && b == [b[0]] + b[1..];
    }
  }

  lemma {:induction false} AtMostTransitive(a: Text, b: Text, c: Text)
    requires AtMost(a, b) && AtMost(b, c)
    ensures AtMost(a, c)
    decreases |a|
  {
    if a != [] && a[0] == b[0] == c[0] { AtMostTransitive(a[1..], b[1..], c[1..]); }
  }

  ghost predicate Ordered(keys: seq<Text>) {
    forall i, j :: 0 <= i < j < |keys| ==> AtMost(keys[i], keys[j])
  }

  function KeySeq(entries: seq<Entry>): seq<Text> {
    seq(|entries|, i requires 0 <= i < |entries| => entries[i].key)
  }

  /** An ordered list keeps its order behind an entry that is at most each of its entries. */
  lemma OrderedCons(e: Entry, rest: seq<Entry>)
    requires Ordered(KeySeq(rest)) && forall f :: f in rest ==> AtMost(e.key, f.key)
    ensures Ordered(KeySeq([e] + rest))
  {
    var ks := KeySeq([e] + rest);
    forall i, j | 0 <= i < j < |ks| ensures AtMost(ks[i], ks[j]) {
      assert ks[j] == rest[j - 1].key == KeySeq(rest)[j - 1];
      if i > 0 { assert ks[i] == KeySeq(rest)[i - 1]; } else { assert rest[j - 1] in rest; }
    }
  }

  lemma OrderedHead(sorted: seq<Entry>)
    requires sorted != [] && Ordered(KeySeq(sorted))
    ensures Ordered(KeySeq(sorted[1..])) && forall f :: f in sorted ==> AtMost(sorted[0].key, f.key)
  {
    var ks := KeySeq(sorted);
    forall i, j | 0 <= i < j < |sorted| - 1 ensures AtMost(sorted[1..][i].key, sorted[1..][j].key) {
      assert AtMost(ks[i + 1], ks[j + 1]);
    }
    AtMostTotal(sorted[0].key, sorted[0].key);
    forall f | f in sorted ensures AtMost(sorted[0].key, f.key) {
      var i :| 0 <= i < |sorted| && sorted[i] == f;
      assert i > 0 ==> AtMost(ks[0], ks[i]);
    }
  }

  lemma InsertMembers(e: Entry, sorted: seq<Entry>, f: Entry)
    requires f in Insert(e, sorted)
    ensures f == e || f in sorted
  {
    assert f in multiset(Insert(e, sorted));
  }

  lemma {:induction false} InsertOrders(e: Entry, sorted: seq<Entry>)
    requires Ordered(KeySeq(sorted))
    ensures Ordered(KeySeq(Insert(e, sorted)))
    decreases |sorted|
  {
    if sorted != [] { OrderedHead(sorted); }
    if sorted == [] || AtMost(e.key, sorted[0].key) {
      forall f | f in sorted ensures AtMost(e.key, f.key) { AtMostTransitive(e.key, sorted[0].key, f.key); }
      OrderedCons(e, sorted);
    } else {
      var rest := Insert(e, sorted[1..]);
      InsertOrders(e, sorted[1..]);
      AtMostTotal(e.key, sorted[0].key);
      forall f | f in rest ensures AtMost(sorted[0].key, f.key) { InsertMembers(e, sorted[1..], f); }
      OrderedCons(sorted[0], rest);
    }
  }

  lemma {:induction false} SortedOrders(entries: seq<Entry>)
    ensures Ordered(KeySeq(Sorted(entries)))
    decreases |entries|
  {
    if entries != [] {
      SortedOrders(entries[1..]);
      InsertOrders(entries[0], Sorted(entries[1..]));
    }
  }

  ghost predicate Unrepeated(keys: seq<Text>) { forall i, j :: 0 <= i < j < |keys| ==> keys[i] != keys[j] }

  lemma HeadIsMember(ls: seq<Text>)
    ensures ls == [] || ls[0] in ls
  {
  }

  /** An ordered list without repetitions is determined by its elements. */
  lemma {:induction false} OrderedUnique(ks: seq<Text>, ls: seq<Text>)
    requires Ordered(ks) && Ordered(ls) && Unrepeated(ks) && Unrepeated(ls)
    requires forall k :: k in ks <==> k in ls
    ensures ks == ls
    decreases |ks|
  {
    HeadIsMember(ls);
    if ks != [] {
      assert ks[0] in ls && ls != [];
      assert ls[0] in ks;
      AtMostTotal(ks[0], ls[0]);
      forall k ensures k in ks[1..] <==> k in ls[1..] {
        assert k in ks <==> k == ks[0] || k in ks[1..];
        assert k in ls <==> k == ls[0] || k in ls[1..];
      }
      OrderedUnique(ks[1..], ls[1..]);
      assert ks == [ks[0]] + ks[1..] && ls == [ls[0]] + ls[1..];
    }
  }

  lemma SortedMembers(entries: seq<Entry>, e: Entry)
    ensures e in Sorted(entries) <==> e in entries
  {
    assert e in multiset(Sorted(entries)) <==> e in multiset(entries);
  }

  lemma UnrepeatedCons(e: Entry, rest: seq<Entry>)
    requires Unrepeated(KeySeq(rest)) && forall f :: f in rest ==> f.key != e.key
    ensures Unrepeated(KeySeq([e] + rest))
  {
    var ks := KeySeq([e] + rest);
    forall i, j | 0 <= i < j < |ks| ensures ks[i] != ks[j] {
      assert ks[j] == rest[j - 1].key == KeySeq(rest)[j - 1];
      if i > 0 { assert ks[i] == KeySeq(rest)[i - 1]; } else { assert rest[j - 1] in rest; }
    }
  }

  lemma UnrepeatedHead(sorted: seq<Entry>)
    requires sorted != [] && Unrepeated(KeySeq(sorted))
    ensures Unrepeated(KeySeq(sorted[1..])) && forall f :: f in sorted[1..] ==> f.key != sorted[0].key
  {
    var ks := KeySeq(sorted);
    forall i, j | 0 <= i < j < |sorted| - 1 ensures sorted[1..][i].key != sorted[1..][j].key {
      assert ks[i + 1] != ks[j + 1];
    }
    forall f | f in sorted[1..] ensures f.key != sorted[0].key {
      var i :| 0 <= i < |sorted[1..]| && sorted[1..][i] == f;
      assert ks[i + 1] == f.key && ks[0] != ks[i + 1];
    }
  }

  lemma {:induction false} InsertUnrepeated(e: Entry, sorted: seq<Entry>)
    requires Unrepeated(KeySeq(sorted)) && forall f :: f in sorted ==> f.key != e.key
    ensures Unrepeated(KeySeq(Insert(e, sorted)))
    decreases |sorted|
  {
    if sorted == [] || AtMost(e.key, sorted[0].key) {
      UnrepeatedCons(e, sorted);
    } else {
      UnrepeatedHead(sorted);
      var rest := Insert(e, sorted[1..]);
      InsertUnrepeated(e, sorted[1..]);
      forall f | f in rest ensures f.key != sorted[0].key { InsertMembers(e, sorted[1..], f); }
      UnrepeatedCons(sorted[0], rest);
    }
  }

  lemma {:induction false} SortedUnrepeated(entries: seq<Entry>)
    requires DistinctKeys(entries)
    ensures Unrepeated(KeySeq(Sorted(entries)))
    decreases |entries|
  {
    if entries != [] {
      SortedUnrepeated(entries[1..]);
      forall f | f in Sorted(entries[1..]) ensures f.key != entries[0].key {
        SortedMembers(entries[1..], f);
      }
      InsertUnrepeated(entries[0], Sorted(entries[1..]));
    }
  }

  /** The sorted keys of two objects with the same keys are the same list. */
  lemma SameKeysSortAlike(es: seq<Entry>, fs: seq<Entry>)
    requires DistinctKeys(es) && DistinctKeys(fs) && Keys(es) == Keys(fs)
    ensures KeySeq(Sorted(es)) == KeySeq(Sorted(fs))
  {
    SortedOrders(es);
    SortedOrders(fs);
    SortedUnrepeated(es);
    SortedUnrepeated(fs);
    KeysOfSorted(es);
    KeysOfSorted(fs);
    OrderedUnique(KeySeq(Sorted(es)), KeySeq(Sorted(fs)));
  }

  lemma KeysOfSorted(entries: seq<Entry>)
    ensures forall k :: k in KeySeq(Sorted(entries)) <==> k in Keys(entries)
  {
    var sorted := Sorted(entries);
    forall k ensures k in KeySeq(sorted) <==> k in Keys(entries) {
      if k in KeySeq(sorted) {
        var i :| 0 <= i < |sorted| && KeySeq(sorted)[i] == k;
        SortedEntry(entries, i);
      }
      if k in Keys(entries) {
        var e :| e in entries && e.key == k;
        SortedMembers(entries, e);
        var i :| 0 <= i < |sorted| && sorted[i] == e;
        assert KeySeq(sorted)[i] == k;
      }
    }
  }

  // ---- Main results ----------------------------------------------------------------------------------

  lemma {:induction false} EqualTextsAreSame(a: Json, b: Json)
    requires WellFormed(a) && WellFormed(b) && Stringify(a) == Stringify(b)
    ensures Same(a, b)
    decreases a
  {
    StartsWithFirstUnit(a);
    StartsWithFirstUnit(b);
    assert FirstUnit(a) == FirstUnit(b);
    assert Stringify(a) + [] == Stringify(b) + [];
    match a {
      case Null =>
      case Bool(_) =>
      case Number(_) =>
      case String(s) => QuoteUnique(s, b.chars, [], []);
      case Array(items) =>
        ArraysPrefixFree(a, b, [], []);
        assert |ItemTexts(items)| == |ItemTexts(b.items)|;
        forall i | 0 <= i < |items| ensures Same(items[i], b.items[i]) {
          assert ItemTexts(items)[i] == ItemTexts(b.items)[i];
          EqualTextsAreSame(items[i], b.items[i]);
        }
      case Object(_) => EqualObjectTextsAreSame(a, b);
    }
  }

  /** Entry by entry, equal texts have the same value. */
  lemma {:induction false} EqualEntryTexts(a: Json, b: Json, i: nat)
    requires a.Object? && b.Object? && WellFormed(a) && WellFormed(b)
    requires EntryTexts(Sorted(a.entries)) == EntryTexts(Sorted(b.entries)) && i < |a.entries|
    ensures i < |b.entries| && Same(Sorted(a.entries)[i].value, Sorted(b.entries)[i].value)
    decreases a, 0
  {
    var es, fs := Sorted(a.entries), Sorted(b.entries);
    assert |EntryTexts(es)| == |EntryTexts(fs)|;
    assert EntryText(es[i]) == EntryTexts(es)[i] == EntryTexts(fs)[i] == EntryText(fs[i]);
    EntryPrefixFree(es[i], fs[i], [], []);
    SortedEntry(a.entries, i);
    SortedEntry(b.entries, i);
    var v, w := Stringify(es[i].value), Stringify(fs[i].value);
    assert v + [] == v && w + [] == w;
    EqualTextsAreSame(es[i].value, fs[i].value);
  }

  lemma SortedAt(entries: seq<Entry>, e: Entry) returns (i: nat)
    requires e in entries
    ensures i < |entries| && Sorted(entries)[i] == e
  {
    SortedMembers(entries, e);
    i :| 0 <= i < |entries| && Sorted(entries)[i] == e;
  }

  lemma RepeatedKey(ks: seq<Text>, i: nat, j: nat)
    requires Unrepeated(ks) && i < |ks| && j < |ks| && ks[i] == ks[j]
    ensures i == j
  {
  }

  /** Entries with the same key stand at the same place of their sorted lists. */
  lemma SameKeySamePlace(es: seq<Entry>, fs: seq<Entry>, e: Entry, f: Entry) returns (i: nat)
    requires DistinctKeys(fs) && |es| == |fs| && KeySeq(Sorted(es)) == KeySeq(Sorted(fs))
    requires e in es && f in fs && e.key == f.key
    ensures i < |es| && Sorted(es)[i] == e && Sorted(fs)[i] == f
  {
    SortedUnrepeated(fs);
    i := SortedAt(es, e);
    var j := SortedAt(fs, f);
    RepeatedKey(KeySeq(Sorted(fs)), i, j) by {
      assert KeySeq(Sorted(fs))[i] == KeySeq(Sorted(es))[i] == e.key && KeySeq(Sorted(fs))[j] == f.key;
    }
  }

  lemma SameSortedKeys(es: seq<Entry>, fs: seq<Entry>)
    requires KeySeq(Sorted(es)) == KeySeq(Sorted(fs))
    ensures Keys(es) == Keys(fs)
  {
    KeysOfSorted(es);
    KeysOfSorted(fs);
    forall k ensures k in Keys(es) <==> k in Keys(fs) {
      assert k in KeySeq(Sorted(es)) <==> k in KeySeq(Sorted(fs));
    }
  }

  /** Objects whose sorted entries agree are the same. */
  lemma AlikeSortedAreSame(es: seq<Entry>, fs: seq<Entry>)
    requires DistinctKeys(fs) && |es| == |fs| && KeySeq(Sorted(es)) == KeySeq(Sorted(fs))
    requires forall i :: 0 <= i < |es| ==> Same(Sorted(es)[i].value, Sorted(fs)[i].value)
    ensures Same(Object(es), Object(fs))
  {
    SameSortedKeys(es, fs);
    forall e, f | e in es && f in fs && e.key == f.key ensures Same(e.value, f.value) {
      var i := SameKeySamePlace(es, fs, e, f);
      assert Same(Sorted(es)[i].value, Sorted(fs)[i].value);
    }
  }

  lemma EqualEntryKeys(es: seq<Entry>, fs: seq<Entry>)
    requires EntryTexts(es) == EntryTexts(fs)
    ensures |es| == |fs| && KeySeq(es) == KeySeq(fs)
  {
    assert |EntryTexts(es)| == |EntryTexts(fs)|;
    forall i | 0 <= i < |es| ensures KeySeq(es)[i] == KeySeq(fs)[i] {
      assert EntryText(es[i]) == EntryTexts(es)[i] == EntryTexts(fs)[i] == EntryText(fs[i]);
      EntryPrefixFree(es[i], fs[i], [], []);
    }
  }

  lemma {:induction false} EqualObjectTextsAreSame(a: Json, b: Json)
    requires WellFormed(a) && WellFormed(b) && Stringify(a) == Stringify(b) && a.Object? && b.Object?
    ensures Same(a, b)
    decreases a, 1
  {
    var es, fs := a.entries, b.entries;
    ObjectsPrefixFree(a, b, [], []) by { assert Stringify(a) + [] == Stringify(b) + []; }
    EqualEntryKeys(Sorted(es), Sorted(fs));
    forall i | 0 <= i < |es| ensures Same(Sorted(es)[i].value, Sorted(fs)[i].value) {
      EqualEntryTexts(a, b, i);
    }
    AlikeSortedAreSame(es, fs);
  }

  lemma {:induction false} SameHaveEqualTexts(a: Json, b: Json)
    requires WellFormed(a) && WellFormed(b) && Same(a, b)
    ensures Stringify(a) == Stringify(b)
    decreases a
  {
    match a {
      case Array(items) =>
        forall i | 0 <= i < |items| ensures ItemTexts(items)[i] == ItemTexts(b.items)[i] {
          SameHaveEqualTexts(items[i], b.items[i]);
        }
        assert ItemTexts(items) == ItemTexts(b.items);
        ArrayText(items);
        ArrayText(b.items);
      case Object(entries) =>
        SameKeysSortAlike(entries, b.entries);
        assert |KeySeq(Sorted(entries))| == |KeySeq(Sorted(b.entries))|;
        forall i | 0 <= i < |entries|
          ensures EntryTexts(Sorted(entries))[i] == EntryTexts(Sorted(b.entries))[i]
        {
          SameEntryTexts(a, b, i);
        }
        assert EntryTexts(Sorted(entries)) == EntryTexts(Sorted(b.entries));
        ObjectText(entries);
        ObjectText(b.entries);
      case _ =>
    }
  }

  lemma {:induction false} SameEntryTexts(a: Json, b: Json, i: nat)
    requires a.Object? && b.Object? && WellFormed(a) && WellFormed(b) && Same(a, b)
    requires KeySeq(Sorted(a.entries)) == KeySeq(Sorted(b.entries)) && i < |a.entries| == |b.entries|
    ensures EntryText(Sorted(a.entries)[i]) == EntryText(Sorted(b.entries)[i])
    decreases a, 0
  {
    var e, f := Sorted(a.entries)[i], Sorted(b.entries)[i];
    assert e.key == KeySeq(Sorted(a.entries))[i] == KeySeq(Sorted(b.entries))[i] == f.key;
    SortedEntry(a.entries, i);
    SortedEntry(b.entries, i);
    SameHaveEqualTexts(e.value, f.value);
  }

  /** stableStringify gives equal text exactly when the values are equal up to object key order. */
  lemma TextsEqualExactly(a: Json, b: Json)
    requires WellFormed(a) && WellFormed(b)
    ensures Stringify(a) == Stringify(b) <==> Same(a, b)
  {
    if Stringify(a) == Stringify(b) { EqualTextsAreSame(a, b); }
    if Same(a, b) { SameHaveEqualTexts(a, b); }
  }

  /** The bytes fingerprint() hashes for a request without files: the printed query, then the printed body. */
  function FingerprintInput(query: Json, body: Json): Text { Stringify(query) + Stringify(body) }

  /** They determine both: two requests are hashed alike exactly when query and body are the same. */
  lemma FingerprintDeterminesRequest(query: Json, body: Json, query': Json, body': Json)
    requires query.Object? && query'.Object?
    requires WellFormed(query) && WellFormed(body) && WellFormed(query') && WellFormed(body')
    ensures FingerprintInput(query, body) == FingerprintInput(query', body')
            <==> Same(query, query') && Same(body, body')
  {
    if FingerprintInput(query, body) == FingerprintInput(query', body') {
      PrefixFree(query, query', Stringify(body), Stringify(body'));
    }
    TextsEqualExactly(query, query');
    TextsEqualExactly(body, body');
  }
}
