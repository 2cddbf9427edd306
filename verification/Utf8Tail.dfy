/**
 The check that a file declared as text is text, and the trimming of a head that was cut at an
 arbitrary byte. UTF-8 is the one of section 4 of RFC 3629.
 */
module TextContent {
  newtype Byte = b: int | 0 <= b < 256

  type Buffer = seq<Byte>

  predicate Continuation(b: Byte) { 0x80 <= b <= 0xbf }

  // ---- UTF-8 ---------------------------------------------------------------------------------

  /** How many bytes a sequence with this first byte has; 0 when no sequence starts with it. */
  function SequenceLength(lead: Byte): nat {
    if lead <= 0x7f then 1
    else if 0xc2 <= lead <= 0xdf then 2
    else if 0xe0 <= lead <= 0xef then 3
    else if 0xf0 <= lead <= 0xf4 then 4
    else 0
  }

  /** Which second bytes may follow: no overlong forms, surrogates or values past U+10FFFF. */
  predicate SecondByte(lead: Byte, b: Byte) {
    match lead
    case 0xe0 => 0xa0 <= b <= 0xbf
    case 0xed => 0x80 <= b <= 0x9f
    case 0xf0 => 0x90 <= b <= 0xbf
    case 0xf4 => 0x80 <= b <= 0x8f
    case _ => Continuation(b)
  }

  /** One encoded character. */
  predicate Character(s: Buffer) {
    && s != [] && |s| == SequenceLength(s[0])
    && (|s| > 1 ==> SecondByte(s[0], s[1]))
    && forall i :: 1 <= i < |s| ==> Continuation(s[i])
  }

  /** isUtf8 of the whole buffer */
  predicate IsUtf8(s: Buffer) {
    s == [] || var n := SequenceLength(s[0]); 0 < n <= |s| && Character(s[..n]) && IsUtf8(s[n..])
  }

  // ---- Characters and code points ----------------------------------------------------------------

  /** What UTF-8 encodes: every code point but the surrogates. */
  predicate Scalar(p: int) { 0 <= p <= 0x10ffff && !(0xd800 <= p <= 0xdfff) }

  /** The table of section 3 of RFC 3629: six bits in each byte but the first. */
  function Encode(p: int): Buffer
    requires Scalar(p)
  {
    if p < 0x80 then [p as Byte]
    else if p < 0x800 then [(0xc0 + p / 64) as Byte, (0x80 + p % 64) as Byte]
    else if p < 0x10000 then
      [(0xe0 + p / 64 / 64) as Byte, (0x80 + p / 64 % 64) as Byte, (0x80 + p % 64) as Byte]
    else
      [(0xf0 + p / 64 / 64 / 64) as Byte, (0x80 + p / 64 / 64 % 64) as Byte, (0x80 + p / 64 % 64) as Byte,
       (0x80 + p % 64) as Byte]
  }

  /** The code point of a character. */
  function Decode(c: Buffer): (p: int)
    requires Character(c)
    ensures Scalar(p)
  {
    if |c| == 1 then c[0] as int
    else if |c| == 2 then (c[0] as int - 0xc0) * 64 + (c[1] as int - 0x80)
    else if |c| == 3 then ((c[0] as int - 0xe0) * 64 + (c[1] as int - 0x80)) * 64 + (c[2] as int - 0x80)
    else
      (((c[0] as int - 0xf0) * 64 + (c[1] as int - 0x80)) * 64 + (c[2] as int - 0x80)) * 64 + (c[3] as int - 0x80)
  }

  lemma Digits(high: int, low: int)
    requires 0 <= low < 64
    ensures (high * 64 + low) / 64 == high && (high * 64 + low) % 64 == low
  {
  }

  lemma DecodedIsEncoded(c: Buffer)
    requires Character(c)
    ensures Encode(Decode(c)) == c
  {
    if |c| >= 2 {
      var lead := c[0] as int - (if |c| == 2 then 0xc0 else if |c| == 3 then 0xe0 else 0xf0);
      var second := c[1] as int - 0x80;
      Digits(lead, second);
      if |c| >= 3 {
        Digits(lead * 64 + second, c[2] as int - 0x80);
        if |c| == 4 { Digits((lead * 64 + second) * 64 + (c[2] as int - 0x80), c[3] as int - 0x80); }
      }
    }
  }

  lemma EncodedIsCharacter(p: int)
    requires Scalar(p)
    ensures Character(Encode(p)) && Decode(Encode(p)) == p
  {
    assert p == p / 64 * 64 + p % 64 && p / 64 == p / 64 / 64 * 64 + p / 64 % 64;
    assert p / 64 / 64 == p / 64 / 64 / 64 * 64 + p / 64 / 64 % 64;
  }

  /** A character is the encoding of a code point, and of one only. */
  lemma CharactersAreEncodings(c: Buffer)
    ensures Character(c) <==> exists p :: Scalar(p) && Encode(p) == c
    ensures forall p, q :: Scalar(p) && Scalar(q) && Encode(p) == Encode(q) ==> p == q
  {
    if Character(c) { DecodedIsEncoded(c); }
    if p :| Scalar(p) && Encode(p) == c { EncodedIsCharacter(p); }
    forall p, q | Scalar(p) && Scalar(q) && Encode(p) == Encode(q) ensures p == q {
      EncodedIsCharacter(p);
      EncodedIsCharacter(q);
    }
  }

  function EncodeAll(points: seq<int>): Buffer
    requires forall p :: p in points ==> Scalar(p)
  {
    if points == [] then [] else Encode(points[0]) + EncodeAll(points[1..])
  }

  lemma FirstPoint(s: Buffer) returns (p: int)
    requires IsUtf8(s) && s != []
    ensures var n := SequenceLength(s[0]); n <= |s| && Scalar(p) && Encode(p) == s[..n]
  {
    var n := SequenceLength(s[0]);
    DecodedIsEncoded(s[..n]);
    p := Decode(s[..n]);
  }

  lemma EncodeOneMore(p: int, points: seq<int>)
    requires Scalar(p) && forall q :: q in points ==> Scalar(q)
    ensures (forall q :: q in [p] + points ==> Scalar(q)) && EncodeAll([p] + points) == Encode(p) + EncodeAll(points)
  {
    assert ([p] + points)[1..] == points;
  }

  lemma {:induction false} TextIsDecoded(s: Buffer) returns (points: seq<int>)
    requires IsUtf8(s)
    ensures (forall p :: p in points ==> Scalar(p)) && EncodeAll(points) == s
    decreases |s|
  {
    if s == [] {
      points := [];
    } else {
      var first := FirstPoint(s);
      var rest := TextIsDecoded(s[SequenceLength(s[0])..]);
      EncodeOneMore(first, rest);
      points := [first] + rest;
    }
  }

  lemma {:induction false} EncodedIsText(points: seq<int>)
    requires forall p :: p in points ==> Scalar(p)
    ensures IsUtf8(EncodeAll(points))
    decreases |points|
  {
    if points != [] {
      EncodedIsText(points[1..]);
      EncodedIsCharacter(points[0]);
      CharacterThenText(Encode(points[0]), EncodeAll(points[1..]));
    }
  }

  /** A text is what some code points are encoded to. */
  lemma TextsAreEncodings(s: Buffer)
    ensures IsUtf8(s) <==> exists points :: (forall p :: p in points ==> Scalar(p)) && EncodeAll(points) == s
  {
    if IsUtf8(s) { var points := TextIsDecoded(s); }
    if points :| (forall p :: p in points ==> Scalar(p)) && EncodeAll(points) == s { EncodedIsText(points); }
  }

  // ---- withoutPartialUtf8Tail ------------------------------------------------------------------

  /** How long the sequence of a byte that is no continuation should be. */
  function Expected(b: Byte): nat { if b >= 0xf0 then 4 else if b >= 0xe0 then 3 else if b >= 0xc0 then 2 else 1 }

  /** The bytes to drop, looking from `back` bytes before the end. */
  function Dropped(buffer: Buffer, back: nat): (n: nat)
    requires back >= 1
    ensures n <= 3 && n <= |buffer|
    decreases 4 - back
  {
    if back > 3 || back > |buffer| then 0
    else
      var b := buffer[|buffer| - back];
      if Continuation(b) then Dropped(buffer, back + 1)
      else if Expected(b) > back then back
      else 0
  }

  function Trimmed(buffer: Buffer): Buffer { buffer[..|buffer| - Dropped(buffer, 1)] }

  method WithoutPartialUtf8Tail(buffer: Buffer) returns (r: Buffer)
    ensures r == Trimmed(buffer)
  {
    var limit := if |buffer| < 3 then |buffer| else 3;
    var back := 1;
    while back <= limit
      invariant 1 <= back <= limit + 1
      invariant Dropped(buffer, back) == Dropped(buffer, 1)
    {
      var b := buffer[|buffer| - back];
      if !Continuation(b) {
        var expected := Expected(b);
        return if expected > back then buffer[..|buffer| - back] else buffer;
      }
      back := back + 1;
    }
    r := buffer;
  }

  // ---- Where a text may be cut -------------------------------------------------------------------

  lemma CharacterThenText(c: Buffer, rest: Buffer)
    requires Character(c) && IsUtf8(rest)
    ensures IsUtf8(c + rest)
  {
    assert (c + rest)[..|c|] == c && (c + rest)[|c|..] == rest;
  }

  lemma SliceOfRest(text: Buffer, n: nat, at: nat, end: nat)
    requires n <= |text| && at <= end <= |text| - n
    ensures text[..n] + text[n..][..at] == text[..n + at] && text[n..][at..end] == text[n + at..n + end]
  {
  }

  /** The last character boundary up to a cut, and what is left of the character cut through. */
  lemma {:induction false} Boundary(text: Buffer, cut: nat) returns (at: nat, end: nat)
    requires IsUtf8(text) && cut <= |text|
    ensures at <= cut <= end <= |text| && IsUtf8(text[..at])
    ensures at < cut ==> cut < end && Character(text[at..end])
    decreases |text|
  {
    if text == [] {
      return 0, 0;
    }
    var n := SequenceLength(text[0]);
    if cut < n {
      at, end := 0, n;
    } else {
      var rest := text[n..];
      at, end := Boundary(rest, cut - n);
      CharacterThenText(text[..n], rest[..at]);
      SliceOfRest(text, n, at, end);
      at, end := n + at, n + end;
    }
  }

  /** A text that is not empty ends with a character. */
  lemma {:induction false} LastCharacter(text: Buffer) returns (at: nat)
    requires IsUtf8(text) && text != []
    ensures at < |text| && Character(text[at..])
    decreases |text|
  {
    var n := SequenceLength(text[0]);
    if n == |text| {
      at := 0;
      assert text[..n] == text[0..];
    } else {
      at := LastCharacter(text[n..]);
      assert text[n..][at..] == text[n + at..];
      at := n + at;
    }
  }

  /** Behind a byte that starts a sequence only continuations are skipped. */
  lemma {:induction false} DroppedFrom(buffer: Buffer, at: nat, back: nat)
    requires at < |buffer| && 1 <= back <= |buffer| - at && |buffer| - at <= 4
    requires forall i :: at < i < |buffer| ==> Continuation(buffer[i])
    requires !Continuation(buffer[at])
    ensures Dropped(buffer, back) == if Expected(buffer[at]) > |buffer| - at then |buffer| - at else 0
    decreases |buffer| - at - back
  {
    if back < |buffer| - at {
      assert Continuation(buffer[|buffer| - back]);
      if back < 3 { DroppedFrom(buffer, at, back + 1); }
    }
  }

  /** Valid text loses nothing. */
  lemma TextIsUnchanged(text: Buffer)
    requires IsUtf8(text)
    ensures Trimmed(text) == text
  {
    if text != [] {
      var at := LastCharacter(text);
      var c := text[at..];
      assert text[at] == c[0];
      forall i | at < i < |text| ensures Continuation(text[i]) { assert text[i] == c[i - at]; }
      DroppedFrom(text, at, 1);
    }
  }

  /** Wherever a text is cut, what is kept of the head is its whole characters: at most 3 bytes go. */
  lemma CutTextIsTrimmedToText(text: Buffer, cut: nat)
    requires IsUtf8(text) && cut <= |text|
    ensures IsUtf8(Trimmed(text[..cut]))
    ensures Trimmed(text[..cut]) <= text && cut - 3 <= |Trimmed(text[..cut])|
    ensures forall at :: |Trimmed(text[..cut])| < at <= cut ==> !IsUtf8(text[..at])
  {
    var head := text[..cut];
    var at, end := Boundary(text, cut);
    if at == cut {
      TextIsUnchanged(head);
    } else {
      var c := text[at..end];
      assert head[at] == c[0];
      forall i | at < i < cut ensures Continuation(head[i]) { assert head[i] == c[i - at]; }
      DroppedFrom(head, at, 1);
      assert head[..at] == text[..at];
      forall k | at < k <= cut ensures !IsUtf8(text[..k]) { PartialCharacterIsNoText(text[..k], at, c); }
    }
  }

  lemma PartialCharacterIsNoText(s: Buffer, at: nat, c: Buffer)
    requires at < |s| < at + |c| && Character(c) && s[at..] == c[..|s| - at]
    ensures !IsUtf8(s)
  {
    assert s[at] == c[0];
    forall i | at < i < |s| ensures Continuation(s[i]) { assert s[i] == s[at..][i - at] == c[i - at]; }
    DroppedFrom(s, at, 1);
    if IsUtf8(s) { TextIsUnchanged(s); }
  }

  // ---- The text branch of the content check --------------------------------------------------------

  ghost predicate PlainText(s: Buffer) { IsUtf8(s) && 0 !in s }

  /** A buffer declared as text is accepted: `truncated` says it is only the head of the file. */
  predicate AcceptedAsText(buffer: Buffer, truncated: bool) {
    var text := if truncated then Trimmed(buffer) else buffer;
    IsUtf8(text) && 0 !in text
  }

  /** A plain text file is accepted whole and by any head of it. */
  lemma PlainTextIsAccepted(file: Buffer, cut: nat)
    requires PlainText(file) && cut <= |file|
    ensures AcceptedAsText(file, false) && AcceptedAsText(file[..cut], true)
  {
    CutTextIsTrimmedToText(file, cut);
  }

  /** A file read whole is accepted exactly when it encodes code points, none of them NUL. */
  lemma AcceptedWholeExactly(file: Buffer)
    ensures AcceptedAsText(file, false) <==> PlainText(file)
    ensures AcceptedAsText(file, false)
            <==> exists points :: (forall p :: p in points ==> Scalar(p) && p != 0) && EncodeAll(points) == file
  {
    if AcceptedAsText(file, false) {
      var points := TextIsDecoded(file);
      NulIsEncoded(points);
    }
    if points :| (forall p :: p in points ==> Scalar(p) && p != 0) && EncodeAll(points) == file {
      EncodedIsText(points);
      NulIsEncoded(points);
    }
  }

  /** A zero byte stands for the code point zero, and for nothing else. */
  lemma {:induction false} NulIsEncoded(points: seq<int>)
    requires forall p :: p in points ==> Scalar(p)
    ensures 0 in EncodeAll(points) <==> 0 in points
    decreases |points|
  {
    if points != [] {
      NulIsEncoded(points[1..]);
      assert points == [points[0]] + points[1..];
      assert 0 in Encode(points[0]) <==> points[0] == 0;
    }
  }

  /** Nothing, or a byte that asks for a longer sequence, followed by continuations. */
  predicate BrokenOff(tail: Buffer) {
    tail == []
    || (Expected(tail[0]) > |tail| && !Continuation(tail[0]) && forall i :: 0 < i < |tail| ==> Continuation(tail[i]))
  }

  lemma {:induction false} DroppedIsBrokenOff(buffer: Buffer, back: nat)
    requires back >= 1 && back - 1 <= |buffer|
    requires forall i :: |buffer| - back < i < |buffer| ==> Continuation(buffer[i])
    ensures BrokenOff(buffer[|buffer| - Dropped(buffer, back)..])
    decreases 4 - back
  {
    if back <= 3 && back <= |buffer| && Continuation(buffer[|buffer| - back]) { DroppedIsBrokenOff(buffer, back + 1); }
  }

  /** Plain text up to its last n bytes, and a sequence broken off in those. */
  ghost predicate TextThenBrokenOff(head: Buffer, n: nat) {
    n <= 3 && n <= |head| && PlainText(head[..|head| - n]) && BrokenOff(head[|head| - n..])
  }

  /** A head is accepted exactly when it is plain text but for a sequence broken off at its end. */
  lemma AcceptedHeadExactly(head: Buffer)
    ensures AcceptedAsText(head, true) <==> exists n :: TextThenBrokenOff(head, n)
  {
    if AcceptedAsText(head, true) {
      DroppedIsBrokenOff(head, 1);
      assert TextThenBrokenOff(head, Dropped(head, 1));
    }
    if m: nat :| TextThenBrokenOff(head, m) {
      var tail := head[|head| - m..];
      if m == 0 {
        assert head[..|head|] == head;
        TextIsUnchanged(head);
      } else {
        assert head[|head| - m] == tail[0];
        forall i | |head| - m < i < |head| ensures Continuation(head[i]) { assert head[i] == tail[i - (|head| - m)]; }
        DroppedFrom(head, |head| - m, 1);
      }
    }
  }

  // ---- Which heads a text file starts with -----------------------------------------------------------

  /** The bytes begin a character: nothing, or a proper part of one that more continuations complete. */
  predicate BeginsCharacter(tail: Buffer) {
    tail == []
    || (&& |tail| < SequenceLength(tail[0])
        && (|tail| > 1 ==> SecondByte(tail[0], tail[1]))
        && forall i :: 1 <= i < |tail| ==> Continuation(tail[i]))
  }

  /** A byte that may come next in the character. */
  function NextByte(tail: Buffer): (b: Byte)
    requires tail != []
    ensures Continuation(b) && (|tail| == 1 ==> SecondByte(tail[0], b))
  {
    if |tail| == 1 && tail[0] == 0xe0 then 0xa0 else if |tail| == 1 && tail[0] == 0xf0 then 0x90 else 0x80
  }

  lemma {:induction false} Completion(tail: Buffer) returns (c: Buffer)
    requires tail != [] && BeginsCharacter(tail)
    ensures Character(c) && tail < c && forall i :: |tail| <= i < |c| ==> c[i] >= 0x80
    decreases SequenceLength(tail[0]) - |tail|
  {
    var longer := tail + [NextByte(tail)];
    if |longer| == SequenceLength(tail[0]) {
      c := longer;
    } else {
      c := Completion(longer);
      assert c[|tail|] == longer[|tail|];
    }
  }

  /** It begins a character exactly when some character starts with it. */
  lemma BeginsCharacterExactly(tail: Buffer)
    ensures BeginsCharacter(tail) <==> tail == [] || exists c :: Character(c) && tail < c
  {
    if tail != [] && BeginsCharacter(tail) { var c := Completion(tail); }
  }

  lemma {:induction false} TextThenCharacter(text: Buffer, c: Buffer)
    requires IsUtf8(text) && Character(c)
    ensures IsUtf8(text + c)
    decreases |text|
  {
    if text == [] {
      assert text + c == c && c[..|c|] == c && IsUtf8(c[|c|..]);
    } else {
      var n := SequenceLength(text[0]);
      TextThenCharacter(text[n..], c);
      assert (text + c)[..n] == text[..n] && (text + c)[n..] == text[n..] + c;
    }
  }

  /** A head with a character begun at its end is completed to a text file. */
  lemma HeadIsCompleted(head: Buffer, n: nat) returns (file: Buffer)
    requires n <= |head| && PlainText(head[..|head| - n]) && BeginsCharacter(head[|head| - n..])
    ensures PlainText(file) && head <= file
  {
    var text, tail := head[..|head| - n], head[|head| - n..];
    assert head == text + tail;
    if tail == [] {
      assert text == head;
      file := head;
    } else {
      var c := Completion(tail);
      TextThenCharacter(text, c);
      file := text + c;
      assert forall i :: 0 < i < |c| ==> c[i] != 0;
      assert c[0] == tail[0];
    }
  }

  /** What the trimming drops. */
  function DroppedTail(head: Buffer): Buffer { head[|head| - Dropped(head, 1)..] }

  /** What trimming drops of the head of a text begins a character. */
  lemma DroppedBeginsCharacter(text: Buffer, cut: nat)
    requires IsUtf8(text) && cut <= |text|
    ensures BeginsCharacter(DroppedTail(text[..cut]))
  {
    var head := text[..cut];
    var at, end := Boundary(text, cut);
    if at == cut {
      TextIsUnchanged(head);
    } else {
      var c := text[at..end];
      assert head[at] == c[0];
      forall i | at < i < cut ensures Continuation(head[i]) { assert head[i] == c[i - at]; }
      DroppedFrom(head, at, 1);
      assert head[at..] == c[..cut - at];
    }
  }

  lemma HeadOfTextIsAccepted(head: Buffer, file: Buffer)
    requires PlainText(file) && head <= file
    ensures AcceptedAsText(head, true) && BeginsCharacter(DroppedTail(head))
  {
    assert file[..|head|] == head;
    PlainTextIsAccepted(file, |head|);
    DroppedBeginsCharacter(file, |head|);
  }

  /**
   A text file starts with these bytes exactly when the head is accepted and what the trimming
   drops begins a character.
   */
  lemma HeadStartsTextExactly(head: Buffer)
    ensures (exists file :: PlainText(file) && head <= file)
            <==> AcceptedAsText(head, true) && BeginsCharacter(DroppedTail(head))
  {
    if file :| PlainText(file) && head <= file { HeadOfTextIsAccepted(head, file); }
    if AcceptedAsText(head, true) && BeginsCharacter(DroppedTail(head)) {
      assert Trimmed(head) == head[..|head| - Dropped(head, 1)];
      var file := HeadIsCompleted(head, Dropped(head, 1));
    }
  }

  /**
   A head that is nothing but a broken-off sequence is accepted; when that begins no character, no
   text starts with it.
   */
  lemma BrokenHeadStartsNoText(head: Buffer, file: Buffer)
    requires head != [] && BrokenOff(head) && !BeginsCharacter(head) && PlainText(file)
    ensures AcceptedAsText(head, true) && !(head <= file)
  {
    assert |head| < 4 && head[0..] == head && head[..0] == [];
    DroppedFrom(head, 0, 1);
    if head <= file { HeadOfTextIsAccepted(head, file); }
  }

  /** Such heads: no character starts with these bytes, or goes on with these. */
  lemma AcceptedHeadMayStartNoText(head: Buffer, file: Buffer)
    requires head in {[0xf8], [0xc0], [0xe0, 0x80], [0xed, 0xa0], [0xf0, 0x80], [0xf4, 0x90]}
    requires PlainText(file)
    ensures AcceptedAsText(head, true) && !(head <= file)
  {
    BrokenHeadStartsNoText(head, file);
  }
}
