/** Version names of src/version.cpp: how they are read, and the order between them. */
module Versions {
  import opened Basics

  // ----- names -----

  datatype Segment = Num(value: nat) | Str(text: string)

  /** The null name has no segments and is stable. */
  datatype VersionName = VersionName(text: string, segments: seq<Segment>, stable: bool)
  {
    predicate Null() { segments == [] }
  }

  const NULL_NAME := VersionName("", [], true)

  predicate Letter(c: char) { 'a' <= c <= 'z' || 'A' <= c <= 'Z' }

  function Kind(c: char): nat {
    if Digit(c) then 1 else if Letter(c) then 2 else 0
  }

  /** Digits, letters, and all other characters. */
  lemma {:induction false} KindIs(c: char)
    ensures Kind(c) == if c in DIGITS then 1 else if c in CAPITALS || c in SMALL then 2 else 0
  {
    DigitIs(c);
    CapitalIs(c);
    SmallIs(c);
  }

  /** Characters of one kind. */
  predicate Uniform(s: string, kind: nat) {
    forall i :: 0 <= i < |s| ==> Kind(s[i]) == kind
  }

  const MAX_NUMBER: nat := 65535

  // ----- what a text means -----

  /** A run of digits or letters and the text before it that belongs to no segment. */
  datatype Piece = Piece(gap: string, run: string)
  {
    ghost predicate Valid() {
      && Uniform(gap, 0) && run != [] && Kind(run[0]) > 0 && Uniform(run, Kind(run[0]))
    }
  }

  /** Runs of the same kind do not touch, so each is as long as can be. */
  ghost predicate Maximal(pieces: seq<Piece>) {
    && (forall i :: 0 <= i < |pieces| ==> pieces[i].Valid())
    && forall i :: 0 < i < |pieces| ==> pieces[i].gap != [] || Kind(pieces[i].run[0]) != Kind(pieces[i - 1].run[0])
  }

  function Spell(pieces: seq<Piece>, tail: string): string
    decreases |pieces|
  {
    if pieces == [] then tail else pieces[0].gap + pieces[0].run + Spell(pieces[1..], tail)
  }

  datatype Parsed = Name(segments: seq<Segment>) | Invalid | Overflow

  function SegmentOf(run: string): Segment {
    if Uniform(run, 1) then Num(Value(run)) else Str(run)
  }

  /** What each run stands for: the number it writes, or itself. */
  ghost function SegmentsOf(pieces: seq<Piece>): seq<Segment> {
    seq(|pieces|, i requires 0 <= i < |pieces| =>
      var run := pieces[i].run; if Digits(run) then Num(Value(run)) else Str(run))
  }

  ghost predicate Fits(segments: seq<Segment>) {
    forall s <- segments :: s.Num? ==> s.value < 0x1_0000
  }

  /** A name begins with a number, and its numbers have sixteen bits. */
  ghost function Judge(segments: seq<Segment>): Parsed {
    if segments == [] || segments[0].Str? then Invalid
    else if !Fits(segments) then Overflow
    else Name(segments)
  }

  // ----- reading -----

  /** Where the run beginning at `i` ends. */
  function RunEnd(s: string, i: nat, kind: nat): (e: nat)
    requires i <= |s|
    ensures i <= e <= |s| && Uniform(s[i..e], kind)
    ensures e < |s| ==> Kind(s[e]) != kind
    decreases |s| - i
  {
    if i < |s| && Kind(s[i]) == kind then
      var e := RunEnd(s, i + 1, kind);
      assert s[i..e] == [s[i]] + s[i + 1..e];
      e
    else i
  }

  /** The rest of the parse from position `i`, with the segments found so far. */
  function ParseFrom(s: string, i: nat, segments: seq<Segment>): Parsed
    requires i <= |s|
    decreases |s| - i
  {
    var j := RunEnd(s, i, 0);
    if j == |s| then
      if segments == [] then Invalid else Name(segments)
    else
      var e := RunEnd(s, j, Kind(s[j]));
      var segment := SegmentOf(s[j..e]);
      if segment.Str? && segments == [] then Invalid
      else if segment.Num? && segment.value > MAX_NUMBER then Overflow
      else ParseFrom(s, e, segments + [segment])
  }

  predicate AllNumbers(segments: seq<Segment>) {
    forall x <- segments :: x.Num?
  }

  lemma {:induction false} AllNumbersAppend(segments: seq<Segment>, last: Segment)
    ensures AllNumbers(segments + [last]) <==> AllNumbers(segments) && last.Num?
  {
    assert (segments + [last])[|segments|] == last;
    assert forall x <- segments :: x in segments + [last];
  }

  function ParseName(s: string): Option<VersionName> {
    match ParseFrom(s, 0, [])
    case Name(segments) => Some(VersionName(s, segments, AllNumbers(segments)))
    case _ => None
  }

  lemma {:induction false} RunEndIs(s: string, i: nat, kind: nat, e: nat)
    requires i <= e <= |s| && Uniform(s[i..e], kind) && (e < |s| ==> Kind(s[e]) != kind)
    ensures RunEnd(s, i, kind) == e
    decreases e - i
  {
    if i < e {
      assert s[i] == s[i..e][0] && s[i + 1..e] == s[i..e][1..];
      RunEndIs(s, i + 1, kind, e);
    }
  }

  lemma {:induction false} FirstRun(s: string, j: nat, e: nat)
    requires j == RunEnd(s, 0, 0) < |s| && e == RunEnd(s, j, Kind(s[j]))
    ensures j < e <= |s| && Piece(s[..j], s[j..e]).Valid() && s[j..e][0] == s[j]
    ensures s == s[..j] + s[j..e] + s[e..]
    ensures j == 0 <==> Kind(s[0]) > 0
    ensures e < |s| ==> s[e..][0] == s[e] && Kind(s[e]) != Kind(s[j])
  {
    assert s[0..j] == s[..j];
    assert j > 0 ==> s[..j][0] == s[0];
    assert j < e && s[j..e][0] == s[j];
  }

  /** Every text is spelled by maximal pieces... */
  lemma {:induction false} PiecesExist(s: string) returns (pieces: seq<Piece>, tail: string)
    ensures Maximal(pieces) && Uniform(tail, 0) && Spell(pieces, tail) == s
    ensures s != [] && Kind(s[0]) > 0 ==> pieces != [] && pieces[0].gap == [] && pieces[0].run[0] == s[0]
    ensures s != [] && Kind(s[0]) == 0 && pieces != [] ==> pieces[0].gap != []
    ensures s == [] ==> pieces == []
    decreases |s|
  {
    var j := RunEnd(s, 0, 0);
    if j == |s| {
      assert s[0..j] == s;
      return [], s;
    }
    var e := RunEnd(s, j, Kind(s[j]));
    FirstRun(s, j, e);
    hide RunEnd, Uniform, Kind;
    var rest;
    rest, tail := PiecesExist(s[e..]);
    pieces := [Piece(s[..j], s[j..e])] + rest;
    assert pieces[1..] == rest;
    assert e < |s| && rest != [] && rest[0].gap == [] ==> Kind(s[e]) > 0;
  }

  /** Where spelling goes on after the first piece, the first run is over. */
  lemma {:induction false} SpellBreaks(pieces: seq<Piece>, tail: string)
    requires Maximal(pieces) && Uniform(tail, 0) && pieces != []
    ensures var rest := Spell(pieces[1..], tail); rest != [] ==> Kind(rest[0]) != Kind(pieces[0].run[0])
    ensures Maximal(pieces[1..])
  {
    var rest := Spell(pieces[1..], tail);
    if |pieces| > 1 {
      var next := pieces[1];
      assert pieces[1..][0] == next;
      assert rest == next.gap + next.run + Spell(pieces[1..][1..], tail);
      assert rest[0] == if next.gap != [] then next.gap[0] else next.run[0];
    }
  }

  lemma {:induction false} Slices(s: string, i: nat, a: string, b: string, c: string)
    requires i <= |s| && s[i..] == a + b + c
    ensures var j := i + |a|; var e := j + |b|;
      e <= |s| && s[i..j] == a && s[j..e] == b && s[e..] == c
  {
    var j, e := i + |a|, i + |a| + |b|;
    assert s[i..j] == s[i..][..|a|];
    assert s[j..e] == s[i..][|a|..|a| + |b|];
    assert s[e..] == s[i..][|a| + |b|..];
  }

  lemma {:induction false} FirstPiece(s: string, i: nat, pieces: seq<Piece>, tail: string)
    requires i <= |s| && s[i..] == Spell(pieces, tail)
    requires Maximal(pieces) && Uniform(tail, 0) && pieces != []
    ensures var p := pieces[0]; var j := i + |p.gap|; var e := j + |p.run|;
      && RunEnd(s, i, 0) == j < e <= |s| && s[j] == p.run[0] && RunEnd(s, j, Kind(s[j])) == e
      && s[j..e] == p.run && s[e..] == Spell(pieces[1..], tail)
  {
    var p, rest := pieces[0], Spell(pieces[1..], tail);
    SpellBreaks(pieces, tail);
    var j, e := i + |p.gap|, i + |p.gap| + |p.run|;
    Slices(s, i, p.gap, p.run, rest);
    assert s[j] == s[j..e][0];
    assert e < |s| ==> s[e] == rest[0];
    hide Value, Spell, Maximal, RunEnd;
    RunEndIs(s, i, 0, j);
    RunEndIs(s, j, Kind(s[j]), e);
  }

  lemma {:induction false} JudgeStep(segments: seq<Segment>, seg: Segment, rest: seq<Segment>)
    requires Fits(segments) && (segments != [] ==> segments[0].Num?)
    ensures var all := segments + [seg] + rest;
      if segments == [] && seg.Str? then Judge(all) == Invalid
      else if seg.Num? && seg.value > MAX_NUMBER then Judge(all) == Overflow
      else Fits(segments + [seg]) && (segments + [seg])[0].Num?
  {
    var all := segments + [seg] + rest;
    assert all[|segments|] == seg && seg in all;
    assert segments != [] ==> all[0] == segments[0];
  }

  lemma {:induction false} ParseStep(s: string, i: nat, pieces: seq<Piece>, tail: string, segments: seq<Segment>)
    requires i <= |s| && s[i..] == Spell(pieces, tail)
    requires Maximal(pieces) && Uniform(tail, 0) && pieces != []
    ensures var seg, e := SegmentOf(pieces[0].run), i + |pieces[0].gap| + |pieces[0].run|;
      && e <= |s| && s[e..] == Spell(pieces[1..], tail) && Maximal(pieces[1..])
      && ParseFrom(s, i, segments)
           == (if segments == [] && seg.Str? then Invalid
               else if seg.Num? && seg.value > MAX_NUMBER then Overflow
               else ParseFrom(s, e, segments + [seg]))
  {
    hide Value, SegmentOf, Spell, Maximal, RunEnd, Uniform;
    FirstPiece(s, i, pieces, tail);
    SpellBreaks(pieces, tail);
  }

  lemma {:induction false} SegmentsEmpty(tail: string)
    ensures SegmentsOf([]) == [] && Spell([], tail) == tail
  {
  }

  lemma {:induction false} SegmentsFront(pieces: seq<Piece>)
    requires pieces != []
    ensures SegmentsOf(pieces) == [SegmentOf(pieces[0].run)] + SegmentsOf(pieces[1..])
  {
  }

  lemma {:induction false} ParseEnd(s: string, i: nat, tail: string, segments: seq<Segment>)
    requires i <= |s| && s[i..] == tail && Uniform(tail, 0)
    requires Fits(segments) && (segments != [] ==> segments[0].Num?)
    ensures ParseFrom(s, i, segments) == Judge(segments)
  {
    assert s[i..|s|] == tail;
    RunEndIs(s, i, 0, |s|);
  }

  lemma {:induction false} ParsePieces(s: string, i: nat, pieces: seq<Piece>, tail: string, segments: seq<Segment>)
    requires i <= |s| && s[i..] == Spell(pieces, tail)
    requires Maximal(pieces) && Uniform(tail, 0)
    requires Fits(segments) && (segments != [] ==> segments[0].Num?)
    ensures ParseFrom(s, i, segments) == Judge(segments + SegmentsOf(pieces))
    decreases |pieces|
  {
    hide *;
    if pieces == [] {
      SegmentsEmpty(tail);
      ParseEnd(s, i, tail, segments);
      assert segments + [] == segments;
    } else {
      ParseStep(s, i, pieces, tail, segments);
      var e, seg := i + |pieces[0].gap| + |pieces[0].run|, SegmentOf(pieces[0].run);
      SegmentsFront(pieces);
      assert segments + SegmentsOf(pieces) == segments + [seg] + SegmentsOf(pieces[1..]);
      JudgeStep(segments, seg, SegmentsOf(pieces[1..]));
      if !(segments == [] && seg.Str?) && !(seg.Num? && seg.value > MAX_NUMBER) {
        ParsePieces(s, e, pieces[1..], tail, segments + [seg]);
      }
    }
  }

  /**
   * Reading finds the maximal runs of digits and letters whatever separates them. Together with
   * `PiecesExist` this says what becomes of every text.
   */
  lemma {:induction false} ParseMeaning(pieces: seq<Piece>, tail: string)
    requires Maximal(pieces) && Uniform(tail, 0)
    ensures ParseFrom(Spell(pieces, tail), 0, []) == Judge(SegmentsOf(pieces))
    ensures ParseName(Spell(pieces, tail)) ==
      match Judge(SegmentsOf(pieces))
      case Name(segments) => Some(VersionName(Spell(pieces, tail), segments, forall x <- segments :: !x.Str?))
      case _ => None
  {
    var s := Spell(pieces, tail);
    assert s[0..] == s;
    ParsePieces(s, 0, pieces, tail, []);
    assert [] + SegmentsOf(pieces) == SegmentsOf(pieces);
  }

  /** Non-null names are exactly those whose numbers fit and that begin with one. */
  ghost predicate WellFormed(v: VersionName) {
    && v.stable == (forall x <- v.segments :: !x.Str?)
    && Fits(v.segments) && (v.segments != [] ==> v.segments[0].Num?)
  }

  lemma {:induction false} ParsedWellFormed(s: string)
    ensures ParseName(s).Some? ==>
      WellFormed(ParseName(s).value) && !ParseName(s).value.Null() && ParseName(s).value.text == s
  {
    var pieces, tail := PiecesExist(s);
    ParseMeaning(pieces, tail);
  }

  /** One step of the regular expression iterator: the leftmost longest run from `i` on. */
  method NextMatch(s: string, i: nat) returns (j: nat, e: nat)
    requires i <= |s|
    ensures j == RunEnd(s, i, 0)
    ensures e == if j < |s| then RunEnd(s, j, Kind(s[j])) else j
  {
    j := i;
    while j < |s| && Kind(s[j]) == 0
      invariant i <= j <= |s| && RunEnd(s, i, 0) == RunEnd(s, j, 0)
    {
      j := j + 1;
    }
    e := j;
    while e < |s| && Kind(s[e]) == Kind(s[j])
      invariant j <= e <= |s| && (j < |s| ==> RunEnd(s, j, Kind(s[j])) == RunEnd(s, e, Kind(s[j])))
      invariant j == |s| ==> e == j
    {
      e := e + 1;
    }
  }

  /** An object that holds a name, as the C++ class does. */
  class NameHolder {
    var name: VersionName

    constructor ()
      ensures name == NULL_NAME
    {
      name := NULL_NAME;
    }

    /** `parse`: the name is replaced, or kept as it was when the text is refused. */
    method Parse(s: string) returns (result: Parsed)
      modifies this
      ensures result == ParseFrom(s, 0, [])
      ensures name == if ParseName(s).Some? then ParseName(s).value else old(name)
    {
      var letters := 0;
      var segments: seq<Segment> := [];
      var j, e := NextMatch(s, 0);
      ghost var i := 0;
      while j < |s|
        invariant i <= |s| && ParseFrom(s, i, segments) == ParseFrom(s, 0, [])
        invariant j == RunEnd(s, i, 0) && e == if j < |s| then RunEnd(s, j, Kind(s[j])) else j
        invariant name == old(name)
        invariant letters == 0 <==> AllNumbers(segments)
        decreases |s| - i
      {
        if Letter(s[j]) {
          if segments == [] {
            return Invalid;
          }
          AllNumbersAppend(segments, Str(s[j..e]));
          assert s[j..e][0] == s[j];
          segments, letters := segments + [Str(s[j..e])], letters + 1;
        } else {
          var value := Value(s[j..e]);
          AllNumbersAppend(segments, Num(value));
          if value > MAX_NUMBER {
            return Overflow;
          }
          segments := segments + [Num(value)];
        }
        i := e;
        j, e := NextMatch(s, e);
      }
      if segments == [] {
        return Invalid;
      }
      name := VersionName(s, segments, letters < 1);
      return Name(segments);
    }

    /** `tryParse`. */
    method TryParse(s: string) returns (ok: bool)
      modifies this
      ensures ok == ParseName(s).Some?
      ensures name == if ok then ParseName(s).value else old(name)
    {
      var result := Parse(s);
      return result.Name?;
    }
  }

  // ----- order -----

  function CompareText(a: string, b: string): (r: int)
    ensures r == 0 <==> a == b
    ensures -1 <= r <= 1
    decreases |a|
  {
    if a == [] then (if b == [] then 0 else -1)
    else if b == [] then 1
    else if a[0] < b[0] then -1
    else if a[0] > b[0] then 1
    else
      assert a == [a[0]] + a[1..] && b == [b[0]] + b[1..];
      CompareText(a[1..], b[1..])
  }

  /** Numbers follow their value, letters the alphabet, and any letters come before any number. */
  function CompareSegment(a: Segment, b: Segment): (r: int)
    ensures -1 <= r <= 1
  {
    match (a, b)
    case (Num(x), Num(y)) => if x < y then -1 else if x > y then 1 else 0
    case (Str(x), Str(y)) => CompareText(x, y)
    case (Num(_), Str(_)) => 1
    case (Str(_), Num(_)) => -1
  }

  /** `segment`: zero beyond the end. */
  function At(s: seq<Segment>, i: nat): Segment {
    if i < |s| then s[i] else Num(0)
  }

  /** The first difference between two segment lists decides, both taken as going on with zeros. */
  ghost predicate FirstDifference(a: seq<Segment>, b: seq<Segment>, k: nat) {
    && CompareSegment(At(a, k), At(b, k)) != 0
    && forall i: nat :: i < k ==> CompareSegment(At(a, i), At(b, i)) == 0
  }

  function CompareFrom(a: seq<Segment>, b: seq<Segment>, i: nat): (r: int)
    ensures -1 <= r <= 1
    decreases |a| + |b| - i
  {
    if i >= |a| && i >= |b| then 0
    else if CompareSegment(At(a, i), At(b, i)) != 0 then CompareSegment(At(a, i), At(b, i))
    else CompareFrom(a, b, i + 1)
  }

  function Compare(a: VersionName, b: VersionName): (r: int)
    ensures -1 <= r <= 1
  {
    if a.Null() && b.Null() then 0
    else if a.Null() then -1
    else if b.Null() then 1
    else CompareFrom(a.segments, b.segments, 0)
  }

  /** `compare`. */
  method CompareNames(a: VersionName, b: VersionName) returns (r: int)
    ensures r == Compare(a, b)
  {
    if a.Null() != b.Null() {
      return if a.Null() then -1 else 1;
    }
    if a.Null() {
      return 0;
    }
    var biggest := if |a.segments| > |b.segments| then |a.segments| else |b.segments|;
    for i := 0 to biggest
      invariant CompareFrom(a.segments, b.segments, 0) == CompareFrom(a.segments, b.segments, i)
    {
      var c := CompareSegment(At(a.segments, i), At(b.segments, i));
      if c != 0 {
        return c;
      }
    }
    return 0;
  }

  lemma {:induction false} CompareFromMeaning(a: seq<Segment>, b: seq<Segment>, i: nat)
    requires forall k: nat :: k < i ==> CompareSegment(At(a, k), At(b, k)) == 0
    ensures CompareFrom(a, b, i) == 0 ==> forall k: nat :: CompareSegment(At(a, k), At(b, k)) == 0
    ensures CompareFrom(a, b, i) != 0 ==>
      exists k: nat :: FirstDifference(a, b, k) && CompareFrom(a, b, i) == CompareSegment(At(a, k), At(b, k))
    decreases |a| + |b| - i
  {
    if i < |a| || i < |b| {
      if CompareSegment(At(a, i), At(b, i)) == 0 {
        CompareFromMeaning(a, b, i + 1);
      } else {
        assert FirstDifference(a, b, i);
      }
    }
  }

  lemma {:induction false} CompareTextSwap(a: string, b: string)
    ensures CompareText(a, b) == -CompareText(b, a)
    decreases |a|
  {
    if a != [] && b != [] {
      CompareTextSwap(a[1..], b[1..]);
    }
  }

  lemma {:induction false} CompareTextTransitive(a: string, b: string, c: string)
    requires CompareText(a, b) < 0 && CompareText(b, c) < 0
    ensures CompareText(a, c) < 0
    decreases |a|
  {
    if a != [] && b != [] && c != [] && a[0] == b[0] == c[0] {
      CompareTextTransitive(a[1..], b[1..], c[1..]);
    }
  }

  lemma {:induction false} SegmentOrder(a: Segment, b: Segment, c: Segment)
    ensures CompareSegment(a, b) == -CompareSegment(b, a)
    ensures CompareSegment(a, b) == 0 <==> a == b
    ensures CompareSegment(a, b) < 0 && CompareSegment(b, c) < 0 ==> CompareSegment(a, c) < 0
  {
    if a.Str? && b.Str? {
      CompareTextSwap(a.text, b.text);
      if c.Str? && CompareText(a.text, b.text) < 0 && CompareText(b.text, c.text) < 0 {
        CompareTextTransitive(a.text, b.text, c.text);
      }
    }
  }

  lemma {:induction false} FirstDifferenceDecides(a: seq<Segment>, b: seq<Segment>, k: nat)
    requires FirstDifference(a, b, k)
    ensures CompareFrom(a, b, 0) == CompareSegment(At(a, k), At(b, k))
  {
    CompareFromMeaning(a, b, 0);
    if CompareFrom(a, b, 0) != 0 {
      var j: nat :| FirstDifference(a, b, j) && CompareFrom(a, b, 0) == CompareSegment(At(a, j), At(b, j));
      assert j == k;
    }
  }

  // ----- which of two names is earlier -----

  /** The texts agree up to `k`, and there the first one ends or has the smaller character. */
  ghost predicate TextFirst(a: string, b: string, k: nat) {
    k <= |a| && k < |b| && a[..k] == b[..k] && (k < |a| ==> a[k] < b[k])
  }

  /** Earlier in the dictionary. */
  ghost predicate TextBefore(a: string, b: string) {
    exists k: nat :: TextFirst(a, b, k)
  }

  lemma {:induction false} CompareTextMeaning(a: string, b: string)
    ensures CompareText(a, b) == -1 <==> TextBefore(a, b)
    ensures CompareText(a, b) == 1 <==> TextBefore(b, a)
    decreases |a|
  {
    if a == [] || b == [] || a[0] != b[0] {
      assert TextFirst(a, b, 0) <==> (a == [] && b != []) || (a != [] && b != [] && a[0] < b[0]);
      assert TextFirst(b, a, 0) <==> (b == [] && a != []) || (a != [] && b != [] && b[0] < a[0]);
      assert forall k: nat :: TextFirst(a, b, k) || TextFirst(b, a, k) ==> k == 0;
    } else {
      CompareTextMeaning(a[1..], b[1..]);
      TextBeforeTail(a, b);
      TextBeforeTail(b, a);
    }
  }

  lemma {:induction false} TextBeforeTail(a: string, b: string)
    requires a != [] && b != [] && a[0] == b[0]
    ensures TextBefore(a, b) <==> TextBefore(a[1..], b[1..])
  {
    if k: nat :| TextFirst(a, b, k) {
      assert a[1..][..k - 1] == a[..k][1..] == b[1..][..k - 1];
      assert TextFirst(a[1..], b[1..], k - 1);
    }
    if k: nat :| TextFirst(a[1..], b[1..], k) {
      assert a[..k + 1] == [a[0]] + a[1..][..k] == b[..k + 1];
      assert TextFirst(a, b, k + 1);
    }
  }

  /** Smaller numbers come first, letters in the order of the dictionary, and any letters before any number. */
  ghost predicate SegmentBefore(a: Segment, b: Segment) {
    || (a.Num? && b.Num? && a.value < b.value)
    || (a.Str? && b.Str? && TextBefore(a.text, b.text))
    || (a.Str? && b.Num?)
  }

  /** Null before any other name, and otherwise as the first segments say that differ. */
  ghost predicate Earlier(a: VersionName, b: VersionName) {
    && !b.Null()
    && (a.Null() || exists k: nat ::
          && SegmentBefore(At(a.segments, k), At(b.segments, k))
          && forall i: nat :: i < k ==> At(a.segments, i) == At(b.segments, i))
  }

  lemma {:induction false} SegmentMeaning(a: Segment, b: Segment)
    ensures CompareSegment(a, b) == -1 <==> SegmentBefore(a, b)
    ensures CompareSegment(a, b) == 0 <==> a == b
  {
    SegmentOrder(a, b, b);
    if a.Str? && b.Str? {
      CompareTextMeaning(a.text, b.text);
    }
  }

  /** For any two names: negative exactly when the first is the earlier one, positive exactly when the second is. */
  lemma {:induction false} CompareMeaning(a: VersionName, b: VersionName)
    ensures Compare(a, b) == -1 <==> Earlier(a, b)
    ensures Compare(a, b) == 1 <==> Earlier(b, a)
  {
    CompareBefore(a, b);
    CompareBefore(b, a);
    CompareSwap(a, b);
  }

  lemma {:induction false} CompareBefore(a: VersionName, b: VersionName)
    ensures Compare(a, b) == -1 <==> Earlier(a, b)
  {
    if !a.Null() && !b.Null() {
      var s, t := a.segments, b.segments;
      forall k: nat
        ensures CompareSegment(At(s, k), At(t, k)) == -1 <==> SegmentBefore(At(s, k), At(t, k))
        ensures CompareSegment(At(s, k), At(t, k)) == 0 <==> At(s, k) == At(t, k)
      {
        SegmentMeaning(At(s, k), At(t, k));
      }
      CompareFromMeaning(s, t, 0);
      if Earlier(a, b) {
        var k: nat :| SegmentBefore(At(s, k), At(t, k)) && forall i: nat :: i < k ==> At(s, i) == At(t, i);
        assert FirstDifference(s, t, k);
        FirstDifferenceDecides(s, t, k);
      }
    }
  }

  /** The order of versions is total: swapping the sides swaps the sign... */
  lemma {:induction false} CompareSwap(a: VersionName, b: VersionName)
    ensures Compare(a, b) == -Compare(b, a)
  {
    if !a.Null() && !b.Null() {
      var s, t := a.segments, b.segments;
      forall k: nat
        ensures CompareSegment(At(s, k), At(t, k)) == -CompareSegment(At(t, k), At(s, k))
      {
        SegmentOrder(At(s, k), At(t, k), At(t, k));
      }
      CompareFromMeaning(s, t, 0);
      CompareFromMeaning(t, s, 0);
      if CompareFrom(s, t, 0) != 0 {
        var k: nat :| FirstDifference(s, t, k) && CompareFrom(s, t, 0) == CompareSegment(At(s, k), At(t, k));
        assert FirstDifference(t, s, k);
        FirstDifferenceDecides(t, s, k);
      }
    }
  }

  ghost predicate SamePadded(a: seq<Segment>, b: seq<Segment>) {
    forall k: nat :: At(a, k) == At(b, k)
  }

  lemma {:induction false} CompareFromZero(a: seq<Segment>, b: seq<Segment>)
    ensures CompareFrom(a, b, 0) == 0 <==> SamePadded(a, b)
  {
    CompareFromMeaning(a, b, 0);
    forall k: nat
      ensures CompareSegment(At(a, k), At(b, k)) == 0 <==> At(a, k) == At(b, k)
    {
      SegmentOrder(At(a, k), At(b, k), At(b, k));
    }
  }

  /** ...it is transitive, and strict as soon as one of the steps is. */
  lemma {:induction false} CompareTransitive(a: VersionName, b: VersionName, c: VersionName)
    requires Compare(a, b) <= 0 && Compare(b, c) <= 0
    ensures Compare(a, c) <= 0
    ensures Compare(a, b) < 0 || Compare(b, c) < 0 ==> Compare(a, c) < 0
  {
    if !a.Null() && !b.Null() && !c.Null() {
      var s, t, u := a.segments, b.segments, c.segments;
      CompareFromZero(s, t);
      CompareFromZero(t, u);
      CompareFromZero(s, u);
      CompareFromMeaning(s, t, 0);
      CompareFromMeaning(t, u, 0);
      if CompareFrom(s, t, 0) < 0 && CompareFrom(t, u, 0) < 0 {
        var j: nat :| FirstDifference(s, t, j) && CompareSegment(At(s, j), At(t, j)) < 0;
        var k: nat :| FirstDifference(t, u, k) && CompareSegment(At(t, k), At(u, k)) < 0;
        StrictChain(s, t, u, j, k);
      } else if CompareFrom(s, t, 0) < 0 {
        var j: nat :| FirstDifference(s, t, j) && CompareSegment(At(s, j), At(t, j)) < 0;
        assert FirstDifference(s, u, j);
        FirstDifferenceDecides(s, u, j);
      } else if CompareFrom(t, u, 0) < 0 {
        var k: nat :| FirstDifference(t, u, k) && CompareSegment(At(t, k), At(u, k)) < 0;
        assert FirstDifference(s, u, k);
        FirstDifferenceDecides(s, u, k);
      }
    }
  }

  lemma {:induction false} StrictChain(s: seq<Segment>, t: seq<Segment>, u: seq<Segment>, j: nat, k: nat)
    requires FirstDifference(s, t, j) && CompareSegment(At(s, j), At(t, j)) < 0
    requires FirstDifference(t, u, k) && CompareSegment(At(t, k), At(u, k)) < 0
    ensures CompareFrom(s, u, 0) < 0
  {
    var m := if j < k then j else k;
    forall i: nat | i < m
      ensures At(s, i) == At(t, i) == At(u, i)
    {
      SegmentOrder(At(s, i), At(t, i), At(u, i));
      SegmentOrder(At(t, i), At(u, i), At(u, i));
    }
    SegmentOrder(At(s, m), At(t, m), At(u, m));
    SegmentOrder(At(t, m), At(u, m), At(u, m));
    SegmentOrder(At(s, m), At(u, m), At(u, m));
    forall i: nat | i < m
      ensures CompareSegment(At(s, i), At(u, i)) == 0
    {
      SegmentOrder(At(s, i), At(u, i), At(u, i));
    }
    assert FirstDifference(s, u, m);
    FirstDifferenceDecides(s, u, m);
  }

  /** Segments without the numeric zeros at their end. */
  function Trim(s: seq<Segment>): (r: seq<Segment>)
    ensures r <= s && (r != [] ==> r[|r| - 1] != Num(0))
    ensures forall i :: |r| <= i < |s| ==> s[i] == Num(0)
    decreases |s|
  {
    if s != [] && s[|s| - 1] == Num(0) then Trim(s[..|s| - 1]) else s
  }

  /** Two names are equal exactly when both are null, or neither is and they differ in final zeros only. */
  lemma {:induction false} CompareZero(a: VersionName, b: VersionName)
    ensures Compare(a, b) == 0 <==>
      (a.Null() && b.Null()) || (!a.Null() && !b.Null() && Trim(a.segments) == Trim(b.segments))
  {
    var s, t := a.segments, b.segments;
    var x, y := Trim(s), Trim(t);
    CompareFromZero(s, t);
    assert forall k: nat :: At(s, k) == At(x, k) && At(t, k) == At(y, k);
    if SamePadded(s, t) {
      assert |x| >= |y| by {
        assert |y| > 0 ==> At(s, |y| - 1) == At(t, |y| - 1);
      }
      assert |x| <= |y| by {
        assert |x| > 0 ==> At(s, |x| - 1) == At(t, |x| - 1);
      }
      forall k | 0 <= k < |x|
        ensures x[k] == y[k]
      {
        assert At(s, k) == At(t, k);
      }
    }
  }

  /** The first segment that differs from zero. */
  ghost predicate Leads(tail: seq<Segment>, k: nat) {
    k < |tail| && tail[k] != Num(0) && forall i :: 0 <= i < k ==> tail[i] == Num(0)
  }

  /**
   * Appending to a version: letters, even after zeros, make it earlier (`1.0beta1` comes before
   * `1.0`), a number makes it later, and zeros alone change nothing.
   */
  lemma {:induction false} CompareAppend(a: VersionName, b: VersionName, tail: seq<Segment>)
    requires !a.Null() && b.segments == a.segments + tail
    ensures (forall x <- tail :: x == Num(0)) ==> Compare(b, a) == 0
    ensures forall k: nat :: Leads(tail, k) ==> Compare(b, a) == if tail[k].Str? then -1 else 1
  {
    var s, t := a.segments, b.segments;
    CompareFromZero(t, s);
    if forall x <- tail :: x == Num(0) {
      forall k: nat
        ensures At(t, k) == At(s, k)
      {
        assert |s| <= k < |t| ==> t[k] == tail[k - |s|] && tail[k - |s|] in tail;
      }
      assert SamePadded(t, s);
    }
    forall k: nat | Leads(tail, k)
      ensures Compare(b, a) == if tail[k].Str? then -1 else 1
    {
      forall i: nat | i < |s| + k
        ensures CompareSegment(At(t, i), At(s, i)) == 0
      {
        SegmentOrder(At(t, i), At(s, i), At(s, i));
      }
      assert At(t, |s| + k) == tail[k] && At(s, |s| + k) == Num(0);
      assert FirstDifference(t, s, |s| + k);
      FirstDifferenceDecides(t, s, |s| + k);
    }
  }
}
