/** Paths of src/path.cpp in their Unix form: an absolute flag and a list of parts. */
module Paths {

  const SEPARATOR := '/'

  datatype Path = Path(absolute: bool, parts: seq<string>)

  const EMPTY_PATH := Path(false, [])

  predicate IsSeparator(c: char) {
    c == '/' || c == '\\'
  }

  /** What splitting can yield: a non-empty part without separators that is not `.`. */
  predicate Solid(part: string) {
    part != [] && part != "." && forall i :: 0 <= i < |part| ==> !IsSeparator(part[i])
  }

  /** What a path may hold: no `..` either. */
  predicate Plain(part: string) {
    Solid(part) && part != ".."
  }

  predicate Normal(p: Path) {
    forall i :: 0 <= i < |p.parts| ==> Plain(p.parts[i])
  }

  // ----- splitting -----

  /** `find_first_of("\\/", from)`, with the length of the text standing for `npos`. */
  function NextSeparator(s: string, from: nat): (pos: nat)
    requires from <= |s|
    ensures from <= pos <= |s|
    decreases |s| - from
  {
    if from == |s| || IsSeparator(s[from]) then from else NextSeparator(s, from + 1)
  }

  /** The separator found is the first one: exactly where a run without separators ends. */
  lemma {:induction false} NextSeparatorIs(s: string, from: nat, end: nat)
    requires from <= end <= |s|
    ensures NextSeparator(s, from) == end
        <==> (forall i :: from <= i < end ==> !IsSeparator(s[i])) && (end < |s| ==> IsSeparator(s[end]))
    decreases |s| - from
  {
    if from < |s| && !IsSeparator(s[from]) && from < end {
      NextSeparatorIs(s, from + 1, end);
    }
  }

  /** The parts found from index `last` on, after those in `list`: runs without separators, except `.`. */
  function PartsOnto(list: seq<string>, s: string, last: nat): seq<string>
    decreases |s| - last
  {
    if last >= |s| then list
    else
      var pos := NextSeparator(s, last);
      if pos == last then PartsOnto(list, s, last + 1)
      else PartsOnto(Keep(list, s[last..pos]), s, pos + 1)
  }

  function Keep(list: seq<string>, part: string): seq<string> {
    if part == "." then list else list + [part]
  }

  function Parts(s: string): seq<string> {
    PartsOnto([], s, 0)
  }

  lemma {:induction false} PartsStep(list: seq<string>, s: string, last: nat)
    requires last < |s|
    ensures var pos := NextSeparator(s, last);
      last <= pos <= |s| && PartsOnto(list, s, last)
        == if pos == last then PartsOnto(list, s, last + 1) else PartsOnto(Keep(list, s[last..pos]), s, pos + 1)
  {
  }

  lemma {:induction false} PartsEnd(list: seq<string>, s: string, last: nat)
    requires last >= |s|
    ensures PartsOnto(list, s, last) == list
  {
  }

  /** `Split`: the parts, and whether the text starts with a separator. */
  method Split(input: string) returns (list: seq<string>, absolute: bool)
    ensures list == Parts(input)
    ensures absolute == (input != [] && IsSeparator(input[0]))
  {
    hide IsSeparator, PartsOnto;
    list, absolute := [], false;
    ghost var goal := Parts(input);
    var last := 0;
    while last < |input|
      invariant 0 <= last <= |input| + 1
      invariant PartsOnto(list, input, last) == goal
      invariant absolute == (last > 0 && input != [] && IsSeparator(input[0]))
      decreases |input| + 1 - last
    {
      PartsStep(list, input, last);
      var pos := NextSeparator(input, last);
      if pos == last {
        if last == 0 {
          absolute := true;
        }
        last := last + 1;
      } else {
        var part := input[last..pos];
        if part != "." {
          list := list + [part];
        }
        last := last + |part| + 1;
      }
    }
    PartsEnd(list, input, last);
  }

  // ----- appending -----

  /** Pushes the parts one by one; `..` drops the last part, or nothing without traversal. */
  function Walk(parts: seq<string>, more: seq<string>, traversal: bool): seq<string>
    decreases |more|
  {
    if more == [] then parts
    else if more[0] == ".." then
      Walk(if traversal && parts != [] then parts[..|parts| - 1] else parts, more[1..], traversal)
    else
      Walk(parts + [more[0]], more[1..], traversal)
  }

  function Append(p: Path, input: string, traversal: bool): Path
  {
    if input == [] then p
    else
      Path(p.absolute || (p.parts == [] && IsSeparator(input[0])),
           Walk(p.parts, Parts(input), traversal))
  }

  function Parse(input: string): Path {
    Append(EMPTY_PATH, input, true)
  }

  function Concat(p: Path, q: Path): Path {
    Path(if p.parts == [] then q.absolute else p.absolute, p.parts + q.parts)
  }

  class PathBuilder {
    var path: Path

    constructor ()
      ensures path == EMPTY_PATH
    {
      path := EMPTY_PATH;
    }

    /** `Path::append(string, traversal)`. */
    method AppendText(input: string, traversal: bool)
      modifies this
      ensures path == Append(old(path), input, traversal)
    {
      if input == [] {
        return;
      }
      var parts, absolute := Split(input);
      if path.parts == [] && absolute {
        path := path.(absolute := true);
      }
      ghost var goal := Walk(path.parts, parts, traversal);
      for i := 0 to |parts|
        invariant path.absolute == (old(path.absolute) || (old(path.parts) == [] && absolute))
        invariant Walk(path.parts, parts[i..], traversal) == goal
      {
        assert parts[i..][1..] == parts[i + 1..];
        if parts[i] == ".." {
          if traversal && path.parts != [] {
            path := path.(parts := path.parts[..|path.parts| - 1]);
          }
        } else {
          path := path.(parts := path.parts + [parts[i]]);
        }
      }
    }

    /** `Path::append(Path)`. */
    method AppendPath(other: Path)
      modifies this
      ensures path == Concat(old(path), other)
    {
      if path.parts == [] {
        path := path.(absolute := other.absolute);
      }
      path := path.(parts := path.parts + other.parts);
    }

    /** `Path::remove`: `pos` past the end changes nothing, `count` is cut to what is left. */
    method Remove(pos: nat, count: nat)
      modifies this
      ensures path == RemoveParts(old(path), pos, count)
    {
      if pos > |path.parts| {
        return;
      }
      var n := if pos + count > |path.parts| then |path.parts| - pos else count;
      path := path.(parts := path.parts[..pos] + path.parts[pos + n..]);
      if pos == 0 {
        path := path.(absolute := false);
      }
    }
  }

  function RemoveParts(p: Path, pos: nat, count: nat): Path {
    if pos > |p.parts| then p
    else
      var end := if pos + count > |p.parts| then |p.parts| else pos + count;
      Path(p.absolute && pos > 0, p.parts[..pos] + p.parts[end..])
  }

  /** Removal takes away the parts of a range, cut to what there is; from the front it makes the path relative. */
  lemma {:induction false} RemoveMeaning(p: Path, pos: nat, count: nat)
    ensures var r, n := RemoveParts(p, pos, count), |p.parts|;
      && |r.parts| == (if pos >= n then n else if pos + count >= n then pos else n - count)
      && (forall i :: 0 <= i < |r.parts| ==> r.parts[i] == p.parts[if i < pos then i else i + count])
      && (r.absolute <==> p.absolute && pos > 0)
  {
  }

  lemma {:induction false} PartsSolid(list: seq<string>, s: string, last: nat)
    requires forall i :: 0 <= i < |list| ==> Solid(list[i])
    ensures forall i :: 0 <= i < |PartsOnto(list, s, last)| ==> Solid(PartsOnto(list, s, last)[i])
    decreases |s| - last
  {
    if last < |s| {
      var pos := NextSeparator(s, last);
      NextSeparatorIs(s, last, pos);
      if pos == last {
        PartsSolid(list, s, last + 1);
      } else {
        PartsSolid(Keep(list, s[last..pos]), s, pos + 1);
      }
    }
  }

  /** What traversal can never undo: the longest prefix the walk is not allowed to drop. */
  lemma {:induction false} WalkNormal(parts: seq<string>, more: seq<string>, traversal: bool)
    requires forall i :: 0 <= i < |parts| ==> Plain(parts[i])
    requires forall i :: 0 <= i < |more| ==> Solid(more[i])
    ensures forall i :: 0 <= i < |Walk(parts, more, traversal)| ==> Plain(Walk(parts, more, traversal)[i])
    ensures !traversal ==> parts <= Walk(parts, more, traversal)
    decreases |more|
  {
    if more != [] {
      WalkNormal(if more[0] != ".." then parts + [more[0]]
                 else if traversal && parts != [] then parts[..|parts| - 1] else parts,
                 more[1..], traversal);
    }
  }

  /** Every path that `append` builds, from any text, has only plain parts. */
  lemma {:induction false} AppendNormal(p: Path, input: string, traversal: bool)
    requires Normal(p)
    ensures Normal(Append(p, input, traversal))
    ensures !traversal ==> p.parts <= Append(p, input, traversal).parts
  {
    PartsSolid([], input, 0);
    WalkNormal(p.parts, Parts(input), traversal);
  }

  // ----- what splitting and appending mean -----

  /** A text as its pieces with a separator, of either kind, between each two. */
  ghost function Spelling(pieces: seq<string>, separators: string): string
    requires |pieces| == |separators| + 1
    decreases |pieces|
  {
    if separators == [] then pieces[0]
    else pieces[0] + [separators[0]] + Spelling(pieces[1..], separators[1..])
  }

  ghost predicate Spells(pieces: seq<string>, separators: string) {
    && |pieces| == |separators| + 1
    && (forall i :: 0 <= i < |pieces| ==> '/' !in pieces[i] && '\\' !in pieces[i])
    && (forall i :: 0 <= i < |separators| ==> separators[i] == '/' || separators[i] == '\\')
  }

  /** The pieces that are neither empty nor a single dot. */
  ghost function Named(pieces: seq<string>): seq<string>
    decreases |pieces|
  {
    if pieces == [] then []
    else (if pieces[0] == "" || pieces[0] == "." then [] else [pieces[0]]) + Named(pieces[1..])
  }

  lemma {:induction false} SpellingExists(s: string) returns (pieces: seq<string>, separators: string)
    ensures Spells(pieces, separators) && Spelling(pieces, separators) == s
    decreases |s|
  {
    if s == [] {
      pieces, separators := [""], "";
    } else {
      var rest, more := SpellingExists(s[1..]);
      if s[0] == '/' || s[0] == '\\' {
        pieces, separators := [""] + rest, [s[0]] + more;
        assert pieces[1..] == rest && separators[1..] == more;
        assert s == [] + [s[0]] + s[1..];
      } else {
        pieces, separators := [[s[0]] + rest[0]] + rest[1..], more;
        if more == [] {
          assert s == [s[0]] + rest[0];
        } else {
          assert pieces[1..] == rest[1..];
          var end := Spelling(rest[1..], more[1..]);
          assert [s[0]] + (rest[0] + [more[0]] + end) == ([s[0]] + rest[0]) + [more[0]] + end;
          assert s == [s[0]] + s[1..];
        }
      }
    }
  }

  lemma {:induction false} SpellingFirst(pieces: seq<string>, separators: string)
    requires Spells(pieces, separators)
    ensures pieces[0] <= Spelling(pieces, separators)
    ensures var s := Spelling(pieces, separators);
      if separators == [] then s == pieces[0]
      else
        && |pieces[0]| < |s| && IsSeparator(s[|pieces[0]|]) && Spells(pieces[1..], separators[1..])
        && s[|pieces[0]| + 1..] == Spelling(pieces[1..], separators[1..])
  {
  }

  lemma {:induction false} FirstPiece(s: string, last: nat, pieces: seq<string>, separators: string) returns (end: nat)
    requires Spells(pieces, separators) && last <= |s| && s[last..] == Spelling(pieces, separators)
    ensures last <= end <= |s| && NextSeparator(s, last) == end && s[last..end] == pieces[0]
    ensures if separators == [] then end == |s| else
      end < |s| && Spells(pieces[1..], separators[1..]) && s[end + 1..] == Spelling(pieces[1..], separators[1..])
  {
    end := last + |pieces[0]|;
    SpellingFirst(pieces, separators);
    hide Spelling;
    assert s[last..end] == s[last..][..|pieces[0]|] == pieces[0];
    forall i | last <= i < end
      ensures !IsSeparator(s[i])
    {
      assert s[i] == s[last..end][i - last] && s[i] in pieces[0];
    }
    if separators != [] {
      assert s[end] == s[last..][|pieces[0]|];
      assert s[end + 1..] == s[last..][|pieces[0]| + 1..];
    }
    NextSeparatorIs(s, last, end);
  }

  /** Splitting from a place where a piece begins finds the named pieces from there on. */
  lemma {:induction false} SplitSpelling(list: seq<string>, s: string, last: nat, pieces: seq<string>, separators: string)
    requires Spells(pieces, separators) && last <= |s| && s[last..] == Spelling(pieces, separators)
    ensures PartsOnto(list, s, last) == list + Named(pieces)
    decreases |pieces|
  {
    hide PartsOnto, NextSeparator;
    var end := FirstPiece(s, last, pieces, separators);
    hide Spelling, Spells, IsSeparator;
    SplitPiece(list, s, last, end);
    if separators == [] {
      assert pieces[1..] == [] && Named(pieces[1..]) == [];
    } else {
      SplitSpelling(PieceKept(list, pieces[0]), s, end + 1, pieces[1..], separators[1..]);
    }
    assert PieceKept(list, pieces[0]) + Named(pieces[1..]) == list + Named(pieces);
  }

  ghost function PieceKept(list: seq<string>, piece: string): seq<string> {
    list + if piece == "" || piece == "." then [] else [piece]
  }

  lemma {:induction false} SplitPiece(list: seq<string>, s: string, last: nat, end: nat)
    requires last <= end <= |s| && NextSeparator(s, last) == end
    ensures PartsOnto(list, s, last)
         == if end < |s| then PartsOnto(PieceKept(list, s[last..end]), s, end + 1) else PieceKept(list, s[last..end])
  {
    assert list + [] == list;
    if last < |s| {
      PartsStep(list, s, last);
    }
    if end == |s| {
      PartsEnd(PieceKept(list, s[last..end]), s, end + 1);
    }
  }

  /** A text's parts are its pieces between slashes of either kind, without the empty ones and the single dots. */
  lemma {:induction false} PartsMeaning(pieces: seq<string>, separators: string)
    requires Spells(pieces, separators)
    ensures Parts(Spelling(pieces, separators)) == Named(pieces)
  {
    var s := Spelling(pieces, separators);
    assert s[0..] == s;
    SplitSpelling([], s, 0, pieces, separators);
    assert [] + Named(pieces) == Named(pieces);
  }

  lemma {:induction false} WalkConcat(parts: seq<string>, a: seq<string>, b: seq<string>, traversal: bool)
    ensures Walk(parts, a + b, traversal) == Walk(Walk(parts, a, traversal), b, traversal)
    decreases |a|
  {
    if a == [] {
      assert a + b == b;
    } else {
      assert (a + b)[1..] == a[1..] + b;
      var next := if a[0] != ".." then parts + [a[0]]
                  else if traversal && parts != [] then parts[..|parts| - 1] else parts;
      WalkConcat(next, a[1..], b, traversal);
    }
  }

  /** `..` takes back the part before it; at the top, or where traversal is off, it does nothing. */
  lemma {:induction false} UpUndoesDown(parts: seq<string>, part: string, more: seq<string>)
    requires part != ".."
    ensures Walk(parts, [part, ".."] + more, true) == Walk(parts, more, true)
    ensures Walk([], [".."] + more, true) == Walk([], more, true)
    ensures Walk(parts, [".."] + more, false) == Walk(parts, more, false)
  {
    assert ([part, ".."] + more)[1..] == [".."] + more;
    assert ([".."] + more)[1..] == more;
    assert (parts + [part])[..|parts|] == parts;
  }

  /** Appending a text goes through its parts, and makes a path absolute only when that has none yet. */
  lemma {:induction false} AppendMeaning(p: Path, input: string, traversal: bool)
    ensures Append(p, input, traversal).parts == Walk(p.parts, Parts(input), traversal)
    ensures Append(p, input, traversal).absolute <==>
      p.absolute || (p.parts == [] && input != "" && (input[0] == '/' || input[0] == '\\'))
  {
  }

  // ----- printing -----

  function SeparatorAfter(absolute: bool, text: string): string {
    if |text| > (if absolute then 1 else 0) then [SEPARATOR] else []
  }

  /** `join(false)`: a separator goes before each part once anything but the root mark is there. */
  function JoinOnto(absolute: bool, text: string, parts: seq<string>): string
    decreases |parts|
  {
    if parts == [] then text
    else
      JoinOnto(absolute, text + SeparatorAfter(absolute, text) + parts[0], parts[1..])
  }

  function Join(p: Path): string {
    JoinOnto(p.absolute, if p.absolute then [SEPARATOR] else [], p.parts)
  }

  method JoinText(p: Path) returns (text: string)
    ensures text == Join(p)
  {
    text := if p.absolute then [SEPARATOR] else [];
    for i := 0 to |p.parts|
      invariant JoinOnto(p.absolute, text, p.parts[i..]) == Join(p)
    {
      assert p.parts[i..][1..] == p.parts[i + 1..];
      text := text + SeparatorAfter(p.absolute, text) + p.parts[i];
    }
  }

  lemma {:induction false} SplitSeparator(list: seq<string>, s: string, i: nat)
    requires i < |s| && IsSeparator(s[i])
    ensures PartsOnto(list, s, i) == PartsOnto(list, s, i + 1)
  {
  }

  lemma {:induction false} SplitPart(list: seq<string>, s: string, start: nat, end: nat)
    requires start < end <= |s| && Solid(s[start..end])
    requires end < |s| ==> IsSeparator(s[end])
    ensures PartsOnto(list, s, start) == PartsOnto(list + [s[start..end]], s, end)
  {
    forall i | start <= i < end
      ensures !IsSeparator(s[i])
    {
      assert s[i] == s[start..end][i - start];
    }
    NextSeparatorIs(s, start, end);
    if end < |s| {
      SplitSeparator(list + [s[start..end]], s, end);
    }
  }

  /** Splitting past one printed part and the separator before it, if there is one. */
  lemma {:induction false} SplitPrinted(list: seq<string>, whole: string, text: string, sep: string, part: string)
    requires text + sep + part <= whole && Solid(part)
    requires sep == [] || sep == [SEPARATOR]
    requires |text + sep + part| < |whole| ==> IsSeparator(whole[|text + sep + part|])
    ensures PartsOnto(list, whole, |text|) == PartsOnto(list + [part], whole, |text + sep + part|)
  {
    assert whole[|text + sep|..|text + sep + part|] == part by {
      assert whole[..|text + sep + part|] == text + sep + part;
    }
    SplitPart(list, whole, |text + sep|, |text + sep + part|);
    if sep != [] {
      assert whole[|text|] == (text + sep + part)[|text|] == SEPARATOR;
      SplitSeparator(list, whole, |text|);
    }
  }

  /** The text printed so far, and the separator after it, stay at the front. */
  lemma {:induction false} JoinOntoFront(absolute: bool, text: string, parts: seq<string>)
    ensures text <= JoinOnto(absolute, text, parts)
    ensures parts != [] ==> text + SeparatorAfter(absolute, text) <= JoinOnto(absolute, text, parts)
    decreases |parts|
  {
    if parts != [] {
      JoinOntoFront(absolute, text + SeparatorAfter(absolute, text) + parts[0], parts[1..]);
    }
  }

  lemma {:induction false} SplitFirst(list: seq<string>, absolute: bool, text: string, parts: seq<string>)
    requires parts != [] && Plain(parts[0])
    requires absolute ==> text != []
    ensures PartsOnto(list, JoinOnto(absolute, text, parts), |text|)
         == PartsOnto(list + [parts[0]], JoinOnto(absolute, text, parts),
                      |text + SeparatorAfter(absolute, text) + parts[0]|)
  {
    var whole := JoinOnto(absolute, text, parts);
    var more := text + SeparatorAfter(absolute, text) + parts[0];
    JoinOntoFront(absolute, more, parts[1..]);
    if |more| < |whole| {
      assert parts[1..] != [];
      assert whole[|more|] == (more + [SEPARATOR])[|more|];
    }
    SplitPrinted(list, whole, text, SeparatorAfter(absolute, text), parts[0]);
  }

  /** Splitting the text printed after `text` finds the printed parts, whatever `text` holds. */
  lemma {:induction false} SplitJoined(list: seq<string>, absolute: bool, text: string, parts: seq<string>)
    requires forall i :: 0 <= i < |parts| ==> Plain(parts[i])
    requires absolute ==> text != []
    ensures PartsOnto(list, JoinOnto(absolute, text, parts), |text|) == list + parts
    decreases |parts|
  {
    if parts != [] {
      SplitFirst(list, absolute, text, parts);
      SplitJoined(list + [parts[0]], absolute, text + SeparatorAfter(absolute, text) + parts[0], parts[1..]);
      assert list + [parts[0]] + parts[1..] == list + parts;
    }
  }

  lemma {:induction false} WalkPlain(parts: seq<string>, more: seq<string>, traversal: bool)
    requires forall i :: 0 <= i < |more| ==> Plain(more[i])
    ensures Walk(parts, more, traversal) == parts + more
    decreases |more|
  {
    if more != [] {
      assert Plain(more[0]);
      WalkPlain(parts + [more[0]], more[1..], traversal);
      assert parts + [more[0]] + more[1..] == parts + more;
    }
  }

  /** The printed text starts with a separator exactly when the path is absolute. */
  lemma {:induction false} JoinStart(p: Path)
    requires Normal(p)
    ensures Join(p) == [] <==> p == EMPTY_PATH
    ensures Join(p) != [] ==> IsSeparator(Join(p)[0]) == p.absolute
  {
    if p.absolute {
      JoinOntoFront(true, [SEPARATOR], p.parts);
    } else if p.parts != [] {
      var first := p.parts[0];
      assert Plain(first) && [] + [] + first == first;
      assert Join(p) == JoinOnto(false, first, p.parts[1..]);
      hide JoinOnto, Join;
      JoinOntoFront(false, first, p.parts[1..]);
      assert Join(p)[0] == first[0];
    }
  }

  /** Parsing what `join` prints gives the path back. */
  lemma {:induction false} ParseJoin(p: Path)
    requires Normal(p)
    ensures Parse(Join(p)) == p
  {
    JoinStart(p);
    SplitJoined([], p.absolute, if p.absolute then [SEPARATOR] else [], p.parts);
    if p.absolute {
      SplitSeparator([], Join(p), 0);
    }
    assert [] + p.parts == p.parts;
    WalkPlain([], p.parts, true);
  }

  /** Two normal paths with one text are one path: what lets the registry key files by text. */
  lemma {:induction false} JoinInjective(p: Path, q: Path)
    requires Normal(p) && Normal(q)
    ensures Join(p) == Join(q) <==> p == q
  {
    ParseJoin(p);
    ParseJoin(q);
  }

  /** Parsing any text and printing it reaches a fixpoint: the printed form is canonical. */
  lemma {:induction false} JoinParseIdempotent(s: string)
    ensures Parse(Join(Parse(s))) == Parse(s)
  {
    AppendNormal(EMPTY_PATH, s, true);
    ParseJoin(Parse(s));
  }

  // ----- what printing means -----

  lemma {:induction false} JoinOntoConcat(absolute: bool, text: string, a: seq<string>, b: seq<string>)
    ensures JoinOnto(absolute, text, a + b) == JoinOnto(absolute, JoinOnto(absolute, text, a), b)
    decreases |a|
  {
    if a == [] {
      assert a + b == b;
    } else {
      assert (a + b)[1..] == a[1..] + b;
      JoinOntoConcat(absolute, text + SeparatorAfter(absolute, text) + a[0], a[1..], b);
    }
  }

  /** What is printed before a text with something in it makes no difference to what follows. */
  lemma {:induction false} JoinOntoShift(absolute: bool, before: string, text: string, parts: seq<string>)
    requires text != [] && |before + text| > (if absolute then 1 else 0)
    ensures JoinOnto(absolute, before + text, parts) == before + JoinOnto(false, text, parts)
    decreases |parts|
  {
    if parts != [] {
      assert before + text + [SEPARATOR] + parts[0] == before + (text + [SEPARATOR] + parts[0]);
      JoinOntoShift(absolute, before, text + [SEPARATOR] + parts[0], parts[1..]);
    }
  }

  lemma {:induction false} JoinLong(p: Path)
    requires p.parts != [] && p.parts[0] != []
    ensures |Join(p)| > (if p.absolute then 1 else 0)
  {
    var text := if p.absolute then [SEPARATOR] else [];
    JoinOntoFront(p.absolute, text + SeparatorAfter(p.absolute, text) + p.parts[0], p.parts[1..]);
  }

  /** One slash goes between each two parts, and one before the first when the path is absolute. */
  lemma {:induction false} JoinMeaning(p: Path, part: string)
    requires Normal(p)
    ensures Join(EMPTY_PATH) == "" && Join(Path(true, [])) == "/"
    ensures Join(Path(p.absolute, [part])) == (if p.absolute then "/" else "") + part
    ensures p.parts != [] ==> Join(p.(parts := p.parts + [part])) == Join(p) + "/" + part
  {
    var text := if p.absolute then [SEPARATOR] else [];
    assert [part][1..] == [];
    assert JoinOnto(p.absolute, text, [part]) == text + part;
    if p.parts != [] {
      assert Plain(p.parts[0]);
      JoinLong(p);
      JoinOntoConcat(p.absolute, text, p.parts, [part]);
    }
  }

  /** `+` on paths: the parts one after the other, which prints as the two texts with a slash between. */
  lemma {:induction false} ConcatMeaning(p: Path, q: Path)
    requires Normal(p) && Normal(q)
    ensures Concat(p, q).parts == p.parts + q.parts
    ensures Concat(p, q).absolute <==> (if p.parts == [] then q.absolute else p.absolute)
    ensures p.parts != [] && q.parts != [] && !q.absolute ==> Join(Concat(p, q)) == Join(p) + "/" + Join(q)
  {
    if p.parts != [] && q.parts != [] && !q.absolute {
      var first, rest := q.parts[0], q.parts[1..];
      assert Plain(p.parts[0]) && Plain(first);
      JoinLong(p);
      JoinOntoConcat(p.absolute, if p.absolute then [SEPARATOR] else [], p.parts, q.parts);
      JoinOntoShift(p.absolute, Join(p) + "/", first, rest);
      assert Join(q) == JoinOnto(false, first, rest) by {
        assert [] + [] + first == first;
      }
    }
  }

  // ----- the root directory -----

  predicate StartsWith(p: Path, o: Path) {
    p.absolute == o.absolute && o.parts <= p.parts
  }

  /** A path starts with another when it is the other one with more parts, or none. */
  lemma {:induction false} StartsWithMeaning(p: Path, o: Path)
    ensures StartsWith(p, o) <==> exists more: seq<string> :: p == Path(o.absolute, o.parts + more)
  {
    if StartsWith(p, o) {
      assert p == Path(o.absolute, o.parts + p.parts[|o.parts|..]);
    }
  }

  method ComputeStartsWith(p: Path, o: Path) returns (b: bool)
    ensures b == StartsWith(p, o)
  {
    if |p.parts| < |o.parts| || p.absolute != o.absolute {
      return false;
    }
    for i := 0 to |o.parts|
      invariant o.parts[..i] == p.parts[..i]
    {
      if o.parts[i] != p.parts[i] {
        return false;
      }
    }
    assert o.parts == o.parts[..|o.parts|];
    return true;
  }

  function PrependRoot(root: Path, p: Path): Path {
    if p.absolute then p else Concat(root, p)
  }

  function RemoveRoot(root: Path, p: Path): Path {
    if StartsWith(p, root) then RemoveParts(p, 0, |root.parts|) else p
  }

  /** Removing the root undoes prepending it unless the path is itself an absolute path under it. */
  lemma {:induction false} RemoveRootPrependRoot(root: Path, p: Path)
    ensures RemoveRoot(root, PrependRoot(root, p)) == p <==> !(p.absolute && StartsWith(p, root))
  {
    if !p.absolute {
      assert (root.parts + p.parts)[|root.parts|..] == p.parts;
    }
  }

  /** The other way round, for a path under a root that has parts. */
  lemma {:induction false} PrependRootRemoveRoot(root: Path, p: Path)
    requires root.parts != [] && StartsWith(p, root)
    ensures PrependRoot(root, RemoveRoot(root, p)) == p
  {
    assert root.parts + p.parts[|root.parts|..] == p.parts;
  }

  /** The root does not make two relative paths meet on disk. */
  lemma {:induction false} PrependRootInjective(root: Path, p: Path, q: Path)
    requires !p.absolute && !q.absolute
    ensures PrependRoot(root, p) == PrependRoot(root, q) <==> p == q
  {
    RemoveRootPrependRoot(root, p);
    RemoveRootPrependRoot(root, q);
  }

  // ----- temporary files -----

  /** `TempPath`: the target with `.part` after its last part. */
  function TempOf(p: Path): Path
    requires p.parts != []
  {
    var last := |p.parts| - 1;
    p.(parts := p.parts[last := p.parts[last] + ".part"])
  }

  lemma {:induction false} JoinOntoLast(absolute: bool, text: string, parts: seq<string>)
    requires parts != []
    ensures JoinOnto(absolute, text, parts[|parts| - 1 := parts[|parts| - 1] + ".part"])
         == JoinOnto(absolute, text, parts) + ".part"
    decreases |parts|
  {
    var sep := SeparatorAfter(absolute, text);
    var longer := parts[|parts| - 1 := parts[|parts| - 1] + ".part"];
    if |parts| == 1 {
      assert text + sep + longer[0] == text + sep + parts[0] + ".part";
    } else {
      assert longer[1..] == parts[1..][|parts| - 2 := parts[1..][|parts| - 2] + ".part"];
      JoinOntoLast(absolute, text + sep + parts[0], parts[1..]);
    }
  }

  /** The text of the temporary file is the text of its target followed by `.part`. */
  lemma {:induction false} TempText(p: Path)
    requires p.parts != []
    ensures Join(TempOf(p)) == Join(p) + ".part"
  {
    JoinOntoLast(p.absolute, if p.absolute then [SEPARATOR] else [], p.parts);
  }
}
