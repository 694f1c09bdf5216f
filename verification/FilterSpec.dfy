/**
 * What the search filter of src/filter.cpp builds and computes, on values: trees, the row test, the
 * builder as a stack of open groups, and the one-pass tokenizer. Synonym expansion is off.
 */
module FilterSpec {
  import opened Basics

  datatype Flags = Flags(start: bool, end: bool, literal: bool, negate: bool, word: bool)

  const NO_FLAGS := Flags(false, false, false, false, false)

  datatype GroupType = MatchAll | MatchAny

  datatype Tree =
    | Token(text: string, flags: Flags)
    | Group(ty: GroupType, flags: Flags, nodes: seq<Tree>)

  // ----- matching -----

  function Lower(c: char): char {
    if 'A' <= c <= 'Z' then c - 'A' + 'a' else c
  }

  function LowerAll(s: string): string {
    seq(|s|, i requires 0 <= i < |s| => Lower(s[i]))
  }

  /** Lower-casing leaves no capital, and makes exactly the characters equal that differ in nothing but case. */
  lemma {:induction false} LowerAlike(a: char, b: char)
    ensures !('A' <= Lower(a) <= 'Z') && Alike(Lower(a), a)
    ensures Lower(a) == Lower(b) <==> Alike(a, b)
  {
  }

  predicate IsAlnum(c: char) {
    'a' <= c <= 'z' || 'A' <= c <= 'Z' || '0' <= c <= '9'
  }

  predicate OccursAt(row: string, text: string, i: int) {
    0 <= i && i + |text| <= |row| && row[i..i + |text|] == text
  }

  /** `find`: the first occurrence from an index on, or -1. */
  function FindFrom(row: string, text: string, from: nat): (pos: int)
    ensures pos == -1 || (from <= pos && OccursAt(row, text, pos))
    ensures forall i :: from <= i && (pos == -1 || i < pos) ==> !OccursAt(row, text, i)
    decreases |row| - from
  {
    if from + |text| > |row| then -1
    else if OccursAt(row, text, from) then from
    else if from >= |row| then -1
    else FindFrom(row, text, from + 1)
  }

  /** `Token::matchRow`: only the first occurrence counts. */
  predicate MatchRow(text: string, flags: Flags, row: string) {
    var pos := FindFrom(row, text, 0);
    && pos != -1
    && (flags.start ==> pos == 0)
    && (flags.end ==> pos + |text| == |row|)
    && (flags.word ==>
        && (pos == 0 || !IsAlnum(row[pos - 1]))
        && (pos + |text| == |row| || !IsAlnum(row[pos + |text|])))
  }

  predicate MatchToken(text: string, flags: Flags, rows: seq<string>) {
    if flags.negate then rows != [] && forall row <- rows :: !MatchRow(text, flags, row)
    else exists row <- rows :: MatchRow(text, flags, row)
  }

  predicate Match(t: Tree, rows: seq<string>)
    decreases t
  {
    match t
    case Token(text, flags) => MatchToken(text, flags, rows)
    case Group(MatchAll, flags, nodes) => (forall n <- nodes :: Match(n, rows)) != flags.negate
    case Group(MatchAny, _, nodes) => exists n <- nodes :: Match(n, rows)
  }

  // ----- the builder -----

  /** A group still open, with the nodes it has so far. */
  datatype Frame = Frame(ty: GroupType, flags: Flags, nodes: seq<Tree>)

  /** The open groups, the root first and the current group last. */
  type Stack = s: seq<Frame> | s != [] witness [Frame(MatchAll, NO_FLAGS, [])]

  function Top(z: Stack): Frame {
    z[|z| - 1]
  }

  function Add(z: Stack, t: Tree): Stack {
    z[|z| - 1 := Top(z).(nodes := Top(z).nodes + [t])]
  }

  function TreeOf(f: Frame): Tree {
    Group(f.ty, f.flags, f.nodes)
  }

  /** Leaving the current group for its parent. */
  function Close(z: Stack): Stack
    requires |z| > 1
  {
    Add(z[..|z| - 1], TreeOf(Top(z)))
  }

  function CloseAll(z: Stack): Tree
    decreases |z|
  {
    if |z| == 1 then TreeOf(z[0]) else CloseAll(Close(z))
  }

  /** After a token: out of OR groups, up to the nearest AND group. */
  function Rewind(z: Stack): Stack
    decreases |z|
  {
    if Top(z).ty.MatchAny? && |z| > 1 then Rewind(Close(z)) else z
  }

  /** How many groups stay open when `)` closes the innermost AND group below another one. */
  function Enclosing(z: seq<Frame>): (n: nat)
    ensures n < |z| || (z == [] && n == 0)
    ensures n > 0 ==> z[n - 1].ty.MatchAll?
  {
    if |z| <= 1 then 0
    else if z[|z| - 2].ty.MatchAll? then |z| - 1
    else Enclosing(z[..|z| - 1])
  }

  function CloseTo(z: Stack, n: nat): Stack
    requires 1 <= n <= |z|
    decreases |z|
  {
    if |z| == n then z else CloseTo(Close(z), n)
  }

  datatype Parser = Parser(stack: Stack, flags: Flags)

  /** `Group::push` on the current group. */
  function Push(p: Parser, buf: string): Parser {
    var z, top := p.stack, Top(p.stack);
    if buf == [] then p
    else if !p.flags.literal && buf == "NOT" then
      p.(flags := p.flags.(negate := !p.flags.negate))
    else if !p.flags.literal && buf == "OR" then
      if top.nodes == [] then p
      else
        var last := top.nodes[|top.nodes| - 1];
        var before := z[|z| - 1 := top.(nodes := top.nodes[..|top.nodes| - 1])];
        p.(stack := before + [if last.Group? && last.ty.MatchAny? then Frame(MatchAny, last.flags, last.nodes)
                              else Frame(MatchAny, NO_FLAGS, [last])])
    else if !p.flags.literal && buf == "(" then
      Parser(z + [Frame(MatchAll, p.flags, [])], NO_FLAGS)
    else if !p.flags.literal && buf == ")" then
      var n := Enclosing(z);
      if n == 0 then p else p.(stack := CloseTo(z, n))
    else
      Parser(Rewind(Add(z, Token(LowerAll(buf), p.flags))), NO_FLAGS)
  }

  // ----- the tokenizer -----

  const NO_QUOTE := '\0'

  datatype Lexer = Lexer(parser: Parser, buf: string, quote: char)

  const START := Lexer(Parser([Frame(MatchAll, NO_FLAGS, [])], NO_FLAGS), [], NO_QUOTE)

  predicate IsQuote(c: char) {
    c == '"' || c == '\''
  }

  function SetFlags(l: Lexer, flags: Flags): Lexer {
    l.(parser := l.parser.(flags := flags))
  }

  function Flush(l: Lexer): Lexer {
    Lexer(Push(l.parser, l.buf), [], l.quote)
  }

  function Extend(l: Lexer, c: char): Lexer {
    l.(buf := l.buf + [c])
  }

  /** One character of the input; `isEnd` says that a space or the end of the input follows. */
  function Read(l: Lexer, c: char, isEnd: bool): Lexer {
    var flags := l.parser.flags;
    if IsQuote(c) && ((l.quote == NO_QUOTE && l.buf == []) || l.quote == c) then
      if l.quote != NO_QUOTE then l.(quote := NO_QUOTE)
      else SetFlags(l.(quote := c), flags.(literal := true, word := true))
    else if c == ' ' then
      if l.quote != NO_QUOTE then Extend(SetFlags(l, flags.(word := false)), c)
      else Flush(l)
    else if l.quote != NO_QUOTE then Extend(l, c)
    else if c == '^' && l.buf == [] then SetFlags(l, flags.(start := true))
    else if c == '$' && isEnd then SetFlags(l, flags.(end := true))
    else if flags.literal then Extend(Flush(l), c)
    else Extend(l, c)
  }

  predicate IsEnd(rest: string)
    requires rest != []
  {
    |rest| == 1 || rest[1] == ' '
  }

  function Scan(l: Lexer, rest: string): Lexer
    decreases |rest|
  {
    if rest == [] then l else Scan(Read(l, rest[0], IsEnd(rest)), rest[1..])
  }

  /** The tree `Filter::set` builds for an input. */
  function SetTree(input: string): Tree {
    CloseAll(Flush(Scan(START, input)).parser.stack)
  }

  /** `Filter::match`: rows are compared in lower case. */
  predicate FilterMatch(t: Tree, rows: seq<string>) {
    Match(t, seq(|rows|, i requires 0 <= i < |rows| => LowerAll(rows[i])))
  }

  // ----- what a row test means -----

  predicate FirstAt(row: string, text: string, i: int) {
    OccursAt(row, text, i) && forall j :: 0 <= j < i ==> !OccursAt(row, text, j)
  }

  /** No letter or digit touches the text at this place. */
  predicate StandsFree(row: string, text: string, i: int) {
    && OccursAt(row, text, i)
    && (i == 0 || !IsAlnum(row[i - 1]))
    && (i + |text| == |row| || !IsAlnum(row[i + |text|]))
  }

  /** For any text and flags: the first occurrence has to be where the anchors say and stand free for a whole word. */
  lemma {:induction false} MatchRowIs(text: string, flags: Flags, row: string)
    ensures MatchRow(text, flags, row) <==>
      exists i :: FirstAt(row, text, i)
        && (flags.start ==> i == 0) && (flags.end ==> i + |text| == |row|)
        && (flags.word ==> StandsFree(row, text, i))
  {
    var pos := FindFrom(row, text, 0);
    if pos == -1 {
      assert forall i :: OccursAt(row, text, i) ==> 0 <= i;
    } else {
      assert FirstAt(row, text, pos);
      forall i | FirstAt(row, text, i)
        ensures i == pos
      {
        assert OccursAt(row, text, i) && OccursAt(row, text, pos);
      }
    }
  }

  /** A plain word is found anywhere, an anchored one only at its place, and there in its first place. */
  lemma {:induction false} MatchRowMeaning(text: string, flags: Flags, row: string)
    requires !flags.word
    ensures !flags.start && !flags.end ==>
      (MatchRow(text, flags, row) <==> exists i :: OccursAt(row, text, i))
    ensures flags.start && !flags.end ==> (MatchRow(text, flags, row) <==> text <= row)
    ensures flags.start && flags.end ==> (MatchRow(text, flags, row) <==> text == row)
    ensures !flags.start && flags.end ==> (MatchRow(text, flags, row) <==> FirstAt(row, text, |row| - |text|))
  {
    var pos := FindFrom(row, text, 0);
    assert pos != -1 ==> OccursAt(row, text, pos);
    if text <= row {
      assert OccursAt(row, text, 0);
    }
    if OccursAt(row, text, 0) {
      assert pos == 0;
      assert row[..|text|] == text;
    }
    assert forall i :: OccursAt(row, text, i) ==> i <= |row| - |text|;
  }

  /**
   * A whole word matches exactly when its first occurrence stands free of letters and digits, which
   * the anchors leave to one side, or to none.
   */
  lemma {:induction false} WholeWordMeaning(text: string, flags: Flags, row: string)
    requires flags.word
    ensures !flags.start && !flags.end ==>
      (MatchRow(text, flags, row) <==> exists i :: StandsFree(row, text, i) && FirstAt(row, text, i))
    ensures flags.start && !flags.end ==>
      (MatchRow(text, flags, row) <==> text <= row && (|text| == |row| || !IsAlnum(row[|text|])))
    ensures flags.start && flags.end ==> (MatchRow(text, flags, row) <==> text == row)
    ensures !flags.start && flags.end ==>
      (MatchRow(text, flags, row) <==>
        FirstAt(row, text, |row| - |text|) && (|text| == |row| || !IsAlnum(row[|row| - |text| - 1])))
  {
    MatchRowIs(text, flags, row);
    MatchRowMeaning(text, flags.(word := false), row);
  }

  /** A later occurrence that stands free does not help when the first one does not. */
  lemma {:induction false} LaterWordMissed()
    ensures StandsFree("ba a", "a", 3)
    ensures !MatchRow("a", NO_FLAGS.(literal := true, word := true), "ba a")
  {
    assert "ba a"[3..4] == "a";
    assert "ba a"[1..2] == "a" && "ba a"[0..1] == "b";
    assert OccursAt("ba a", "a", 1) && !OccursAt("ba a", "a", 0);
    assert FindFrom("ba a", "a", 0) == 1;
  }

  /** Only the first occurrence is looked at: a later one at the end of the row does not count. */
  lemma {:induction false} LaterOccurrenceMissed()
    ensures OccursAt("aba", "a", 2)
    ensures !MatchRow("a", NO_FLAGS.(end := true), "aba")
  {
    assert OccursAt("aba", "a", 0);
    assert FindFrom("aba", "a", 0) == 0;
    assert "aba"[2..3] == "a";
  }

  // ----- the shape of every tree -----

  /** No OR group below carries flags. */
  ghost predicate Flagless(t: Tree)
    decreases t
  {
    match t
    case Token(_, _) => true
    case Group(ty, flags, nodes) => (ty.MatchAny? ==> flags == NO_FLAGS) && forall n <- nodes :: Flagless(n)
  }

  ghost predicate StackOk(z: Stack) {
    && z[0].ty.MatchAll? && z[0].flags == NO_FLAGS
    && forall i :: 0 <= i < |z| ==> Flagless(TreeOf(z[i]))
  }

  lemma {:induction false} AddOk(z: Stack, t: Tree)
    requires StackOk(z) && Flagless(t)
    ensures StackOk(Add(z, t))
  {
    assert Flagless(TreeOf(Top(z)));
  }

  lemma {:induction false} CloseOk(z: Stack)
    requires StackOk(z) && |z| > 1
    ensures StackOk(Close(z))
  {
    AddOk(z[..|z| - 1], TreeOf(Top(z)));
  }

  lemma {:induction false} RewindOk(z: Stack)
    requires StackOk(z)
    ensures StackOk(Rewind(z)) && Top(Rewind(z)).ty.MatchAll?
    decreases |z|
  {
    if Top(z).ty.MatchAny? && |z| > 1 {
      CloseOk(z);
      RewindOk(Close(z));
    }
  }

  lemma {:induction false} CloseToOk(z: Stack, n: nat)
    requires StackOk(z) && 1 <= n <= |z|
    ensures StackOk(CloseTo(z, n))
    decreases |z|
  {
    if |z| > n {
      CloseOk(z);
      CloseToOk(Close(z), n);
    }
  }

  lemma {:induction false} PushOk(p: Parser, buf: string)
    requires StackOk(p.stack)
    ensures StackOk(Push(p, buf).stack)
  {
    var z, top := p.stack, Top(p.stack);
    assert Flagless(TreeOf(top));
    if buf == [] || (!p.flags.literal && buf == "NOT") {
    } else if !p.flags.literal && buf == "OR" {
      if top.nodes != [] {
        assert Flagless(top.nodes[|top.nodes| - 1]);
      }
    } else if !p.flags.literal && buf == "(" {
    } else if !p.flags.literal && buf == ")" {
      if Enclosing(z) > 0 {
        CloseToOk(z, Enclosing(z));
      }
    } else {
      AddOk(z, Token(LowerAll(buf), p.flags));
      RewindOk(Add(z, Token(LowerAll(buf), p.flags)));
    }
  }

  lemma {:induction false} ScanOk(l: Lexer, rest: string)
    requires StackOk(l.parser.stack)
    ensures StackOk(Scan(l, rest).parser.stack)
    decreases |rest|
  {
    if rest != [] {
      PushOk(l.parser, l.buf);
      assert StackOk(Read(l, rest[0], IsEnd(rest)).parser.stack);
      ScanOk(Read(l, rest[0], IsEnd(rest)), rest[1..]);
    }
  }

  lemma {:induction false} CloseAllOk(z: Stack)
    requires StackOk(z)
    ensures Flagless(CloseAll(z)) && CloseAll(z).Group? && CloseAll(z).ty.MatchAll? && CloseAll(z).flags == NO_FLAGS
    decreases |z|
  {
    if |z| > 1 {
      CloseOk(z);
      CloseAllOk(Close(z));
    }
  }

  /** For every input whatever: the root is a plain AND group, and no OR group in the tree has flags. */
  lemma {:induction false} SetTreeShape(input: string)
    ensures var t := SetTree(input);
      t.Group? && t.ty.MatchAll? && t.flags == NO_FLAGS && Flagless(t)
  {
    ScanOk(START, input);
    var l := Scan(START, input);
    PushOk(l.parser, l.buf);
    CloseAllOk(Flush(l).parser.stack);
  }
}
