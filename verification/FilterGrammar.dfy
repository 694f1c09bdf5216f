/**
 * The query language the filter is meant to understand, and the proof that printing an expression
 * and running the filter on the text computes the expression.
 */
module FilterGrammar {
  import opened Basics
  import opened FilterSpec

  // ----- expressions -----

  /** A word or a quoted phrase, each with optional anchors. */
  datatype Lexeme =
    | Word(text: string, start: bool, end: bool)
    | Phrase(mark: char, text: string, start: bool, end: bool)

  datatype Atom = Leaf(nots: nat, lexeme: Lexeme) | Paren(nots: nat, inner: Expr)

  datatype Clause = One(atom: Atom) | Or(atom: Atom, more: Clause)

  /** The clauses side by side, all of which must hold. */
  datatype Expr = Empty | And(clause: Clause, rest: Expr)

  // ----- meaning -----

  predicate Odd(n: nat) {
    n % 2 == 1
  }

  predicate HasSpace(s: string) {
    ' ' in s
  }

  /** The text stands at this place of the row, whatever the case of its letters. */
  ghost predicate AlikeAt(row: string, text: string, i: int) {
    0 <= i && i + |text| <= |row| && forall k :: 0 <= k < |text| ==> Alike(row[i + k], text[k])
  }

  ghost predicate FirstAlike(row: string, text: string, i: int) {
    AlikeAt(row, text, i) && forall j :: 0 <= j < i ==> !AlikeAt(row, text, j)
  }

  ghost predicate LetterOrDigit(c: char) {
    c in CAPITALS || c in SMALL || c in DIGITS
  }

  /** No letter or digit touches the first `n` characters from this place on. */
  ghost predicate Free(row: string, i: nat, n: nat)
    requires i + n <= |row|
  {
    && (i == 0 || !LetterOrDigit(row[i - 1]))
    && (i + n == |row| || !LetterOrDigit(row[i + n]))
  }

  /**
   * The first place of the text in the row, up to case, is where the anchors want it, and for a phrase
   * of one word no letter or digit touches it there.
   */
  ghost predicate Found(l: Lexeme, row: string) {
    exists i :: FirstAlike(row, l.text, i)
      && (l.start ==> i == 0) && (l.end ==> i + |l.text| == |row|)
      && (l.Phrase? && !HasSpace(l.text) ==> Free(row, i, |l.text|))
  }

  ghost predicate Holds(l: Lexeme, rows: seq<string>) {
    exists row <- rows :: Found(l, row)
  }

  ghost predicate EvalAtom(a: Atom, rows: seq<string>)
    decreases a
  {
    match a
    case Leaf(nots, lexeme) => Holds(lexeme, rows) != Odd(nots)
    case Paren(nots, inner) => Eval(inner, rows) != Odd(nots)
  }

  ghost predicate EvalClause(c: Clause, rows: seq<string>)
    decreases c
  {
    match c
    case One(a) => EvalAtom(a, rows)
    case Or(a, more) => EvalAtom(a, rows) || EvalClause(more, rows)
  }

  ghost predicate Eval(e: Expr, rows: seq<string>)
    decreases e
  {
    match e
    case Empty => true
    case And(c, rest) => EvalClause(c, rows) && Eval(rest, rows)
  }

  // ----- printing -----

  function LexemeFlags(l: Lexeme): Flags {
    match l
    case Word(_, start, end) => Flags(start, end, false, false, false)
    case Phrase(_, text, start, end) => Flags(start, end, true, false, !HasSpace(text))
  }

  datatype Item = Op(name: string) | Lex(lexeme: Lexeme)

  predicate Keyword(s: string) {
    s == "NOT" || s == "OR" || s == "(" || s == ")"
  }

  predicate NoSpace(s: string) {
    forall i :: 0 <= i < |s| ==> s[i] != ' '
  }

  /** Texts a user can write for a lexeme: no keyword, no stray quote or anchor at the edges. */
  predicate Writable(l: Lexeme) {
    match l
    case Word(text, start, end) =>
      && text != [] && NoSpace(text) && !Keyword(text)
      && text[0] != '"' && text[0] != '\'' && text[0] != '^'
      && (text[|text| - 1] == '$' ==> end)
    case Phrase(mark, text, _, _) =>
      && (mark == '"' || mark == '\'') && text != [] && forall i :: 0 <= i < |text| ==> text[i] != mark
  }

  predicate WritableAtom(a: Atom)
    decreases a
  {
    match a
    case Leaf(_, lexeme) => Writable(lexeme)
    case Paren(_, inner) => WritableExpr(inner)
  }

  predicate WritableClause(c: Clause)
    decreases c
  {
    match c
    case One(a) => WritableAtom(a)
    case Or(a, more) => WritableAtom(a) && WritableClause(more)
  }

  predicate WritableExpr(e: Expr)
    decreases e
  {
    match e
    case Empty => true
    case And(c, rest) => WritableClause(c) && WritableExpr(rest)
  }

  function Anchor(on: bool, c: char): string {
    if on then [c] else []
  }

  function Text(i: Item): string {
    match i
    case Op(name) => name
    case Lex(Word(text, start, end)) => Anchor(start, '^') + text + Anchor(end, '$')
    case Lex(Phrase(mark, text, start, end)) => Anchor(start, '^') + [mark] + text + [mark] + Anchor(end, '$')
  }

  function Nots(n: nat): seq<Item> {
    if n == 0 then [] else [Op("NOT")] + Nots(n - 1)
  }

  function AtomItems(a: Atom): seq<Item>
    decreases a
  {
    match a
    case Leaf(nots, lexeme) => Nots(nots) + [Lex(lexeme)]
    case Paren(nots, inner) => Nots(nots) + ([Op("(")] + (Items(inner) + [Op(")")]))
  }

  function ClauseItems(c: Clause): seq<Item>
    decreases c
  {
    match c
    case One(a) => AtomItems(a)
    case Or(a, more) => AtomItems(a) + ([Op("OR")] + ClauseItems(more))
  }

  function Items(e: Expr): seq<Item>
    decreases e
  {
    match e
    case Empty => []
    case And(c, rest) => ClauseItems(c) + Items(rest)
  }

  function Spaced(items: seq<Item>): string
    decreases |items|
  {
    if items == [] then []
    else if |items| == 1 then Text(items[0])
    else Text(items[0]) + ([' '] + Spaced(items[1..]))
  }

  function Print(e: Expr): string {
    Spaced(Items(e))
  }

  // ----- reading the text back: characters to items -----

  /** Where an item may end: at the end of the input or before a space. */
  predicate Boundary(k: string) {
    k == [] || k[0] == ' '
  }

  lemma {:induction false} ScanCons(l: Lexer, c: char, k: string)
    ensures Scan(l, [c] + k) == Scan(Read(l, c, k == [] || k[0] == ' '), k)
  {
    assert ([c] + k)[1..] == k;
  }

  /** Outside quotes, characters that are no space join the word begun before them. */
  lemma {:induction false} ScanWord(l: Lexer, w: string, k: string)
    requires l.quote == NO_QUOTE && l.buf != [] && !l.parser.flags.literal
    requires NoSpace(w)
    requires w != [] && w[|w| - 1] == '$' ==> !Boundary(k)
    ensures Scan(l, w + k) == Scan(l.(buf := l.buf + w), k)
    decreases |w|
  {
    if w == [] {
      assert w + k == k && l.buf + w == l.buf;
    } else {
      var rest := w[1..];
      assert w + k == [w[0]] + (rest + k);
      ScanCons(l, w[0], rest + k);
      assert rest != [] ==> (rest + k)[0] == w[1];
      assert rest == [] ==> rest + k == k;
      var next := l.(buf := l.buf + [w[0]]);
      assert Read(l, w[0], rest + k == [] || (rest + k)[0] == ' ') == next;
      ScanWord(next, rest, k);
      assert next.buf + rest == l.buf + w;
    }
  }

  function Quoting(l: Lexer, w: string): Lexer {
    SetFlags(l.(buf := l.buf + w), l.parser.flags.(word := l.parser.flags.word && !HasSpace(w)))
  }

  lemma {:induction false} ReadQuoted(l: Lexer, c: char, isEnd: bool)
    requires IsQuote(l.quote) && c != l.quote
    ensures Read(l, c, isEnd) == Quoting(l, [c])
  {
  }

  lemma {:induction false} QuotingTwice(l: Lexer, c: char, w: string)
    ensures Quoting(Quoting(l, [c]), w) == Quoting(l, [c] + w)
  {
    assert l.buf + [c] + w == l.buf + ([c] + w);
  }

  /** Inside quotes everything but the closing quote joins the phrase; a space drops whole-word matching. */
  lemma {:induction false} ScanQuoted(l: Lexer, w: string, k: string)
    requires IsQuote(l.quote)
    requires forall i :: 0 <= i < |w| ==> w[i] != l.quote
    ensures Scan(l, w + k) == Scan(Quoting(l, w), k)
    decreases |w|
  {
    if w == [] {
      assert w + k == k && l.buf + w == l.buf;
    } else {
      var rest := w[1..];
      assert w + k == [w[0]] + (rest + k);
      ScanCons(l, w[0], rest + k);
      ReadQuoted(l, w[0], rest + k == [] || (rest + k)[0] == ' ');
      ScanQuoted(Quoting(l, [w[0]]), rest, k);
      QuotingTwice(l, w[0], rest);
      assert [w[0]] + rest == w;
    }
  }

  function BufOf(i: Item): string {
    match i
    case Op(name) => name
    case Lex(lexeme) => lexeme.text
  }

  /** The flags an item adds to those carried over from NOT. */
  function FlagsWith(i: Item, flags: Flags): Flags {
    match i
    case Op(_) => flags
    case Lex(lexeme) => LexemeFlags(lexeme).(negate := flags.negate)
  }

  predicate Readable(i: Item) {
    match i
    case Op(name) => Keyword(name)
    case Lex(lexeme) => Writable(lexeme)
  }

  /** Between items only NOT can be pending. */
  predicate OnlyNot(flags: Flags) {
    flags == NO_FLAGS || flags == NO_FLAGS.(negate := true)
  }

  function Fresh(p: Parser): Lexer {
    Lexer(p, [], NO_QUOTE)
  }

  lemma {:induction false} ScanStartAnchor(p: Parser, on: bool, k: string)
    requires OnlyNot(p.flags)
    ensures Scan(Fresh(p), Anchor(on, '^') + k) == Scan(Fresh(p.(flags := p.flags.(start := on))), k)
  {
    if on {
      ScanCons(Fresh(p), '^', k);
    } else {
      assert Anchor(on, '^') + k == k;
      assert p.(flags := p.flags.(start := on)) == p;
    }
  }

  lemma {:induction false} ScanEndAnchor(l: Lexer, on: bool, k: string)
    requires l.quote == NO_QUOTE && Boundary(k) && !l.parser.flags.end
    ensures Scan(l, Anchor(on, '$') + k) == Scan(SetFlags(l, l.parser.flags.(end := on)), k)
  {
    if on {
      ScanCons(l, '$', k);
    } else {
      assert Anchor(on, '$') + k == k;
      assert SetFlags(l, l.parser.flags.(end := on)) == l;
    }
  }

  /** A word starts with a character that is neither a space, a quote nor an anchor. */
  lemma {:induction false} ScanFirst(p: Parser, w: string, k: string)
    requires !p.flags.literal
    requires w != [] && NoSpace(w) && !IsQuote(w[0]) && w[0] != '^'
    requires w[|w| - 1] == '$' ==> !Boundary(k)
    ensures Scan(Fresh(p), w + k) == Scan(Lexer(p, w, NO_QUOTE), k)
  {
    var rest := w[1..];
    assert w + k == [w[0]] + (rest + k);
    ScanCons(Fresh(p), w[0], rest + k);
    assert rest != [] ==> (rest + k)[0] == w[1];
    assert rest == [] ==> rest + k == k;
    assert Read(Fresh(p), w[0], rest + k == [] || (rest + k)[0] == ' ') == Lexer(p, [w[0]], NO_QUOTE) by {
      assert [] + [w[0]] == [w[0]];
      assert w[0] != ' ';
    }
    ScanWord(Lexer(p, [w[0]], NO_QUOTE), rest, k);
    assert [w[0]] + rest == w;
  }

  lemma {:induction false} ScanWordItem(p: Parser, text: string, start: bool, end: bool, k: string)
    requires OnlyNot(p.flags) && Writable(Word(text, start, end)) && Boundary(k)
    ensures Scan(Fresh(p), Text(Lex(Word(text, start, end))) + k)
         == Scan(Lexer(p.(flags := Flags(start, end, false, p.flags.negate, false)), text, NO_QUOTE), k)
  {
    var tail := Anchor(end, '$') + k;
    assert Anchor(start, '^') + text + Anchor(end, '$') + k == Anchor(start, '^') + (text + tail);
    ScanStartAnchor(p, start, text + tail);
    var q := p.(flags := p.flags.(start := start));
    assert end ==> tail[0] == '$';
    ScanFirst(q, text, tail);
    ScanEndAnchor(Lexer(q, text, NO_QUOTE), end, k);
  }

  /** From the opening quote to past the closing one. */
  lemma {:induction false} ScanQuotes(p: Parser, mark: char, text: string, tail: string)
    requires !p.flags.literal && IsQuote(mark) && forall i :: 0 <= i < |text| ==> text[i] != mark
    ensures Scan(Fresh(p), [mark] + (text + ([mark] + tail)))
         == Scan(Lexer(p.(flags := p.flags.(literal := true, word := !HasSpace(text))), text, NO_QUOTE), tail)
  {
    ScanCons(Fresh(p), mark, text + ([mark] + tail));
    var inside := Lexer(p.(flags := p.flags.(literal := true, word := true)), [], mark);
    ScanQuoted(inside, text, [mark] + tail);
    assert [] + text == text;
    ScanCons(Lexer(p.(flags := p.flags.(literal := true, word := !HasSpace(text))), text, mark), mark, tail);
  }

  lemma {:induction false} ScanPhraseItem(p: Parser, mark: char, text: string, start: bool, end: bool, k: string)
    requires OnlyNot(p.flags) && Writable(Phrase(mark, text, start, end)) && Boundary(k)
    ensures Scan(Fresh(p), Text(Lex(Phrase(mark, text, start, end))) + k)
         == Scan(Lexer(p.(flags := Flags(start, end, true, p.flags.negate, !HasSpace(text))), text, NO_QUOTE), k)
  {
    var tail := Anchor(end, '$') + k;
    PhraseText(mark, text, start, end, k);
    ScanStartAnchor(p, start, [mark] + (text + ([mark] + tail)));
    var q := p.(flags := p.flags.(start := start));
    ScanQuotes(q, mark, text, tail);
    ScanEndAnchor(Lexer(q.(flags := q.flags.(literal := true, word := !HasSpace(text))), text, NO_QUOTE), end, k);
  }

  lemma {:induction false} PhraseText(mark: char, text: string, start: bool, end: bool, k: string)
    ensures Text(Lex(Phrase(mark, text, start, end))) + k
         == Anchor(start, '^') + ([mark] + (text + ([mark] + (Anchor(end, '$') + k))))
  {
  }

  /** Scanning an item leaves its text in the buffer and its flags set. */
  lemma {:induction false} ScanItem(p: Parser, i: Item, k: string)
    requires OnlyNot(p.flags) && Readable(i) && Boundary(k)
    ensures Scan(Fresh(p), Text(i) + k) == Scan(Lexer(p.(flags := FlagsWith(i, p.flags)), BufOf(i), NO_QUOTE), k)
  {
    match i
    case Op(name) => ScanFirst(p, name, k);
    case Lex(Word(text, start, end)) => ScanWordItem(p, text, start, end, k);
    case Lex(Phrase(mark, text, start, end)) => ScanPhraseItem(p, mark, text, start, end, k);
  }

  // ----- items to the tree -----

  function PushItem(p: Parser, i: Item): Parser {
    Push(p.(flags := FlagsWith(i, p.flags)), BufOf(i))
  }

  function PushItems(p: Parser, items: seq<Item>): Parser
    decreases |items|
  {
    if items == [] then p else PushItems(PushItem(p, items[0]), items[1..])
  }

  lemma {:induction false} PushItemOnlyNot(p: Parser, i: Item)
    requires OnlyNot(p.flags) && Readable(i)
    ensures OnlyNot(PushItem(p, i).flags)
  {
  }

  /** Scanning the printed items and flushing pushes the items one after the other. */
  lemma {:induction false} ScanItems(p: Parser, items: seq<Item>)
    requires OnlyNot(p.flags) && forall i <- items :: Readable(i)
    ensures Flush(Scan(Fresh(p), Spaced(items))).parser == PushItems(p, items)
    decreases |items|
  {
    if items != [] {
      var i, rest := items[0], items[1..];
      PushItemOnlyNot(p, i);
      if rest == [] {
        assert Spaced(items) == Text(i) + [];
        ScanItem(p, i, []);
        assert PushItems(p, items) == PushItem(p, i);
      } else {
        ScanItem(p, i, [' '] + Spaced(rest));
        var full := Lexer(p.(flags := FlagsWith(i, p.flags)), BufOf(i), NO_QUOTE);
        ScanCons(full, ' ', Spaced(rest));
        assert Flush(full) == Fresh(PushItem(p, i));
        ScanItems(PushItem(p, i), rest);
      }
    }
  }

  lemma {:induction false} PushItemsConcat(p: Parser, a: seq<Item>, b: seq<Item>)
    ensures PushItems(p, a + b) == PushItems(PushItems(p, a), b)
    decreases |a|
  {
    if a == [] {
      assert a + b == b;
    } else {
      assert (a + b)[1..] == a[1..] + b;
      PushItemsConcat(PushItem(p, a[0]), a[1..], b);
    }
  }

  lemma {:induction false} PushItemsOne(p: Parser, i: Item)
    ensures PushItems(p, [i]) == PushItem(p, i)
  {
    assert [i][1..] == [];
  }

  /** A word right behind the closing quote of a phrase is read as if a space were between them. */
  lemma {:induction false} PhraseEnds(mark: char, text: string, k: string)
    requires Writable(Phrase(mark, text, false, false)) && k != [] && k[0] !in " \"'^$"
    ensures SetTree([mark] + (text + ([mark] + k))) == SetTree([mark] + (text + ([mark] + ([' '] + k))))
  {
    var p := START.parser;
    ScanQuotes(p, mark, text, k);
    ScanQuotes(p, mark, text, [' '] + k);
    var full := Lexer(p.(flags := p.flags.(literal := true, word := !HasSpace(text))), text, NO_QUOTE);
    ScanCons(full, ' ', k);
    assert k == [k[0]] + k[1..];
    ScanCons(full, k[0], k[1..]);
    ScanCons(Flush(full), k[0], k[1..]);
    assert Flush(full).parser.flags == NO_FLAGS;
  }

  // ----- the trees expressions become -----

  function NotFlags(n: nat): Flags {
    NO_FLAGS.(negate := Odd(n))
  }

  function AtomTree(a: Atom): Tree
    decreases a, 0
  {
    match a
    case Leaf(nots, lexeme) => Token(LowerAll(lexeme.text), LexemeFlags(lexeme).(negate := Odd(nots)))
    case Paren(nots, inner) => Group(MatchAll, NotFlags(nots), Trees(inner))
  }

  function Alternatives(c: Clause): seq<Tree>
    decreases c, 0
  {
    match c
    case One(a) => [AtomTree(a)]
    case Or(a, more) => [AtomTree(a)] + Alternatives(more)
  }

  function ClauseTree(c: Clause): Tree
    decreases c, 1
  {
    match c
    case One(a) => AtomTree(a)
    case Or(_, _) => Group(MatchAny, NO_FLAGS, Alternatives(c))
  }

  function Trees(e: Expr): seq<Tree>
    decreases e, 0
  {
    match e
    case Empty => []
    case And(c, rest) => [ClauseTree(c)] + Trees(rest)
  }

  function AddAll(z: Stack, nodes: seq<Tree>): Stack {
    z[|z| - 1 := Top(z).(nodes := Top(z).nodes + nodes)]
  }

  lemma {:induction false} PushNots(z: Stack, flags: Flags, n: nat)
    requires OnlyNot(flags)
    ensures PushItems(Parser(z, flags), Nots(n)) == Parser(z, flags.(negate := flags.negate != Odd(n)))
    decreases n
  {
    if n > 0 {
      var next := flags.(negate := !flags.negate);
      assert PushItem(Parser(z, flags), Op("NOT")) == Parser(z, next);
      assert Nots(n)[1..] == Nots(n - 1);
      PushNots(z, next, n - 1);
    }
  }

  /** Below an AND group, an atom becomes one more node of it. */
  lemma {:induction false} PushAtom(z: Stack, a: Atom)
    requires Top(z).ty.MatchAll? && WritableAtom(a)
    ensures PushItems(Parser(z, NO_FLAGS), AtomItems(a)) == Parser(Add(z, AtomTree(a)), NO_FLAGS)
    decreases a
  {
    var p := Parser(z, NO_FLAGS);
    PushNots(z, NO_FLAGS, a.nots);
    match a
    case Leaf(nots, lexeme) =>
      PushItemsConcat(p, Nots(nots), [Lex(lexeme)]);
      PushItemsOne(Parser(z, NotFlags(nots)), Lex(lexeme));
    case Paren(nots, inner) =>
      PushItemsConcat(p, Nots(nots), [Op("(")] + (Items(inner) + [Op(")")]));
      PushParen(z, nots, inner);
      CloseParen(z, Frame(MatchAll, NotFlags(nots), Trees(inner)));
  }

  /** `)` in a group right below an AND group closes that group. */
  lemma {:induction false} CloseParen(z: Stack, f: Frame)
    requires Top(z).ty.MatchAll?
    ensures PushItem(Parser(z + [f], NO_FLAGS), Op(")")) == Parser(Add(z, TreeOf(f)), NO_FLAGS)
  {
    var full := z + [f];
    assert Enclosing(full) == |z|;
    assert CloseTo(full, |z|) == Close(full);
    assert full[..|z|] == z;
  }

  /** A token pushed inside an OR group ends up there, and the AND group around is current again. */
  lemma {:induction false} RewindAlternative(z: Stack, alts: seq<Tree>, t: Tree)
    requires Top(z).ty.MatchAll?
    ensures Rewind(Add(z + [Frame(MatchAny, NO_FLAGS, alts)], t)) == Add(z, Group(MatchAny, NO_FLAGS, alts + [t]))
  {
    var full := z + [Frame(MatchAny, NO_FLAGS, alts + [t])];
    assert Add(z + [Frame(MatchAny, NO_FLAGS, alts)], t) == full;
    assert full[..|z|] == z;
    assert Close(full) == Add(z, Group(MatchAny, NO_FLAGS, alts + [t]));
    assert Top(Close(full)).ty.MatchAll?;
  }

  /** A `)` inside an AND group inside an OR group closes both. */
  lemma {:induction false} CloseAlternative(z: Stack, alts: seq<Tree>, f: Frame)
    requires Top(z).ty.MatchAll?
    ensures var full: Stack := z + [Frame(MatchAny, NO_FLAGS, alts), f];
      Enclosing(full) == |z| && CloseTo(full, |z|) == Add(z, Group(MatchAny, NO_FLAGS, alts + [TreeOf(f)]))
  {
    var y: Stack := z + [Frame(MatchAny, NO_FLAGS, alts)];
    var full: Stack := z + [Frame(MatchAny, NO_FLAGS, alts), f];
    assert full[..|full| - 1] == y;
    assert Enclosing(full) == Enclosing(y) == |z|;
    var closed: Stack := z + [Frame(MatchAny, NO_FLAGS, alts + [TreeOf(f)])];
    assert Close(full) == closed;
    assert closed[..|z|] == z;
    assert CloseTo(closed, |z|) == Close(closed);
  }

  /** Inside an OR group, an atom joins the alternatives, and the AND group around is current again. */
  lemma {:induction false} PushAlternative(z: Stack, alts: seq<Tree>, a: Atom)
    requires Top(z).ty.MatchAll? && WritableAtom(a)
    ensures PushItems(Parser(z + [Frame(MatchAny, NO_FLAGS, alts)], NO_FLAGS), AtomItems(a))
         == Parser(Add(z, Group(MatchAny, NO_FLAGS, alts + [AtomTree(a)])), NO_FLAGS)
    decreases a
  {
    hide Top, Close;
    var y := z + [Frame(MatchAny, NO_FLAGS, alts)];
    var p := Parser(y, NO_FLAGS);
    PushNots(y, NO_FLAGS, a.nots);
    match a
    case Leaf(nots, lexeme) =>
      PushItemsConcat(p, Nots(nots), [Lex(lexeme)]);
      PushItemsOne(Parser(y, NotFlags(nots)), Lex(lexeme));
      RewindAlternative(z, alts, AtomTree(a));
    case Paren(nots, inner) =>
      PushItemsConcat(p, Nots(nots), [Op("(")] + (Items(inner) + [Op(")")]));
      PushParen(y, nots, inner);
      var f := Frame(MatchAll, NotFlags(nots), Trees(inner));
      assert y + [f] == z + [Frame(MatchAny, NO_FLAGS, alts), f];
      CloseAlternative(z, alts, f);
  }

  /** Opening a parenthesis, its contents, and closing it. */
  lemma {:induction false} PushParen(y: Stack, nots: nat, inner: Expr)
    requires WritableExpr(inner)
    ensures PushItems(Parser(y, NotFlags(nots)), [Op("(")] + (Items(inner) + [Op(")")]))
         == PushItem(Parser(y + [Frame(MatchAll, NotFlags(nots), Trees(inner))], NO_FLAGS), Op(")"))
    decreases inner, 1
  {
    var p := Parser(y, NotFlags(nots));
    var inside := y + [Frame(MatchAll, NotFlags(nots), [])];
    PushItemsConcat(p, [Op("(")], Items(inner) + [Op(")")]);
    PushItemsOne(p, Op("("));
    assert PushItem(p, Op("(")) == Parser(inside, NO_FLAGS);
    PushItemsConcat(Parser(inside, NO_FLAGS), Items(inner), [Op(")")]);
    PushExpr(inside, inner);
    assert [] + Trees(inner) == Trees(inner);
    assert AddAll(inside, Trees(inner)) == y + [Frame(MatchAll, NotFlags(nots), Trees(inner))];
    PushItemsOne(Parser(y + [Frame(MatchAll, NotFlags(nots), Trees(inner))], NO_FLAGS), Op(")"));
  }

  /** `OR` after a node moves that node into a new OR group, or reopens the OR group it is. */
  lemma {:induction false} PushOr(z: Stack, last: Tree)
    requires Top(z).ty.MatchAll? && (last.Group? && last.ty.MatchAny? ==> last.flags == NO_FLAGS)
    ensures PushItem(Parser(Add(z, last), NO_FLAGS), Op("OR"))
         == Parser(z + [Frame(MatchAny, NO_FLAGS, if last.Group? && last.ty.MatchAny? then last.nodes else [last])], NO_FLAGS)
  {
    var nodes := Top(Add(z, last)).nodes;
    assert nodes[..|nodes| - 1] == Top(z).nodes;
    assert z[|z| - 1 := Top(z)] == z;
  }

  /** The alternatives after the first one. */
  lemma {:induction false} PushAlternatives(z: Stack, alts: seq<Tree>, c: Clause)
    requires Top(z).ty.MatchAll? && WritableClause(c)
    ensures PushItems(Parser(z + [Frame(MatchAny, NO_FLAGS, alts)], NO_FLAGS), ClauseItems(c))
         == Parser(Add(z, Group(MatchAny, NO_FLAGS, alts + Alternatives(c))), NO_FLAGS)
    decreases c
  {
    hide PushItem, PushItems, AtomItems, AtomTree;
    var p := Parser(z + [Frame(MatchAny, NO_FLAGS, alts)], NO_FLAGS);
    PushAlternative(z, alts, c.atom);
    match c
    case One(a) =>
    case Or(a, more) =>
      var alts' := alts + [AtomTree(a)];
      var next := Parser(Add(z, Group(MatchAny, NO_FLAGS, alts')), NO_FLAGS);
      PushItemsConcat(p, AtomItems(a), [Op("OR")] + ClauseItems(more));
      PushItemsConcat(next, [Op("OR")], ClauseItems(more));
      PushItemsOne(next, Op("OR"));
      PushOr(z, Group(MatchAny, NO_FLAGS, alts'));
      PushAlternatives(z, alts', more);
      assert alts' + Alternatives(more) == alts + Alternatives(c);
  }

  lemma {:induction false} PushClause(z: Stack, c: Clause)
    requires Top(z).ty.MatchAll? && WritableClause(c)
    ensures PushItems(Parser(z, NO_FLAGS), ClauseItems(c)) == Parser(Add(z, ClauseTree(c)), NO_FLAGS)
    decreases c
  {
    var p := Parser(z, NO_FLAGS);
    PushAtom(z, c.atom);
    match c
    case One(a) =>
    case Or(a, more) =>
      var next := Parser(Add(z, AtomTree(a)), NO_FLAGS);
      PushItemsConcat(p, AtomItems(a), [Op("OR")] + ClauseItems(more));
      PushItemsConcat(next, [Op("OR")], ClauseItems(more));
      PushItemsOne(next, Op("OR"));
      PushOr(z, AtomTree(a));
      PushAlternatives(z, [AtomTree(a)], more);
  }

  lemma {:induction false} PushExpr(z: Stack, e: Expr)
    requires Top(z).ty.MatchAll? && WritableExpr(e)
    ensures PushItems(Parser(z, NO_FLAGS), Items(e)) == Parser(AddAll(z, Trees(e)), NO_FLAGS)
    decreases e, 0
  {
    match e
    case Empty =>
      assert Top(z).nodes + [] == Top(z).nodes;
      assert AddAll(z, []) == z;
    case And(c, rest) =>
      PushItemsConcat(Parser(z, NO_FLAGS), ClauseItems(c), Items(rest));
      PushClause(z, c);
      PushExpr(Add(z, ClauseTree(c)), rest);
      assert Top(z).nodes + [ClauseTree(c)] + Trees(rest) == Top(z).nodes + Trees(e);
      assert AddAll(Add(z, ClauseTree(c)), Trees(rest)) == AddAll(z, Trees(e));
  }

  // ----- the printed items are readable -----

  lemma {:induction false} NotsReadable(n: nat)
    ensures forall i <- Nots(n) :: Readable(i)
    decreases n
  {
    if n > 0 { NotsReadable(n - 1); }
  }

  lemma {:induction false} AtomReadable(a: Atom)
    requires WritableAtom(a)
    ensures forall i <- AtomItems(a) :: Readable(i)
    decreases a
  {
    NotsReadable(a.nots);
    if a.Paren? { ExprReadable(a.inner); }
  }

  lemma {:induction false} ClauseReadable(c: Clause)
    requires WritableClause(c)
    ensures forall i <- ClauseItems(c) :: Readable(i)
    decreases c
  {
    AtomReadable(c.atom);
    if c.Or? { ClauseReadable(c.more); }
  }

  lemma {:induction false} ExprReadable(e: Expr)
    requires WritableExpr(e)
    ensures forall i <- Items(e) :: Readable(i)
    decreases e
  {
    if e.And? {
      ClauseReadable(e.clause);
      ExprReadable(e.rest);
    }
  }

  // ----- the trees mean what the expressions mean -----

  function LowerRows(rows: seq<string>): seq<string> {
    seq(|rows|, i requires 0 <= i < |rows| => LowerAll(rows[i]))
  }

  lemma {:induction false} AlnumIs(c: char)
    ensures IsAlnum(c) <==> LetterOrDigit(c)
    ensures IsAlnum(Lower(c)) <==> IsAlnum(c)
  {
    CapitalIs(c);
    SmallIs(c);
    DigitIs(c);
    assert Digit(c) <==> '0' <= c <= '9';
  }

  lemma {:induction false} LowerOccurs(row: string, text: string, i: int)
    ensures OccursAt(LowerAll(row), LowerAll(text), i) <==> AlikeAt(row, text, i)
  {
    if 0 <= i && i + |text| <= |row| {
      var part := LowerAll(row)[i..i + |text|];
      forall k | 0 <= k < |text|
        ensures part[k] == LowerAll(text)[k] <==> Alike(row[i + k], text[k])
      {
        LowerAlike(row[i + k], text[k]);
      }
      if AlikeAt(row, text, i) {
        assert part == LowerAll(text);
      } else {
        var k :| 0 <= k < |text| && !Alike(row[i + k], text[k]);
        assert part[k] != LowerAll(text)[k];
      }
    }
  }

  lemma {:induction false} LowerFirst(row: string, text: string, i: int)
    ensures FirstAt(LowerAll(row), LowerAll(text), i) <==> FirstAlike(row, text, i)
  {
    forall j
      ensures OccursAt(LowerAll(row), LowerAll(text), j) <==> AlikeAt(row, text, j)
    {
      LowerOccurs(row, text, j);
    }
  }

  lemma {:induction false} LowerFree(row: string, text: string, i: int)
    requires AlikeAt(row, text, i)
    ensures StandsFree(LowerAll(row), LowerAll(text), i) <==> Free(row, i, |text|)
  {
    LowerOccurs(row, text, i);
    if i > 0 {
      AlnumIs(row[i - 1]);
    }
    if i + |text| < |row| {
      AlnumIs(row[i + |text|]);
    }
  }

  /** The token of a lexeme matches a row in lower case exactly when the lexeme is found in the row. */
  lemma {:induction false} LexemeMeaning(l: Lexeme, flags: Flags, row: string)
    requires flags.start == l.start && flags.end == l.end && flags.word == (l.Phrase? && !HasSpace(l.text))
    ensures MatchRow(LowerAll(l.text), flags, LowerAll(row)) == Found(l, row)
  {
    MatchRowIs(LowerAll(l.text), flags, LowerAll(row));
    forall i
      ensures FirstAt(LowerAll(row), LowerAll(l.text), i) <==> FirstAlike(row, l.text, i)
      ensures FirstAlike(row, l.text, i) ==>
        (StandsFree(LowerAll(row), LowerAll(l.text), i) <==> Free(row, i, |l.text|))
    {
      LowerFirst(row, l.text, i);
      if FirstAlike(row, l.text, i) {
        LowerFree(row, l.text, i);
      }
    }
  }

  lemma {:induction false} LeafMeaning(l: Lexeme, negate: bool, rows: seq<string>)
    requires rows != []
    ensures MatchToken(LowerAll(l.text), LexemeFlags(l).(negate := negate), LowerRows(rows)) == (Holds(l, rows) != negate)
  {
    var text, flags, lower := LowerAll(l.text), LexemeFlags(l).(negate := negate), LowerRows(rows);
    forall i | 0 <= i < |rows|
      ensures MatchRow(text, flags, lower[i]) == Found(l, rows[i])
    {
      LexemeMeaning(l, flags, rows[i]);
    }
    hide Found, MatchRow;
    if row :| row in rows && Found(l, row) {
      var i :| 0 <= i < |rows| && rows[i] == row;
      assert lower[i] in lower && MatchRow(text, flags, lower[i]);
    }
    if row :| row in lower && MatchRow(text, flags, row) {
      var i :| 0 <= i < |lower| && lower[i] == row;
      assert rows[i] in rows && Found(l, rows[i]);
    }
  }

  lemma {:induction false} AtomMeaning(a: Atom, rows: seq<string>)
    requires rows != []
    ensures Match(AtomTree(a), LowerRows(rows)) == EvalAtom(a, rows)
    decreases a
  {
    match a
    case Leaf(nots, lexeme) => LeafMeaning(lexeme, Odd(nots), rows);
    case Paren(_, inner) => ExprMeaning(inner, rows);
  }

  lemma {:induction false} ClauseMeaning(c: Clause, rows: seq<string>)
    requires rows != []
    ensures (exists n <- Alternatives(c) :: Match(n, LowerRows(rows))) == EvalClause(c, rows)
    ensures Match(ClauseTree(c), LowerRows(rows)) == EvalClause(c, rows)
    decreases c
  {
    AtomMeaning(c.atom, rows);
    match c
    case One(a) =>
      assert Alternatives(c) == [AtomTree(a)];
      assert AtomTree(a) in Alternatives(c);
    case Or(a, more) =>
      ClauseMeaning(more, rows);
      assert forall n :: n in Alternatives(c) <==> n == AtomTree(a) || n in Alternatives(more);
  }

  lemma {:induction false} ExprMeaning(e: Expr, rows: seq<string>)
    requires rows != []
    ensures (forall n <- Trees(e) :: Match(n, LowerRows(rows))) == Eval(e, rows)
    decreases e
  {
    if e.And? {
      ClauseMeaning(e.clause, rows);
      ExprMeaning(e.rest, rows);
      assert forall n :: n in Trees(e) <==> n == ClauseTree(e.clause) || n in Trees(e.rest);
    }
  }

  // ----- the theorem -----

  /** The tree of a printed expression is the tree of the expression. */
  lemma {:induction false} SetPrinted(e: Expr)
    requires WritableExpr(e)
    ensures SetTree(Print(e)) == Group(MatchAll, NO_FLAGS, Trees(e))
  {
    ExprReadable(e);
    ScanItems(START.parser, Items(e));
    PushExpr(START.parser.stack, e);
    assert [] + Trees(e) == Trees(e);
    assert AddAll(START.parser.stack, Trees(e)) == [Frame(MatchAll, NO_FLAGS, Trees(e))];
  }

  lemma {:induction false} SetItems(items: seq<Item>)
    requires forall i <- items :: Readable(i)
    ensures SetTree(Spaced(items)) == CloseAll(PushItems(START.parser, items).stack)
  {
    ScanItems(START.parser, items);
  }

  /** With only the root open, a `)` or a last `NOT` adds nothing to the tree; nor does an `OR` that follows nothing. */
  lemma {:induction false} StrayPush(nodes: seq<Tree>)
    ensures var p := Parser([Frame(MatchAll, NO_FLAGS, nodes)], NO_FLAGS);
      && PushItem(p, Op(")")) == p && PushItem(p, Op("NOT")).stack == p.stack
      && (nodes == [] ==> PushItem(p, Op("OR")) == p)
  {
  }

  /** A `)` or `NOT` behind everything makes no difference... */
  lemma {:induction false} StrayAtEnd(e: Expr, name: string)
    requires WritableExpr(e) && (name == ")" || name == "NOT")
    ensures SetTree(Spaced(Items(e) + [Op(name)])) == SetTree(Print(e))
  {
    var p, items := START.parser, Items(e);
    ExprReadable(e);
    SetItems(items);
    SetItems(items + [Op(name)]);
    PushExpr(p.stack, e);
    assert AddAll(p.stack, Trees(e)) == [Frame(MatchAll, NO_FLAGS, [] + Trees(e))];
    hide PushItem, PushItems, Items, Trees, SetTree, Spaced, WritableExpr;
    PushItemsConcat(p, items, [Op(name)]);
    PushItemsOne(PushItems(p, items), Op(name));
    StrayPush([] + Trees(e));
  }

  /** ...nor does an `OR` before it. */
  lemma {:induction false} StrayAtStart(e: Expr)
    requires WritableExpr(e)
    ensures SetTree(Spaced([Op("OR")] + Items(e))) == SetTree(Print(e))
  {
    var p, items := START.parser, Items(e);
    ExprReadable(e);
    SetItems(items);
    SetItems([Op("OR")] + items);
    hide PushItem, PushItems, Items, Trees, SetTree, Spaced, WritableExpr;
    PushItemsConcat(p, [Op("OR")], items);
    PushItemsOne(p, Op("OR"));
    StrayPush([]);
  }

  /** A parenthesis that is never closed is closed at the end. */
  lemma {:induction false} NeverClosed(e: Expr)
    requires WritableExpr(e)
    ensures SetTree(Spaced([Op("(")] + Items(e))) == SetTree(Print(And(One(Paren(0, e)), Empty)))
  {
    var f := And(One(Paren(0, e)), Empty);
    ExprReadable(e);
    SetItems([Op("(")] + Items(e));
    SetPrinted(f);
    assert Trees(f) == [Group(MatchAll, NO_FLAGS, Trees(e))] by {
      assert Trees(Empty) == [] && f.rest == Empty;
      assert ClauseTree(f.clause) == AtomTree(Paren(0, e));
    }
    hide PushItems, Items, Trees, SetTree, Spaced, WritableExpr;
    PushOpened(e);
    CloseTop([Frame(MatchAll, NO_FLAGS, []), Frame(MatchAll, NO_FLAGS, Trees(e))]);
  }

  lemma {:induction false} PushOpened(e: Expr)
    requires WritableExpr(e)
    ensures PushItems(START.parser, [Op("(")] + Items(e))
         == Parser([Frame(MatchAll, NO_FLAGS, []), Frame(MatchAll, NO_FLAGS, Trees(e))], NO_FLAGS)
  {
    var p := START.parser;
    var inside: Stack := p.stack + [Frame(MatchAll, NO_FLAGS, [])];
    assert PushItem(p, Op("(")) == Parser(inside, NO_FLAGS);
    hide PushItem, PushItems, Items, Trees, WritableExpr;
    PushItemsConcat(p, [Op("(")], Items(e));
    PushItemsOne(p, Op("("));
    PushExpr(inside, e);
    assert [] + Trees(e) == Trees(e);
  }

  lemma {:induction false} CloseTop(z: Stack)
    requires |z| == 2 && z[0] == Frame(MatchAll, NO_FLAGS, [])
    ensures CloseAll(z) == Group(MatchAll, NO_FLAGS, [TreeOf(z[1])])
  {
    assert z[..1] == [z[0]];
    assert Close(z) == [Frame(MatchAll, NO_FLAGS, [] + [TreeOf(z[1])])];
  }

  /** Printing any expression and filtering by the text computes the expression, on any rows as long as there is one. */
  lemma {:induction false} FilterComputes(e: Expr, rows: seq<string>)
    requires WritableExpr(e) && rows != []
    ensures FilterMatch(SetTree(Print(e)), rows) == Eval(e, rows)
  {
    SetPrinted(e);
    ExprMeaning(e, rows);
    assert Match(Group(MatchAll, NO_FLAGS, Trees(e)), LowerRows(rows)) == Eval(e, rows);
  }

  /** On no rows at all a negated word is false although the word occurs nowhere. */
  lemma {:induction false} NoRowsDiffers(l: Lexeme)
    requires Writable(l)
    ensures var e := And(One(Leaf(1, l)), Empty);
      WritableExpr(e) && Eval(e, []) && !FilterMatch(SetTree(Print(e)), [])
  {
    var e := And(One(Leaf(1, l)), Empty);
    SetPrinted(e);
    assert Trees(e) == [AtomTree(Leaf(1, l))];
    assert !Match(AtomTree(Leaf(1, l)), []);
    assert AtomTree(Leaf(1, l)) in Trees(e);
    assert !Match(Group(MatchAll, NO_FLAGS, Trees(e)), []);
    assert LowerRows([]) == [];
  }

  /** So the filter computes every expression on given rows exactly when there is a row. */
  lemma {:induction false} FilterComputesIff(rows: seq<string>)
    ensures (forall e: Expr :: WritableExpr(e) ==> FilterMatch(SetTree(Print(e)), rows) == Eval(e, rows))
      <==> rows != []
  {
    if rows != [] {
      forall e: Expr | WritableExpr(e)
        ensures FilterMatch(SetTree(Print(e)), rows) == Eval(e, rows)
      {
        FilterComputes(e, rows);
      }
    } else {
      NoRowsDiffers(Word("a", false, false));
      assert LowerRows([]) == [];
    }
  }
}
