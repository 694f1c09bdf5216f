/** Repositories and their list (src/remote.cpp). */
module Remotes {
  import opened Basics
  import opened Paths
  import opened Streams
  import opened Targets

  datatype Tribool = False | True | Indeterminate

  /** The null remote has neither name nor URL. */
  datatype Remote = Remote(name: string, url: string, enabled: bool, isProtected: bool, autoInstall: Tribool)
  {
    predicate Null() { name == "" || url == "" }
  }

  const NULL_REMOTE := Remote("", "", true, false, Indeterminate)

  // ----- validation -----

  predicate Control(c: char) { c as int < 32 || c as int == 127 }

  predicate NameChar(c: char) { c !in "*\\:<>?/|\"" && !Control(c) }

  function Upper(c: char): char {
    if 'a' <= c <= 'z' then c - 'a' + 'A' else c
  }

  /** Names of devices on Windows, in any case. */
  predicate Device(name: string) {
    var u := seq(|name|, i requires 0 <= i < |name| => Upper(name[i]));
    u == "CLOCK$" || (|u| == 4 && (u[..3] == "COM" || u[..3] == "LPT") && Digit(u[3]))
  }

  /** The same text up to the case of its letters. */
  ghost predicate SameButCase(a: string, b: string) {
    |a| == |b| && forall i :: 0 <= i < |a| ==> Alike(a[i], b[i])
  }

  /** `CLOCK$`, and `COM` or `LPT` with a digit, in any case; nothing else. */
  lemma {:induction false} DeviceMeaning(name: string)
    ensures Device(name) <==>
      || SameButCase(name, "CLOCK$")
      || (|name| == 4 && (SameButCase(name[..3], "COM") || SameButCase(name[..3], "LPT")) && name[3] in DIGITS)
  {
    var u := seq(|name|, i requires 0 <= i < |name| => Upper(name[i]));
    UpperSame(name, "CLOCK$");
    if |name| == 4 {
      assert u[..3] == seq(3, i requires 0 <= i < 3 => Upper(name[..3][i]));
      UpperSame(name[..3], "COM");
      UpperSame(name[..3], "LPT");
      DigitIs(name[3]);
      assert Digit(Upper(name[3])) <==> Digit(name[3]);
    }
  }

  lemma {:induction false} UpperSame(a: string, b: string)
    requires forall i :: 0 <= i < |b| ==> !('a' <= b[i] <= 'z')
    ensures seq(|a|, i requires 0 <= i < |a| => Upper(a[i])) == b <==> SameButCase(a, b)
  {
    var u := seq(|a|, i requires 0 <= i < |a| => Upper(a[i]));
    if |a| == |b| {
      forall i | 0 <= i < |a|
        ensures u[i] == b[i] <==> Alike(a[i], b[i])
      {
      }
    }
  }

  predicate ValidName(name: string) {
    && name != "" && (forall c <- name :: NameChar(c))
    && name[0] !in ". " && name[|name| - 1] !in ". " && !Device(name)
  }

  /** Matched by `[^*\\:<>?/|"[:cntrl:]]`. */
  ghost predicate Allowed(c: char) {
    c as int >= 32 && c as int !in {34, 42, 47, 58, 60, 62, 63, 92, 124, 127}
  }

  /** Matched by the second pattern: a dot or space in front, one behind something, or a device. */
  ghost predicate Refused(name: string) {
    || (name != "" && (name[0] == '.' || name[0] == ' '))
    || (|name| > 1 && (name[|name| - 1] == '.' || name[|name| - 1] == ' '))
    || SameButCase(name, "CLOCK$")
    || (|name| == 4 && (SameButCase(name[..3], "COM") || SameButCase(name[..3], "LPT")) && name[3] in DIGITS)
  }

  lemma {:induction false} NameCharIs(c: char)
    ensures NameChar(c) <==> Allowed(c)
  {
  }

  /** A name is valid when it is not empty, all its characters are allowed and the second pattern does not match it. */
  lemma {:induction false} ValidNameMeaning(name: string)
    ensures ValidName(name) <==> name != "" && (forall c <- name :: Allowed(c)) && !Refused(name)
  {
    DeviceMeaning(name);
    forall c | c in name
      ensures NameChar(c) <==> Allowed(c)
    {
      NameCharIs(c);
    }
    hide SameButCase, NameChar, Allowed, Device;
  }

  predicate UrlChar(c: char) {
    'a' <= c <= 'z' || 'A' <= c <= 'Z' || Digit(c) || c in "._~:/?#[]@!$&'()*+,;=-"
  }

  predicate LowerHex(c: char) { Digit(c) || 'a' <= c <= 'f' }

  predicate UrlChars(url: string)
    decreases |url|
  {
    if url == "" then true
    else if UrlChar(url[0]) then UrlChars(url[1..])
    else url[0] == '%' && |url| >= 3 && LowerHex(url[1]) && LowerHex(url[2]) && UrlChars(url[3..])
  }

  predicate ValidUrl(url: string) { url != "" && UrlChars(url) }

  /** What the pattern of a URL repeats: one of some characters, or a percent sign and two small hexadecimal digits. */
  ghost predicate UrlPiece(s: string) {
    || (|s| == 1 && (s[0] in CAPITALS || s[0] in SMALL || s[0] in DIGITS || s[0] in "._~:/?#[]@!$&'()*+,;=-"))
    || (|s| == 3 && s[0] == '%' && s[1] in "0123456789abcdef" && s[2] in "0123456789abcdef")
  }

  ghost function Glued(pieces: seq<string>): string
    decreases |pieces|
  {
    if pieces == [] then "" else pieces[0] + Glued(pieces[1..])
  }

  lemma {:induction false} UrlCharIs(c: char)
    ensures UrlChar(c) <==> UrlPiece([c])
    ensures UrlChar(c) ==> c != '%'
  {
    CapitalIs(c);
    SmallIs(c);
    DigitIs(c);
  }

  lemma {:induction false} LowerHexIs(c: char)
    ensures LowerHex(c) <==> c in "0123456789abcdef"
  {
    DigitIs(c);
    if 'a' <= c <= 'f' {
      assert "0123456789abcdef"[c as int - 87] == c;
    }
    if c in DIGITS {
      assert "0123456789abcdef"[c as int - 48] == c;
    }
  }

  lemma {:induction false} UrlCharsGlued(pieces: seq<string>)
    requires forall p <- pieces :: UrlPiece(p)
    ensures UrlChars(Glued(pieces))
    decreases |pieces|
  {
    if pieces != [] {
      var p, rest := pieces[0], Glued(pieces[1..]);
      assert UrlPiece(p);
      UrlCharsGlued(pieces[1..]);
      var url := p + rest;
      UrlCharIs(p[0]);
      if |p| == 1 {
        assert p == [p[0]] && url[1..] == rest;
      } else {
        LowerHexIs(p[1]);
        LowerHexIs(p[2]);
        assert url[3..] == rest;
      }
    }
  }

  lemma {:induction false} UrlPieces(url: string) returns (pieces: seq<string>)
    requires UrlChars(url)
    ensures (forall p <- pieces :: UrlPiece(p)) && Glued(pieces) == url
    decreases |url|
  {
    if url == "" {
      pieces := [];
    } else {
      var n := if UrlChar(url[0]) then 1 else 3;
      var rest := UrlPieces(url[n..]);
      pieces := [url[..n]] + rest;
      UrlCharIs(url[0]);
      if n == 3 {
        LowerHexIs(url[1]);
        LowerHexIs(url[2]);
      } else {
        assert url[..1] == [url[0]];
      }
      assert pieces[1..] == rest && url == url[..n] + url[n..];
    }
  }

  /** A URL is valid when it is one such piece after another, and at least one. */
  lemma {:induction false} ValidUrlMeaning(url: string)
    ensures ValidUrl(url) <==>
      exists pieces: seq<string> :: pieces != [] && (forall p <- pieces :: UrlPiece(p)) && Glued(pieces) == url
  {
    if ValidUrl(url) {
      var pieces := UrlPieces(url);
      assert pieces != [];
    }
    if pieces: seq<string> :| pieces != [] && (forall p <- pieces :: UrlPiece(p)) && Glued(pieces) == url {
      UrlCharsGlued(pieces);
      assert UrlPiece(pieces[0]);
    }
  }

  lemma {:induction false} UrlPlain(url: string)
    requires UrlChars(url)
    ensures '|' !in url
    decreases |url|
  {
    if url != "" {
      if UrlChar(url[0]) {
        UrlPlain(url[1..]);
        assert url == [url[0]] + url[1..];
      } else {
        UrlPlain(url[3..]);
        assert url == [url[0], url[1], url[2]] + url[3..];
      }
    }
  }

  /** A valid repository name is a plain part of a path, so targets stay below its directory. */
  lemma {:induction false} NamePlain(name: string)
    requires ValidName(name)
    ensures Plain(name)
  {
    forall i | 0 <= i < |name|
      ensures !IsSeparator(name[i])
    {
      assert name[i] in name && NameChar(name[i]);
    }
  }

  /** Whatever its category and file texts, a categorised source of a valid repository stays below it. */
  lemma {:induction false} RemoteTargetInside(r: Remote, t: PackageType, category: string, file: string)
    requires ValidName(r.name) && Categorised(t)
    ensures var target := TargetOf(t, r.name, category, file);
      Normal(target) && !target.absolute && [TypeDirectory(t), r.name] <= target.parts
  {
    NamePlain(r.name);
    TargetInside(t, r.name, category, file);
  }

  // ----- one line per repository -----

  function BoolText(b: bool): string { if b then "1" else "0" }

  function TriboolText(t: Tribool): string {
    match t
    case False => "0"
    case True => "1"
    case Indeterminate => "2"
  }

  /** `toString`. */
  function ToText(r: Remote): string {
    r.name + "|" + r.url + "|" + BoolText(r.enabled) + "|" + TriboolText(r.autoInstall)
  }

  function Fields(data: string): (string, string, string, string) {
    var (a, s1) := GetLine(Begin(data), '|');
    var (b, s2) := GetLine(s1, '|');
    var (c, s3) := GetLine(s2, '|');
    var (d, _) := GetLine(s3, '|');
    (a, b, c, d)
  }

  /** `fromString`: the null remote unless name and URL are valid; flags it cannot read keep their default. */
  function FromText(data: string): Remote {
    var (name, url, enabled, autoInstall) := Fields(data);
    if !ValidName(name) || !ValidUrl(url) then NULL_REMOTE
    else
      Remote(name, url, enabled != "0", false, TriboolOf(autoInstall))
  }

  function TriboolOf(text: string): Tribool {
    if text == "0" then False else if text == "1" then True else Indeterminate
  }

  lemma {:induction false} FlagsBack(b: bool, t: Tribool)
    ensures (BoolText(b) != "0") == b && TriboolOf(TriboolText(t)) == t
    ensures BoolText(true) == "1" && [TriboolText(False), TriboolText(True), TriboolText(Indeterminate)] == ["0", "1", "2"]
  {
  }

  lemma {:induction false} FourFields(a: string, b: string, c: string, d: string)
    requires '|' !in a && '|' !in b && '|' !in c && '|' !in d
    ensures Fields(a + "|" + b + "|" + c + "|" + d) == (a, b, c, d)
  {
    var text := a + "|" + b + "|" + c + "|" + d;
    var s0 := Begin(text);
    assert text[0..] == a + ['|'] + (b + ['|'] + (c + ['|'] + d));
    hide GetLine;
    GetField(s0, '|', a, b + ['|'] + (c + ['|'] + d));
    var s1 := GetLine(s0, '|').1;
    GetField(s1, '|', b, c + ['|'] + d);
    var s2 := GetLine(s1, '|').1;
    GetField(s2, '|', c, d);
    var s3 := GetLine(s2, '|').1;
    GetLast(s3, '|', d);
  }

  lemma {:induction false} NoBars(r: Remote)
    requires ValidName(r.name) && ValidUrl(r.url)
    ensures '|' !in r.name && '|' !in r.url && '|' !in BoolText(r.enabled) && '|' !in TriboolText(r.autoInstall)
  {
    UrlPlain(r.url);
    assert !NameChar('|');
  }

  /** A remote written as text reads back the same, except that protection is not written. */
  lemma {:induction false} TextRoundTrip(r: Remote)
    requires ValidName(r.name) && ValidUrl(r.url)
    ensures FromText(ToText(r)) == r.(isProtected := false)
  {
    NoBars(r);
    FlagsBack(r.enabled, r.autoInstall);
    hide Fields, ValidName, ValidUrl, BoolText, TriboolText, TriboolOf;
    FourFields(r.name, r.url, BoolText(r.enabled), TriboolText(r.autoInstall));
  }

  /** Whatever the text, what is read is null or valid, and never protected. */
  lemma {:induction false} FromTextValid(data: string)
    ensures var r := FromText(data);
      !r.isProtected && (r == NULL_REMOTE || (ValidName(r.name) && ValidUrl(r.url)))
  {
  }

  // ----- the list -----

  /** A list without two remotes of one name. */
  ghost predicate Named(list: seq<Remote>) {
    && (forall r <- list :: !r.Null())
    && forall i, j :: 0 <= i < j < |list| ==> list[i].name != list[j].name
  }

  /** Adding in a plain list: in the place of the remote with that name, or at the end. */
  function Put(list: seq<Remote>, r: Remote): seq<Remote>
    decreases |list|
  {
    if list == [] then [r]
    else if list[0].name == r.name then [r] + list[1..]
    else [list[0]] + Put(list[1..], r)
  }

  function Drop(list: seq<Remote>, name: string): seq<Remote>
    decreases |list|
  {
    if list == [] then []
    else if list[0].name == name then list[1..]
    else [list[0]] + Drop(list[1..], name)
  }

  function Lookup(list: seq<Remote>, name: string): Remote
    decreases |list|
  {
    if list == [] then NULL_REMOTE
    else if list[0].name == name then list[0]
    else Lookup(list[1..], name)
  }

  function Enabled(list: seq<Remote>): seq<Remote>
    decreases |list|
  {
    if list == [] then []
    else Enabled(list[..|list| - 1]) + if list[|list| - 1].enabled then [list[|list| - 1]] else []
  }

  /** The enabled remotes are those of the list that are enabled... */
  lemma {:induction false} EnabledMeaning(list: seq<Remote>, r: Remote)
    ensures r in Enabled(list) <==> r in list && r.enabled
    decreases |list|
  {
    if list != [] {
      var n := |list| - 1;
      EnabledMeaning(list[..n], r);
      assert list == list[..n] + [list[n]];
    }
  }

  /** ...in the order of the list: those of one list and then of another, and a single one as it is. */
  lemma {:induction false} EnabledInOrder(a: seq<Remote>, b: seq<Remote>, r: Remote)
    ensures Enabled(a + b) == Enabled(a) + Enabled(b)
    ensures Enabled([r]) == if r.enabled then [r] else []
    decreases |b|
  {
    assert [r][..0] == [];
    if b == [] {
      assert a + b == a;
    } else {
      var before := b[..|b| - 1];
      EnabledInOrder(a, before, r);
      assert (a + b)[..|a + b| - 1] == a + before;
      assert (a + b)[|a + b| - 1] == b[|b| - 1];
    }
  }

  /** Where the name is, the list operations act; elsewhere they leave the list as it is. */
  lemma {:induction false} AtName(list: seq<Remote>, i: nat, r: Remote)
    requires Named(list) && i < |list| && list[i].name == r.name
    ensures Put(list, r) == list[i := r]
    ensures Drop(list, r.name) == list[..i] + list[i + 1..]
    ensures Lookup(list, r.name) == list[i]
    decreases i
  {
    if i > 0 {
      assert Named(list[1..]) by { NamedTail(list); }
      AtName(list[1..], i - 1, r);
      assert list[..i] + list[i + 1..] == [list[0]] + (list[1..][..i - 1] + list[1..][i..]);
    } else {
      assert list[..0] + list[1..] == list[1..];
    }
  }

  lemma {:induction false} NamedTail(list: seq<Remote>)
    requires Named(list) && list != []
    ensures Named(list[1..])
  {
  }

  lemma {:induction false} NoName(list: seq<Remote>, r: Remote)
    requires forall x <- list :: x.name != r.name
    ensures Put(list, r) == list + [r] && Drop(list, r.name) == list && Lookup(list, r.name) == NULL_REMOTE
    decreases |list|
  {
    if list != [] {
      NoName(list[1..], r);
      assert list == [list[0]] + list[1..];
    }
  }

  /** The map and the vector say the same: every name is mapped to its place, and to no other. */
  ghost predicate Agree(list: seq<Remote>, index: map<string, nat>) {
    && Named(list)
    && (forall i :: 0 <= i < |list| ==> list[i].name in index && index[list[i].name] == i)
    && (forall name <- index :: index[name] < |list| && list[index[name]].name == name)
  }

  lemma {:induction false} AppendAgrees(list: seq<Remote>, index: map<string, nat>, r: Remote)
    requires Agree(list, index) && !r.Null() && r.name !in index
    ensures Put(list, r) == list + [r] && Agree(list + [r], index[r.name := |list|])
  {
    NoName(list, r);
    hide Put, Drop, Lookup;
  }

  lemma {:induction false} ReplaceAgrees(list: seq<Remote>, index: map<string, nat>, r: Remote)
    requires Agree(list, index) && !r.Null() && r.name in index
    ensures Put(list, r) == list[index[r.name] := r] && Agree(Put(list, r), index)
  {
    AtName(list, index[r.name], r);
    hide Put, Drop, Lookup;
  }

  /** The places once the one at `at` is freed. */
  ghost predicate MovedUp(index: map<string, nat>, at: nat, after: map<string, nat>) {
    after.Keys == index.Keys && forall n <- index :: after[n] == if index[n] > at then index[n] - 1 else index[n]
  }

  lemma {:induction false} RemoveAgrees(list: seq<Remote>, index: map<string, nat>, name: string, after: map<string, nat>)
    requires Agree(list, index) && name in index && MovedUp(index, index[name], after)
    ensures var at := index[name];
      Drop(list, name) == list[..at] + list[at + 1..] && Agree(list[..at] + list[at + 1..], after - {name})
  {
    hide Lookup, Put, Drop;
    var at := index[name];
    AtName(list, at, list[at]);
    NamedWithout(list, at);
    PlacesAgree(list, index, name, after, list[..at] + list[at + 1..]);
    hide Drop, Named, MovedUp;
  }

  lemma {:induction false} PlacesAgree(
    list: seq<Remote>, index: map<string, nat>, name: string, after: map<string, nat>, rest: seq<Remote>)
    requires Agree(list, index) && name in index && MovedUp(index, index[name], after)
    requires |rest| == |list| - 1
    requires forall i :: 0 <= i < |rest| ==> rest[i] == list[if i < index[name] then i else i + 1]
    ensures forall i :: 0 <= i < |rest| ==> rest[i].name in after - {name} && (after - {name})[rest[i].name] == i
    ensures forall n <- after - {name} :: after[n] < |rest| && rest[after[n]].name == n
  {
    hide Named;
    forall n | n in after - {name}
      ensures after[n] < |rest| && rest[after[n]].name == n
    {
      assert list[index[n]].name == n && index[n] != index[name];
    }
  }

  lemma {:induction false} NamedWithout(list: seq<Remote>, at: nat)
    requires Named(list) && at < |list|
    ensures Named(list[..at] + list[at + 1..])
  {
    var rest := list[..at] + list[at + 1..];
    forall i | 0 <= i < |rest|
      ensures rest[i] == list[if i < at then i else i + 1] && rest[i] in list
    {
    }
  }

  class RemoteList {
    var remotes: seq<Remote>
    var index: map<string, nat>

    ghost predicate Valid()
      reads this
    {
      Agree(remotes, index)
    }

    constructor ()
      ensures Valid() && remotes == []
    {
      remotes, index := [], map[];
    }

    /** `add`. */
    method Add(remote: Remote)
      requires Valid()
      modifies this
      ensures Valid()
      ensures remotes == if remote.name == "" || remote.url == "" then old(remotes) else Put(old(remotes), remote)
    {
      if remote.Null() {
        return;
      }
      if remote.name !in index {
        AppendAgrees(remotes, index, remote);
        index := index[remote.name := |remotes|];
        remotes := remotes + [remote];
      } else {
        ReplaceAgrees(remotes, index, remote);
        var at := index[remote.name];
        remotes := remotes[at := remote];
        index := index[remote.name := at];
      }
    }

    /** `remove`: the places after the one that is freed move up. */
    method Remove(name: string)
      requires Valid()
      modifies this
      ensures Valid() && remotes == Drop(old(remotes), name)
    {
      if name !in index {
        NoName(remotes, Remote(name, "", false, false, False));
        return;
      }
      var at := index[name];
      ghost var before := index;
      var walk := index.Keys;
      while walk != {}
        invariant index.Keys == before.Keys && walk <= index.Keys
        invariant forall n <- before :: index[n] == (if n !in walk && before[n] > at then before[n] - 1 else before[n])
        modifies this`index
        decreases walk
      {
        var n :| n in walk;
        if index[n] > at {
          index := index[n := index[n] - 1];
        }
        walk := walk - {n};
      }
      RemoveAgrees(remotes, before, name, index);
      remotes := remotes[..at] + remotes[at + 1..];
      index := index - {name};
    }

    /** `get`. */
    method Get(name: string) returns (r: Remote)
      requires Valid()
      ensures r == Lookup(remotes, name)
    {
      if name !in index {
        NoName(remotes, Remote(name, "", false, false, False));
        return NULL_REMOTE;
      }
      AtName(remotes, index[name], remotes[index[name]]);
      return remotes[index[name]];
    }

    /** `getEnabled`. */
    method GetEnabled() returns (list: seq<Remote>)
      ensures list == Enabled(remotes)
    {
      list := [];
      for i := 0 to |remotes|
        invariant list == Enabled(remotes[..i])
      {
        assert remotes[..i + 1][..i] == remotes[..i];
        if remotes[i].enabled {
          list := list + [remotes[i]];
        }
      }
      assert remotes[..|remotes|] == remotes;
    }
  }

  /** What adding and removing mean to lookups: the name concerned changes, no other does. */
  lemma {:induction false} PutLookup(list: seq<Remote>, r: Remote, name: string)
    ensures Lookup(Put(list, r), name) == if name == r.name then r else Lookup(list, name)
    decreases |list|
  {
    if list != [] && list[0].name != r.name {
      PutLookup(list[1..], r, name);
      assert Put(list, r)[1..] == Put(list[1..], r);
    }
  }

  lemma {:induction false} DropLookup(list: seq<Remote>, gone: string, name: string)
    requires Named(list)
    ensures Lookup(Drop(list, gone), name) == if name == gone then NULL_REMOTE else Lookup(list, name)
    decreases |list|
  {
    if list != [] {
      NamedTail(list);
      if list[0].name == gone {
        if name == gone {
          forall x | x in list[1..]
            ensures x.name != gone
          {
            var i :| 0 <= i < |list[1..]| && list[1..][i] == x;
            assert list[i + 1] == x;
          }
          NoName(list[1..], Remote(gone, "", false, false, False));
        }
      } else {
        DropLookup(list[1..], gone, name);
        assert Drop(list, gone)[1..] == Drop(list[1..], gone);
      }
    }
  }

  /** Removing what was just added under a new name gives the list back, order included. */
  lemma {:induction false} DropPut(list: seq<Remote>, r: Remote)
    requires forall x <- list :: x.name != r.name
    ensures Drop(Put(list, r), r.name) == list
    decreases |list|
  {
    if list != [] {
      DropPut(list[1..], r);
      assert Put(list, r)[1..] == Put(list[1..], r);
      assert list == [list[0]] + list[1..];
    } else {
      assert [r][1..] == [];
    }
  }
}
