/** Where a source may land (src/source.cpp), and the sources a version keeps (src/version.cpp). */
module Targets {
  import opened Basics
  import opened Paths

  datatype PackageType =
    | Unknown | Script | Extension | Effect | Data | Theme | LangPack | WebInterface
    | ProjectTemplate | TrackTemplate | MIDINoteNames | AutomationItem | Keymap

  function TypeDirectory(t: PackageType): string {
    match t
    case Script => "Scripts"
    case Effect => "Effects"
    case Data => "Data"
    case Extension => "UserPlugins"
    case Theme => "ColorThemes"
    case LangPack => "LangPack"
    case WebInterface => "reaper_www_root"
    case ProjectTemplate => "ProjectTemplates"
    case TrackTemplate => "TrackTemplates"
    case MIDINoteNames => "MIDINoteNames"
    case AutomationItem => "AutomationItems"
    case Keymap => "KeyMaps"
    case Unknown => ""
  }

  /** The types whose files live below a directory of their repository and category. */
  predicate Categorised(t: PackageType) {
    t.Script? || t.Effect? || t.AutomationItem? || t.Keymap?
  }

  /** The version it is made for, and what decides its target: own type and file, and the package's they default to. */
  datatype Source = Source(
    version: int, typeOverride: PackageType, file: string, sections: int, platform: bool,
    packageType: PackageType, packageName: string, category: string, index: string)
  {
    function Type(): PackageType {
      if typeOverride.Unknown? then packageType else typeOverride
    }

    function File(): string {
      if file == [] then packageName else file
    }
  }

  function TargetOf(t: PackageType, index: string, category: string, file: string): Path {
    var top := Append(EMPTY_PATH, TypeDirectory(t), true);
    if t.Unknown? then top
    else if Categorised(t) then
      Concat(Append(top, index, true), Append(Parse(category), file, true))
    else
      Append(top, file, false)
  }

  function TargetPath(s: Source): Path {
    TargetOf(s.Type(), s.index, s.category, s.File())
  }

  method ComputeTargetPath(s: Source) returns (path: Path)
    ensures path == TargetPath(s)
  {
    var builder := new PathBuilder();
    var t := s.Type();
    builder.AppendText(TypeDirectory(t), true);
    if t.Unknown? {
    } else if Categorised(t) {
      builder.AppendText(s.index, true);
      var inner := new PathBuilder();
      inner.AppendText(s.category, true);
      inner.AppendText(s.File(), true);
      builder.AppendPath(inner.path);
    } else {
      builder.AppendText(s.File(), false);
    }
    path := builder.path;
  }

  /** Appending one plain part adds just that part. */
  lemma {:induction false} AppendPlain(p: Path, part: string, traversal: bool)
    requires Plain(part)
    ensures Append(p, part, traversal) == Path(p.absolute, p.parts + [part])
  {
    assert part[0..|part|] == part && !IsSeparator(part[0]);
    SplitPart([], part, 0, |part|);
    assert Parts(part) == [] + [part] == [part];
    WalkPlain(p.parts, [part], traversal);
  }

  lemma {:induction false} AppendRelative(p: Path, q: Path, traversal: bool)
    requires Normal(q) && !q.absolute
    ensures Append(p, Join(q), traversal) == Path(p.absolute, p.parts + q.parts)
  {
    JoinStart(q);
    SplitJoined([], false, [], q.parts);
    assert [] + q.parts == q.parts;
    WalkPlain(p.parts, q.parts, traversal);
  }

  /** A categorised source lands below the directories of its type, its repository and its category... */
  lemma {:induction false} CategorisedTarget(t: PackageType, index: string, c: Path, f: Path)
    requires Categorised(t) && Plain(index) && Normal(c) && Normal(f) && !c.absolute && !f.absolute
    ensures TargetOf(t, index, Join(c), Join(f)) == Path(false, [TypeDirectory(t), index] + c.parts + f.parts)
  {
    hide Append, Join;
    TypeDirectoryPlain(t);
    AppendPlain(EMPTY_PATH, TypeDirectory(t), true);
    var top := Append(EMPTY_PATH, TypeDirectory(t), true);
    AppendPlain(top, index, true);
    AppendRelative(EMPTY_PATH, c, true);
    AppendRelative(Parse(Join(c)), f, true);
    assert [] + c.parts == c.parts && [] + [TypeDirectory(t)] == [TypeDirectory(t)];
    assert [TypeDirectory(t)] + [index] + (c.parts + f.parts) == [TypeDirectory(t), index] + c.parts + f.parts;
  }

  /** ...any other directly below that of its type. */
  lemma {:induction false} PlainTarget(t: PackageType, index: string, category: string, f: Path)
    requires !Categorised(t) && !t.Unknown? && Normal(f) && !f.absolute
    ensures TargetOf(t, index, category, Join(f)) == Path(false, [TypeDirectory(t)] + f.parts)
  {
    hide Append, Join;
    TypeDirectoryPlain(t);
    AppendPlain(EMPTY_PATH, TypeDirectory(t), true);
    AppendRelative(Append(EMPTY_PATH, TypeDirectory(t), true), f, false);
    assert [] + [TypeDirectory(t)] == [TypeDirectory(t)];
  }

  /** The directories by name: below the first four each repository and category has its own... */
  lemma {:induction false} CategorisedByType(index: string, c: Path, f: Path)
    requires Plain(index) && Normal(c) && Normal(f) && !c.absolute && !f.absolute
    ensures var below := [index] + c.parts + f.parts; var parts := t => TargetOf(t, index, Join(c), Join(f)).parts;
      && parts(Script) == ["Scripts"] + below && parts(Effect) == ["Effects"] + below
      && parts(AutomationItem) == ["AutomationItems"] + below && parts(Keymap) == ["KeyMaps"] + below
  {
    TargetOfType(Script, index, c, f);
    TargetOfType(Effect, index, c, f);
    TargetOfType(AutomationItem, index, c, f);
    TargetOfType(Keymap, index, c, f);
    hide Join, Normal, Plain, Append, TargetOf;
  }

  /** ...in the others all share one, and a package of unknown type has no place. */
  lemma {:induction false} PlainByType(index: string, c: Path, f: Path)
    requires Plain(index) && Normal(c) && Normal(f) && !c.absolute && !f.absolute
    ensures var parts := t => TargetOf(t, index, Join(c), Join(f)).parts;
      && parts(Data) == ["Data"] + f.parts && parts(Extension) == ["UserPlugins"] + f.parts
      && parts(Theme) == ["ColorThemes"] + f.parts && parts(LangPack) == ["LangPack"] + f.parts
      && parts(WebInterface) == ["reaper_www_root"] + f.parts
      && parts(ProjectTemplate) == ["ProjectTemplates"] + f.parts
      && parts(TrackTemplate) == ["TrackTemplates"] + f.parts && parts(MIDINoteNames) == ["MIDINoteNames"] + f.parts
    ensures TargetOf(Unknown, index, Join(c), Join(f)) == EMPTY_PATH
  {
    assert TargetOf(Unknown, index, Join(c), Join(f)) == Append(EMPTY_PATH, "", true);
    hide Join, Append, TargetOf;
    TargetOfType(Data, index, c, f);
    TargetOfType(Extension, index, c, f);
    TargetOfType(Theme, index, c, f);
    TargetOfType(LangPack, index, c, f);
    TargetOfType(WebInterface, index, c, f);
    TargetOfType(ProjectTemplate, index, c, f);
    TargetOfType(TrackTemplate, index, c, f);
    TargetOfType(MIDINoteNames, index, c, f);
    hide Normal, Plain;
  }

  lemma {:induction false} TargetOfType(t: PackageType, index: string, c: Path, f: Path)
    requires !t.Unknown? && Plain(index) && Normal(c) && Normal(f) && !c.absolute && !f.absolute
    ensures TargetOf(t, index, Join(c), Join(f)).parts ==
      [TypeDirectory(t)] + if Categorised(t) then [index] + c.parts + f.parts else f.parts
  {
    hide TargetOf, Join, TypeDirectory;
    if Categorised(t) {
      CategorisedTarget(t, index, c, f);
      assert [TypeDirectory(t), index] + c.parts + f.parts == [TypeDirectory(t)] + ([index] + c.parts + f.parts);
    } else {
      PlainTarget(t, index, Join(c), f);
    }
  }

  /** A source without a type or a file of its own takes the package's type and name. */
  lemma {:induction false} TargetDefaults(s: Source)
    ensures s.typeOverride.Unknown? && s.file == "" ==>
      TargetPath(s) == TargetOf(s.packageType, s.index, s.category, s.packageName)
    ensures !s.typeOverride.Unknown? && s.file == "" ==>
      TargetPath(s) == TargetOf(s.typeOverride, s.index, s.category, s.packageName)
    ensures s.typeOverride.Unknown? && s.file != "" ==>
      TargetPath(s) == TargetOf(s.packageType, s.index, s.category, s.file)
    ensures !s.typeOverride.Unknown? && s.file != "" ==>
      TargetPath(s) == TargetOf(s.typeOverride, s.index, s.category, s.file)
  {
  }

  lemma {:induction false} TypeDirectoryPlain(t: PackageType)
    requires !t.Unknown?
    ensures Plain(TypeDirectory(t))
  {
    hide Append;
  }

  /**
   * Whatever the category and file text, `..` included, the target is relative, has only plain
   * parts, and stays under the directory of its type (and of its repository when categorised).
   */
  lemma {:induction false} TargetInside(t: PackageType, index: string, category: string, file: string)
    requires !t.Unknown? && Plain(index)
    ensures var target := TargetOf(t, index, category, file);
      && Normal(target) && !target.absolute
      && (if Categorised(t) then [TypeDirectory(t), index] else [TypeDirectory(t)]) <= target.parts
  {
    TypeDirectoryPlain(t);
    AppendPlain(EMPTY_PATH, TypeDirectory(t), true);
    var top := Append(EMPTY_PATH, TypeDirectory(t), true);
    assert top == Path(false, [TypeDirectory(t)]);
    if Categorised(t) {
      AppendPlain(top, index, true);
      AppendNormal(EMPTY_PATH, category, true);
      AppendNormal(Parse(category), file, true);
      assert Append(top, index, true).parts == [TypeDirectory(t), index];
    } else {
      AppendNormal(top, file, false);
    }
  }

  /** Categorised sources of two repositories can never want the same file. */
  lemma {:induction false} RepositoriesApart(
    t: PackageType, index: string, category: string, file: string,
    t': PackageType, index': string, category': string, file': string)
    requires Categorised(t) && Categorised(t') && Plain(index) && Plain(index')
    requires TargetOf(t, index, category, file) == TargetOf(t', index', category', file')
    ensures index == index' && t == t'
  {
    TargetInside(t, index, category, file);
    TargetInside(t', index', category', file');
    var parts := TargetOf(t, index, category, file).parts;
    assert parts[..2] == [TypeDirectory(t), index] == [TypeDirectory(t'), index'];
    TypeDirectoryInjective(t, t');
  }

  lemma {:induction false} TypeDirectoryInjective(t: PackageType, t': PackageType)
    ensures TypeDirectory(t) == TypeDirectory(t') <==> t == t'
  {
  }

  // ----- the sources of a version -----

  function TargetsOf(sources: seq<Source>): seq<Path> {
    seq(|sources|, i requires 0 <= i < |sources| => TargetPath(sources[i]))
  }

  datatype Added = Kept | Dropped | ForeignSource

  /** The sources of the version `id`. */
  class VersionSources {
    const id: int
    var sources: seq<Source>
    var files: set<Path>

    ghost predicate Valid()
      reads this
    {
      && Distinct(TargetsOf(sources))
      && files == set path | path in TargetsOf(sources)
    }

    constructor (id: int)
      ensures Valid() && this.id == id && sources == []
    {
      this.id := id;
      sources, files := [], {};
    }

    /**
     * `Version::addSource`: a source of another version is an error, one for another platform or
     * with a path already taken is dropped.
     */
    method AddSource(source: Source) returns (outcome: Added)
      requires Valid()
      modifies this
      ensures Valid()
      ensures outcome.ForeignSource? <==> source.version != id
      ensures outcome.Kept? <==>
        source.version == id && source.platform && TargetPath(source) !in TargetsOf(old(sources))
      ensures sources == if outcome.Kept? then old(sources) + [source] else old(sources)
    {
      if source.version != id {
        return ForeignSource;
      }
      if !source.platform {
        return Dropped;
      }
      var path := ComputeTargetPath(source);
      if path in files {
        return Dropped;
      }
      files := files + {path};
      sources := sources + [source];
      assert TargetsOf(sources) == TargetsOf(old(sources)) + [path];
      return Kept;
    }
  }
}
