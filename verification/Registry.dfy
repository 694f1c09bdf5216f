/** The tables of src/registry.cpp, its statements as functions on them, and what they keep. */
module RegistryTables {
  import opened Basics
  import opened Paths
  import opened Targets

  datatype Key = Key(remote: string, category: string, package: string)

  datatype Info = Info(description: string, ptype: PackageType, version: string, author: string)

  datatype EntryRow = EntryRow(key: Key, info: Info, flags: int)

  datatype FileRow = FileRow(entry: int, path: string, sections: int, typeOverride: PackageType)

  /** The table `entries` by primary key, and the rows of `files`. */
  datatype Tables = Tables(entries: map<int, EntryRow>, files: set<FileRow>)

  /** What queries hand out; id 0 stands for "no entry". */
  datatype Entry = Entry(id: int, row: EntryRow)

  /** A source as the registry sees it: where it lands, its sections and its own type. */
  datatype FileSpec = FileSpec(path: Path, sections: int, typeOverride: PackageType)
  {
    /** The text the registry stores. */
    function Text(): string { Join(path) }
  }

  datatype Version = Version(key: Key, info: Info, files: seq<FileSpec>)
  {
    ghost predicate WellFormed() {
      && (forall i :: 0 <= i < |files| ==> Normal(files[i].path) && !files[i].path.absolute)
      && (forall i, j :: 0 <= i < j < |files| ==> files[i].path != files[j].path)
    }

    ghost function Texts(): set<string> {
      set i | 0 <= i < |files| :: files[i].Text()
    }
  }

  function FileSpecOf(s: Source): FileSpec {
    FileSpec(TargetPath(s), s.sections, s.typeOverride)
  }

  function VersionOf(key: Key, info: Info, sources: seq<Source>): Version {
    Version(key, info, seq(|sources|, i requires 0 <= i < |sources| => FileSpecOf(sources[i])))
  }

  /** The sources `addSource` keeps, of known types below valid repository names, are well-formed. */
  lemma {:induction false} VersionOfWellFormed(key: Key, info: Info, sources: seq<Source>)
    requires Distinct(TargetsOf(sources))
    requires forall i :: 0 <= i < |sources| ==> Plain(sources[i].index) && !sources[i].Type().Unknown?
    ensures VersionOf(key, info, sources).WellFormed()
    ensures var ver := VersionOf(key, info, sources);
      && ver.key == key && ver.info == info && |ver.files| == |sources|
      && forall i :: 0 <= i < |sources| ==>
           ver.files[i] == FileSpec(TargetPath(sources[i]), sources[i].sections, sources[i].typeOverride)
  {
    var files := VersionOf(key, info, sources).files;
    forall i | 0 <= i < |files|
      ensures Normal(files[i].path) && !files[i].path.absolute
    {
      TargetInside(sources[i].Type(), sources[i].index, sources[i].category, sources[i].File());
    }
    forall i, j | 0 <= i < j < |files|
      ensures files[i].path != files[j].path
    {
      assert TargetsOf(sources)[i] != TargetsOf(sources)[j];
    }
  }

  ghost predicate DistinctTexts(files: seq<FileSpec>) {
    forall i, j :: 0 <= i < j < |files| ==> files[i].Text() != files[j].Text()
  }

  /** Distinct target paths stay distinct as texts, because `join` is injective on them. */
  lemma {:induction false} TextsDistinct(ver: Version)
    requires ver.WellFormed()
    ensures DistinctTexts(ver.files)
  {
    forall i, j | 0 <= i < j < |ver.files|
      ensures ver.files[i].Text() != ver.files[j].Text()
    {
      JoinInjective(ver.files[i].path, ver.files[j].path);
    }
  }

  // ----- constraints -----

  /** Primary keys are positive, package keys unique, paths unique, and every file has an entry. */
  ghost predicate Consistent(t: Tables) {
    && (forall id <- t.entries :: id > 0)
    && (forall i, j :: i in t.entries && j in t.entries && t.entries[i].key == t.entries[j].key ==> i == j)
    && (forall r <- t.files :: r.entry in t.entries)
    && (forall r, s :: r in t.files && s in t.files && r.path == s.path ==> r == s)
  }

  ghost predicate HasKey(t: Tables, key: Key) {
    exists id :: id in t.entries && t.entries[id].key == key
  }

  ghost predicate HasPath(t: Tables, path: string) {
    exists r :: r in t.files && r.path == path
  }

  // ----- queries -----

  /** `m_findEntry`: the id under which a package is registered, or 0. */
  ghost function IdOf(t: Tables, key: Key): (id: int)
    ensures HasKey(t, key) ==> id in t.entries && t.entries[id].key == key
    ensures !HasKey(t, key) ==> id == 0
  {
    if HasKey(t, key) then
      var id :| id in t.entries && t.entries[id].key == key; id
    else 0
  }

  /** `getFiles`: the rows of an entry, none for the null entry. */
  ghost function RowsOf(t: Tables, id: int): set<FileRow> {
    if id <= 0 then {} else set r | r in t.files && r.entry == id
  }

  /** `getOwner`: the id of the entry that owns a path, or 0. */
  ghost function OwnerOf(t: Tables, path: string): (id: int)
    ensures !HasPath(t, path) ==> id == 0
  {
    if HasPath(t, path) then
      var r :| r in t.files && r.path == path; r.entry
    else 0
  }

  ghost function PathsOf(rows: set<FileRow>): set<string> {
    set r | r in rows :: r.path
  }

  /** The paths a package owns, whatever its id. */
  ghost function FilesOf(t: Tables, key: Key): set<string> {
    PathsOf(RowsOf(t, IdOf(t, key)))
  }

  /** A path is owned by an entry exactly when it is among that entry's files. */
  lemma {:induction false} OwnerIffFile(t: Tables, path: string, id: int)
    requires Consistent(t) && id > 0
    ensures OwnerOf(t, path) == id <==> path in PathsOf(RowsOf(t, id))
  {
  }

  /** No path has two owners. */
  lemma {:induction false} OneOwner(t: Tables, path: string, a: Key, b: Key)
    requires Consistent(t) && path in FilesOf(t, a) && path in FilesOf(t, b)
    ensures a == b
  {
    var r :| r in RowsOf(t, IdOf(t, a)) && r.path == path;
    var s :| s in RowsOf(t, IdOf(t, b)) && s.path == path;
    assert r == s;
  }

  lemma {:induction false} IdOfIs(t: Tables, key: Key, id: int)
    requires Consistent(t) && id in t.entries && t.entries[id].key == key
    ensures IdOf(t, key) == id
  {
  }

  // ----- statements -----

  /** `DELETE FROM files` and `DELETE FROM entries` for an id. */
  ghost function Forget(t: Tables, id: int): Tables {
    Tables(t.entries - {id}, set r | r in t.files && r.entry != id)
  }

  ghost function SetFlags(t: Tables, id: int, flags: int): Tables {
    if id in t.entries then t.(entries := t.entries[id := t.entries[id].(flags := flags)]) else t
  }

  ghost function AnyOf<T>(s: set<T>): T
    requires s != {}
  {
    var x :| x in s; x
  }

  lemma {:induction false} GreatestExists(s: set<int>)
    requires s != {}
    ensures exists m :: m in s && forall x <- s :: x <= m
    decreases |s|
  {
    var a := AnyOf(s);
    if s == {a} {
      assert forall x <- s :: x <= a;
    } else {
      GreatestExists(s - {a});
      var b :| b in s - {a} && forall x <- s - {a} :: x <= b;
      var m := if a < b then b else a;
      assert forall x <- s :: x == a || x in s - {a};
      assert m in s && forall x <- s :: x <= m;
    }
  }

  /** SQLite's choice of a row id: one more than the greatest in the table. */
  ghost function NextId(ids: set<int>): (id: int)
    ensures (forall x <- ids :: x < id) && (ids == {} ==> id == 1) && (ids != {} ==> id - 1 in ids)
    ensures id !in ids
    ensures (forall x <- ids :: x > 0) ==> id > 0
  {
    if ids == {} then 1
    else
      GreatestExists(ids);
      var m :| m in ids && forall x <- ids :: x <= m;
      m + 1
  }

  ghost function ClearFiles(t: Tables, key: Key): Tables {
    var id := IdOf(t, key);
    t.(files := set r | r in t.files && r.entry != id)
  }

  ghost function EntryIdFor(t: Tables, key: Key): int {
    if HasKey(t, key) then IdOf(t, key) else NextId(t.entries.Keys)
  }

  /** `push` up to the loop over sources: files cleared, entry inserted or updated. */
  ghost function Registered(t: Tables, ver: Version, flags: int): Tables {
    var cleared := ClearFiles(t, ver.key);
    cleared.(entries := cleared.entries[EntryIdFor(t, ver.key) := EntryRow(ver.key, ver.info, flags)])
  }

  function RowFor(id: int, file: FileSpec): FileRow {
    FileRow(id, file.Text(), file.sections, file.typeOverride)
  }

  datatype Insertion = Insertion(tables: Tables, conflicts: seq<Path>)

  /** One `INSERT INTO files`: refused by the uniqueness of `path`. */
  ghost function InsertFile(ins: Insertion, id: int, file: FileSpec): Insertion {
    if HasPath(ins.tables, file.Text()) then ins.(conflicts := ins.conflicts + [file.path])
    else ins.(tables := ins.tables.(files := ins.tables.files + {RowFor(id, file)}))
  }

  ghost function InsertFiles(ins: Insertion, id: int, files: seq<FileSpec>): Insertion
    decreases |files|
  {
    if files == [] then ins
    else InsertFiles(InsertFile(ins, id, files[0]), id, files[1..])
  }

  /** Everything `push` tries before it releases or restores its savepoint. */
  ghost function Attempt(t: Tables, ver: Version, flags: int): Insertion {
    InsertFiles(Insertion(Registered(t, ver, flags), []), EntryIdFor(t, ver.key), ver.files)
  }

  ghost predicate Conflicts(t: Tables, ver: Version, flags: int) {
    Attempt(t, ver, flags).conflicts != []
  }

  /** `push` as seen from outside: a refused push changes nothing. */
  ghost function Push(t: Tables, ver: Version, flags: int): Tables {
    if Conflicts(t, ver, flags) then t else Attempt(t, ver, flags).tables
  }

  // ----- what push does -----

  /** The paths the tables already hold, in source order. */
  ghost function Taken(t: Tables, files: seq<FileSpec>): seq<Path>
    decreases |files|
  {
    if files == [] then []
    else if HasPath(t, files[0].Text()) then [files[0].path] + Taken(t, files[1..])
    else Taken(t, files[1..])
  }

  ghost function FreeRows(t: Tables, id: int, files: seq<FileSpec>): set<FileRow> {
    set i | 0 <= i < |files| && !HasPath(t, files[i].Text()) :: RowFor(id, files[i])
  }

  lemma {:induction false} TakenSame(t: Tables, u: Tables, files: seq<FileSpec>)
    requires forall i :: 0 <= i < |files| ==> HasPath(t, files[i].Text()) == HasPath(u, files[i].Text())
    ensures Taken(t, files) == Taken(u, files)
    decreases |files|
  {
    if files != [] {
      TakenSame(t, u, files[1..]);
    }
  }

  lemma {:induction false} InsertFileEffect(ins: Insertion, id: int, files: seq<FileSpec>)
    requires files != [] && DistinctTexts(files)
    ensures var next := InsertFile(ins, id, files[0]);
      forall i :: 0 <= i < |files[1..]| ==>
        HasPath(next.tables, files[1..][i].Text()) == HasPath(ins.tables, files[1..][i].Text())
  {
    var next := InsertFile(ins, id, files[0]);
    forall i | 0 <= i < |files[1..]|
      ensures HasPath(next.tables, files[1..][i].Text()) == HasPath(ins.tables, files[1..][i].Text())
    {
      assert files[0].Text() != files[i + 1].Text();
    }
  }

  /** Inserting files one by one takes the free paths and reports the taken ones. */
  lemma {:induction false} InsertFilesEffect(ins: Insertion, id: int, files: seq<FileSpec>)
    requires DistinctTexts(files)
    ensures InsertFiles(ins, id, files).conflicts == ins.conflicts + Taken(ins.tables, files)
    ensures InsertFiles(ins, id, files).tables
         == ins.tables.(files := ins.tables.files + FreeRows(ins.tables, id, files))
    decreases |files|
  {
    if files != [] {
      var next := InsertFile(ins, id, files[0]);
      InsertFileEffect(ins, id, files);
      InsertFilesEffect(next, id, files[1..]);
      TakenSame(ins.tables, next.tables, files[1..]);
      FreeRowsFirst(ins.tables, next.tables, id, files);
    }
  }

  lemma {:induction false} FreeRowsFirst(t: Tables, u: Tables, id: int, files: seq<FileSpec>)
    requires files != []
    requires forall i :: 0 <= i < |files[1..]| ==> HasPath(t, files[1..][i].Text()) == HasPath(u, files[1..][i].Text())
    ensures FreeRows(t, id, files)
         == (if HasPath(t, files[0].Text()) then {} else {RowFor(id, files[0])}) + FreeRows(u, id, files[1..])
  {
    forall r | r in FreeRows(t, id, files)
      ensures r in (if HasPath(t, files[0].Text()) then {} else {RowFor(id, files[0])}) + FreeRows(u, id, files[1..])
    {
      var i :| 0 <= i < |files| && !HasPath(t, files[i].Text()) && r == RowFor(id, files[i]);
      if i > 0 {
        assert files[1..][i - 1] == files[i];
      }
    }
    forall r | r in FreeRows(u, id, files[1..])
      ensures r in FreeRows(t, id, files)
    {
      var i :| 0 <= i < |files[1..]| && !HasPath(u, files[1..][i].Text()) && r == RowFor(id, files[1..][i]);
      assert files[1..][i] == files[i + 1];
    }
  }

  // ----- the push contract -----

  ghost predicate OwnedByOther(t: Tables, key: Key, path: string) {
    exists r :: r in t.files && r.path == path && r.entry in t.entries && t.entries[r.entry].key != key
  }

  /** The files of a version that other packages own, in source order. */
  ghost function Foreign(t: Tables, key: Key, files: seq<FileSpec>): seq<Path>
    decreases |files|
  {
    if files == [] then []
    else if OwnedByOther(t, key, files[0].Text()) then [files[0].path] + Foreign(t, key, files[1..])
    else Foreign(t, key, files[1..])
  }

  lemma {:induction false} ForeignIsTaken(t: Tables, u: Tables, key: Key, files: seq<FileSpec>)
    requires forall i :: 0 <= i < |files| ==> HasPath(u, files[i].Text()) == OwnedByOther(t, key, files[i].Text())
    ensures Taken(u, files) == Foreign(t, key, files)
    ensures Taken(u, files) == [] <==> forall i :: 0 <= i < |files| ==> !OwnedByOther(t, key, files[i].Text())
    decreases |files|
  {
    if files != [] {
      ForeignIsTaken(t, u, key, files[1..]);
      assert forall i :: 1 <= i < |files| ==> files[i] == files[1..][i - 1];
    }
  }

  /** Clearing the package's own files leaves exactly the paths of the other packages taken. */
  lemma {:induction false} RegisteredHasPath(t: Tables, ver: Version, flags: int, path: string)
    requires Consistent(t)
    ensures HasPath(Registered(t, ver, flags), path) == OwnedByOther(t, ver.key, path)
  {
    var u := Registered(t, ver, flags);
    if r :| r in u.files && r.path == path {
      assert r in t.files && r.entry in t.entries;
    }
    if r :| r in t.files && r.path == path && r.entry in t.entries && t.entries[r.entry].key != ver.key {
      assert r in u.files;
    }
  }

  /**
   * The conflicts `push` finds are exactly the version's paths that other packages own, in source
   * order, each once.
   */
  lemma {:induction false} PushConflicts(t: Tables, ver: Version, flags: int)
    requires Consistent(t) && ver.WellFormed()
    ensures Attempt(t, ver, flags).conflicts == Foreign(t, ver.key, ver.files)
    ensures Conflicts(t, ver, flags) <==> exists path <- ver.Texts() :: OwnedByOther(t, ver.key, path)
  {
    var u := Registered(t, ver, flags);
    TextsDistinct(ver);
    InsertFilesEffect(Insertion(u, []), EntryIdFor(t, ver.key), ver.files);
    forall i | 0 <= i < |ver.files|
      ensures HasPath(u, ver.files[i].Text()) == OwnedByOther(t, ver.key, ver.files[i].Text())
    {
      RegisteredHasPath(t, ver, flags, ver.files[i].Text());
    }
    ForeignIsTaken(t, u, ver.key, ver.files);
    assert forall i :: 0 <= i < |ver.files| ==> ver.files[i].Text() in ver.Texts();
  }

  /** The rows of an entry that holds a version: of each file the text of its path, its sections and its own type. */
  ghost function OwnRows(id: int, ver: Version): set<FileRow> {
    set i | 0 <= i < |ver.files| ::
      FileRow(id, Join(ver.files[i].path), ver.files[i].sections, ver.files[i].typeOverride)
  }

  /** A push without conflict: the package owns exactly the version's files, all else is untouched. */
  lemma {:induction false} PushTables(t: Tables, ver: Version, flags: int)
    requires Consistent(t) && ver.WellFormed() && !Conflicts(t, ver, flags)
    ensures var u, id := Push(t, ver, flags), EntryIdFor(t, ver.key);
      && u.entries == t.entries[id := EntryRow(ver.key, ver.info, flags)]
      && u.files == (set r | r in t.files && r.entry != id) + OwnRows(id, ver)
      && id > 0 && (id in t.entries ==> t.entries[id].key == ver.key)
  {
    var v := Registered(t, ver, flags);
    var id := EntryIdFor(t, ver.key);
    TextsDistinct(ver);
    InsertFilesEffect(Insertion(v, []), id, ver.files);
    PushConflicts(t, ver, flags);
    forall i | 0 <= i < |ver.files|
      ensures !HasPath(v, ver.files[i].Text())
    {
      RegisteredHasPath(t, ver, flags, ver.files[i].Text());
      assert ver.files[i].Text() in ver.Texts();
    }
    assert FreeRows(v, id, ver.files) == OwnRows(id, ver);
    assert forall r <- t.files :: r.entry != IdOf(t, ver.key) <==> r.entry != id;
  }

  lemma {:induction false} OwnRowsPaths(id: int, ver: Version)
    ensures PathsOf(OwnRows(id, ver)) == ver.Texts()
  {
    forall i | 0 <= i < |ver.files|
      ensures ver.files[i].Text() in PathsOf(OwnRows(id, ver))
    {
      assert RowFor(id, ver.files[i]) in OwnRows(id, ver);
    }
  }

  lemma {:induction false} PushConsistent(t: Tables, ver: Version, flags: int)
    requires Consistent(t) && ver.WellFormed()
    ensures Consistent(Push(t, ver, flags))
  {
    if !Conflicts(t, ver, flags) {
      PushTables(t, ver, flags);
      TextsDistinct(ver);
      var u, id := Push(t, ver, flags), EntryIdFor(t, ver.key);
      OwnRowsPaths(id, ver);
      OthersApart(t, ver, flags);
      forall r, s | r in u.files && s in u.files && r.path == s.path
        ensures r == s
      {
        if r in OwnRows(id, ver) && s in OwnRows(id, ver) {
          var i :| 0 <= i < |ver.files| && r == RowFor(id, ver.files[i]);
          var j :| 0 <= j < |ver.files| && s == RowFor(id, ver.files[j]);
        }
      }
    }
  }

  /** Without a conflict no other package's file is among the version's. */
  lemma {:induction false} OthersApart(t: Tables, ver: Version, flags: int)
    requires Consistent(t) && ver.WellFormed() && !Conflicts(t, ver, flags)
    ensures forall r <- t.files :: r.entry != EntryIdFor(t, ver.key) ==> r.path !in ver.Texts()
  {
    forall r | r in t.files && r.entry != EntryIdFor(t, ver.key)
      ensures OwnedByOther(t, ver.key, r.path)
    {
    }
    PushConflicts(t, ver, flags);
  }

  /** The effect of a push, package by package. */
  lemma {:induction false} PushEffect(t: Tables, ver: Version, flags: int)
    requires Consistent(t) && ver.WellFormed() && !Conflicts(t, ver, flags)
    ensures var u := Push(t, ver, flags);
      && FilesOf(u, ver.key) == ver.Texts()
      && IdOf(u, ver.key) == EntryIdFor(t, ver.key)
      && RowsOf(u, IdOf(u, ver.key)) == OwnRows(IdOf(u, ver.key), ver)
      && (forall key :: key != ver.key ==> IdOf(u, key) == IdOf(t, key) && RowsOf(u, IdOf(u, key)) == RowsOf(t, IdOf(t, key)))
  {
    var u, id := Push(t, ver, flags), EntryIdFor(t, ver.key);
    PushTables(t, ver, flags);
    PushConsistent(t, ver, flags);
    IdOfIs(u, ver.key, id);
    OwnRowsPaths(id, ver);
    assert RowsOf(u, id) == OwnRows(id, ver);
    forall key | key != ver.key
      ensures IdOf(u, key) == IdOf(t, key) && RowsOf(u, IdOf(u, key)) == RowsOf(t, IdOf(t, key))
    {
      var k := IdOf(t, key);
      if HasKey(t, key) {
        IdOfIs(u, key, k);
        assert RowsOf(u, k) == RowsOf(t, k);
      } else {
        assert !HasKey(u, key);
      }
    }
  }

  lemma {:induction false} ForgetEffect(t: Tables, id: int)
    requires Consistent(t)
    ensures Consistent(Forget(t, id))
    ensures forall key :: id == 0 || IdOf(t, key) != id ==>
      IdOf(Forget(t, id), key) == IdOf(t, key)
      && RowsOf(Forget(t, id), IdOf(t, key)) == RowsOf(t, IdOf(t, key))
    ensures forall key :: id > 0 && IdOf(t, key) == id ==> !HasKey(Forget(t, id), key)
  {
    var u := Forget(t, id);
    forall key | id == 0 || IdOf(t, key) != id
      ensures IdOf(u, key) == IdOf(t, key) && RowsOf(u, IdOf(t, key)) == RowsOf(t, IdOf(t, key))
    {
      var k := IdOf(t, key);
      if HasKey(t, key) {
        IdOfIs(u, key, k);
        assert RowsOf(u, k) == RowsOf(t, k);
      } else {
        assert !HasKey(u, key);
      }
    }
  }

  lemma {:induction false} SetFlagsEffect(t: Tables, id: int, flags: int)
    requires Consistent(t)
    ensures Consistent(SetFlags(t, id, flags))
    ensures forall key :: IdOf(SetFlags(t, id, flags), key) == IdOf(t, key)
    ensures forall k :: RowsOf(SetFlags(t, id, flags), k) == RowsOf(t, k)
    ensures id in t.entries ==> SetFlags(t, id, flags).entries[id] == t.entries[id].(flags := flags)
  {
    var u := SetFlags(t, id, flags);
    forall key
      ensures IdOf(u, key) == IdOf(t, key)
    {
      var k := IdOf(t, key);
      if HasKey(t, key) {
        IdOfIs(u, key, k);
      } else {
        assert !HasKey(u, key);
      }
    }
  }
}
