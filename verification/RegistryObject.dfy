/** The registry of src/registry.cpp as an object over a connection, statement by statement. */
module RegistryObject {
  import opened Basics
  import opened Savepoints
  import opened Paths
  import opened Targets
  import opened RegistryTables

  // ----- texts -----

  /** Every stored path is the text of a normal path, so reading it back loses nothing. */
  ghost predicate Canonical(t: Tables) {
    forall r <- t.files :: Join(Parse(r.path)) == r.path
  }

  lemma {:induction false} PushCanonical(t: Tables, ver: Version, flags: int)
    requires Consistent(t) && Canonical(t) && ver.WellFormed()
    ensures Canonical(Push(t, ver, flags))
  {
    if !Conflicts(t, ver, flags) {
      PushTables(t, ver, flags);
      forall r | r in Push(t, ver, flags).files
        ensures Join(Parse(r.path)) == r.path
      {
        if r in OwnRows(EntryIdFor(t, ver.key), ver) {
          var i :| 0 <= i < |ver.files| && r.path == Join(ver.files[i].path);
          ParseJoin(ver.files[i].path);
        }
      }
    }
  }

  /** Comparing a stored file's path with a target is comparing their texts. */
  lemma {:induction false} SamePathSameText(t: Tables, r: FileRow, path: Path)
    requires Canonical(t) && r in t.files && Normal(path)
    ensures Parse(r.path) == path <==> r.path == Join(path)
  {
    ParseJoin(path);
  }

  ghost predicate Sound(t: Tables) {
    Consistent(t) && Canonical(t)
  }

  // ----- what every operation keeps -----

  datatype Op =
    | DoPush(ver: Version, flags: int)
    | DoForget(id: int)
    | DoSetFlags(id: int, flags: int)
    | DoSavepoint
    | DoRestore
    | DoRelease
    | DoCommit

  ghost function Perform(c: Conn<Tables>, op: Op): Option<Conn<Tables>> {
    match op
    case DoPush(ver, flags) => Some(c.(now := Push(c.now, ver, flags)))
    case DoForget(id) => Some(c.(now := Forget(c.now, id)))
    case DoSetFlags(id, flags) => Some(c.(now := SetFlags(c.now, id, flags)))
    case DoSavepoint => Some(Save(c))
    case DoRestore => Restore(c)
    case DoRelease => Release(c)
    case DoCommit => Some(c.(durable := c.now, marks := []))
  }

  ghost function PerformAll(c: Conn<Tables>, ops: seq<Op>): Option<Conn<Tables>>
    decreases |ops|
  {
    if ops == [] then Some(c)
    else
      match Perform(c, ops[0])
      case None => None
      case Some(d) => PerformAll(d, ops[1..])
  }

  ghost predicate AllSound(c: Conn<Tables>) {
    Sound(c.now) && Sound(c.durable) && forall m <- c.marks :: Sound(m.snapshot)
  }

  lemma {:induction false} PerformSound(c: Conn<Tables>, op: Op)
    requires AllSound(c) && (op.DoPush? ==> op.ver.WellFormed())
    ensures Perform(c, op).Some? ==> AllSound(Perform(c, op).value)
  {
    match op
    case DoPush(ver, flags) =>
      PushConsistent(c.now, ver, flags);
      PushCanonical(c.now, ver, flags);
    case DoForget(id) => ForgetEffect(c.now, id);
    case DoSetFlags(id, flags) => SetFlagsEffect(c.now, id, flags);
    case _ =>
  }

  /**
   * Over any sequence of operations, nested or not, what queries see, what is durable and what every
   * savepoint remembers keep one entry per package, one owner per path, and a live entry per file.
   */
  lemma {:induction false} OwnershipInvariant(c: Conn<Tables>, ops: seq<Op>)
    requires AllSound(c) && forall op <- ops :: op.DoPush? ==> op.ver.WellFormed()
    requires PerformAll(c, ops).Some?
    ensures var d := PerformAll(c, ops).value;
      && AllSound(d)
      && (forall path, a, b :: path in FilesOf(d.now, a) && path in FilesOf(d.now, b) ==> a == b)
      && (forall path, id :: id > 0 ==> (OwnerOf(d.now, path) == id <==> path in PathsOf(RowsOf(d.now, id))))
    decreases |ops|
  {
    if ops == [] {
      forall path, a, b | path in FilesOf(c.now, a) && path in FilesOf(c.now, b)
        ensures a == b
      {
        OneOwner(c.now, path, a, b);
      }
      forall path, id | id > 0
        ensures OwnerOf(c.now, path) == id <==> path in PathsOf(RowsOf(c.now, id))
      {
        OwnerIffFile(c.now, path, id);
      }
    } else {
      PerformSound(c, ops[0]);
      OwnershipInvariant(Perform(c, ops[0]).value, ops[1..]);
    }
  }

  /** A run goes on from where it stands, as long as no operation lacks its savepoint. */
  lemma {:induction false} PerformNext(c: Conn<Tables>, ops: seq<Op>, op: Op)
    ensures PerformAll(c, []) == Some(c)
    ensures PerformAll(c, ops + [op]) ==
      match PerformAll(c, ops)
      case None => None
      case Some(d) => Perform(d, op)
    decreases |ops|
  {
    if ops == [] {
      assert (ops + [op])[1..] == [];
    } else {
      assert (ops + [op])[1..] == ops[1..] + [op];
      match Perform(c, ops[0])
      case None =>
      case Some(d) => PerformNext(d, ops[1..], op);
    }
  }

  /** Changes inside a savepoint stay when it is released, and go when it is rolled back. */
  lemma {:induction false} InsideSavepoint(c: Conn<Tables>, ver: Version, flags: int)
    ensures var d := Perform(Perform(c, DoSavepoint).value, DoPush(ver, flags)).value;
      && Perform(d, Op.DoRelease) == Some(c.(now := Push(c.now, ver, flags)))
      && Perform(d, Op.DoRestore).Some? && Perform(d, Op.DoRestore).value.now == c.now
  {
    var saved := Save(c);
    LatestIs(saved.marks, c.counter, |c.marks|);
    assert saved.marks[..|c.marks|] == c.marks;
  }

  // ----- the object -----

  datatype Outcome = Stored(entry: Entry) | Refused(conflicts: seq<Path>) | Thrown

  const NULL_ROW := EntryRow(Key("", "", ""), Info("", Unknown, "", ""), 0)

  /** Conflicts once reported stay reported. */
  lemma {:induction false} ConflictsGrow(ins: Insertion, id: int, files: seq<FileSpec>)
    ensures |InsertFiles(ins, id, files).conflicts| >= |ins.conflicts|
    decreases |files|
  {
    if files != [] {
      ConflictsGrow(InsertFile(ins, id, files[0]), id, files[1..]);
    }
  }

  class Registry {
    const db: Database<Tables>

    ghost predicate Valid()
      reads this, db
    {
      db.Valid() && AllSound(db.conn)
    }

    ghost function Now(): Tables
      reads this, db
    {
      db.conn.now
    }

    /** The tables its open savepoints would bring back. */
    ghost function Stack(): seq<Tables>
      requires Valid()
      reads this, db
    {
      db.Stack()
    }

    /** Opens the registry on the tables that are stored. */
    constructor (stored: Tables)
      requires Sound(stored)
      ensures Valid() && fresh(db) && Now() == db.conn.durable == stored && db.Stack() == []
    {
      db := new Database(stored);
    }

    /** `m_findEntry`. */
    method FindEntry(key: Key) returns (entry: Entry)
      requires Valid()
      ensures entry.id == IdOf(Now(), key)
      ensures entry.row == if HasKey(Now(), key) then Now().entries[entry.id] else NULL_ROW
    {
      var entries := db.conn.now.entries;
      if id :| id in entries && entries[id].key == key {
        return Entry(id, entries[id]);
      }
      return Entry(0, NULL_ROW);
    }

    /** The row id an insertion gets. */
    method FreshId() returns (id: int)
      ensures id == NextId(db.conn.now.entries.Keys)
    {
      var ids := db.conn.now.entries.Keys;
      if ids == {} {
        return 1;
      }
      var m := Pick(ids);
      var rest := ids - {m};
      while rest != {}
        invariant m in ids && rest <= ids
        invariant forall x <- ids - rest :: x <= m
        decreases rest
      {
        var x := Pick(rest);
        assert forall y <- ids - (rest - {x}) :: y == x || y in ids - rest;
        if x > m {
          m := x;
        }
        rest := rest - {x};
      }
      assert forall x <- ids :: x in ids - rest;
      id := m + 1;
    }

    /** `getFiles`. */
    method GetFiles(entry: Entry) returns (rows: set<FileRow>)
      ensures rows == RowsOf(Now(), entry.id)
    {
      if entry.id <= 0 {
        return {};
      }
      rows := set r | r in db.conn.now.files && r.entry == entry.id;
    }

    /** `getOwner`: the entry that owns a path, or the null entry. */
    method GetOwner(path: Path) returns (entry: Entry)
      requires Valid()
      ensures entry.id == OwnerOf(Now(), Join(path))
      ensures entry.id != 0 ==> entry.id in Now().entries && entry.row == Now().entries[entry.id]
    {
      var t := db.conn.now;
      var text := JoinText(path);
      if r :| r in t.files && r.path == text {
        return Entry(r.entry, t.entries[r.entry]);
      }
      return Entry(0, NULL_ROW);
    }

    method Forget(entry: Entry)
      requires Valid()
      modifies db
      ensures Valid() && Now() == RegistryTables.Forget(old(Now()), entry.id)
      ensures Perform(old(db.conn), DoForget(entry.id)) == Some(db.conn)
      ensures db.Stack() == old(db.Stack()) && db.conn.durable == old(db.conn.durable)
    {
      ghost var c := db.conn;
      var t := db.conn.now;
      PerformSound(c, DoForget(entry.id));
      db.Write(Tables(t.entries - {entry.id}, set r | r in t.files && r.entry != entry.id));
    }

    method SetFlags(entry: Entry, flags: int)
      requires Valid()
      modifies db
      ensures Valid() && Now() == RegistryTables.SetFlags(old(Now()), entry.id, flags)
      ensures Perform(old(db.conn), DoSetFlags(entry.id, flags)) == Some(db.conn)
      ensures db.Stack() == old(db.Stack()) && db.conn.durable == old(db.conn.durable)
    {
      var t := db.conn.now;
      PerformSound(db.conn, DoSetFlags(entry.id, flags));
      if entry.id in t.entries {
        db.Write(t.(entries := t.entries[entry.id := t.entries[entry.id].(flags := flags)]));
      }
    }

    /** `push` before the loop over sources: clear the files, then update or insert the entry. */
    method Register(ver: Version, flags: int) returns (id: int)
      requires Valid()
      modifies db
      ensures db.Valid() && db.Stack() == old(db.Stack())
      ensures id == EntryIdFor(old(Now()), ver.key)
      ensures db.conn == old(db.conn).(now := Registered(old(Now()), ver, flags))
    {
      var t := db.conn.now;
      var found := FindEntry(ver.key);
      var cleared := set r | r in t.files && r.entry != found.id;
      id := found.id;
      if id == 0 {
        id := FreshId();
      }
      db.Write(Tables(t.entries[id := EntryRow(ver.key, ver.info, flags)], cleared));
    }

    /** `push`: with `collect` conflicts are listed and undone, without it the first one throws. */
    method Push(ver: Version, flags: int, collect: bool) returns (outcome: Outcome)
      requires Valid() && ver.WellFormed()
      modifies db
      ensures Valid() && db.Stack() == old(db.Stack()) && db.conn.durable == old(db.conn.durable)
      ensures Now() == RegistryTables.Push(old(Now()), ver, flags) == Perform(old(db.conn), DoPush(ver, flags)).value.now
      ensures !Conflicts(old(Now()), ver, flags) ==>
        outcome == Stored(Entry(EntryIdFor(old(Now()), ver.key), EntryRow(ver.key, ver.info, flags)))
      ensures Conflicts(old(Now()), ver, flags) ==>
        outcome == if collect then Refused(Foreign(old(Now()), ver.key, ver.files)) else Thrown
    {
      hide Consistent, Canonical, Foreign, Version.WellFormed;
      ghost var t := Now();
      ghost var goal := Attempt(t, ver, flags);
      PushConflicts(t, ver, flags);
      PerformSound(db.conn, DoPush(ver, flags));
      PerformSound(db.conn, DoSavepoint);
      db.Savepoint();
      ghost var saved := db.conn;
      var id := Register(ver, flags);
      var conflicts: seq<Path> := [];
      for i := 0 to |ver.files|
        invariant db.Valid() && db.Stack() == old(db.Stack()) + [t] && db.conn == saved.(now := Now())
        invariant InsertFiles(Insertion(Now(), conflicts), id, ver.files[i..]) == goal
        invariant !collect ==> conflicts == []
      {
        var file := ver.files[i];
        assert ver.files[i..][0] == file && ver.files[i..][1..] == ver.files[i + 1..];
        var now := db.conn.now;
        var text := JoinText(file.path);
        if r :| r in now.files && r.path == text {
          if !collect {
            ConflictsGrow(InsertFile(Insertion(now, conflicts), id, file), id, ver.files[i + 1..]);
            db.RestoreSavepoint();
            return Thrown;
          }
          conflicts := conflicts + [file.path];
        } else {
          db.Write(now.(files := now.files + {FileRow(id, text, file.sections, file.typeOverride)}));
        }
      }
      assert ver.files[|ver.files|..] == [];
      if conflicts != [] {
        db.RestoreSavepoint();
        outcome := Refused(conflicts);
      } else {
        db.ReleaseSavepoint();
        outcome := Stored(Entry(id, EntryRow(ver.key, ver.info, flags)));
      }
    }

    method Savepoint()
      requires Valid()
      modifies db
      ensures Valid() && Now() == old(Now()) && db.Stack() == old(db.Stack()) + [Now()]
      ensures db.conn.durable == old(db.conn.durable) && Perform(old(db.conn), DoSavepoint) == Some(db.conn)
    {
      PerformSound(db.conn, DoSavepoint);
      db.Savepoint();
    }

    method RestoreSavepoint()
      requires Valid() && db.Stack() != []
      modifies db
      ensures Valid() && Now() == old(db.Stack())[|old(db.Stack())| - 1]
      ensures db.Stack() == old(db.Stack())[..|old(db.Stack())| - 1] && db.conn.durable == old(db.conn.durable)
      ensures Perform(old(db.conn), Op.DoRestore) == Some(db.conn)
    {
      PerformSound(db.conn, Op.DoRestore);
      db.RestoreSavepoint();
    }

    method Commit()
      requires Valid() && db.Stack() == []
      modifies db
      ensures Valid() && db.Stack() == [] && Now() == old(Now()) && db.conn.durable == Now()
      ensures Perform(old(db.conn), DoCommit) == Some(db.conn)
    {
      PerformSound(db.conn, DoCommit);
      db.Commit();
    }
  }
}
