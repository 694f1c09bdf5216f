/** File operations as steps that may fail, on the disk of `DiskAgreement`. */
module Files {
  import opened RegistryTables
  import opened DiskAgreement

  /** The same files but for some of these paths, which are gone. */
  ghost predicate LacksSome(before: Disk, paths: set<string>, after: Disk) {
    && (forall path <- after :: path in before && after[path] == before[path])
    && (forall path <- before :: path !in paths ==> path in after)
  }

  /** File operations as steps with a success flag; on a reliable disk they fail only for lack of a file. */
  class FileSystem {
    const reliable: bool
    var files: Disk

    constructor (files: Disk, reliable: bool)
      ensures this.files == files && this.reliable == reliable
    {
      this.files, this.reliable := files, reliable;
    }

    method Rename(path: string) returns (ok: bool)
      modifies this
      ensures ok ==> Temp(path) in old(files) && files == Move(old(files), path)
      ensures !ok ==> files == old(files)
      ensures reliable && Temp(path) in old(files) ==> ok
    {
      ok := *;
      ok := (ok || reliable) && Temp(path) in files;
      if ok {
        files := Move(files, path);
      }
    }

    /** A download: the file is written where it will wait. */
    method Save(path: string)
      modifies this
      ensures Temp(path) in files && old(files).Keys <= files.Keys
      ensures forall other :: other != Temp(path) ==> Same(old(files), files, other)
    {
      var content: Content := *;
      files := files[Temp(path) := content];
    }

    method Remove(path: string) returns (ok: bool)
      modifies this
      ensures ok ==> path in old(files) && files == old(files) - {path}
      ensures !ok ==> files == old(files)
      ensures reliable ==> files == old(files) - {path}
    {
      ok := *;
      ok := (ok || reliable) && path in files;
      if ok {
        files := files - {path};
      }
    }

    /** Removes the files of some rows, in whatever order. */
    method RemoveAll(rows: set<FileRow>)
      modifies this
      ensures reliable ==> files == old(files) - PathsOf(rows)
      ensures LacksSome(old(files), PathsOf(rows), files)
    {
      var rest := rows;
      while rest != {}
        invariant rest <= rows && LacksSome(old(files), PathsOf(rows), files)
        invariant reliable ==> files == old(files) - PathsOf(rows - rest)
        decreases rest
      {
        var r :| r in rest;
        var _ := Remove(r.path);
        assert PathsOf(rows - (rest - {r})) == PathsOf(rows - rest) + {r.path};
        rest := rest - {r};
      }
      assert rows - rest == rows;
    }

    /** Moves waiting files to their targets until one operation fails. */
    method RenameAll(paths: seq<string>) returns (ok: bool)
      modifies this
      ensures ok ==> files == MoveAll(old(files), paths)
      ensures reliable && AllWaiting(old(files), paths) ==> ok
      ensures !ok ==> exists k :: 0 <= k < |paths| && files == MoveAll(old(files), paths[..k])
    {
      ghost var clean := reliable && AllWaiting(files, paths);
      for i := 0 to |paths|
        invariant MoveAll(files, paths[i..]) == MoveAll(old(files), paths) && files == MoveAll(old(files), paths[..i])
        invariant clean ==> forall k :: i <= k < |paths| ==> Temp(paths[k]) in files
      {
        assert paths[i..][0] == paths[i] && paths[i..][1..] == paths[i + 1..];
        if clean {
          forall k | i < k < |paths|
            ensures Temp(paths[k]) in Move(files, paths[i])
          {
            TempInjective(paths[k], paths[i]);
          }
        }
        ok := Rename(paths[i]);
        MoveAllNext(old(files), paths, i);
        if !ok {
          return;
        }
      }
      return true;
    }
  }
}
