/** The versions of a package (src/package.cpp) and the choice among them. */
module Packages {
  import opened Basics
  import opened RegistryTables
  import opened Versions

  /** A version with its name read. */
  datatype Release = Release(name: VersionName, ver: RegistryTables.Version)
  {
    ghost predicate Valid() {
      && ver.WellFormed() && ver.files != []
      && ParseName(ver.info.version) == Some(name)
    }
  }

  /** The order of the version set: strictly ascending, so no two are equal. */
  ghost predicate Sorted(versions: seq<Release>) {
    forall i, j :: 0 <= i < j < |versions| ==> Compare(versions[i].name, versions[j].name) < 0
  }

  lemma {:induction false} CompareSelf(a: VersionName)
    ensures Compare(a, a) == 0
  {
    CompareSwap(a, a);
  }

  // ----- adding -----

  datatype Added = Added | Foreign | NoSources | Duplicate

  class Package {
    const key: Key
    var versions: seq<Release>

    constructor (key: Key)
      ensures this.key == key && versions == [] && Sorted(versions)
    {
      this.key := key;
      versions := [];
    }

    /** `addVersion`: kept in order, refused when empty or equal to one that is there. */
    method AddVersion(r: Release) returns (outcome: Added)
      requires Sorted(versions)
      modifies this
      ensures Sorted(versions)
      ensures outcome.Foreign? <==> r.ver.key != key
      ensures outcome.NoSources? <==> r.ver.key == key && r.ver.files == []
      ensures outcome.Duplicate? <==> (
        && r.ver.key == key && r.ver.files != []
        && exists v <- old(versions) :: Compare(v.name, r.name) == 0)
      ensures outcome.Added? ==>
        exists k :: 0 <= k <= |old(versions)| && versions == old(versions)[..k] + [r] + old(versions)[k..]
      ensures !outcome.Added? ==> versions == old(versions)
    {
      hide Compare;
      if r.ver.key != key {
        return Foreign;
      }
      if r.ver.files == [] {
        return NoSources;
      }
      var k := 0;
      while k < |versions| && Compare(versions[k].name, r.name) < 0
        invariant k <= |versions|
        invariant forall i :: 0 <= i < k ==> Compare(versions[i].name, r.name) < 0
      {
        k := k + 1;
      }
      forall i | k < i < |versions|
        ensures Compare(versions[i].name, r.name) > 0
      {
        AboveBelow(versions[i].name, versions[k].name, r.name);
      }
      if k < |versions| && Compare(versions[k].name, r.name) == 0 {
        assert versions[k] in versions;
        return Duplicate;
      }
      forall i | k <= i < |versions|
        ensures Compare(r.name, versions[i].name) < 0
      {
        CompareSwap(r.name, versions[i].name);
      }
      versions := versions[..k] + [r] + versions[k..];
      return Added;
    }

    /** `lastVersion`: from the newest down, until what is there would be a step back. */
    method LastVersion(pres: bool, from: VersionName) returns (r: Option<Release>)
      ensures r == Last(versions, pres, from)
    {
      var n: nat := |versions|;
      if n == 0 {
        return None;
      }
      while n > 0
        invariant n <= |versions| && LastBelow(versions, |versions|, pres, from) == LastBelow(versions, n, pres, from)
      {
        n := n - 1;
        if Compare(versions[n].name, from) < 0 {
          break;
        } else if versions[n].name.stable || pres {
          return Some(versions[n]);
        }
      }
      return if from.stable then None else Some(versions[|versions| - 1]);
    }

    /** `findVersion`: the only version with this name, if there is one. */
    method FindVersion(name: VersionName) returns (r: Option<Release>)
      requires Sorted(versions)
      ensures r.Some? <==> exists v <- versions :: Compare(v.name, name) == 0
      ensures r.Some? ==> forall v <- versions :: Compare(v.name, name) == 0 <==> v == r.value
    {
      for i := 0 to |versions|
        invariant forall k :: 0 <= k < i ==> Compare(versions[k].name, name) != 0
      {
        if Compare(versions[i].name, name) == 0 {
          forall k | 0 <= k < |versions| && Compare(versions[k].name, name) == 0
            ensures k == i
          {
            OneEqual(versions, i, k, name);
          }
          return Some(versions[i]);
        }
      }
      return None;
    }
  }

  lemma {:induction false} AboveBelow(a: VersionName, b: VersionName, c: VersionName)
    requires Compare(b, a) < 0 && Compare(b, c) >= 0
    ensures Compare(a, c) > 0
  {
    CompareSwap(b, c);
    CompareSwap(a, c);
    CompareTransitive(c, b, a);
  }

  lemma {:induction false} OneEqual(versions: seq<Release>, i: nat, k: nat, name: VersionName)
    requires Sorted(versions) && i < |versions| && k < |versions|
    requires Compare(versions[i].name, name) == 0 && Compare(versions[k].name, name) == 0
    ensures i == k
  {
    var a, b := versions[i].name, versions[k].name;
    CompareSwap(a, name);
    CompareSwap(b, name);
    CompareTransitive(a, name, b);
    CompareTransitive(b, name, a);
    CompareSwap(a, b);
  }

  // ----- choosing -----

  /** What `lastVersion` answers once only the first `n` versions are left to look at. */
  function LastBelow(versions: seq<Release>, n: nat, pres: bool, from: VersionName): Option<Release>
    requires n <= |versions| && versions != []
    decreases n
  {
    if n == 0 || Compare(versions[n - 1].name, from) < 0 then
      if from.stable then None else Some(versions[|versions| - 1])
    else if versions[n - 1].name.stable || pres then Some(versions[n - 1])
    else LastBelow(versions, n - 1, pres, from)
  }

  function Last(versions: seq<Release>, pres: bool, from: VersionName): Option<Release> {
    if versions == [] then None else LastBelow(versions, |versions|, pres, from)
  }

  /** Not a step back, and stable unless pre-releases are wanted. */
  predicate Admissible(r: Release, pres: bool, from: VersionName) {
    Compare(r.name, from) >= 0 && (r.name.stable || pres)
  }

  ghost predicate Greatest(versions: seq<Release>, r: Release) {
    r in versions && forall v <- versions :: Compare(v.name, r.name) <= 0
  }

  ghost predicate GreatestAdmissible(versions: seq<Release>, pres: bool, from: VersionName, r: Release) {
    && r in versions && Admissible(r, pres, from)
    && forall v <- versions :: Admissible(v, pres, from) ==> Compare(v.name, r.name) <= 0
  }

  ghost predicate NoneAdmissible(versions: seq<Release>, pres: bool, from: VersionName) {
    forall v <- versions :: !Admissible(v, pres, from)
  }

  lemma {:induction false} NewestGreatest(versions: seq<Release>)
    requires Sorted(versions) && versions != []
    ensures Greatest(versions, versions[|versions| - 1])
  {
    CompareSelf(versions[|versions| - 1].name);
  }

  lemma {:induction false} LastBelowMeaning(versions: seq<Release>, n: nat, pres: bool, from: VersionName)
    requires Sorted(versions) && n <= |versions| && versions != []
    requires forall i :: n <= i < |versions| ==> !Admissible(versions[i], pres, from)
    ensures match LastBelow(versions, n, pres, from)
      case Some(r) =>
        || GreatestAdmissible(versions, pres, from, r)
        || (!from.stable && Greatest(versions, r) && NoneAdmissible(versions, pres, from))
      case None => from.stable && NoneAdmissible(versions, pres, from)
    decreases n
  {
    hide Compare;
    if n == 0 {
      NewestGreatest(versions);
    } else if Compare(versions[n - 1].name, from) < 0 {
      NewestGreatest(versions);
      forall i | 0 <= i < n
        ensures Compare(versions[i].name, from) < 0
      {
        if i < n - 1 {
          CompareTransitive(versions[i].name, versions[n - 1].name, from);
        }
      }
    } else if versions[n - 1].name.stable || pres {
      CompareSelf(versions[n - 1].name);
    } else {
      LastBelowMeaning(versions, n - 1, pres, from);
    }
  }

  /**
   * `lastVersion` picks the greatest admissible version; when there is none, nothing for a stable
   * starting point and the newest version for an unstable one.
   */
  lemma {:induction false} LastMeaning(versions: seq<Release>, pres: bool, from: VersionName)
    requires Sorted(versions)
    ensures match Last(versions, pres, from)
      case Some(r) =>
        || GreatestAdmissible(versions, pres, from, r)
        || (!from.stable && Greatest(versions, r) && NoneAdmissible(versions, pres, from))
      case None => (from.stable || versions == []) && NoneAdmissible(versions, pres, from)
  {
    if versions != [] {
      LastBelowMeaning(versions, |versions|, pres, from);
    }
  }

  lemma {:induction false} SameRank(versions: seq<Release>, a: Release, b: Release)
    requires Sorted(versions) && a in versions && b in versions
    requires Compare(a.name, b.name) >= 0 && Compare(b.name, a.name) >= 0
    ensures a == b
  {
    CompareSwap(a.name, b.name);
    CompareSelf(b.name);
    var i :| 0 <= i < |versions| && versions[i] == a;
    var j :| 0 <= j < |versions| && versions[j] == b;
    OneEqual(versions, i, j, b.name);
  }

  /** Asking again from the answer gives the answer again. */
  lemma {:induction false} LastIdempotent(versions: seq<Release>, pres: bool, from: VersionName)
    requires Sorted(versions) && Last(versions, pres, from).Some?
    ensures var r := Last(versions, pres, from).value; Last(versions, pres, r.name) == Some(r)
  {
    hide Compare, Last;
    var r := Last(versions, pres, from).value;
    LastMeaning(versions, pres, from);
    LastMeaning(versions, pres, r.name);
    CompareSelf(r.name);
    if Admissible(r, pres, from) {
      assert Admissible(r, pres, r.name);
      var s := Last(versions, pres, r.name).value;
      CompareSwap(s.name, r.name);
      CompareSwap(r.name, from);
      if Compare(s.name, from) < 0 {
        CompareTransitive(s.name, from, r.name);
      }
      SameRank(versions, s, r);
    } else if r.name.stable || pres {
      assert Admissible(r, pres, r.name);
      var s := Last(versions, pres, r.name).value;
      CompareSwap(s.name, r.name);
      SameRank(versions, s, r);
    } else {
      NoneButNewest(versions, pres, r);
    }
  }

  /** From the newest version itself, an unstable one nobody asked for, there is nothing but it. */
  lemma {:induction false} NoneButNewest(versions: seq<Release>, pres: bool, r: Release)
    requires Sorted(versions) && Greatest(versions, r) && !r.name.stable && !pres
    ensures Last(versions, pres, r.name) == Some(r)
  {
    hide Compare, Last;
    LastMeaning(versions, pres, r.name);
    forall v | v in versions
      ensures !Admissible(v, pres, r.name)
    {
      if Admissible(v, pres, r.name) {
        CompareSwap(v.name, r.name);
        SameRank(versions, v, r);
      }
    }
    var s := Last(versions, pres, r.name).value;
    CompareSwap(s.name, r.name);
    SameRank(versions, s, r);
  }
}
