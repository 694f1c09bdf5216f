/** What a synchronization makes of an index (src/synchronize.cpp): updates and obsolete entries. */
module Synchronization {
  import opened Basics
  import Paths
  import opened RegistryTables
  import opened RegistryObject
  import opened Replay
  import opened Arbitration
  import opened Versions
  import opened Packages

  // ----- the index -----

  datatype Listing = Listing(name: string, versions: seq<Release>)

  datatype Category = Category(name: string, listings: seq<Listing>)

  /** An index keeps categories, and categories packages, even when two share a name. */
  datatype Index = Index(name: string, categories: seq<Category>)

  datatype Options = Options(autoInstall: bool, bleedingEdge: bool, promptObsolete: bool)

  /** A package of the index, with the key the registry would have it under. */
  datatype Item = Item(key: Key, versions: seq<Release>)
  {
    ghost predicate Valid() {
      && versions != [] && Sorted(versions)
      && forall r <- versions :: r.Valid() && r.ver.key == key
    }
  }

  function ItemsOf(index: string, c: Category): seq<Item> {
    seq(|c.listings|, i requires 0 <= i < |c.listings| =>
      Item(Key(index, c.name, c.listings[i].name), c.listings[i].versions))
  }

  function Flatten(index: string, categories: seq<Category>): seq<Item>
    decreases |categories|
  {
    if categories == [] then [] else ItemsOf(index, categories[0]) + Flatten(index, categories[1..])
  }

  /** `packages()`. */
  function Items(index: Index): seq<Item> {
    Flatten(index.name, index.categories)
  }

  predicate Lists(c: Category, package: string) {
    exists l <- c.listings :: l.name == package
  }

  /** `find`: the category that came first under its name is the only one looked into. */
  predicate Finds(categories: seq<Category>, category: string, package: string)
    decreases |categories|
  {
    categories != [] &&
    if categories[0].name == category then Lists(categories[0], package)
    else Finds(categories[1..], category, package)
  }

  /** The category that `category` finds under its name. */
  ghost predicate FirstNamed(categories: seq<Category>, i: nat) {
    i < |categories| && forall k :: 0 <= k < i ==> categories[k].name != categories[i].name
  }

  /** What any category lists, the first one of its name lists as well. */
  ghost predicate FirstListsAll(categories: seq<Category>) {
    forall i: nat, j: nat :: FirstNamed(categories, i) && i < j < |categories| && categories[j].name == categories[i].name ==>
      forall l <- categories[j].listings :: Lists(categories[i], l.name)
  }

  /** What `addCategory` and `addPackage` let in. */
  ghost predicate Storable(index: Index) {
    forall c <- index.categories :: c.listings != [] && forall l <- c.listings :: l.versions != []
  }

  lemma {:induction false} FlattenMember(index: string, categories: seq<Category>, key: Key)
    ensures (exists item <- Flatten(index, categories) :: item.key == key)
       <==> (key.remote == index && exists c <- categories :: c.name == key.category && Lists(c, key.package))
    decreases |categories|
  {
    if categories != [] {
      var first, rest := categories[0], categories[1..];
      FlattenMember(index, rest, key);
      assert categories == [first] + rest;
      if key.remote == index && first.name == key.category && Lists(first, key.package) {
        var i :| 0 <= i < |first.listings| && first.listings[i].name == key.package;
        assert ItemsOf(index, first)[i].key == key;
        assert ItemsOf(index, first)[i] in Flatten(index, categories);
      }
      if item :| item in ItemsOf(index, first) && item.key == key {
        assert Lists(first, key.package);
        assert first in categories;
      }
    }
  }

  lemma {:induction false} FirstExists(categories: seq<Category>, j: nat) returns (i: nat)
    requires j < |categories|
    ensures i <= j && FirstNamed(categories, i) && categories[i].name == categories[j].name
    decreases j
  {
    if k: nat :| k < j && categories[k].name == categories[j].name {
      i := FirstExists(categories, k);
    } else {
      i := j;
    }
  }

  lemma {:induction false} FindsIs(categories: seq<Category>, i: nat, package: string)
    requires FirstNamed(categories, i)
    ensures Finds(categories, categories[i].name, package) <==> Lists(categories[i], package)
    decreases i
  {
    if i > 0 {
      assert categories[0].name != categories[i].name;
      FindsIs(categories[1..], i - 1, package);
    }
  }

  lemma {:induction false} FindsNothing(categories: seq<Category>, category: string, package: string)
    requires forall c <- categories :: c.name != category
    ensures !Finds(categories, category, package)
    decreases |categories|
  {
    if categories != [] {
      assert categories[0] in categories;
      FindsNothing(categories[1..], category, package);
    }
  }

  /** `find` finds what is listed, all of it exactly when the first category of each name lists all. */
  lemma {:induction false} FindsListed(categories: seq<Category>, category: string, package: string)
    ensures Finds(categories, category, package) ==> exists c <- categories :: c.name == category && Lists(c, package)
    ensures FirstListsAll(categories) && (exists c <- categories :: c.name == category && Lists(c, package)) ==>
      Finds(categories, category, package)
  {
    hide FirstNamed;
    if j: nat :| j < |categories| && categories[j].name == category {
      var i := FirstExists(categories, j);
      FindsIs(categories, i, package);
      assert categories[i] in categories;
      if FirstListsAll(categories) && exists c <- categories :: c.name == category && Lists(c, package) {
        var c :| c in categories && c.name == category && Lists(c, package);
        var n :| 0 <= n < |categories| && categories[n] == c;
        assert n >= i;
        var l :| l in c.listings && l.name == package;
        assert Lists(categories[i], l.name);
      }
    } else {
      forall c | c in categories
        ensures c.name != category
      {
        var n :| 0 <= n < |categories| && categories[n] == c;
      }
      FindsNothing(categories, category, package);
    }
  }

  // ----- the decision for one package -----

  function NameOf(entry: Entry): VersionName {
    match ParseName(entry.row.info.version)
    case Some(name) => name
    case None => NULL_NAME
  }

  predicate Pinned(flags: int) { flags % 2 == 1 }

  predicate WantsPreReleases(flags: int) { flags / 2 % 2 == 1 }

  /** In the word that holds an entry's flags the first bit pins it and the second asks for pre-releases. */
  lemma {:induction false} FlagBits(pinned: bool, pres: bool, others: nat)
    ensures var flags := (if pinned then 1 else 0) + (if pres then 2 else 0) + 4 * others;
      Pinned(flags) == pinned && WantsPreReleases(flags) == pres
  {
    var flags := (if pinned then 1 else 0) + (if pres then 2 else 0) + 4 * others;
    assert flags / 2 == (if pres then 1 else 0) + 2 * others;
  }

  predicate AllPresent(ver: RegistryTables.Version, present: set<string>) {
    forall f <- ver.files :: f.Text() in present
  }

  /** `synchronize`: the version to install for an entry, if any; `present` are the files on disk. */
  function Decide(entry: Entry, versions: seq<Release>, opts: Options, present: set<string>): Option<Release> {
    if entry.id <= 0 && !opts.autoInstall then None
    else
      match Last(versions, opts.bleedingEdge || WantsPreReleases(entry.row.flags), NameOf(entry))
      case None => None
      case Some(latest) =>
        var c := Compare(NameOf(entry), latest.name);
        if c == 0 then
          if AllPresent(latest.ver, present) then None else Some(latest)
        else if Pinned(entry.row.flags) || c > 0 then None
        else Some(latest)
  }

  /** Not a step back from what is installed, and stable unless pre-releases are asked for. */
  ghost predicate Wants(entry: Entry, opts: Options, r: Release) {
    Admissible(r, opts.bleedingEdge || WantsPreReleases(entry.row.flags), NameOf(entry))
  }

  /**
   * The update policy: never a downgrade, never another version of a pinned package, never a
   * pre-release over a stable version unless asked for, the same version only to restore missing
   * files, and never less than the greatest version wanted.
   */
  lemma {:induction false} UpdatePolicy(entry: Entry, versions: seq<Release>, opts: Options, present: set<string>)
    requires Sorted(versions)
    ensures match Decide(entry, versions, opts, present)
      case None => true
      case Some(r) =>
        && r in versions
        && (entry.id <= 0 ==> opts.autoInstall)
        && Compare(r.name, NameOf(entry)) >= 0
        && (Pinned(entry.row.flags) ==> Compare(r.name, NameOf(entry)) == 0)
        && (NameOf(entry).stable && !opts.bleedingEdge && !WantsPreReleases(entry.row.flags) ==> r.name.stable)
        && (Compare(r.name, NameOf(entry)) == 0 ==> !AllPresent(r.ver, present))
        && (forall v <- versions :: Wants(entry, opts, v) ==> Compare(v.name, r.name) <= 0)
  {
    hide Compare, Last;
    var pres := opts.bleedingEdge || WantsPreReleases(entry.row.flags);
    LastMeaning(versions, pres, NameOf(entry));
    match Decide(entry, versions, opts, present)
    case None =>
    case Some(r) => CompareSwap(NameOf(entry), r.name);
  }

  /** The version an update would go to: the greatest wanted, or past an installed pre-release the newest if none is. */
  ghost predicate Aimed(entry: Entry, versions: seq<Release>, opts: Options, r: Release) {
    && r in versions
    && if exists v <- versions :: Wants(entry, opts, v) then
         Wants(entry, opts, r) && forall v <- versions :: Wants(entry, opts, v) ==> Compare(v.name, r.name) <= 0
       else
         !NameOf(entry).stable && forall v <- versions :: Compare(v.name, r.name) <= 0
  }

  /** Why the version aimed at is installed: it is newer and the package not pinned, or files of it are missing. */
  ghost predicate Due(entry: Entry, present: set<string>, r: Release) {
    || (Earlier(NameOf(entry), r.name) && !Pinned(entry.row.flags))
    || (Compare(r.name, NameOf(entry)) == 0 && exists f <- r.ver.files :: Paths.Join(f.path) !in present)
  }

  lemma {:induction false} AimedIsLast(entry: Entry, versions: seq<Release>, opts: Options, r: Release)
    requires Sorted(versions)
    ensures var pres := opts.bleedingEdge || WantsPreReleases(entry.row.flags);
      Last(versions, pres, NameOf(entry)) == Some(r) <==> Aimed(entry, versions, opts, r)
  {
    hide Compare, Last, Sorted;
    var pres := opts.bleedingEdge || WantsPreReleases(entry.row.flags);
    LastMeaning(versions, pres, NameOf(entry));
    if Aimed(entry, versions, opts, r) {
      assert r in versions;
      var s := Last(versions, pres, NameOf(entry)).value;
      CompareSwap(s.name, r.name);
      SameRank(versions, s, r);
    }
  }

  /**
   * Exactly when a synchronization installs which version: the package is installed or new ones are
   * wanted, and the version aimed at is due.
   */
  lemma {:induction false} DecideExactly(
    entry: Entry, versions: seq<Release>, opts: Options, present: set<string>, r: Release)
    requires Sorted(versions)
    ensures Decide(entry, versions, opts, present) == Some(r) <==>
      && (entry.id > 0 || opts.autoInstall)
      && Aimed(entry, versions, opts, r) && Due(entry, present, r)
  {
    hide Compare, Last, Aimed, Sorted;
    var latest := Last(versions, opts.bleedingEdge || WantsPreReleases(entry.row.flags), NameOf(entry));
    AimedIsLast(entry, versions, opts, r);
    CompareMeaning(NameOf(entry), r.name);
    CompareSwap(NameOf(entry), r.name);
    hide Earlier;
  }

  /** An installed version that is still the greatest wanted is restored when a file is gone, pinned or not. */
  lemma {:induction false} Restored(entry: Entry, versions: seq<Release>, opts: Options, present: set<string>, v: Release)
    requires Sorted(versions) && v in versions && Wants(entry, opts, v) && Compare(v.name, NameOf(entry)) == 0
    requires forall w <- versions :: Wants(entry, opts, w) ==> Compare(w.name, v.name) <= 0
    requires (exists f <- v.ver.files :: Paths.Join(f.path) !in present) && (entry.id > 0 || opts.autoInstall)
    ensures Decide(entry, versions, opts, present) == Some(v)
  {
    DecideExactly(entry, versions, opts, present, v);
    hide Decide, Compare;
  }

  /** A new package is installed only if new ones are wanted, in its greatest version that is stable or asked for. */
  lemma {:induction false} FirstInstall(versions: seq<Release>, opts: Options, present: set<string>, r: Release)
    requires Sorted(versions) && forall v <- versions :: !v.name.Null()
    ensures Decide(Entry(0, NULL_ROW), versions, opts, present) == Some(r) <==>
      && opts.autoInstall && r in versions && (r.name.stable || opts.bleedingEdge)
      && forall v <- versions :: v.name.stable || opts.bleedingEdge ==> Compare(v.name, r.name) <= 0
  {
    var entry := Entry(0, NULL_ROW);
    assert NameOf(entry) == NULL_NAME;
    DecideExactly(entry, versions, opts, present, r);
    forall v | v in versions
      ensures Wants(entry, opts, v) <==> v.name.stable || opts.bleedingEdge
    {
    }
    hide Decide;
  }

  lemma {:induction false} DecideWellFormed(entry: Entry, item: Item, opts: Options, present: set<string>)
    requires item.Valid()
    ensures Decide(entry, item.versions, opts, present).Some? ==>
      Decide(entry, item.versions, opts, present).value.ver.WellFormed()
  {
    UpdatePolicy(entry, item.versions, opts, present);
    hide Decide;
  }

  /** Nothing is put off: when some version is newer and wanted, an unpinned package gets one at least as new... */
  lemma {:induction false} UpdateReached(entry: Entry, versions: seq<Release>, opts: Options, present: set<string>, v: Release)
    requires Sorted(versions) && v in versions && Wants(entry, opts, v) && Compare(v.name, NameOf(entry)) > 0
    requires (entry.id > 0 || opts.autoInstall) && !Pinned(entry.row.flags)
    ensures Decide(entry, versions, opts, present).Some?
    ensures Compare(Decide(entry, versions, opts, present).value.name, v.name) >= 0
  {
    hide Compare, Last;
    var pres := opts.bleedingEdge || WantsPreReleases(entry.row.flags);
    LastMeaning(versions, pres, NameOf(entry));
    var r := Last(versions, pres, NameOf(entry)).value;
    assert Admissible(v, pres, NameOf(entry));
    CompareSwap(v.name, r.name);
    CompareSwap(NameOf(entry), r.name);
    CompareSwap(NameOf(entry), v.name);
    if Compare(NameOf(entry), r.name) >= 0 {
      CompareSwap(r.name, NameOf(entry));
      CompareTransitive(v.name, r.name, NameOf(entry));
      assert false;
    }
  }

  /** ...and once it is installed with its files, synchronizing again does nothing. */
  lemma {:induction false} UpdateFixpoint(
    entry: Entry, versions: seq<Release>, opts: Options, present: set<string>, after: Entry, later: set<string>)
    requires Sorted(versions)
    requires var d := Decide(entry, versions, opts, present);
      && d.Some? && d.value.Valid()
      && after.row.info.version == d.value.ver.info.version && after.row.flags == entry.row.flags
      && AllPresent(d.value.ver, later)
    ensures Decide(after, versions, opts, later) == None
  {
    var r := Decide(entry, versions, opts, present).value;
    var pres := opts.bleedingEdge || WantsPreReleases(entry.row.flags);
    LastIdempotent(versions, pres, NameOf(entry));
    CompareSelf(r.name);
  }

  // ----- the whole index -----

  ghost function EntryOf(t: Tables, key: Key): Entry {
    Entry(IdOf(t, key), if HasKey(t, key) then t.entries[IdOf(t, key)] else NULL_ROW)
  }

  ghost function UpdateFor(t: Tables, item: Item, opts: Options, present: set<string>): seq<Replay.Task> {
    var entry := EntryOf(t, item.key);
    match Decide(entry, item.versions, opts, present)
    case None => []
    case Some(r) => [Install(r.ver, entry.row.flags, entry)]
  }

  /** The installs a synchronization enqueues, in the order of the index. */
  ghost function Updates(t: Tables, items: seq<Item>, opts: Options, present: set<string>): seq<Replay.Task>
    decreases |items|
  {
    if items == [] then []
    else Updates(t, items[..|items| - 1], opts, present) + UpdateFor(t, items[|items| - 1], opts, present)
  }

  lemma {:induction false} UpdatesNext(t: Tables, items: seq<Item>, i: nat, opts: Options, present: set<string>)
    requires i < |items|
    ensures items[i] in items
    ensures Updates(t, items[..i + 1], opts, present)
         == Updates(t, items[..i], opts, present) + UpdateFor(t, items[i], opts, present)
  {
    assert items[..i + 1][..i] == items[..i];
  }

  lemma {:induction false} UpdatesNone(t: Tables, items: seq<Item>, opts: Options, present: set<string>)
    ensures Updates(t, items[..0], opts, present) == []
    ensures items[..|items|] == items
  {
  }

  /** The entries of this index that are not in it any more; a pinned one is left alone. */
  ghost function Gone(t: Tables, index: Index): set<Entry> {
    set id | id in t.entries
        && t.entries[id].key.remote == index.name && !Pinned(t.entries[id].flags)
        && !Finds(index.categories, t.entries[id].key.category, t.entries[id].key.package)
      :: Entry(id, t.entries[id])
  }

  ghost predicate DistinctItems(items: seq<Item>) {
    forall i, j :: 0 <= i < j < |items| ==> items[i].key != items[j].key
  }

  lemma {:induction false} UpdatesMember(t: Tables, items: seq<Item>, opts: Options, present: set<string>, task: Replay.Task)
    requires task in Updates(t, items, opts, present)
    ensures exists item <- items :: task in UpdateFor(t, item, opts, present)
    decreases |items|
  {
    var n := |items| - 1;
    if task in UpdateFor(t, items[n], opts, present) {
      assert items[n] in items;
    } else {
      UpdatesMember(t, items[..n], opts, present, task);
    }
  }

  lemma {:induction false} UpdateForMeaning(t: Tables, item: Item, opts: Options, present: set<string>)
    requires Consistent(t) && item.Valid()
    ensures |UpdateFor(t, item, opts, present)| <= 1
    ensures forall task <- UpdateFor(t, item, opts, present) ::
      task.Install? && task.Keys() == {item.key} && task.WellFormed() && Current(t, task)
  {
    UpdatePolicy(EntryOf(t, item.key), item.versions, opts, present);
    hide Decide;
  }

  lemma {:induction false} UpdatesDistinct(t: Tables, items: seq<Item>, opts: Options, present: set<string>)
    requires Consistent(t) && DistinctItems(items) && forall item <- items :: item.Valid()
    ensures DistinctKeys(Updates(t, items, opts, present))
    decreases |items|
  {
    hide UpdateFor, Item.Valid, Consistent;
    if items != [] {
      var n := |items| - 1;
      var before, last := items[..n], items[n];
      UpdatesDistinct(t, before, opts, present);
      assert last in items;
      UpdateForMeaning(t, last, opts, present);
      forall task | task in Updates(t, before, opts, present)
        ensures last.key !in task.Keys()
      {
        UpdatesMember(t, before, opts, present, task);
        var item :| item in before && task in UpdateFor(t, item, opts, present);
        UpdateForMeaning(t, item, opts, present);
      }
    }
  }

  /**
   * A queue of updates meets the conditions of the replay theorems as long as the index lists no
   * package twice: one task per package, each holding the registered entry.
   */
  lemma {:induction false} UpdatesGuarded(t: Tables, items: seq<Item>, opts: Options, present: set<string>)
    requires Consistent(t) && DistinctItems(items) && forall item <- items :: item.Valid()
    ensures Guarded(t, Updates(t, items, opts, present))
  {
    hide UpdateFor, Item.Valid, Consistent;
    UpdatesDistinct(t, items, opts, present);
    forall task | task in Updates(t, items, opts, present)
      ensures task.WellFormed() && Current(t, task)
    {
      UpdatesMember(t, items, opts, present, task);
      var item :| item in items && task in UpdateFor(t, item, opts, present);
      UpdateForMeaning(t, item, opts, present);
    }
  }

  ghost predicate Listed(index: Index, key: Key) {
    exists item <- Items(index) :: item.key == key
  }

  /** An entry is obsolete as it should be: unpinned, and no package of its index has its key. */
  ghost predicate GoneRightly(t: Tables, index: Index, id: int)
    requires id in t.entries
  {
    var row := t.entries[id];
    Entry(id, row) in Gone(t, index) <==>
      row.key.remote == index.name && !Pinned(row.flags) && !Listed(index, row.key)
  }

  lemma {:induction false} GoneMeaning(t: Tables, index: Index, id: int)
    requires id in t.entries
    ensures Entry(id, t.entries[id]) in Gone(t, index) ==>
      t.entries[id].key.remote == index.name && !Pinned(t.entries[id].flags)
    ensures FirstListsAll(index.categories) ==> GoneRightly(t, index, id)
  {
    var key := t.entries[id].key;
    FlattenMember(index.name, index.categories, key);
    FindsListed(index.categories, key.category, key.package);
  }

  /** A package that only a later category of its name lists, with an entry in the registry. */
  lemma {:induction false} HiddenIsGone(index: Index, i: nat, j: nat, package: string, info: Info)
    requires FirstNamed(index.categories, i) && i < j < |index.categories|
    requires index.categories[j].name == index.categories[i].name
    requires Lists(index.categories[j], package) && !Lists(index.categories[i], package)
    ensures var key := Key(index.name, index.categories[i].name, package);
      var t := Tables(map[1 := EntryRow(key, info, 0)], {});
      Consistent(t) && Listed(index, key) && Entry(1, t.entries[1]) in Gone(t, index)
  {
    var key := Key(index.name, index.categories[i].name, package);
    FindsIs(index.categories, i, package);
    assert index.categories[j] in index.categories;
    FlattenMember(index.name, index.categories, key);
  }

  /**
   * Whatever the registry holds, exactly the unpinned entries that the index does not list any more
   * are obsolete, if and only if the first category of each name lists all that those of its name list.
   */
  lemma {:induction false} GoneExactly(index: Index)
    ensures (forall t: Tables, id: int :: Consistent(t) && id in t.entries ==> GoneRightly(t, index, id))
       <==> FirstListsAll(index.categories)
  {
    if FirstListsAll(index.categories) {
      forall t: Tables, id: int | Consistent(t) && id in t.entries
        ensures GoneRightly(t, index, id)
      {
        GoneMeaning(t, index, id);
      }
    } else {
      var i: nat, j: nat :| FirstNamed(index.categories, i) && i < j < |index.categories|
        && index.categories[j].name == index.categories[i].name
        && exists l <- index.categories[j].listings :: !Lists(index.categories[i], l.name);
      var l :| l in index.categories[j].listings && !Lists(index.categories[i], l.name);
      var info := NULL_ROW.info;
      HiddenIsGone(index, i, j, l.name, info);
      var t := Tables(map[1 := EntryRow(Key(index.name, index.categories[i].name, l.name), info, 0)], {});
      assert !GoneRightly(t, index, 1);
    }
  }

  /** An index that is stored as it is: its second category of one name lists a package the first does not. */
  lemma {:induction false} ListedYetGone(q: seq<Release>, p: seq<Release>, info: Info)
    requires q != [] && p != []
    ensures var key := Key("r", "c", "p");
      var index := Index("r", [Category("c", [Listing("q", q)]), Category("c", [Listing("p", p)])]);
      var t := Tables(map[1 := EntryRow(key, info, 0)], {});
      Storable(index) && Listed(index, key) && Entry(1, t.entries[1]) in Gone(t, index)
  {
    var index := Index("r", [Category("c", [Listing("q", q)]), Category("c", [Listing("p", p)])]);
    assert FirstNamed(index.categories, 0);
    assert index.categories[1].listings[0].name == "p";
    HiddenIsGone(index, 0, 1, "p", info);
  }

  // ----- after the updates -----

  lemma {:induction false} PushEntry(t: Tables, ver: RegistryTables.Version, flags: int, key: Key)
    requires Consistent(t) && ver.WellFormed() && !Conflicts(t, ver, flags)
    ensures var u := Push(t, ver, flags);
      EntryOf(u, key) == if key == ver.key then Entry(EntryIdFor(t, key), EntryRow(key, ver.info, flags)) else EntryOf(t, key)
    ensures EntryIdFor(t, ver.key) > 0
  {
    PushTables(t, ver, flags);
    PushEffect(t, ver, flags);
    PushConsistent(t, ver, flags);
    var u, id := Push(t, ver, flags), EntryIdFor(t, ver.key);
    assert id in u.entries && u.entries[id].key == ver.key;
    if key != ver.key && HasKey(t, key) {
      assert IdOf(t, key) in u.entries && u.entries[IdOf(t, key)].key == key;
    }
    if key != ver.key && HasKey(u, key) {
      assert IdOf(u, key) in t.entries && t.entries[IdOf(u, key)].key == key;
    }
  }

  ghost predicate AllInstalls(order: seq<Replay.Task>) {
    forall task <- order :: task.Install? && task.WellFormed()
  }

  /** Every task of the queue started: none met a conflict. */
  ghost predicate AllStarted(t: Tables, order: seq<Replay.Task>)
    decreases |order|
  {
    order != [] ==> StartTables(t, order[0]).Some? && AllStarted(StartTables(t, order[0]).value, order[1..])
  }

  /** After installs of different packages a package's entry is its install's, or the one it had. */
  lemma {:induction false} InstallsEntry(t: Tables, order: seq<Replay.Task>, key: Key)
    requires Consistent(t) && AllInstalls(order) && DistinctKeys(order) && AllStarted(t, order)
    ensures Consistent(SpeculatedEnd(t, order))
    ensures (forall task <- order :: task.ver.key != key) ==> EntryOf(SpeculatedEnd(t, order), key) == EntryOf(t, key)
    ensures forall task <- order :: task.ver.key == key ==>
      var e := EntryOf(SpeculatedEnd(t, order), key); e.id > 0 && e.row == EntryRow(key, task.ver.info, task.flags)
    decreases |order|
  {
    if order != [] {
      var first, rest := order[0], order[1..];
      assert first in order && order == [first] + rest;
      var u := StartTables(t, first).value;
      PushConsistent(t, first.ver, first.flags);
      PushEntry(t, first.ver, first.flags, key);
      assert DistinctKeys(rest) by {
        forall i, j | 0 <= i < j < |rest|
          ensures rest[i].Keys() !! rest[j].Keys()
        {
          assert order[i + 1].Keys() !! order[j + 1].Keys();
        }
      }
      InstallsEntry(u, rest, key);
      forall task | task in rest
        ensures task.ver.key != first.ver.key
      {
        var i :| 0 <= i < |rest| && rest[i] == task;
        assert order[0].Keys() !! order[i + 1].Keys();
        assert task.ver.key in order[i + 1].Keys();
      }
    }
  }

  lemma {:induction false} SameMembersDistinct(a: seq<Replay.Task>, b: seq<Replay.Task>)
    requires multiset(a) == multiset(b) && DistinctKeys(a) && AllInstalls(a)
    ensures DistinctKeys(b) && AllInstalls(b) && forall task :: task in a <==> task in b
  {
    forall task
      ensures task in a <==> task in b
    {
      assert task in a <==> task in multiset(a);
      assert task in b <==> task in multiset(b);
    }
    InstallsDistinct(a);
    forall i, j | 0 <= i < j < |b|
      ensures b[i].Keys() !! b[j].Keys()
    {
      assert b[i] in a && b[j] in a;
      var x :| 0 <= x < |a| && a[x] == b[i];
      var y :| 0 <= y < |a| && a[y] == b[j];
      if x == y {
        AtLeastTwice(b, i, j);
        OnceIn(a, b[i]);
      }
    }
  }

  lemma {:induction false} InstallsDistinct(order: seq<Replay.Task>)
    requires DistinctKeys(order) && AllInstalls(order)
    ensures Distinct(order)
  {
    forall i, j | 0 <= i < j < |order|
      ensures order[i] != order[j]
    {
      assert order[i] in order && order[i].ver.key in order[i].Keys();
      assert order[i].Keys() !! order[j].Keys();
    }
  }

  lemma {:induction false} UpdateListed(t: Tables, items: seq<Item>, opts: Options, present: set<string>, item: Item)
    requires item in items
    ensures forall task <- UpdateFor(t, item, opts, present) :: task in Updates(t, items, opts, present)
    decreases |items|
  {
    var n := |items| - 1;
    if item != items[n] {
      assert items == items[..n] + [items[n]];
      UpdateListed(t, items[..n], opts, present, item);
    }
  }

  /** The files a synchronization leaves: those of its updates, and what was complete before. */
  ghost predicate Leaves(t: Tables, item: Item, opts: Options, present: set<string>, later: set<string>) {
    match Decide(EntryOf(t, item.key), item.versions, opts, present)
    case Some(r) => AllPresent(r.ver, later)
    case None => forall r <- item.versions :: AllPresent(r.ver, present) ==> AllPresent(r.ver, later)
  }

  lemma {:induction false} ItemSettled(
    t: Tables, items: seq<Item>, opts: Options, present: set<string>, order: seq<Replay.Task>, item: Item, later: set<string>)
    requires Consistent(t) && DistinctItems(items) && item in items && forall i <- items :: i.Valid()
    requires DistinctKeys(order) && AllInstalls(order) && AllStarted(t, order)
    requires forall task :: task in order <==> task in Updates(t, items, opts, present)
    requires Leaves(t, item, opts, present, later)
    ensures UpdateFor(SpeculatedEnd(t, order), item, opts, later) == []
  {
    hide Consistent, EntryOf, Updates;
    var entry := EntryOf(t, item.key);
    InstallsEntry(t, order, item.key);
    UpdatePolicy(entry, item.versions, opts, present);
    match Decide(entry, item.versions, opts, present)
    case Some(r) =>
      UpdateListed(t, items, opts, present, item);
      assert Install(r.ver, entry.row.flags, entry) in order;
      UpdateFixpoint(entry, item.versions, opts, present, EntryOf(SpeculatedEnd(t, order), item.key), later);
    case None =>
      forall task | task in order
        ensures task.ver.key != item.key
      {
        UpdatesMember(t, items, opts, present, task);
        var other :| other in items && task in UpdateFor(t, other, opts, present);
        UpdateForMeaning(t, other, opts, present);
        assert task.ver.key in task.Keys();
        assert other.key == item.key ==> other == item;
      }
      StillNone(entry, item.versions, opts, present, later);
  }

  lemma {:induction false} StillNone(
    entry: Entry, versions: seq<Release>, opts: Options, present: set<string>, later: set<string>)
    requires Sorted(versions) && Decide(entry, versions, opts, present) == None
    requires forall r <- versions :: AllPresent(r.ver, present) ==> AllPresent(r.ver, later)
    ensures Decide(entry, versions, opts, later) == None
  {
    LastMeaning(versions, opts.bleedingEdge || WantsPreReleases(entry.row.flags), NameOf(entry));
  }

  /**
   * The fixpoint of a whole index: when its updates start without a conflict, in any order, and none
   * fails, committing them brings the registry to a state in which synchronizing enqueues nothing.
   */
  lemma {:induction false} SynchronizedTwice(
    t: Tables, items: seq<Item>, opts: Options, present: set<string>, order: seq<Replay.Task>, later: set<string>)
    requires Consistent(t) && DistinctItems(items) && forall item <- items :: item.Valid()
    requires PopOrder(Updates(t, items, opts, present), order) && AllStarted(t, order)
    requires forall item <- items :: Leaves(t, item, opts, present, later)
    ensures var end := CommitAll(t, StartAll(t, order), NoneFailed(|StartAll(t, order)|));
      end.Some? && Updates(end.value, items, opts, later) == []
  {
    UpdatesGuarded(t, items, opts, present);
    UpdatesInstall(t, items, opts, present);
    SameMembersDistinct(Updates(t, items, opts, present), order);
    ReplayExact(t, order);
    forall item | item in items
      ensures UpdateFor(SpeculatedEnd(t, order), item, opts, later) == []
    {
      ItemSettled(t, items, opts, present, order, item, later);
    }
    NoUpdates(SpeculatedEnd(t, order), items, opts, later);
  }

  lemma {:induction false} UpdatesInstall(t: Tables, items: seq<Item>, opts: Options, present: set<string>)
    requires Consistent(t) && forall item <- items :: item.Valid()
    ensures AllInstalls(Updates(t, items, opts, present))
  {
    forall task | task in Updates(t, items, opts, present)
      ensures task.Install? && task.WellFormed()
    {
      UpdatesMember(t, items, opts, present, task);
      var item :| item in items && task in UpdateFor(t, item, opts, present);
      UpdateForMeaning(t, item, opts, present);
    }
  }

  lemma {:induction false} NoUpdates(t: Tables, items: seq<Item>, opts: Options, present: set<string>)
    requires forall item <- items :: UpdateFor(t, item, opts, present) == []
    ensures Updates(t, items, opts, present) == []
    decreases |items|
  {
    if items != [] {
      assert items[|items| - 1] in items;
      NoUpdates(t, items[..|items| - 1], opts, present);
    }
  }
}
