/** The order of a list's rows (`Column::compare` and the comparison in `ListView::sort`). */
module ListOrder {
  import opened Basics
  import opened Versions
  import opened FilterSpec

  datatype DataType = UserType | VersionType | TimeType

  datatype CellData = NoData | VersionData(name: VersionName) | TimeData(time: int)

  datatype Cell = Cell(value: string, data: CellData)

  datatype Column = Column(dataType: DataType, filterable: bool)

  datatype Sort = Sort(column: nat, descending: bool)

  /** `Column::compare`. */
  function CompareCells(ty: DataType, a: Cell, b: Cell): (r: int)
    ensures -1 <= r <= 1
  {
    if !ty.UserType? && a.data.NoData? then -1
    else if !ty.UserType? && b.data.NoData? then 1
    else if ty.UserType? then CompareText(LowerAll(a.value), LowerAll(b.value))
    else
      match (a.data, b.data)
      case (VersionData(x), VersionData(y)) => Compare(x, y)
      case (TimeData(x), TimeData(y)) => if x < y then -1 else if x > y then 1 else 0
      case _ => 0
  }

  /** The code of a character, capitals counted as their small letters. */
  ghost function Folded(c: char): int {
    if c in CAPITALS then c as int + 32 else c as int
  }

  /** The texts agree up to `k`, and there the first one ends or has the smaller character. */
  ghost predicate FoldedFirst(a: string, b: string, k: nat) {
    && k <= |a| && k < |b|
    && (forall i :: 0 <= i < k ==> Folded(a[i]) == Folded(b[i]))
    && (k < |a| ==> Folded(a[k]) < Folded(b[k]))
  }

  /** Earlier in the dictionary when the case of letters does not count. */
  ghost predicate FoldedBefore(a: string, b: string) {
    exists k: nat :: FoldedFirst(a, b, k)
  }

  lemma {:induction false} LowerFirst(a: string, b: string, k: nat)
    ensures TextFirst(LowerAll(a), LowerAll(b), k) <==> FoldedFirst(a, b, k)
  {
    var x, y := LowerAll(a), LowerAll(b);
    LowerIsFolded(a);
    LowerIsFolded(b);
    hide Folded, LowerAll;
    if k <= |a| && k < |b| {
      assert x[..k] == y[..k] <==> forall i :: 0 <= i < k ==> x[i] == y[i] by {
        assert forall i :: 0 <= i < k ==> x[..k][i] == x[i] && y[..k][i] == y[i];
      }
    }
  }

  lemma {:induction false} LowerBefore(a: string, b: string)
    ensures TextBefore(LowerAll(a), LowerAll(b)) <==> FoldedBefore(a, b)
  {
    forall k: nat
      ensures TextFirst(LowerAll(a), LowerAll(b), k) <==> FoldedFirst(a, b, k)
    {
      LowerFirst(a, b, k);
    }
    hide LowerAll, TextFirst, FoldedFirst;
  }

  lemma {:induction false} LowerIsFolded(s: string)
    ensures |LowerAll(s)| == |s| && forall i :: 0 <= i < |s| ==> LowerAll(s)[i] as int == Folded(s[i])
  {
    forall i | 0 <= i < |s|
      ensures LowerAll(s)[i] as int == Folded(s[i])
    {
      CapitalIs(s[i]);
    }
  }

  /**
   * Which cell comes first: in a column of texts by the dictionary without regard to case, in one of
   * versions or times the earlier, and there a cell without data before one with data.
   */
  lemma {:induction false} CompareCellsMeaning(ty: DataType, a: Cell, b: Cell)
    ensures ty.UserType? ==> (CompareCells(ty, a, b) < 0 <==> FoldedBefore(a.value, b.value))
    ensures ty.UserType? ==> (CompareCells(ty, a, b) > 0 <==> FoldedBefore(b.value, a.value))
    ensures !ty.UserType? && a.data.NoData? ==> CompareCells(ty, a, b) < 0
    ensures !ty.UserType? && !a.data.NoData? && b.data.NoData? ==> CompareCells(ty, a, b) > 0
    ensures !ty.UserType? && a.data.VersionData? && b.data.VersionData? ==>
      && (CompareCells(ty, a, b) < 0 <==> Earlier(a.data.name, b.data.name))
      && (CompareCells(ty, a, b) > 0 <==> Earlier(b.data.name, a.data.name))
    ensures !ty.UserType? && a.data.TimeData? && b.data.TimeData? ==>
      && (CompareCells(ty, a, b) < 0 <==> a.data.time < b.data.time)
      && (CompareCells(ty, a, b) > 0 <==> a.data.time > b.data.time)
  {
    if ty.UserType? {
      CompareTextMeaning(LowerAll(a.value), LowerAll(b.value));
      LowerBefore(a.value, b.value);
      LowerBefore(b.value, a.value);
    } else if a.data.VersionData? && b.data.VersionData? {
      CompareMeaning(a.data.name, b.data.name);
    }
    hide FoldedBefore, TextBefore, LowerAll, Compare, Earlier;
  }

  /** Cells of one column have data of one type, or none where the column is typed. */
  predicate Fits(ty: DataType, c: Cell): (fits: bool)
    ensures fits <==> (c.data.VersionData? ==> !ty.TimeType?) && (c.data.TimeData? ==> !ty.VersionType?)
  {
    match ty
    case UserType => true
    case VersionType => c.data.NoData? || c.data.VersionData?
    case TimeType => c.data.NoData? || c.data.TimeData?
  }

  predicate Lacks(ty: DataType, c: Cell) {
    !ty.UserType? && c.data.NoData?
  }

  /** The comparison is antisymmetric exactly when at least one of two cells has what the column asks for. */
  lemma {:induction false} CompareCellsSwap(ty: DataType, a: Cell, b: Cell)
    requires Fits(ty, a) && Fits(ty, b)
    ensures CompareCells(ty, a, b) == -CompareCells(ty, b, a) <==> !(Lacks(ty, a) && Lacks(ty, b))
  {
    CompareTextSwap(LowerAll(a.value), LowerAll(b.value));
    if a.data.VersionData? && b.data.VersionData? {
      CompareSwap(a.data.name, b.data.name);
    }
  }

  lemma {:induction false} SameText(a: Cell)
    ensures CompareCells(UserType, a, a) == 0
  {
    CompareTextSwap(LowerAll(a.value), LowerAll(a.value));
  }

  lemma {:induction false} CompareTextChain(a: string, b: string, c: string)
    requires CompareText(a, b) <= 0 && CompareText(b, c) <= 0
    ensures CompareText(a, c) <= 0
    ensures CompareText(a, b) < 0 || CompareText(b, c) < 0 ==> CompareText(a, c) < 0
  {
    if CompareText(a, b) < 0 && CompareText(b, c) < 0 {
      CompareTextTransitive(a, b, c);
    }
  }

  lemma {:induction false} CompareCellsChain(ty: DataType, a: Cell, b: Cell, c: Cell)
    requires Fits(ty, a) && Fits(ty, b) && Fits(ty, c)
    requires !(Lacks(ty, a) && Lacks(ty, b)) && !(Lacks(ty, b) && Lacks(ty, c))
    requires CompareCells(ty, a, b) <= 0 && CompareCells(ty, b, c) <= 0
    ensures CompareCells(ty, a, c) <= 0
    ensures CompareCells(ty, a, b) < 0 || CompareCells(ty, b, c) < 0 ==> CompareCells(ty, a, c) < 0
  {
    if ty.UserType? {
      CompareTextChain(LowerAll(a.value), LowerAll(b.value), LowerAll(c.value));
    } else if a.data.VersionData? && b.data.VersionData? && c.data.VersionData? {
      CompareTransitive(a.data.name, b.data.name, c.data.name);
    }
  }

  // ----- rows -----

  /** How sorting compares the rows `a` and `b`: the cells in the sorted column, then the positions. */
  function CompareRows(sort: Sort, ty: DataType, cells: seq<Cell>, a: nat, b: nat): int
    requires a < |cells| && b < |cells|
  {
    var c := CompareCells(ty, cells[a], cells[b]);
    var r := if sort.descending then -c else c;
    if r != 0 then r else a - b
  }

  /** A comparison that orders distinct rows strictly. */
  ghost predicate Strict(sort: Sort, ty: DataType, cells: seq<Cell>, ids: set<int>) {
    && (forall a <- ids :: 0 <= a < |cells|)
    && (forall a, b :: a in ids && b in ids && a != b ==>
          (CompareRows(sort, ty, cells, a, b) < 0 <==> CompareRows(sort, ty, cells, b, a) > 0))
    && (forall a, b, c :: a in ids && b in ids && c in ids && a != c ==>
          CompareRows(sort, ty, cells, a, b) < 0 && CompareRows(sort, ty, cells, b, c) < 0 ==>
            CompareRows(sort, ty, cells, a, c) < 0)
  }

  /** No two rows lack what the sorted column asks for. */
  ghost predicate Sortable(ty: DataType, cells: seq<Cell>, ids: set<int>)
    requires forall a <- ids :: 0 <= a < |cells|
  {
    forall a, b :: a in ids && b in ids && a != b ==> !(Lacks(ty, cells[a]) && Lacks(ty, cells[b]))
  }

  lemma {:induction false} RowsSwap(sort: Sort, ty: DataType, cells: seq<Cell>, a: nat, b: nat)
    requires a < |cells| && b < |cells| && a != b && Fits(ty, cells[a]) && Fits(ty, cells[b])
    ensures (CompareRows(sort, ty, cells, a, b) < 0 <==> CompareRows(sort, ty, cells, b, a) > 0)
       <==> !(Lacks(ty, cells[a]) && Lacks(ty, cells[b]))
  {
    CompareCellsSwap(ty, cells[a], cells[b]);
  }

  lemma {:induction false} RowsChain(sort: Sort, ty: DataType, cells: seq<Cell>, a: nat, b: nat, c: nat)
    requires a < |cells| && b < |cells| && c < |cells| && a != b && b != c && a != c
    requires Fits(ty, cells[a]) && Fits(ty, cells[b]) && Fits(ty, cells[c])
    requires !(Lacks(ty, cells[a]) && Lacks(ty, cells[b])) && !(Lacks(ty, cells[b]) && Lacks(ty, cells[c]))
    requires !(Lacks(ty, cells[a]) && Lacks(ty, cells[c]))
    requires CompareRows(sort, ty, cells, a, b) < 0 && CompareRows(sort, ty, cells, b, c) < 0
    ensures CompareRows(sort, ty, cells, a, c) < 0
  {
    CompareCellsSwap(ty, cells[a], cells[b]);
    CompareCellsSwap(ty, cells[b], cells[c]);
    CompareCellsSwap(ty, cells[a], cells[c]);
    if sort.descending {
      CompareCellsChain(ty, cells[c], cells[b], cells[a]);
    } else {
      CompareCellsChain(ty, cells[a], cells[b], cells[c]);
    }
  }

  /** Rows can be sorted consistently if and only if no two of them lack data in a typed column. */
  lemma {:induction false} StrictWhen(sort: Sort, ty: DataType, cells: seq<Cell>, ids: set<int>)
    requires forall a <- ids :: 0 <= a < |cells| && Fits(ty, cells[a])
    ensures Strict(sort, ty, cells, ids) <==> Sortable(ty, cells, ids)
  {
    forall a, b | a in ids && b in ids && a != b
      ensures (CompareRows(sort, ty, cells, a, b) < 0 <==> CompareRows(sort, ty, cells, b, a) > 0)
         <==> !(Lacks(ty, cells[a]) && Lacks(ty, cells[b]))
    {
      RowsSwap(sort, ty, cells, a, b);
    }
    if Sortable(ty, cells, ids) {
      forall a, b, c | a in ids && b in ids && c in ids && a != c
          && CompareRows(sort, ty, cells, a, b) < 0 && CompareRows(sort, ty, cells, b, c) < 0
        ensures CompareRows(sort, ty, cells, a, c) < 0
      {
        if a != b && b != c {
          RowsChain(sort, ty, cells, a, b, c);
        }
      }
    }
  }

  // ----- sorting -----

  ghost predicate Ascending(sort: Sort, ty: DataType, cells: seq<Cell>, view: seq<int>) {
    && (forall k :: 0 <= k < |view| ==> 0 <= view[k] < |cells|)
    && forall i, j :: 0 <= i < j < |view| ==> CompareRows(sort, ty, cells, view[i], view[j]) < 0
  }

  /**
   * In a sorted view cells never go down, or never up when the sort is descending; rows with equal
   * cells are in the order of their positions either way.
   */
  lemma {:induction false} AscendingMeans(sort: Sort, ty: DataType, cells: seq<Cell>, view: seq<int>, i: nat, j: nat)
    requires Ascending(sort, ty, cells, view) && i < j < |view|
    ensures var c := CompareCells(ty, cells[view[i]], cells[view[j]]);
      && (if sort.descending then c >= 0 else c <= 0)
      && (c == 0 ==> view[i] < view[j])
  {
    assert CompareRows(sort, ty, cells, view[i], view[j]) < 0;
  }

  ghost function Ids(view: seq<int>): set<int> {
    set k | 0 <= k < |view| :: view[k]
  }

  /** One step of a sort by insertion, which stands for the native one. */
  method Insert(sort: Sort, ty: DataType, cells: seq<Cell>, view: seq<int>, x: int) returns (r: seq<int>)
    requires 0 <= x < |cells| && forall k :: 0 <= k < |view| ==> 0 <= view[k] < |cells|
    requires Distinct(view) && x !in view
    ensures multiset(r) == multiset(view) + multiset{x} && Distinct(r) && Ids(r) == Ids(view) + {x}
    ensures Strict(sort, ty, cells, Ids(view) + {x}) && Ascending(sort, ty, cells, view) ==>
      Ascending(sort, ty, cells, r)
  {
    hide CompareRows, Strict, Ascending, Ids, Distinct;
    var k := 0;
    while k < |view| && CompareRows(sort, ty, cells, view[k], x) < 0
      invariant k <= |view|
      invariant forall i :: 0 <= i < k ==> CompareRows(sort, ty, cells, view[i], x) < 0
    {
      k := k + 1;
    }
    r := view[..k] + [x] + view[k..];
    assert view == view[..k] + view[k..];
    InsertedIds(view, k, x);
    if Strict(sort, ty, cells, Ids(view) + {x}) && Ascending(sort, ty, cells, view) {
      InsertedAscending(sort, ty, cells, view, k, x);
    }
  }

  lemma {:induction false} InsertedIds(view: seq<int>, k: nat, x: int)
    requires k <= |view| && Distinct(view) && x !in view
    ensures var r := view[..k] + [x] + view[k..]; Distinct(r) && Ids(r) == Ids(view) + {x}
  {
    var r := view[..k] + [x] + view[k..];
    forall i | 0 <= i < |view|
      ensures view[i] in Ids(r)
    {
      assert view[i] == r[if i < k then i else i + 1];
    }
    assert r[k] == x;
    forall i | 0 <= i < |r|
      ensures r[i] in Ids(view) + {x}
    {
      assert i == k || r[i] == view[if i < k then i else i - 1];
    }
  }

  lemma {:induction false} InsertedAscending(sort: Sort, ty: DataType, cells: seq<Cell>, view: seq<int>, k: nat, x: int)
    requires k <= |view| && x !in view && 0 <= x < |cells|
    requires Strict(sort, ty, cells, Ids(view) + {x}) && Ascending(sort, ty, cells, view)
    requires forall i :: 0 <= i < k ==> CompareRows(sort, ty, cells, view[i], x) < 0
    requires k < |view| ==> CompareRows(sort, ty, cells, view[k], x) >= 0
    ensures Ascending(sort, ty, cells, view[..k] + [x] + view[k..])
  {
    hide CompareRows;
    forall j | k <= j < |view|
      ensures CompareRows(sort, ty, cells, x, view[j]) < 0
    {
      assert view[k] in Ids(view) && view[j] in Ids(view);
      NotZero(sort, ty, cells, view[k], x);
      if j > k {
        assert CompareRows(sort, ty, cells, view[k], view[j]) < 0;
      }
    }
  }

  lemma {:induction false} NotZero(sort: Sort, ty: DataType, cells: seq<Cell>, a: nat, b: nat)
    requires a < |cells| && b < |cells| && a != b
    ensures CompareRows(sort, ty, cells, a, b) != 0
  {
  }

  lemma {:induction false} NextId(view: seq<int>, i: nat)
    requires Distinct(view) && i < |view|
    ensures view[..i + 1] == view[..i] + [view[i]]
    ensures Ids(view[..i + 1]) == Ids(view[..i]) + {view[i]} && view[i] !in Ids(view[..i])
    ensures Ids(view[..i + 1]) <= Ids(view)
  {
  }

  /** A permutation of the rows shown, and in order whenever the comparison is consistent on them. */
  method SortItems(sort: Sort, ty: DataType, cells: seq<Cell>, view: seq<int>) returns (r: seq<int>)
    requires Distinct(view) && forall k :: 0 <= k < |view| ==> 0 <= view[k] < |cells|
    ensures multiset(r) == multiset(view) && Distinct(r) && Ids(r) == Ids(view)
    ensures Strict(sort, ty, cells, Ids(view)) ==> Ascending(sort, ty, cells, r)
  {
    hide CompareRows, Strict;
    r := [];
    for i := 0 to |view|
      invariant multiset(r) == multiset(view[..i]) && Distinct(r) && Ids(r) == Ids(view[..i])
      invariant Strict(sort, ty, cells, Ids(view)) ==> Ascending(sort, ty, cells, r)
    {
      NextId(view, i);
      assert forall k :: 0 <= k < |r| ==> r[k] in Ids(view[..i]);
      if Strict(sort, ty, cells, Ids(view)) {
        StrictOnFewer(sort, ty, cells, Ids(view), Ids(r) + {view[i]});
      }
      r := Insert(sort, ty, cells, r, view[i]);
    }
    assert view[..|view|] == view;
  }

  lemma {:induction false} StrictOnFewer(sort: Sort, ty: DataType, cells: seq<Cell>, ids: set<int>, few: set<int>)
    requires Strict(sort, ty, cells, ids) && few <= ids
    ensures Strict(sort, ty, cells, few)
  {
  }
}
