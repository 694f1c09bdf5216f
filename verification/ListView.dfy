/** The bookkeeping of src/listview.cpp between its rows and the native list, which is a sequence here. */
module ListViews {
  import opened Basics
  import opened FilterSpec
  import opened ListOrder
  import FilterGrammar

  datatype Row = Row(userIndex: int, viewIndex: int, cells: seq<Cell>)

  // ----- removing from the native list -----

  /** The first `n` items without those that are `gone`. */
  function Kept(view: seq<int>, gone: set<int>, n: nat): seq<int>
    requires n <= |view|
  {
    if n == 0 then []
    else Kept(view, gone, n - 1) + if view[n - 1] in gone then [] else [view[n - 1]]
  }

  function Without(view: seq<int>, gone: set<int>): seq<int> {
    Kept(view, gone, |view|)
  }

  lemma {:induction false} KeptGap(view: seq<int>, gone: set<int>, p: nat, q: nat)
    requires p <= q <= |view| && forall k :: p <= k < q ==> view[k] !in gone
    ensures Kept(view, gone, q) == Kept(view, gone, p) + view[p..q]
    decreases q
  {
    if p < q {
      KeptGap(view, gone, p, q - 1);
      assert view[p..q] == view[p..q - 1] + [view[q - 1]];
    }
  }

  lemma {:induction false} KeptMembers(view: seq<int>, gone: set<int>, n: nat)
    requires n <= |view| && Distinct(view)
    ensures forall x :: x in Kept(view, gone, n) <==> x !in gone && exists k :: 0 <= k < n && view[k] == x
    ensures Distinct(Kept(view, gone, n)) && |Kept(view, gone, n)| <= n
    ensures (forall k :: 0 <= k < n ==> view[k] !in gone) ==> Kept(view, gone, n) == view[..n]
  {
    if n > 0 {
      var before, last := Kept(view, gone, n - 1), view[n - 1];
      KeptMembers(view, gone, n - 1);
      assert view[..n] == view[..n - 1] + [last];
      assert last !in before && (forall k :: 0 <= k < n - 1 ==> view[k] != last);
      assert Distinct([last]) && Distinct<int>([]);
      var more := if last in gone then [] else [last];
      assert Kept(view, gone, n) == before + more;
      hide Kept, Distinct;
      Joined(before, more);
      forall x
        ensures x in before + more <==> x !in gone && exists k :: 0 <= k < n && view[k] == x
      {
        assert x in before + more <==> x in before || (x == last && last !in gone);
      }
    }
  }

  /** Positions in ascending order. */
  ghost predicate Climbing(s: seq<int>) {
    forall i, j :: 0 <= i < j < |s| ==> s[i] < s[j]
  }

  ghost predicate Pinpoints(hiding: seq<int>, view: seq<int>, gone: set<int>) {
    forall k :: k in hiding <==> 0 <= k < |view| && view[k] in gone
  }

  lemma {:induction false} PinpointsSame(a: seq<int>, b: seq<int>, view: seq<int>, gone: set<int>)
    requires Pinpoints(a, view, gone) && forall x :: x in b <==> x in a
    ensures Pinpoints(b, view, gone)
  {
  }

  /** Between two positions to delete there is nothing to delete. */
  lemma {:induction false} GapKept(view: seq<int>, gone: set<int>, hiding: seq<int>, i: nat, p: nat)
    requires i <= |hiding| && Climbing(hiding) && Pinpoints(hiding, view, gone)
    requires p == (if i == 0 then 0 else hiding[i - 1] + 1) <= |view|
    ensures var q := if i < |hiding| then hiding[i] else |view|;
      && p <= q && (i < |hiding| ==> q < |view| && view[q] in gone)
      && forall k :: p <= k < q ==> view[k] !in gone
  {
    assert i < |hiding| ==> hiding[i] in hiding;
    var q := if i < |hiding| then hiding[i] else |view|;
    forall j | 0 <= j < |hiding|
      ensures hiding[j] < p || hiding[j] >= q
    {
      assert hiding[j] in hiding;
    }
    forall k | p <= k < q
      ensures view[k] !in gone
    {
      assert k !in hiding;
    }
  }

  /** The deletion of the next position finds it shifted by those deleted before. */
  lemma {:induction false} DeleteNext(view: seq<int>, gone: set<int>, p: nat, q: nat, i: nat)
    requires p <= q < |view| && view[q] in gone && forall k :: p <= k < q ==> view[k] !in gone
    requires |Kept(view, gone, p)| == p - i
    ensures var now := Kept(view, gone, p) + view[p..];
      && 0 <= q - i < |now|
      && now[..q - i] + now[q - i + 1..] == Kept(view, gone, q + 1) + view[q + 1..]
      && |Kept(view, gone, q + 1)| == q - i
  {
    KeptGap(view, gone, p, q);
    var now := Kept(view, gone, p) + view[p..];
    assert now == Kept(view, gone, q) + ([view[q]] + view[q + 1..]);
  }

  /** The native list ignores a deletion at a place it does not have. */
  function DropAt<T>(s: seq<T>, p: int): seq<T> {
    if 0 <= p < |s| then s[..p] + s[p + 1..] else s
  }

  /** The first `n` deletions, each at its place less the number of those before. */
  function Deleted(view: seq<int>, hiding: seq<int>, n: nat): seq<int>
    requires n <= |hiding|
  {
    if n == 0 then view else DropAt(Deleted(view, hiding, n - 1), hiding[n - 1] - (n - 1))
  }

  /** Where the first deletions of ascending places have come. */
  function Past(hiding: seq<int>, n: nat): int
    requires n <= |hiding|
  {
    if n == 0 then 0 else hiding[n - 1] + 1
  }

  lemma {:induction false} DeletedNone(view: seq<int>, hiding: seq<int>)
    ensures Deleted(view, hiding, 0) == view
  {
  }

  lemma {:induction false} DeletedOne(view: seq<int>, hiding: seq<int>, n: nat)
    requires n < |hiding|
    ensures Deleted(view, hiding, n + 1) == DropAt(Deleted(view, hiding, n), hiding[n] - n)
  {
  }

  lemma {:induction false} DeletedKept(view: seq<int>, gone: set<int>, hiding: seq<int>, n: nat)
    requires n <= |hiding| && Climbing(hiding) && Pinpoints(hiding, view, gone)
    ensures var p := Past(hiding, n);
      && 0 <= p <= |view| && |Kept(view, gone, p)| == p - n
      && Deleted(view, hiding, n) == Kept(view, gone, p) + view[p..]
  {
    hide Kept, Climbing, Pinpoints, Deleted;
    if n == 0 {
      KeptStart(view, gone);
      DeletedNone(view, hiding);
    } else {
      DeletedKept(view, gone, hiding, n - 1);
      DeletedOne(view, hiding, n - 1);
      var p := Past(hiding, n - 1);
      GapKept(view, gone, hiding, n - 1, p);
      DeleteNext(view, gone, p, hiding[n - 1], n - 1);
    }
  }

  lemma {:induction false} DeletedWithout(view: seq<int>, gone: set<int>, hiding: seq<int>)
    requires Climbing(hiding) && Pinpoints(hiding, view, gone)
    ensures Deleted(view, hiding, |hiding|) == Without(view, gone)
  {
    var p := Past(hiding, |hiding|);
    DeletedKept(view, gone, hiding, |hiding|);
    GapKept(view, gone, hiding, |hiding|, p);
    KeptGap(view, gone, p, |view|);
    assert view[p..|view|] == view[p..];
  }

  /** The loop that deletes the items of hidden rows: at the right places, exactly those go. */
  method DeleteAll(view: seq<int>, hiding: seq<int>) returns (r: seq<int>)
    ensures r == Deleted(view, hiding, |hiding|)
    ensures forall gone: set<int> :: Climbing(hiding) && Pinpoints(hiding, view, gone) ==> r == Without(view, gone)
  {
    r := view;
    for i := 0 to |hiding|
      invariant r == Deleted(view, hiding, i)
    {
      r := DropAt(r, hiding[i] - i);
    }
    forall gone: set<int> | Climbing(hiding) && Pinpoints(hiding, view, gone)
      ensures r == Without(view, gone)
    {
      DeletedWithout(view, gone, hiding);
    }
  }

  lemma {:induction false} KeptStart(view: seq<int>, gone: set<int>)
    ensures Kept(view, gone, 0) == []
  {
  }

  lemma {:induction false} PositionInserted(s: seq<int>, k: nat, x: int)
    requires k <= |s| && Climbing(s) && x !in s
    requires (forall j :: 0 <= j < k ==> s[j] < x) && (k < |s| ==> s[k] >= x)
    ensures Climbing(s[..k] + [x] + s[k..])
    ensures forall y :: y in s[..k] + [x] + s[k..] <==> y == x || y in s
  {
    assert k < |s| ==> s[k] in s;
    assert s == s[..k] + s[k..];
  }

  /** `std::sort` on positions that are all different. */
  method SortPositions(s: seq<int>) returns (r: seq<int>)
    requires Distinct(s)
    ensures Climbing(r) && (forall x :: x in r <==> x in s) && |r| == |s|
  {
    r := [];
    for i := 0 to |s|
      invariant Climbing(r) && |r| == i
      invariant forall x :: x in r <==> x in s[..i]
    {
      var k := 0;
      while k < |r| && r[k] < s[i]
        invariant k <= |r| && forall j :: 0 <= j < k ==> r[j] < s[i]
      {
        k := k + 1;
      }
      assert s[i] !in s[..i];
      PositionInserted(r, k, s[i]);
      assert s[..i + 1] == s[..i] + [s[i]];
      r := r[..k] + [s[i]] + r[k..];
    }
    assert s[..|s|] == s;
  }

  // ----- rows and items -----

  /** Rows know their index, and every item of the native list stands for another row. */
  ghost predicate Listed(rows: seq<Row>, view: seq<int>) {
    && (forall i :: 0 <= i < |rows| ==> rows[i].userIndex == i)
    && (forall k :: 0 <= k < |view| ==> 0 <= view[k] < |rows|)
    && Distinct(view)
  }

  ghost predicate HiddenMarked(rows: seq<Row>, view: seq<int>) {
    forall i :: 0 <= i < |rows| && i !in view ==> rows[i].viewIndex == -1
  }

  /** Rows know their place in the view; -1 stands for hidden. */
  ghost predicate Indexed(rows: seq<Row>, view: seq<int>)
    requires Listed(rows, view)
  {
    && (forall k :: 0 <= k < |view| ==> rows[view[k]].viewIndex == k)
    && HiddenMarked(rows, view)
  }

  /** The same, but for the last item, whose row thinks itself at `last`. */
  ghost predicate Placed(rows: seq<Row>, view: seq<int>, last: int)
    requires Listed(rows, view)
  {
    && (forall k :: 0 <= k < |view| ==> rows[view[k]].viewIndex == if k == |view| - 1 then last else k)
    && HiddenMarked(rows, view)
  }

  /** The last row was created while others were hidden: its item is not where it thinks. */
  ghost predicate Misplaced(rows: seq<Row>, view: seq<int>)
    requires Listed(rows, view)
  {
    0 < |view| < |rows| && view[|view| - 1] == |rows| - 1 && Placed(rows, view, |rows| - 1)
  }

  ghost predicate Identity(view: seq<int>, n: nat) {
    |view| == n && forall k :: 0 <= k < n ==> view[k] == k
  }

  /** Only view indices differ. */
  ghost predicate SameRows(a: seq<Row>, b: seq<Row>) {
    |a| == |b| && forall i :: 0 <= i < |a| ==> a[i].userIndex == b[i].userIndex && a[i].cells == b[i].cells
  }

  function FilterValues(columns: seq<Column>, cells: seq<Cell>): seq<string>
    requires |cells| == |columns|
    decreases |columns|
  {
    if columns == [] then []
    else
      var n := |columns| - 1;
      FilterValues(columns[..n], cells[..n]) + if columns[n].filterable then [cells[n].value] else []
  }

  ghost predicate Searched(columns: seq<Column>, cells: seq<Cell>, text: string, c: nat) {
    c < |columns| == |cells| && columns[c].filterable && cells[c].value == text
  }

  /** The texts searched are those in the filterable columns... */
  lemma {:induction false} FilterValuesMeaning(columns: seq<Column>, cells: seq<Cell>, text: string)
    requires |cells| == |columns|
    ensures text in FilterValues(columns, cells) <==> exists c: nat :: Searched(columns, cells, text, c)
    decreases |columns|
  {
    if columns != [] {
      var n := |columns| - 1;
      FilterValuesMeaning(columns[..n], cells[..n], text);
      forall c: nat
        ensures Searched(columns, cells, text, c) <==>
          Searched(columns[..n], cells[..n], text, c) || (c == n && columns[n].filterable && cells[n].value == text)
      {
      }
      hide Searched;
      assert columns[n].filterable && cells[n].value == text ==> Searched(columns, cells, text, n);
    }
  }

  /** ...in the order of the columns. */
  lemma {:induction false} FilterValuesInOrder(columns: seq<Column>, cells: seq<Cell>, more: seq<Column>, others: seq<Cell>)
    requires |cells| == |columns| && |others| == |more|
    ensures FilterValues(columns + more, cells + others) == FilterValues(columns, cells) + FilterValues(more, others)
    decreases |more|
  {
    if more == [] {
      assert columns + more == columns && cells + others == cells;
    } else {
      var n := |more| - 1;
      FilterValuesInOrder(columns, cells, more[..n], others[..n]);
      assert (columns + more)[..|columns| + n] == columns + more[..n];
      assert (cells + others)[..|columns| + n] == cells + others[..n];
    }
  }

  // ----- the scan of `filter` -----

  /** The scan before row `ri`: which rows it showed, which it found gone and where they were. */
  ghost predicate Scanned(
    rows: seq<Row>, view: seq<int>, last: int, passing: set<int>, shown: seq<int>, gone: set<int>, hiding: seq<int>, ri: nat)
  {
    && (last == |view| - 1 || (0 < |view| < |rows| && view[|view| - 1] == |rows| - 1 == last))
    && ri <= |rows| && Listed(rows, view) && Distinct(shown) && Distinct(hiding)
    && (forall x :: x in gone <==> x in view && x < ri && x !in passing)
    && (forall x :: x in shown <==> 0 <= x < ri && x !in view && x in passing)
    && Pinpoints(hiding, view, gone)
    && (forall k :: 0 <= k < |view| ==>
          rows[view[k]].viewIndex == if view[k] in gone then -1 else if k == |view| - 1 then last else k)
    && (forall k :: 0 <= k < |shown| ==> 0 <= shown[k] < ri && rows[shown[k]].viewIndex == |view| + k)
    && (forall i :: 0 <= i < |rows| && i !in view && i !in shown ==> rows[i].viewIndex == -1)
  }

  lemma {:induction false} ScanBegin(rows: seq<Row>, view: seq<int>, last: int, passing: set<int>)
    requires Listed(rows, view)
    requires if last == |view| - 1 then Indexed(rows, view) else last == |rows| - 1 && Misplaced(rows, view)
    ensures Scanned(rows, view, last, passing, [], {}, [], 0)
  {
  }

  lemma {:induction false} ScanShow(
    rows: seq<Row>, view: seq<int>, last: int, passing: set<int>, shown: seq<int>, gone: set<int>, hiding: seq<int>, ri: nat)
    requires Scanned(rows, view, last, passing, shown, gone, hiding, ri) && ri < |rows|
    requires ri in passing && rows[ri].viewIndex == -1
    ensures Scanned(
      rows[ri := rows[ri].(viewIndex := |view| + |shown|)], view, last, passing, shown + [ri], gone, hiding, ri + 1)
  {
    assert ri !in view;
    assert ri !in shown;
    forall x
      ensures x in shown + [ri] <==> x in shown || x == ri
    {
    }
  }

  lemma {:induction false} ScanHide(
    rows: seq<Row>, view: seq<int>, last: int, passing: set<int>, shown: seq<int>, gone: set<int>, hiding: seq<int>, ri: nat)
    requires Scanned(rows, view, last, passing, shown, gone, hiding, ri) && ri < |rows|
    requires ri !in passing && rows[ri].viewIndex > -1 && (last == |view| - 1 || ri < |rows| - 1)
    ensures Scanned(
      rows[ri := rows[ri].(viewIndex := -1)], view, last, passing, shown, gone + {ri}, hiding + [rows[ri].viewIndex], ri + 1)
  {
    assert ri in view by {
      assert ri !in shown;
    }
    var k := rows[ri].viewIndex;
    assert view[k] == ri by {
      var j :| 0 <= j < |view| && view[j] == ri;
      assert view[j] !in gone;
    }
    assert k !in hiding;
    forall x
      ensures x in hiding + [k] <==> x in hiding || x == k
    {
    }
  }

  lemma {:induction false} ScanSkip(
    rows: seq<Row>, view: seq<int>, last: int, passing: set<int>, shown: seq<int>, gone: set<int>, hiding: seq<int>, ri: nat)
    requires Scanned(rows, view, last, passing, shown, gone, hiding, ri) && ri < |rows|
    requires if ri in passing then rows[ri].viewIndex != -1 else rows[ri].viewIndex <= -1
    ensures Scanned(rows, view, last, passing, shown, gone, hiding, ri + 1)
  {
  }

  lemma {:induction false} Joined(a: seq<int>, b: seq<int>)
    requires Distinct(a) && Distinct(b) && forall x <- b :: x !in a
    ensures Distinct(a + b) && forall x :: x in a + b <==> x in a || x in b
  {
    var all := a + b;
    forall i, j | 0 <= i < j < |all|
      ensures all[i] != all[j]
    {
      assert all[j] == if j < |a| then a[j] else b[j - |a|];
      assert j >= |a| ==> all[j] in b;
      assert i < |a| ==> all[i] in a;
    }
  }

  lemma {:induction false} WithoutMembers(view: seq<int>, gone: set<int>)
    requires Distinct(view)
    ensures forall x :: x in Without(view, gone) <==> x in view && x !in gone
    ensures Distinct(Without(view, gone))
  {
    KeptMembers(view, gone, |view|);
    forall x
      ensures x in view <==> exists k :: 0 <= k < |view| && view[k] == x
    {
    }
  }

  lemma {:induction false} ListedWhen(rows: seq<Row>, view: seq<int>)
    requires forall i :: 0 <= i < |rows| ==> rows[i].userIndex == i
    requires Distinct(view) && forall x <- view :: 0 <= x < |rows|
    ensures Listed(rows, view)
  {
    assert forall k :: 0 <= k < |view| ==> view[k] in view;
  }

  lemma {:induction false} ScanEnd(
    rows: seq<Row>, view: seq<int>, last: int, passing: set<int>, shown: seq<int>, gone: set<int>, hiding: seq<int>)
    requires Scanned(rows, view, last, passing, shown, gone, hiding, |rows|)
    ensures var end := Without(view + shown, gone);
      && Listed(rows, end) && HiddenMarked(rows, end)
      && (forall x :: x in end <==> 0 <= x < |rows| && x in passing)
      && (hiding == [] ==> end == view + shown && (last == |view| - 1 ==> Indexed(rows, end)))
      && Pinpoints(hiding, view + shown, gone)
      && gone == Ids(view) - passing && Distinct(hiding)
  {
    assert Distinct(view) && Distinct(shown) && Distinct(hiding) && forall x <- shown :: x !in view;
    Joined(view, shown);
    ScanMembers(rows, view, last, passing, shown, gone, hiding);
    ScanPinpoints(rows, view, last, passing, shown, gone, hiding);
    WithoutMembers(view + shown, gone);
    hide Scanned, Pinpoints, Distinct, Without, Indexed, Ids, Listed;
    ListedWhen(rows, Without(view + shown, gone));
  }

  lemma {:induction false} ScanPinpoints(
    rows: seq<Row>, view: seq<int>, last: int, passing: set<int>, shown: seq<int>, gone: set<int>, hiding: seq<int>)
    requires Scanned(rows, view, last, passing, shown, gone, hiding, |rows|)
    ensures Pinpoints(hiding, view + shown, gone)
    ensures hiding == [] ==> Listed(rows, view + shown) && (last == |view| - 1 ==> Indexed(rows, view + shown))
    ensures hiding == [] ==> Without(view + shown, gone) == view + shown
  {
    var all := view + shown;
    Joined(view, shown);
    forall k | 0 <= k < |all|
      ensures k in hiding <==> all[k] in gone
      ensures k !in hiding && (last == |view| - 1 || k != |view| - 1) ==> rows[all[k]].viewIndex == k
    {
      assert k < |view| ==> all[k] == view[k];
      assert k >= |view| ==> all[k] == shown[k - |view|] && all[k] in shown;
    }
    if hiding == [] {
      assert forall k :: k !in hiding;
      KeptMembers(all, gone, |all|);
      assert all[..|all|] == all;
    }
  }

  lemma {:induction false} ScanMembers(
    rows: seq<Row>, view: seq<int>, last: int, passing: set<int>, shown: seq<int>, gone: set<int>, hiding: seq<int>)
    requires Scanned(rows, view, last, passing, shown, gone, hiding, |rows|)
    ensures forall x :: (x in view || x in shown) && x !in gone <==> 0 <= x < |rows| && x in passing
    ensures forall x :: x in gone ==> 0 <= x < |rows| && rows[x].viewIndex == -1
    ensures forall i :: 0 <= i < |rows| ==> rows[i].userIndex == i
    ensures gone == Ids(view) - passing
  {
    forall x
      ensures x in gone <==> x in Ids(view) && x !in passing
    {
    }
  }

  /** Before the last row, everything but its own item is as ever. */
  lemma {:induction false} ScanPinpointsBefore(
    rows: seq<Row>, view: seq<int>, last: int, passing: set<int>, shown: seq<int>, gone: set<int>, hiding: seq<int>)
    requires rows != [] && Scanned(rows, view, last, passing, shown, gone, hiding, |rows| - 1) && last != |view| - 1
    ensures Pinpoints(hiding, view + shown, gone) && view[|view| - 1] !in gone
    ensures forall k <- hiding :: 0 <= k < |view| - 1
  {
    var all := view + shown;
    forall k | 0 <= k < |all|
      ensures k in hiding <==> all[k] in gone
    {
      assert k < |view| ==> all[k] == view[k];
      assert k >= |view| ==> all[k] == shown[k - |view|] && all[k] in shown;
    }
  }

  lemma {:induction false} LastPlace(rows: seq<Row>, view: seq<int>, last: int)
    requires Listed(rows, view) && (Indexed(rows, view) || Misplaced(rows, view))
    requires last == if Indexed(rows, view) then |view| - 1 else |rows| - 1
    ensures if last == |view| - 1 then Indexed(rows, view) else last == |rows| - 1 && Misplaced(rows, view)
  {
  }

  lemma {:induction false} MarkedAnyway(rows: seq<Row>, view: seq<int>)
    requires Listed(rows, view) && (Indexed(rows, view) || Misplaced(rows, view))
    ensures HiddenMarked(rows, view)
  {
  }

  lemma {:induction false} LastThinks(
    rows: seq<Row>, view: seq<int>, last: int, passing: set<int>, shown: seq<int>, gone: set<int>, hiding: seq<int>)
    requires rows != [] && Scanned(rows, view, last, passing, shown, gone, hiding, |rows| - 1) && last != |view| - 1
    ensures rows[|rows| - 1].viewIndex == last == |rows| - 1
  {
    assert view[|view| - 1] !in gone;
  }

  lemma {:induction false} HidingDistinct(
    rows: seq<Row>, view: seq<int>, last: int, passing: set<int>, shown: seq<int>, gone: set<int>, hiding: seq<int>)
    requires rows != [] && Scanned(rows, view, last, passing, shown, gone, hiding, |rows| - 1) && last != |view| - 1
    ensures Distinct(hiding + [last])
  {
    ScanPinpointsBefore(rows, view, last, passing, shown, gone, hiding);
    forall i, j | 0 <= i < j < |hiding + [last]|
      ensures (hiding + [last])[i] != (hiding + [last])[j]
    {
      assert hiding[i] in hiding;
    }
  }

  /** In ascending order the place of the misplaced row comes last. */
  lemma {:induction false} PlaceLast(hiding: seq<int>, sorted: seq<int>, last: int)
    requires (forall x :: x in sorted <==> x in hiding + [last]) && Climbing(sorted)
    requires forall k <- hiding :: k < last
    ensures sorted != [] && sorted[|sorted| - 1] == last
    ensures Climbing(sorted[..|sorted| - 1]) && forall x :: x in sorted[..|sorted| - 1] <==> x in hiding
  {
    var n := |sorted| - 1;
    assert last in hiding + [last] && last in sorted;
    var i :| 0 <= i < |sorted| && sorted[i] == last;
    assert forall j :: 0 <= j < |sorted| ==> sorted[j] in sorted;
    assert sorted[n] in hiding + [last];
    assert sorted == sorted[..n] + [last];
    forall x | x in hiding
      ensures x in sorted[..n]
    {
      assert x in hiding + [last];
    }
  }

  /** The item of the misplaced row survives: the deletion meant for it is at another place, or at none. */
  lemma {:induction false} MisplacedStays(
    rows: seq<Row>, view: seq<int>, last: int, passing: set<int>, shown: seq<int>, gone: set<int>,
    hiding: seq<int>, sorted: seq<int>)
    requires rows != [] && Scanned(rows, view, last, passing, shown, gone, hiding, |rows| - 1) && last != |view| - 1
    requires (forall x :: x in sorted <==> x in hiding + [last]) && Climbing(sorted)
    ensures last in Deleted(view + shown, sorted, |sorted|)
  {
    var all, m, h := view + shown, |view| - 1, |sorted| - 1;
    ScanPinpointsBefore(rows, view, last, passing, shown, gone, hiding);
    PlaceLast(hiding, sorted, last);
    var others := sorted[..h];
    LastWhere(rows, view, last, passing, shown, gone, hiding);
    hide Scanned, Climbing, Distinct, Kept, Deleted, Without, Pinpoints;
    PinpointsSame(hiding, others, all, gone);
    forall k | k in others
      ensures k < m
    {
      assert k in hiding;
    }
    DeletedBefore(all, gone, others, m);
    DeletedSame(all, sorted, others, h);
    DeletedOne(all, sorted, h);
    DroppedElsewhere(Deleted(all, others, h), m - h, last - h);
  }

  lemma {:induction false} LastWhere(
    rows: seq<Row>, view: seq<int>, last: int, passing: set<int>, shown: seq<int>, gone: set<int>, hiding: seq<int>)
    requires rows != [] && Scanned(rows, view, last, passing, shown, gone, hiding, |rows| - 1) && last != |view| - 1
    ensures 0 < |view| && view[|view| - 1] == last == |rows| - 1 > |view| - 1
    ensures last == (view + shown)[|view| - 1]
  {
  }

  lemma {:induction false} ScanListed(
    rows: seq<Row>, view: seq<int>, last: int, passing: set<int>, shown: seq<int>, gone: set<int>, hiding: seq<int>)
    requires rows != [] && Scanned(rows, view, last, passing, shown, gone, hiding, |rows| - 1)
    ensures Distinct(view + shown) && forall x <- view + shown :: 0 <= x < |rows|
  {
    Joined(view, shown);
  }

  /** Deletions leave what is there, each item once. */
  lemma {:induction false} DeletedStill(view: seq<int>, hiding: seq<int>, n: nat)
    requires n <= |hiding| && Distinct(view)
    ensures Distinct(Deleted(view, hiding, n)) && forall x <- Deleted(view, hiding, n) :: x in view
  {
    if n > 0 {
      DeletedStill(view, hiding, n - 1);
      var before, p := Deleted(view, hiding, n - 1), hiding[n - 1] - (n - 1);
      if 0 <= p < |before| {
        var after := DropAt(before, p);
        assert forall i :: 0 <= i < |after| ==> after[i] == before[if i < p then i else i + 1];
      }
    }
  }

  /** An item behind all deletions has moved up by their number. */
  lemma {:induction false} DeletedBefore(view: seq<int>, gone: set<int>, hiding: seq<int>, m: nat)
    requires Climbing(hiding) && Pinpoints(hiding, view, gone) && m < |view| && forall k <- hiding :: k < m
    ensures |hiding| <= m && m - |hiding| < |Deleted(view, hiding, |hiding|)|
    ensures Deleted(view, hiding, |hiding|)[m - |hiding|] == view[m]
  {
    hide Kept, Climbing, Pinpoints;
    var h := |hiding|;
    var p := Past(hiding, h);
    assert h > 0 ==> hiding[h - 1] in hiding;
    DeletedKept(view, gone, hiding, h);
    assert (Kept(view, gone, p) + view[p..])[m - h] == view[p..][m - p];
  }

  lemma {:induction false} DeletedSame(view: seq<int>, a: seq<int>, b: seq<int>, n: nat)
    requires n <= |a| && n <= |b| && forall i :: 0 <= i < n ==> a[i] == b[i]
    ensures Deleted(view, a, n) == Deleted(view, b, n)
  {
    if n > 0 {
      DeletedSame(view, a, b, n - 1);
    }
  }

  lemma {:induction false} DroppedElsewhere(s: seq<int>, at: nat, p: int)
    requires at < |s| && p != at
    ensures s[at] in DropAt(s, p)
  {
    if 0 <= p < |s| {
      assert DropAt(s, p)[if at < p then at else at - 1] == s[at];
    }
  }

  /** What the scan showed and found gone; and how it stood before a misplaced last row that does not pass. */
  datatype Scan = Scan(shown: seq<int>, gone: set<int>, past: seq<Row>, hid: seq<int>)

  ghost predicate Done(rows: seq<Row>, view: seq<int>, last: int, passing: set<int>, hiding: seq<int>, scan: Scan) {
    if last != |view| - 1 && |rows| - 1 !in passing then
      && rows != [] && hiding == scan.hid + [last] && |scan.past| == |rows|
      && Scanned(scan.past, view, last, passing, scan.shown, scan.gone, scan.hid, |rows| - 1)
    else Scanned(rows, view, last, passing, scan.shown, scan.gone, hiding, |rows|)
  }

  lemma {:induction false} DoneDistinct(
    rows: seq<Row>, view: seq<int>, last: int, passing: set<int>, hiding: seq<int>, scan: Scan)
    requires Done(rows, view, last, passing, hiding, scan)
    ensures Distinct(hiding)
  {
    hide Scanned, Distinct;
    if last != |view| - 1 && |rows| - 1 !in passing {
      HidingDistinct(scan.past, view, last, passing, scan.shown, scan.gone, scan.hid);
    } else {
      ScanEnd(rows, view, last, passing, scan.shown, scan.gone, hiding);
    }
  }

  /** What the deletions leave. */
  lemma {:induction false} DoneDeleted(
    rows: seq<Row>, view: seq<int>, last: int, passing: set<int>, hiding: seq<int>, scan: Scan, sorted: seq<int>)
    requires Done(rows, view, last, passing, hiding, scan)
    requires (forall x :: x in sorted <==> x in hiding) && Climbing(sorted)
    ensures var end := Deleted(view + scan.shown, sorted, |sorted|);
      if last != |view| - 1 && |rows| - 1 !in passing then
        |rows| - 1 in end && Distinct(end) && forall x <- end :: 0 <= x < |rows|
      else
        && Listed(rows, end) && HiddenMarked(rows, end)
        && (forall x :: x in end <==> 0 <= x < |rows| && x in passing)
        && (scan.shown == [] ==> end == Without(view, Ids(view) - passing))
        && (hiding == [] && last == |view| - 1 ==> Indexed(rows, end))
  {
    hide Scanned, Distinct, Climbing, Pinpoints, Listed, HiddenMarked, Indexed, Without, Deleted, Ids;
    if last != |view| - 1 && |rows| - 1 !in passing {
      LastWhere(scan.past, view, last, passing, scan.shown, scan.gone, scan.hid);
      MisplacedStays(scan.past, view, last, passing, scan.shown, scan.gone, scan.hid, sorted);
      ScanListed(scan.past, view, last, passing, scan.shown, scan.gone, scan.hid);
      DeletedStill(view + scan.shown, sorted, |sorted|);
    } else {
      ScanEnd(rows, view, last, passing, scan.shown, scan.gone, hiding);
      PinpointsSame(hiding, sorted, view + scan.shown, scan.gone);
      DeletedWithout(view + scan.shown, scan.gone, sorted);
      assert scan.shown == [] ==> view + scan.shown == view;
    }
  }

  /** Hiding rows does not put the others out of order. */
  lemma {:induction false} KeptAscending(sort: Sort, ty: DataType, cells: seq<Cell>, view: seq<int>, gone: set<int>)
    ensures Ascending(sort, ty, cells, view) ==> Ascending(sort, ty, cells, Without(view, gone))
  {
    if Ascending(sort, ty, cells, view) {
      KeptAscendingTo(sort, ty, cells, view, gone, |view|);
    }
  }

  lemma {:induction false} KeptAscendingTo(
    sort: Sort, ty: DataType, cells: seq<Cell>, view: seq<int>, gone: set<int>, n: nat)
    requires n <= |view| && Ascending(sort, ty, cells, view)
    ensures var kept := Kept(view, gone, n);
      && Ascending(sort, ty, cells, kept)
      && forall x <- kept :: exists k :: 0 <= k < n && view[k] == x
    decreases n
  {
    hide CompareRows;
    if n > 0 {
      KeptAscendingTo(sort, ty, cells, view, gone, n - 1);
      var kept := Kept(view, gone, n - 1);
      forall i | 0 <= i < |kept|
        ensures 0 <= kept[i] < |cells| && CompareRows(sort, ty, cells, kept[i], view[n - 1]) < 0
      {
        assert kept[i] in kept;
        var k :| 0 <= k < n - 1 && view[k] == kept[i];
      }
    }
  }

  // ----- reindexing -----

  function WithPlaces(rows: seq<Row>, view: seq<int>, n: nat): seq<Row>
    requires n <= |view| && forall k :: 0 <= k < n ==> 0 <= view[k] < |rows|
    ensures |WithPlaces(rows, view, n)| == |rows|
  {
    if n == 0 then rows
    else
      var r := WithPlaces(rows, view, n - 1);
      r[view[n - 1] := r[view[n - 1]].(viewIndex := n - 1)]
  }

  lemma {:induction false} WithPlacesMeaning(rows: seq<Row>, view: seq<int>, n: nat)
    requires n <= |view| && Distinct(view) && forall k :: 0 <= k < |view| ==> 0 <= view[k] < |rows|
    ensures var r := WithPlaces(rows, view, n);
      && SameRows(rows, r)
      && (forall k :: 0 <= k < n ==> r[view[k]].viewIndex == k)
      && (forall i :: 0 <= i < |rows| && i !in view ==> r[i].viewIndex == rows[i].viewIndex)
  {
    if n > 0 {
      WithPlacesMeaning(rows, view, n - 1);
      assert view[n - 1] in view;
    }
  }

  // ----- renumbering -----

  /** Indices once row `u` is gone. */
  function Renumbered(view: seq<int>, u: int): seq<int> {
    seq(|view|, k requires 0 <= k < |view| => if view[k] > u then view[k] - 1 else view[k])
  }

  /** Row `u` taken out, those after it moved up. */
  function RowsWithout(rows: seq<Row>, u: nat): (r: seq<Row>)
    requires u < |rows|
    ensures |r| == |rows| - 1
  {
    seq(|rows| - 1, i requires 0 <= i < |rows| - 1 =>
      if i < u then rows[i] else rows[i + 1].(userIndex := rows[i + 1].userIndex - 1))
  }

  lemma {:induction false} WithoutOne(view: seq<int>, u: int, p: int)
    requires Distinct(view) && if 0 <= p < |view| then view[p] == u else u !in view
    ensures Without(view, {u}) == if 0 <= p < |view| then view[..p] + view[p + 1..] else view
  {
    if 0 <= p < |view| {
      KeptGap(view, {u}, 0, p);
      KeptGap(view, {u}, p + 1, |view|);
      assert view[..p] == view[0..p];
    } else {
      forall k | 0 <= k < |view|
        ensures view[k] !in {u}
      {
        assert view[k] in view;
      }
      KeptGap(view, {u}, 0, |view|);
    }
  }

  /** With or without a sort, translating an index gives the row's place, or none. */
  lemma {:induction false} PlaceOf(rows: seq<Row>, view: seq<int>, i: nat, at: int)
    requires Listed(rows, view) && Indexed(rows, view) && i < |rows|
    requires at == rows[i].viewIndex || (Identity(view, |rows|) && at == i)
    ensures if 0 <= at < |view| then view[at] == i else i !in view
    ensures forall k :: 0 <= k < |view| && view[k] == i ==> k == at
  {
    if k :| 0 <= k < |view| && view[k] == i {
      assert rows[view[k]].viewIndex == k;
    }
  }

  lemma {:induction false} IdentityShrinks(view: seq<int>, n: nat, u: nat)
    requires Distinct(view) && u < n
    ensures Identity(view, n) ==> Identity(Renumbered(Without(view, {u}), u), n - 1)
  {
    if Identity(view, n) {
      WithoutOne(view, u, u);
    }
  }

  /** Indices from `u` on, moved up; what `removeRow` makes of rows and items before it deletes any. */
  ghost predicate Shifted(rows: seq<Row>, view: seq<int>, u: nat, newRows: seq<Row>, newView: seq<int>) {
    && |newRows| == |rows| && |newView| == |view|
    && (forall j :: 0 <= j < |rows| ==> newRows[j] == if u < j then rows[j].(userIndex := j - 1) else rows[j])
    && (forall k :: 0 <= k < |view| ==> newView[k] == if u < view[k] then view[k] - 1 else view[k])
  }

  lemma {:induction false} DroppedView(rows: seq<Row>, view: seq<int>, u: nat, p: int, newRows: seq<Row>, newView: seq<int>)
    requires Shifted(rows, view, u, newRows, newView) && Distinct(view)
    requires if 0 <= p < |view| then view[p] == u else u !in view
    ensures DropAt(newView, p) == Renumbered(Without(view, {u}), u)
  {
    WithoutOne(view, u, p);
    hide Without, Distinct;
    var w, v := DropAt(view, p), DropAt(newView, p);
    forall k | 0 <= k < |w|
      ensures v[k] == if w[k] > u then w[k] - 1 else w[k]
    {
      if 0 <= p < |view| && k >= p {
        assert w[k] == view[k + 1] && v[k] == newView[k + 1];
      }
    }
  }

  lemma {:induction false} Removal(rows: seq<Row>, view: seq<int>, u: nat, p: int, newRows: seq<Row>, newView: seq<int>)
    requires Listed(rows, view) && HiddenMarked(rows, view) && u < |rows|
    requires if 0 <= p < |view| then view[p] == u else u !in view
    requires Shifted(rows, view, u, newRows, newView)
    ensures var r, v := DropAt(newRows, u), DropAt(newView, p);
      && v == Renumbered(Without(view, {u}), u) && r == RowsWithout(rows, u)
      && Listed(r, v) && HiddenMarked(r, v) && (Identity(view, |rows|) ==> Identity(v, |r|))
  {
    DroppedView(rows, view, u, p, newRows, newView);
    DroppedRows(rows, view, u, newRows, newView);
    RemoveKeeps(rows, view, u);
    IdentityShrinks(view, |rows|, u);
    hide Without, Renumbered, RowsWithout, Shifted, HiddenMarked, DropAt, Identity;
  }

  lemma {:induction false} DroppedRows(rows: seq<Row>, view: seq<int>, u: nat, newRows: seq<Row>, newView: seq<int>)
    requires Listed(rows, view) && Shifted(rows, view, u, newRows, newView) && u < |rows|
    ensures DropAt(newRows, u) == RowsWithout(rows, u)
  {
  }

  lemma {:induction false} RemoveKeeps(rows: seq<Row>, view: seq<int>, u: nat)
    requires Listed(rows, view) && HiddenMarked(rows, view) && u < |rows|
    ensures var r, v := RowsWithout(rows, u), Renumbered(Without(view, {u}), u);
      Listed(r, v) && HiddenMarked(r, v)
  {
    var r, w := RowsWithout(rows, u), Without(view, {u});
    var v := Renumbered(w, u);
    WithoutMembers(view, {u});
    forall k | 0 <= k < |v|
      ensures 0 <= v[k] < |r|
    {
      assert w[k] in w;
    }
    forall i, j | 0 <= i < j < |v|
      ensures v[i] != v[j]
    {
      assert w[i] in w && w[j] in w;
    }
    forall x | x in view && x != u
      ensures (if x > u then x - 1 else x) in v
    {
      var k :| 0 <= k < |w| && w[k] == x;
      assert v[k] in v;
    }
    forall i | 0 <= i < |r| && i !in v
      ensures r[i].viewIndex == -1
    {
      assert (if i < u then i else i + 1) !in view;
    }
  }

  // ----- the list -----

  class ListView {
    const columns: seq<Column>
    var rows: seq<Row>
    var view: seq<int>
    var filter: string
    var sort: Option<Sort>
    var needSort: bool
    var needReindex: bool
    var needFilter: bool

    /** Every row has its cells, and the sorted column is one of the list's. */
    ghost predicate Shaped()
      reads this
    {
      && (forall i :: 0 <= i < |rows| ==> |rows[i].cells| == |columns|)
      && (sort.Some? ==> sort.value.column < |columns|)
    }

    /** Between edits; a list that is not sorted shows its rows in their own order. */
    ghost predicate Valid()
      reads this
    {
      && Shaped() && Listed(rows, view) && Indexed(rows, view) && !needReindex
      && (sort.None? ==> Identity(view, |rows|))
    }

    predicate Passes(i: nat)
      requires i < |rows| && Shaped()
      reads this
    {
      FilterMatch(SetTree(filter), FilterValues(columns, rows[i].cells))
    }

    /** With a search for any printed expression, a row passes when the expression holds of its searched texts. */
    lemma {:induction false} PassesMeans(i: nat, e: FilterGrammar.Expr)
      requires i < |rows| && Shaped() && FilterGrammar.WritableExpr(e) && filter == FilterGrammar.Print(e)
      requires exists c :: 0 <= c < |columns| && columns[c].filterable
      ensures Passes(i) <==> FilterGrammar.Eval(e, FilterValues(columns, rows[i].cells))
    {
      hide FilterMatch, SetTree;
      var c :| 0 <= c < |columns| && columns[c].filterable;
      assert Searched(columns, rows[i].cells, rows[i].cells[c].value, c);
      FilterValuesMeaning(columns, rows[i].cells, rows[i].cells[c].value);
      FilterGrammar.FilterComputes(e, FilterValues(columns, rows[i].cells));
    }

    ghost function Passing(): set<int>
      requires Shaped()
      reads this
    {
      set i | 0 <= i < |rows| && Passes(i)
    }

    constructor (columns: seq<Column>)
      ensures Valid() && this.columns == columns && rows == [] && view == [] && filter == "" && sort == None
      ensures !needSort && !needFilter
    {
      this.columns := columns;
      rows, view, filter, sort := [], [], "", None;
      needSort, needReindex, needFilter := false, false, false;
    }

    /** What is compared: without a column to sort by all rows are alike, which leaves their own order. */
    function ComparedCells(): seq<Cell>
      requires Shaped()
      reads this
    {
      seq(|rows|, i requires 0 <= i < |rows| && Shaped() reads this =>
        if sort.Some? then rows[i].cells[sort.value.column] else Cell("", NoData))
    }

    function Key(): Sort
      reads this
    {
      if sort.Some? then sort.value else Sort(0, false)
    }

    function KeyType(): DataType
      requires Shaped()
      reads this
    {
      if sort.Some? then columns[sort.value.column].dataType else UserType
    }

    /** The rows shown have one order... */
    ghost predicate Consistent()
      requires Shaped()
      reads this
    {
      Strict(Key(), KeyType(), ComparedCells(), Ids(view))
    }

    /** ...and are in it. */
    ghost predicate InOrder()
      requires Shaped()
      reads this
    {
      Ascending(Key(), KeyType(), ComparedCells(), view)
    }

    /**
     * A view in order, by the cells of the column it is sorted by: they never go down, or never up in a
     * descending sort, and equal ones keep the order of the rows. Unsorted, the rows keep their own order.
     */
    lemma {:induction false} InOrderMeans(i: nat, j: nat)
      requires Shaped() && InOrder() && i < j < |view|
      ensures 0 <= view[i] < |rows| && 0 <= view[j] < |rows|
      ensures sort.None? ==> view[i] < view[j]
      ensures sort.Some? ==>
        var at := sort.value.column;
        var c := CompareCells(columns[at].dataType, rows[view[i]].cells[at], rows[view[j]].cells[at]);
        (if sort.value.descending then c >= 0 else c <= 0) && (c == 0 ==> view[i] < view[j])
    {
      hide CompareCells;
      assert 0 <= view[i] < |rows| && 0 <= view[j] < |rows|;
      AscendingMeans(Key(), KeyType(), ComparedCells(), view, i, j);
      hide Ascending;
      if sort.None? {
        SameText(Cell("", NoData));
      }
    }

    /** The loop of `filter` over the rows; `hiding` are the places of the items to delete. */
    method ScanRows(ghost last: int) returns (hiding: seq<int>, ghost scan: Scan)
      requires Shaped() && Listed(rows, view)
      requires if last == |view| - 1 then Indexed(rows, view) else last == |rows| - 1 && Misplaced(rows, view)
      modifies this`rows, this`view, this`needSort
      ensures Shaped() && SameRows(old(rows), rows) && Passing() == old(Passing())
      ensures view == old(view) + scan.shown && (scan.shown != [] ==> needSort) && (old(needSort) ==> needSort)
      ensures Done(rows, old(view), last, Passing(), hiding, scan)
    {
      hide Scanned, FilterMatch, SetTree, FilterValues, Distinct, Indexed, HiddenMarked, Misplaced, Pinpoints, Listed;
      var n := |rows|;
      hiding := [];
      ghost var before, passing, v := rows, Passing(), view;
      ghost var bad := last != |view| - 1 && n - 1 !in passing;
      scan := Scan([], {}, rows, []);
      ScanBegin(rows, v, last, passing);
      for ri := 0 to n
        invariant |rows| == n && SameRows(before, rows) && Shaped() && filter == old(filter)
        invariant ri < n || !bad ==> Scanned(rows, v, last, passing, scan.shown, scan.gone, hiding, ri)
        invariant ri == n && bad ==> (
          && n > 0 && hiding == scan.hid + [last] && |scan.past| == n
          && Scanned(scan.past, v, last, passing, scan.shown, scan.gone, scan.hid, n - 1))
        invariant view == v + scan.shown && (scan.shown != [] ==> needSort) && (old(needSort) ==> needSort)
        invariant forall i :: 0 <= i < |rows| ==> (i in passing <==> Passes(i))
        modifies this`rows, this`view, this`needSort
      {
        if Passes(ri) {
          if rows[ri].viewIndex == -1 {
            ScanShow(rows, v, last, passing, scan.shown, scan.gone, hiding, ri);
            rows := rows[ri := rows[ri].(viewIndex := |view|)];
            view := view + [ri];
            scan := scan.(shown := scan.shown + [ri]);
            needSort := true;
          } else {
            ScanSkip(rows, v, last, passing, scan.shown, scan.gone, hiding, ri);
          }
        } else {
          if bad && ri == n - 1 {
            LastThinks(rows, v, last, passing, scan.shown, scan.gone, hiding);
          }
          if rows[ri].viewIndex > -1 {
            if bad && ri == n - 1 {
              scan := scan.(past := rows, hid := hiding);
            } else {
              ScanHide(rows, v, last, passing, scan.shown, scan.gone, hiding, ri);
              scan := scan.(gone := scan.gone + {ri});
            }
            hiding := hiding + [rows[ri].viewIndex];
            rows := rows[ri := rows[ri].(viewIndex := -1)];
          } else {
            ScanSkip(rows, v, last, passing, scan.shown, scan.gone, hiding, ri);
          }
        }
      }
      assert passing == Passing();
    }

    /**
     * `filter`: shows the rows that pass and hides those that do not. A row that is not where it thinks
     * is not hidden: unless it passes, its item stays.
     */
    method Filter()
      requires Shaped() && Listed(rows, view) && (Indexed(rows, view) || Misplaced(rows, view))
      modifies this`rows, this`view, this`needSort, this`needReindex, this`needFilter
      ensures Shaped() && Listed(rows, view) && !needFilter && SameRows(old(rows), rows)
      ensures old(Indexed(rows, view) || Passes(|rows| - 1)) ==>
        && HiddenMarked(rows, view)
        && (forall i :: i in view <==> 0 <= i < |rows| && Passes(i))
        && (needSort || view == Without(old(view), Ids(old(view)) - Passing()))
      ensures old(Indexed(rows, view)) ==> needReindex || Indexed(rows, view)
      ensures old(!Indexed(rows, view) && !Passes(|rows| - 1)) ==> |rows| - 1 in view
      ensures ComparedCells() == old(ComparedCells()) && (old(Indexed(rows, view) && InOrder()) && !needSort ==> InOrder())
      ensures old(needReindex) ==> needReindex
      ensures old(needSort) ==> needSort
    {
      hide FilterMatch, SetTree, FilterValues, Distinct, Climbing, Ids, Indexed, HiddenMarked, Pinpoints;
      hide Misplaced, Deleted, Without, Done, Ascending;
      ghost var v, last := view, if Indexed(rows, view) then |view| - 1 else |rows| - 1;
      LastPlace(rows, view, last);
      ghost var scan;
      var hiding;
      hiding, scan := ScanRows(last);
      ghost var passing, cells := Passing(), ComparedCells();
      KeptAscending(Key(), KeyType(), cells, v, Ids(v) - passing);
      DoneDistinct(rows, v, last, passing, hiding, scan);
      var sorted := SortPositions(hiding);
      DoneDeleted(rows, v, last, passing, hiding, scan, sorted);
      view := DeleteAll(view, sorted);
      ListedWhen(rows, view);
      needReindex := needReindex || hiding != [];
      needFilter := false;
      assert passing == Passing() && ComparedCells() == cells;
    }

    /** `reindexVisible`. */
    method ReindexVisible()
      requires Shaped() && Listed(rows, view)
      modifies this`rows, this`needReindex
      ensures Shaped() && Listed(rows, view) && !needReindex && SameRows(old(rows), rows)
      ensures forall k :: 0 <= k < |view| ==> rows[view[k]].viewIndex == k
      ensures old(HiddenMarked(rows, view)) ==> Indexed(rows, view)
    {
      ghost var before := rows;
      for k := 0 to |view|
        invariant rows == WithPlaces(before, view, k)
        modifies this`rows
      {
        rows := rows[view[k] := rows[view[k]].(viewIndex := k)];
      }
      WithPlacesMeaning(before, view, |view|);
      needReindex := false;
    }

    /** `sort`. */
    method SortView()
      requires Shaped() && Listed(rows, view)
      modifies this`view, this`needSort, this`needReindex
      ensures Shaped() && Listed(rows, view) && needReindex && !needSort
      ensures old(HiddenMarked(rows, view)) ==> HiddenMarked(rows, view)
      ensures (forall i :: i in view <==> i in old(view)) && Ids(view) == old(Ids(view))
      ensures ComparedCells() == old(ComparedCells())
      ensures old(Consistent()) ==> InOrder()
    {
      ghost var before, cells := view, ComparedCells();
      var sorted := SortItems(Key(), KeyType(), ComparedCells(), view);
      SameIds(before, sorted);
      ListedWhen(rows, sorted);
      view := sorted;
      needSort, needReindex := false, true;
      assert ComparedCells() == cells;
    }

    /**
     * `endEdit`: filters, sorts and reindexes as far as the edits call for it. After an edit that marks
     * the filter the view holds exactly the rows that pass, if and only if every row was where it
     * thought or the last one, created while others were hidden, passes.
     */
    method EndEdit()
      requires Shaped() && Listed(rows, view) && (Indexed(rows, view) || Misplaced(rows, view))
      modifies this`rows, this`view, this`needSort, this`needReindex, this`needFilter
      ensures !needFilter && !needSort && !needReindex
      ensures SameRows(old(rows), rows) && Shaped() && Listed(rows, view)
      ensures old(needFilter) ==>
        ((forall i :: i in view <==> 0 <= i < |rows| && Passes(i)) <==> old(Indexed(rows, view) || Passes(|rows| - 1)))
      ensures !old(needFilter) ==> forall i :: i in view <==> i in old(view)
      ensures !old(needFilter) && !old(needSort) ==> view == old(view) && (!old(needReindex) ==> rows == old(rows))
      ensures old(Indexed(rows, view)) ==> Indexed(rows, view) && (Valid() <==> sort.Some? || Identity(view, |rows|))
      ensures old(Misplaced(rows, view) && (needSort || needReindex) && (needFilter ==> Passes(|rows| - 1))) ==>
        Indexed(rows, view)
      ensures (old(needSort) || (old(InOrder()) && old(Indexed(rows, view)))) && Consistent() ==> InOrder()
    {
      hide FilterMatch, SetTree, FilterValues, Kept, Strict, Ascending, Distinct, HiddenMarked, Ids, Without, Misplaced;
      ghost var cells := ComparedCells();
      MarkedAnyway(rows, view);
      if needFilter {
        Filter();
      }
      if needSort {
        SortView();
      }
      if needReindex {
        ReindexVisible();
        assert ComparedCells() == cells;
      }
    }

    // ----- edits -----

    /** `translate`. */
    function Translate(userIndex: int): int
      requires userIndex < |rows|
      reads this
    {
      if sort.None? || userIndex < 0 then userIndex else rows[userIndex].viewIndex
    }

    /**
     * `createRow`: the row takes the number of rows for its place, while the native list puts it
     * after those it shows. The two agree exactly when no row is hidden.
     */
    method CreateRow(cells: seq<Cell>)
      requires Valid() && |cells| == |columns|
      modifies this`rows, this`view
      ensures rows == old(rows) + [Row(|old(rows)|, |old(rows)|, cells)] && view == old(view) + [|old(rows)|]
      ensures Valid() <==> |old(view)| == |old(rows)|
      ensures |old(view)| < |old(rows)| ==> Shaped() && Listed(rows, view) && Misplaced(rows, view)
    {
      var index := |rows|;
      view := view + [index];
      rows := rows + [Row(index, index, cells)];
      if sort.None? {
        assert Identity(view, |rows|);
      }
      assert view[|view| - 1] == index;
    }

    /** `Row::setCell` and `updateCell`. */
    method SetCell(row: nat, column: nat, cell: Cell)
      requires Shaped() && Listed(rows, view) && row < |rows| && column < |columns|
      modifies this`rows, this`needSort, this`needFilter
      ensures Shaped() && Listed(rows, view) && needFilter
      ensures old(Valid()) ==> Valid()
      ensures old(Misplaced(rows, view)) ==> Misplaced(rows, view)
      ensures rows == old(rows)[row := old(rows)[row].(cells := old(rows)[row].cells[column := cell])]
      ensures needSort == (old(needSort) || (sort.Some? && sort.value.column == column))
    {
      rows := rows[row := rows[row].(cells := rows[row].cells[column := cell])];
      if sort.Some? && sort.value.column == column {
        needSort := true;
      }
      needFilter := true;
    }

    /** The loop of `removeRow`: rows and items after `userIndex` get the index before theirs. */
    method ShiftIndices(userIndex: nat)
      requires Valid() && userIndex < |rows|
      modifies this`rows, this`view
      ensures Shifted(old(rows), old(view), userIndex, rows, view)
    {
      ghost var before, shown := rows, view;
      for i := userIndex + 1 to |rows|
        invariant |rows| == |before| && |view| == |shown|
        invariant forall j :: 0 <= j < |rows| ==>
          rows[j] == if userIndex < j < i then before[j].(userIndex := j - 1) else before[j]
        invariant forall k :: 0 <= k < |view| ==>
          view[k] == if userIndex < shown[k] < i then shown[k] - 1 else shown[k]
        modifies this`rows, this`view
      {
        rows := rows[i := rows[i].(userIndex := i - 1)];
        var at := Translate(i);
        PlaceOf(before, shown, i, at);
        if 0 <= at < |view| {  // the native list ignores an item it does not have
          view := view[at := i - 1];
        }
      }
    }

    /** `removeRow`: visible or hidden, the row is gone and those after it are renumbered. */
    method RemoveRow(userIndex: nat)
      requires Valid() && userIndex < |rows|
      modifies this`rows, this`view, this`needReindex
      ensures Valid() && SameRows(RowsWithout(old(rows), userIndex), rows)
      ensures view == Renumbered(Without(old(view), {userIndex}), userIndex)
    {
      var viewIndex := Translate(userIndex);
      ghost var before, shown := rows, view;
      PlaceOf(before, shown, userIndex, viewIndex);
      hide Without, HiddenMarked, Indexed, Distinct, RowsWithout, Renumbered, Shifted;
      ShiftIndices(userIndex);
      Removal(before, shown, userIndex, viewIndex, rows, view);
      view := DropAt(view, viewIndex);
      rows := DropAt(rows, userIndex);
      ReindexVisible();
    }

    method SortByColumn(column: nat, descending: bool)
      requires Valid() && column < |columns|
      modifies this`sort, this`needSort
      ensures Valid() && sort == Some(Sort(column, descending)) && needSort
    {
      sort, needSort := Some(Sort(column, descending)), true;
    }

    method SetFilter(text: string)
      requires Valid()
      modifies this`filter, this`needFilter
      ensures Valid() && filter == text && needFilter
    {
      filter, needFilter := text, true;
    }

    method Clear()
      requires Valid()
      modifies this`rows, this`view
      ensures Valid() && rows == [] && view == []
    {
      rows, view := [], [];
    }
  }

  lemma {:induction false} SameIds(a: seq<int>, b: seq<int>)
    requires Ids(a) == Ids(b)
    ensures forall x :: x in a <==> x in b
  {
    assert forall x :: x in a <==> x in Ids(a);
    assert forall x :: x in b <==> x in Ids(b);
  }
}
