/**
 * The filter of src/filter.cpp as it works: groups linked by parent pointers, changed in place while
 * the input is read once, and evaluated with early exits.
 */
module FilterObject {
  import opened Basics
  import opened FilterSpec

  datatype Node = TokenNode(text: string, flags: Flags) | GroupNode(group: Group)

  /**
   * `parent` is the pointer the code follows. When OR moves a closed group into a new one that pointer
   * goes stale, so `holder` and `slot` say where the group really hangs, and `view` what it holds.
   */
  class Group {
    const ty: GroupType
    const flags: Flags
    const parent: Group?
    var nodes: seq<Node>
    ghost var holder: Group?
    ghost var slot: nat
    ghost var view: Tree

    constructor (ty: GroupType, flags: Flags, parent: Group?, ghost slot: nat)
      ensures this.ty == ty && this.flags == flags && this.parent == parent && nodes == []
      ensures holder == parent && this.slot == slot
    {
      this.ty, this.flags, this.parent := ty, flags, parent;
      nodes := [];
      holder, this.slot := parent, slot;
    }
  }

  ghost function View(n: Node): Tree
    reads if n.GroupNode? then {n.group} else {}
  {
    match n
    case TokenNode(text, flags) => Token(text, flags)
    case GroupNode(g) => g.view
  }

  ghost function Children(g: Group): set<Group>
    reads g
  {
    set n | n in g.nodes && n.GroupNode? :: n.group
  }

  /** The first nodes of a group are the given trees. */
  ghost predicate Holds(g: Group, trees: seq<Tree>)
    reads g, Children(g)
  {
    |trees| <= |g.nodes| && forall k :: 0 <= k < |trees| ==> View(g.nodes[k]) == trees[k]
  }

  /** A closed group is what its view says. */
  ghost predicate ClosedOk(g: Group)
    reads g, Children(g)
  {
    && g.view.Group? && g.view.ty == g.ty && g.view.flags == g.flags
    && |g.view.nodes| == |g.nodes| && Holds(g, g.view.nodes)
  }

  /** An open group holds what its frame says, and after that the next open group, if there is one. */
  ghost predicate FrameOk(g: Group, f: Frame, next: Group?)
    reads g, Children(g)
  {
    && g.ty == f.ty && g.flags == f.flags && Holds(g, f.nodes)
    && (if next == null then |g.nodes| == |f.nodes|
        else |g.nodes| == |f.nodes| + 1 && g.nodes[|f.nodes|] == GroupNode(next) && next.parent == g)
  }

  class Filter {
    const root: Group
    ghost var all: set<Group>
    ghost var spine: seq<Group>
    ghost var frames: Stack

    /** Each group hangs in one place; an OR group hangs from its own parent. */
    ghost predicate Shape()
      reads this, all
    {
      && root in all && root.parent == null && root.holder == null && root.ty.MatchAll? && root.flags == NO_FLAGS
      && (forall g, k :: g in all && 0 <= k < |g.nodes| && g.nodes[k].GroupNode? ==>
            var c := g.nodes[k].group; c in all && c.holder == g && c.slot == k)
      && (forall c :: c in all && c.ty.MatchAny? ==> c.flags == NO_FLAGS && c.parent == c.holder)
    }

    /** The spine leads from the root to the current group by last children and true parent pointers. */
    ghost predicate SpineOk()
      requires Shape()
      reads this, all
    {
      && |spine| == |frames| && spine[0] == root
      && (forall i :: 0 <= i < |spine| ==> spine[i] in all)
      && Distinct(spine)
      && (forall i :: 0 <= i < |spine| - 1 ==> FrameOk(spine[i], frames[i], spine[i + 1]))
      && FrameOk(spine[|spine| - 1], frames[|spine| - 1], null)
    }

    ghost predicate RestClosed()
      requires Shape()
      reads this, all
    {
      forall g :: g in all && g !in spine ==> ClosedOk(g)
    }

    ghost predicate Open()
      reads this, all
    {
      Shape() && SpineOk() && RestClosed()
    }

    ghost predicate Valid()
      reads this, all
    {
      Shape() && forall g :: g in all ==> ClosedOk(g)
    }

    constructor ()
      ensures Valid() && root.view == Tree.Group(MatchAll, NO_FLAGS, [])
      ensures fresh(all) && fresh(root)
    {
      root := new Group(MatchAll, NO_FLAGS, null, 0);
      new;
      all := {root};
      root.view := Tree.Group(MatchAll, NO_FLAGS, []);
      spine, frames := [root], [Frame(MatchAll, NO_FLAGS, [])];
    }

    /** An open group hangs only where the spine says: as the last node of the one before it. */
    lemma {:induction false} OpenHangs(g: Group, k: nat, i: nat)
      requires Open() && g in all && k < |g.nodes| && i < |spine| && g.nodes[k] == GroupNode(spine[i])
      ensures i > 0 && g == spine[i - 1] && k == |frames[i - 1].nodes|
    {
      if i > 0 {
        assert FrameOk(spine[i - 1], frames[i - 1], spine[i]);
      }
    }

    /** The state after the current group was left and its view recorded. */
    twostate predicate Left(top: Group)
      reads this, all, top
    {
      && old(Open()) && |old(spine)| > 1 && top == old(spine)[|old(spine)| - 1]
      && all == old(all) && spine == old(spine)[..|old(spine)| - 1] && frames == Close(old(frames))
      && (forall g :: g in all ==>
            && g.nodes == old(g.nodes) && g.holder == old(g.holder) && g.slot == old(g.slot)
            && g.view == if g == top then TreeOf(Top(old(frames))) else old(g.view))
    }

    twostate lemma LeftShape(top: Group)
      requires Left(top)
      ensures Shape()
    {
    }

    twostate lemma LeftSpine(top: Group)
      requires Left(top) && Shape() && old(TopHangs(top))
      ensures SpineOk()
    {
      ghost var n := |spine|;
      forall i | 0 <= i < n - 1
        ensures FrameOk(spine[i], frames[i], spine[i + 1])
      {
        assert old(FrameOk(spine[i], frames[i], spine[i + 1]));
        assert frames[i] == old(frames)[i];
      }
      assert old(FrameOk(spine[n - 1], frames[n - 1], top));
      assert FrameOk(spine[n - 1], frames[n - 1], null);
    }

    twostate lemma LeftClosed(top: Group)
      requires Left(top) && Shape() && old(TopHangs(top))
      ensures RestClosed()
    {
      forall g | g in all && g !in spine
        ensures ClosedOk(g)
      {
        if g == top {
          assert old(FrameOk(top, Top(frames), null));
        } else {
          assert old(ClosedOk(g));
        }
      }
    }

    /** The current group hangs nowhere but last in the group before it. */
    ghost predicate TopHangs(top: Group)
      requires Open() && |spine| > 1
      reads this, all
    {
      var n := |spine| - 1;
      forall g, k :: g in all && 0 <= k < |g.nodes| && g.nodes[k] == GroupNode(top) ==>
        g == spine[n - 1] && k == |frames[n - 1].nodes|
    }

    /** Ghost bookkeeping for leaving the current group. */
    ghost method CloseTop(top: Group)
      requires Open() && |spine| > 1 && top == spine[|spine| - 1]
      modifies this`spine, this`frames, top`view
      ensures Open() && all == old(all)
      ensures frames == Close(old(frames)) && spine == old(spine)[..|old(spine)| - 1]
    {
      forall g, k | g in all && 0 <= k < |g.nodes| && g.nodes[k] == GroupNode(top)
        ensures g == spine[|spine| - 2] && k == |frames[|spine| - 2].nodes|
      {
        OpenHangs(g, k, |spine| - 1);
      }
      top.view := TreeOf(Top(frames));
      frames := Close(frames);
      spine := spine[..|spine| - 1];
      assert Left(top);
      LeftShape(top);
      LeftSpine(top);
      LeftClosed(top);
    }

    /** `m_nodes.push_back(Token)` on the current group. */
    method AddToken(group: Group, text: string, flags: Flags)
      requires Open() && group == spine[|spine| - 1]
      modifies this`frames, group`nodes
      ensures Open() && frames == Add(old(frames), Token(text, flags))
    {
      group.nodes := group.nodes + [TokenNode(text, flags)];
      frames := Add(frames, Token(text, flags));
    }

    /** The state after a new, empty group was hung last below the current one. */
    twostate predicate Hung(group: Group, new sub: Group)
      reads this, all, group, sub
    {
      && old(Open()) && old(group == spine[|spine| - 1])
      && sub !in old(all) && all == old(all) + {sub}
      && spine == old(spine) + [sub] && frames == old(frames) + [Frame(sub.ty, sub.flags, [])]
      && (forall g :: g in old(all) ==>
            && g.view == old(g.view) && g.holder == old(g.holder) && g.slot == old(g.slot)
            && (g != group ==> g.nodes == old(g.nodes)))
      && group.nodes == old(group.nodes) + [GroupNode(sub)] && sub.nodes == []
      && sub.parent == sub.holder == group && sub.slot == |old(group.nodes)|
      && (sub.ty.MatchAny? ==> sub.flags == NO_FLAGS)
    }

    twostate lemma HungShape(group: Group, new sub: Group)
      requires Hung(group, sub)
      ensures Shape()
    {
    }

    twostate lemma HungSpine(group: Group, new sub: Group)
      requires Hung(group, sub) && Shape()
      ensures SpineOk()
    {
      forall i | 0 <= i < |old(spine)| - 1
        ensures FrameOk(spine[i], frames[i], spine[i + 1])
      {
        assert old(FrameOk(spine[i], frames[i], spine[i + 1]));
        assert spine[i] != group;
      }
      assert old(FrameOk(group, Top(frames), null));
      assert FrameOk(group, frames[|old(spine)| - 1], sub);
    }

    twostate lemma HungClosed(group: Group, new sub: Group)
      requires Hung(group, sub) && Shape()
      ensures RestClosed()
    {
      forall g | g in all && g !in spine
        ensures ClosedOk(g)
      {
        assert g in old(all) && g != group && old(ClosedOk(g));
      }
    }

    /** `addSubGroup` on the current group, which hands over to the new one. */
    method AddSubGroup(group: Group, ty: GroupType, flags: Flags) returns (sub: Group)
      requires Open() && group == spine[|spine| - 1]
      requires ty.MatchAny? ==> flags == NO_FLAGS
      modifies this`spine, this`frames, this`all, group`nodes
      ensures Open() && fresh(sub) && all == old(all) + {sub}
      ensures frames == old(frames) + [Frame(ty, flags, [])] && spine == old(spine) + [sub]
      ensures group.nodes == old(group.nodes) + [GroupNode(sub)]
    {
      sub := new Group(ty, flags, group, |group.nodes|);
      group.nodes := group.nodes + [GroupNode(sub)];
      all := all + {sub};
      spine := spine + [sub];
      frames := frames + [Frame(ty, flags, [])];
      assert Hung(group, sub);
      HungShape(group, sub);
      HungSpine(group, sub);
      HungClosed(group, sub);
    }

    /** The frames with the last node of the current group taken out. */
    static function WithoutLast(z: Stack): Stack
      requires Top(z).nodes != []
    {
      z[|z| - 1 := Top(z).(nodes := Top(z).nodes[..|Top(z).nodes| - 1])]
    }

    static function LastNode(z: Stack): Tree
      requires Top(z).nodes != []
    {
      Top(z).nodes[|Top(z).nodes| - 1]
    }

    /** The state after an OR group, last in the current one, was entered again. */
    twostate predicate Reentered(group: Group, new last: Group)
      reads this, all
    {
      && old(Open()) && old(group == spine[|spine| - 1]) && all == old(all)
      && old(group.nodes != [] && group.nodes[|group.nodes| - 1] == GroupNode(last)) && last.ty.MatchAny?
      && (forall g :: g in all ==>
            g.nodes == old(g.nodes) && g.view == old(g.view) && g.holder == old(g.holder) && g.slot == old(g.slot))
      && |Top(old(frames)).nodes| == |group.nodes|
      && last.view.Group? && last !in old(spine) && last in all
      && spine == old(spine) + [last]
      && frames == WithoutLast(old(frames)) + [Frame(MatchAny, last.view.flags, last.view.nodes)]
    }

    twostate lemma ReenteredShape(group: Group, new last: Group)
      requires Reentered(group, last)
      ensures Shape()
    {
      assert old(Shape());
    }

    twostate lemma ReenteredSpine(group: Group, new last: Group)
      requires Reentered(group, last) && Shape()
      ensures SpineOk()
    {
      ghost var n := |old(spine)| - 1;
      forall i | 0 <= i < n
        ensures FrameOk(spine[i], frames[i], spine[i + 1])
      {
        assert old(FrameOk(spine[i], frames[i], spine[i + 1]));
      }
      assert old(FrameOk(group, Top(frames), null));
      assert last.holder == group && last.parent == group;
      assert FrameOk(group, frames[n], last);
      assert old(ClosedOk(last));
      assert FrameOk(last, frames[n + 1], null);
    }

    /** OR after an OR group: that group, the last node of the current one, is entered again. */
    ghost method Reenter(group: Group, last: Group)
      requires Open() && group == spine[|spine| - 1]
      requires group.nodes != [] && group.nodes[|group.nodes| - 1] == GroupNode(last) && last.ty.MatchAny?
      modifies this`spine, this`frames
      ensures Open()
      ensures Top(old(frames)).nodes != []
      ensures LastNode(old(frames)).Group? && LastNode(old(frames)).ty.MatchAny?
      ensures frames == WithoutLast(old(frames))
        + [Frame(MatchAny, LastNode(old(frames)).flags, LastNode(old(frames)).nodes)]
      ensures spine == old(spine) + [last]
    {
      LastIsLast(group);
      LastIsClosed(group, last);
      frames := WithoutLast(frames) + [Frame(MatchAny, last.view.flags, last.view.nodes)];
      spine := spine + [last];
      assert Reentered(group, last);
      ReenteredShape(group, last);
      ReenteredSpine(group, last);
    }

    lemma {:induction false} LastIsClosed(group: Group, last: Group)
      requires Open() && group == spine[|spine| - 1]
      requires group.nodes != [] && group.nodes[|group.nodes| - 1] == GroupNode(last)
      ensures last in all && last !in spine && ClosedOk(last)
    {
      forall i | 0 <= i < |spine|
        ensures spine[i] != last
      {
        if spine[i] == last {
          OpenHangs(group, |group.nodes| - 1, i);
        }
      }
    }

    /** The state after the last node of the current group was moved into a new OR group. */
    twostate predicate Wrapped(group: Group, new sub: Group)
      reads this, all, group, sub
    {
      && old(Open()) && old(group == spine[|spine| - 1] && group.nodes != [])
      && sub !in old(all) && all == old(all) + {sub}
      && |Top(old(frames)).nodes| == |old(group.nodes)|
      && spine == old(spine) + [sub]
      && frames == WithoutLast(old(frames)) + [Frame(MatchAny, NO_FLAGS, [LastNode(old(frames))])]
      && var m := |old(group.nodes)| - 1; var prev := old(group.nodes)[m];
      && (prev.GroupNode? ==> prev.group.ty.MatchAll?)
      && (forall g :: g in old(all) ==>
            && g.view == old(g.view)
            && (g != group ==> g.nodes == old(g.nodes))
            && (prev.GroupNode? && g == prev.group ==> g.holder == sub && g.slot == 0)
            && (prev != GroupNode(g) ==> g.holder == old(g.holder) && g.slot == old(g.slot)))
      && group.nodes == old(group.nodes)[..m] + [GroupNode(sub)] && sub.nodes == [prev]
      && sub.parent == sub.holder == group && sub.slot == m && sub.ty.MatchAny? && sub.flags == NO_FLAGS
    }

    twostate lemma WrappedShape(group: Group, new sub: Group)
      requires Wrapped(group, sub)
      ensures Shape()
    {
    }

    twostate lemma WrappedSpine(group: Group, new sub: Group)
      requires Wrapped(group, sub) && Shape()
      ensures SpineOk()
    {
      forall i | 0 <= i < |old(spine)| - 1
        ensures FrameOk(spine[i], frames[i], spine[i + 1])
      {
        assert old(FrameOk(spine[i], frames[i], spine[i + 1]));
        assert spine[i] != group;
      }
      assert old(FrameOk(group, Top(frames), null));
      assert FrameOk(group, frames[|old(spine)| - 1], sub);
    }

    twostate lemma WrappedClosed(group: Group, new sub: Group)
      requires Wrapped(group, sub) && Shape()
      ensures RestClosed()
    {
      forall g | g in all && g !in spine
        ensures ClosedOk(g)
      {
        assert g in old(all) && g != group && old(ClosedOk(g));
      }
    }

    /** OR after anything else: that node moves into a new OR group in its place. */
    method WrapLast(group: Group) returns (sub: Group)
      requires Open() && group == spine[|spine| - 1] && group.nodes != []
      requires var n := group.nodes[|group.nodes| - 1]; n.GroupNode? ==> n.group.ty.MatchAll?
      modifies this`spine, this`frames, this`all, group`nodes
      modifies set n | n in group.nodes && n.GroupNode? :: n.group
      ensures Open() && fresh(sub) && all == old(all) + {sub}
      ensures Top(old(frames)).nodes != []
      ensures !(LastNode(old(frames)).Group? && LastNode(old(frames)).ty.MatchAny?)
      ensures frames == WithoutLast(old(frames)) + [Frame(MatchAny, NO_FLAGS, [LastNode(old(frames))])]
      ensures spine == old(spine) + [sub]
    {
      hide Shape, RestClosed, FrameOk;
      var m := |group.nodes| - 1;
      var prev := group.nodes[m];
      LastIsLast(group);
      LastInAll(group);
      OpenFacts();
      hide SpineOk;
      sub := new Group(MatchAny, NO_FLAGS, group, m);
      group.nodes := group.nodes[..m] + [GroupNode(sub)];
      sub.nodes := [prev];
      if prev.GroupNode? {
        prev.group.holder := sub;
        prev.group.slot := 0;
      }
      all := all + {sub};
      spine := spine + [sub];
      frames := WithoutLast(frames) + [Frame(MatchAny, NO_FLAGS, [LastNode(frames)])];
      assert Wrapped(group, sub);
      WrappedShape(group, sub);
      WrappedSpine(group, sub);
      WrappedClosed(group, sub);
    }

    /** The last node of the current group, seen in its frame. */
    lemma {:induction false} LastIsLast(group: Group)
      requires Open() && group == spine[|spine| - 1]
      ensures |Top(frames).nodes| == |group.nodes|
      ensures group.nodes != [] ==>
        var m := |group.nodes| - 1; var t := Top(frames).nodes[m];
        && View(group.nodes[m]) == t
        && (group.nodes[m].GroupNode? ==> t.Group? && t.ty == group.nodes[m].group.ty)
        && (group.nodes[m].TokenNode? ==> t.Token?)
    {
      var m := |group.nodes| - 1;
      assert FrameOk(group, Top(frames), null);
      if m >= 0 && group.nodes[m].GroupNode? {
        var c := group.nodes[m].group;
        forall i | 0 <= i < |spine|
          ensures spine[i] != c
        {
          if spine[i] == c {
            OpenHangs(group, m, i);
          }
        }
        assert ClosedOk(c);
      }
    }

    /** The plain facts of an open tree, for proofs that hide the rest. */
    lemma {:induction false} OpenFacts()
      requires Open()
      ensures |spine| == |frames| && |spine| >= 1 && spine[0] == root
      ensures forall i :: 0 <= i < |spine| ==> spine[i] in all
    {
    }

    /** Ghost bookkeeping for leaving groups until `n` are open. */
    ghost method LeaveTo(n: nat)
      requires Open() && 1 <= n <= |spine|
      modifies this`spine, this`frames, all
      ensures Open() && all == old(all) && frames == CloseTo(old(frames), n) && spine == old(spine)[..n]
    {
      hide Open;
      OpenFacts();
      while |spine| > n
        invariant Open() && all == old(all) && n <= |spine| == |frames| && |spine| <= |old(spine)|
        invariant spine == old(spine)[..|spine|]
        invariant CloseTo(frames, n) == CloseTo(old(frames), n)
      {
        OpenFacts();
        CloseTop(spine[|spine| - 1]);
      }
    }

    /** Along the spine the parent pointers are true and the types are those of the frames. */
    lemma {:induction false} SpineParents()
      requires Open()
      ensures forall i :: 0 <= i < |spine| ==> spine[i].ty == frames[i].ty
      ensures forall i :: 0 <= i < |spine| ==> spine[i].parent == if i == 0 then null else spine[i - 1]
    {
      forall i | 0 <= i < |spine|
        ensures spine[i].ty == frames[i].ty && spine[i].parent == if i == 0 then null else spine[i - 1]
      {
        assert FrameOk(spine[i], frames[i], if i == |spine| - 1 then null else spine[i + 1]);
        assert i > 0 ==> FrameOk(spine[i - 1], frames[i - 1], spine[i]);
      }
    }

    lemma {:induction false} TopParent()
      requires Open()
      ensures |spine| == |frames| >= 1
      ensures spine[|spine| - 1].ty == Top(frames).ty
      ensures |spine| == 1 ==> spine[|spine| - 1].parent == null
      ensures |spine| > 1 ==> spine[|spine| - 1].parent == spine[|spine| - 2]
    {
      SpineParents();
    }

    /** `)`: the parent pointers lead to the nearest enclosing AND group, if there is one. */
    method FindEnclosing(group: Group) returns (found: Group?)
      requires Open() && group == spine[|spine| - 1]
      ensures found == null <==> Enclosing(frames) == 0
      ensures found != null ==> found == spine[Enclosing(frames) - 1]
    {
      SpineParents();
      found := group.parent;
      ghost var n := |spine|;
      assert frames[..n] == frames;
      while found != null
        invariant 1 <= n <= |spine|
        invariant found == if n == 1 then null else spine[n - 2]
        invariant Enclosing(frames) == Enclosing(frames[..n])
        decreases n
      {
        assert frames[..n][..n - 1] == frames[..n - 1];
        if found.ty.MatchAll? {
          return;
        }
        n := n - 1;
        found := found.parent;
      }
    }

    /** Adds a token, then leaves the OR groups for the AND group around them. */
    method PushToken(group: Group, text: string, flags: Flags) returns (next: Group)
      requires Open() && group == spine[|spine| - 1]
      modifies this`spine, this`frames, all
      ensures Open() && all == old(all)
      ensures frames == Rewind(Add(old(frames), Token(text, flags)))
      ensures next == spine[|spine| - 1] && spine <= old(spine)
    {
      hide Open;
      OpenFacts();
      AddToken(group, text, flags);
      next := group;
      ghost var target := Rewind(frames);
      OpenFacts();
      TopParent();
      while next.ty != MatchAll && next.parent != null
        invariant Open() && all == old(all) && |spine| >= 1 && next == spine[|spine| - 1] && spine <= old(spine)
        invariant Rewind(frames) == target
        invariant |spine| == |frames| && next in all
        invariant next.ty == Top(frames).ty && (next.parent == null <==> |spine| == 1)
        decreases |spine|
      {
        TopParent();
        CloseTop(next);
        next := next.parent;
        OpenFacts();
        TopParent();
      }
    }

    method PushClose(group: Group) returns (next: Group)
      requires Open() && group == spine[|spine| - 1]
      modifies this`spine, this`frames, all
      ensures Open() && all == old(all)
      ensures var n := Enclosing(old(frames)); frames == if n == 0 then old(frames) else CloseTo(old(frames), n)
      ensures next == spine[|spine| - 1] && spine <= old(spine)
    {
      hide Open;
      OpenFacts();
      var found := FindEnclosing(group);
      if found == null {
        return group;
      }
      LeaveTo(Enclosing(frames));
      return found;
    }

    /** Only OR groups are ever entered again: an AND group that was left is left for good. */
    twostate predicate ClosedStayClosed()
      reads this
    {
      forall g :: g in spine && g in old(all) && g !in old(spine) ==> g.ty.MatchAny?
    }

    /** `Group::push` on the current group; returns the next current group. */
    method Push(group: Group, buf: string, flags: Flags) returns (next: Group, flags': Flags)
      requires Open() && group == spine[|spine| - 1]
      modifies this`spine, this`frames, this`all, all
      ensures Open() && fresh(all - old(all)) && all >= old(all)
      ensures Parser(frames, flags') == FilterSpec.Push(Parser(old(frames), flags), buf)
      ensures next == spine[|spine| - 1]
      ensures ClosedStayClosed()
    {
      hide Open;
      OpenFacts();
      next, flags' := group, flags;
      if buf == [] {
      } else if !flags.literal && buf == "NOT" {
        flags' := flags.(negate := !flags.negate);
      } else if !flags.literal && buf == "OR" {
        next := PushOr(group);
      } else if !flags.literal && buf == "(" {
        next := AddSubGroup(group, MatchAll, flags);
        flags' := NO_FLAGS;
      } else if !flags.literal && buf == ")" {
        next := PushClose(group);
      } else {
        next := PushToken(group, LowerAll(buf), flags);
        flags' := NO_FLAGS;
      }
    }

    lemma {:induction false} LastInAll(group: Group)
      requires Open() && group == spine[|spine| - 1]
      ensures Children(group) <= all
    {
    }

    method PushOr(group: Group) returns (next: Group)
      requires Open() && group == spine[|spine| - 1]
      modifies this`spine, this`frames, this`all, all
      ensures Open() && fresh(all - old(all)) && all >= old(all)
      ensures forall flags: Flags :: !flags.literal ==>
        Parser(frames, flags) == FilterSpec.Push(Parser(old(frames), flags), "OR")
      ensures next == spine[|spine| - 1]
      ensures ClosedStayClosed()
    {
      hide Open;
      OpenFacts();
      LastIsLast(group);
      if group.nodes == [] {
        return group;
      }
      var last := group.nodes[|group.nodes| - 1];
      LastInAll(group);
      if last.GroupNode? && last.group.ty == MatchAny {
        Reenter(group, last.group);
        return last.group;
      }
      next := WrapLast(group);
    }

    /** A turn of the loop inside quotes: the buffer is the window of `len` characters at `start`. */
    method ConsumeQuoted(input: string, i: nat, flags: Flags, quote: char, start: nat, len: nat)
      returns (flags': Flags, quote': char, start': nat, len': nat)
      requires i < |input| && WindowOk(input, i, flags, quote, start, len) && quote != NO_QUOTE
      ensures WindowOk(input, i + 1, flags', quote', start', len')
      ensures forall z: Stack ::
        (Lexer(Parser(z, flags'), input[start'..start' + len'], quote')
          == Read(Lexer(Parser(z, flags), input[start..start + len], quote), input[i], IsEnd(input[i..])))
    {
      flags', quote', start', len' := flags, quote, start, len;
      if quote == input[i] {
        quote' := NO_QUOTE;
        return;
      }
      if input[i] == ' ' {
        flags' := flags.(word := false);
      }
      if len == 0 {
        start' := i;
      }
      Grown(input, start', len);
      len' := len + 1;
    }

    /** A turn outside quotes, for a character that is neither a space nor a quote or anchor in place. */
    method ConsumeWord(input: string, i: nat, group: Group, flags: Flags, start: nat, len: nat)
      returns (group': Group, flags': Flags, start': nat, len': nat)
      requires Open() && group == spine[|spine| - 1] && i < |input|
      requires WindowOk(input, i, flags, NO_QUOTE, start, len) && input[i] != ' '
      modifies this`spine, this`frames, this`all, all
      ensures Open() && group' == spine[|spine| - 1] && fresh(all - old(all)) && all >= old(all)
      ensures len' > 0 && start' + len' == i + 1
      ensures var l := Lexer(Parser(old(frames), flags), input[start..start + len], NO_QUOTE);
        Lexer(Parser(frames, flags'), input[start'..start' + len'], NO_QUOTE)
          == Extend(if flags.literal then Flush(l) else l, input[i])
    {
      hide Open;
      group', flags', start', len' := group, flags, start, len;
      if flags.literal {
        group', flags' := Push(group, input[start..start + len], flags);
        len' := 0;
      }
      if len' == 0 {
        start' := i;
      }
      Grown(input, start', len');
      len' := len' + 1;
    }

    /** One turn of the loop over the input. */
    method Consume(input: string, i: nat, group: Group, flags: Flags, quote: char, start: nat, len: nat)
      returns (group': Group, flags': Flags, quote': char, start': nat, len': nat)
      requires Open() && group == spine[|spine| - 1] && i < |input|
      requires WindowOk(input, i, flags, quote, start, len)
      modifies this`spine, this`frames, this`all, all
      ensures Open() && group' == spine[|spine| - 1] && fresh(all - old(all)) && all >= old(all)
      ensures WindowOk(input, i + 1, flags', quote', start', len')
      ensures Lexer(Parser(frames, flags'), input[start'..start' + len'], quote')
           == Read(Lexer(Parser(old(frames), flags), input[start..start + len], quote), input[i], IsEnd(input[i..]))
    {
      hide Open;
      hide FilterSpec.Push;
      var c := input[i];
      var isStart, isEnd := len == 0, i + 1 == |input| || input[i + 1] == ' ';
      assert isEnd == IsEnd(input[i..]) && (input[start..start + len] == [] <==> isStart);
      group', flags', quote', start', len' := group, flags, quote, start, len;
      if quote != NO_QUOTE {
        flags', quote', start', len' := ConsumeQuoted(input, i, flags, quote, start, len);
      } else if IsQuote(c) && isStart {
        flags' := flags.(literal := true, word := true);
        quote' := c;
      } else if c == ' ' {
        group', flags' := Push(group, input[start..start + len], flags);
        len' := 0;
      } else if c == '^' && isStart {
        flags' := flags.(start := true);
      } else if c == '$' && isEnd {
        flags' := flags.(end := true);
      } else {
        group', flags', start', len' := ConsumeWord(input, i, group, flags, start, len);
      }
    }

    static lemma {:induction false} Grown(input: string, start: nat, len: nat)
      requires start + len < |input|
      ensures input[start..start + len + 1] == input[start..start + len] + [input[start + len]]
    {
    }

    /**
     * The window ends at the character to be read, so growing it by one takes that character in. Only
     * after a closing quote or a final `$` has it fallen behind, and then it is flushed before it grows.
     */
    static ghost predicate WindowOk(input: string, i: nat, flags: Flags, quote: char, start: nat, len: nat) {
      && i <= |input| && start + len <= i
      && (quote != NO_QUOTE ==> flags.literal && IsQuote(quote))
      && (len > 0 && start + len < i ==> quote == NO_QUOTE && (flags.literal || i == |input| || input[i] == ' '))
    }

    /** Forgets the tree; the root is open and empty. */
    method Reset()
      requires Valid()
      modifies this`spine, this`frames, this`all, root`nodes
      ensures Open() && root in old(all) && all == {root} && spine == [root]
      ensures frames == [Frame(MatchAll, NO_FLAGS, [])]
    {
      root.nodes := [];
      all, spine, frames := {root}, [root], [Frame(MatchAll, NO_FLAGS, [])];
    }

    /** `Filter::set`: one pass over the input. */
    method Set(input: string)
      requires Valid()
      modifies this`spine, this`frames, this`all, all
      ensures Valid() && fresh(all - {root})
      ensures root.view == SetTree(input)
    {
      Reset();
      hide Open;
      hide Valid;
      hide FilterSpec.Push;
      var group, flags, quote := root, NO_FLAGS, NO_QUOTE;
      var start: nat, len: nat, i: nat := 0, 0, 0;
      assert input[0..] == input && input[0..0] == [];
      while i < |input|
        invariant Open() && |spine| >= 1 && group == spine[|spine| - 1]
        invariant fresh(all - {root}) && root in old(all)
        invariant i <= |input| && WindowOk(input, i, flags, quote, start, len)
        invariant Scan(Lexer(Parser(frames, flags), input[start..start + len], quote), input[i..]) == Scan(START, input)
      {
        assert input[i..][1..] == input[i + 1..] && input[i..][0] == input[i];
        group, flags, quote, start, len := Consume(input, i, group, flags, quote, start, len);
        OpenFacts();
        i := i + 1;
      }
      assert input[i..] == [];
      group, flags := Push(group, input[start..start + len], flags);
      CloseRoot();
    }

    /** When the input is read, the groups still open are as good as closed. */
    ghost method CloseRoot()
      requires Open()
      modifies this`spine, this`frames, all
      ensures Valid() && all == old(all) && root.view == CloseAll(old(frames))
    {
      hide Open;
      hide Valid;
      OpenFacts();
      while |spine| > 1
        invariant Open() && all == old(all) && |spine| == |frames|
        invariant CloseAll(frames) == CloseAll(old(frames))
      {
        OpenFacts();
        CloseTop(spine[|spine| - 1]);
      }
      SealRoot();
    }

    ghost method SealRoot()
      requires Open() && |spine| == 1
      modifies root`view
      ensures Valid() && all == old(all) && root.view == CloseAll(old(frames))
    {
      assert FrameOk(root, Top(frames), null);
      forall g, k | g in all && 0 <= k < |g.nodes|
        ensures g.nodes[k] != GroupNode(root)
      {
      }
      root.view := TreeOf(frames[0]);
    }

    // ----- matching -----

    /** `Token::match`, with its early exit for a negated token. */
    method TokenMatches(text: string, flags: Flags, rows: seq<string>) returns (b: bool)
      ensures b == MatchToken(text, flags, rows)
    {
      b := false;
      for i := 0 to |rows|
        invariant flags.negate ==> b == (i > 0) && forall k :: 0 <= k < i ==> !MatchRow(text, flags, rows[k])
        invariant !flags.negate ==> b == exists k :: 0 <= k < i && MatchRow(text, flags, rows[k])
      {
        var found := MatchRow(text, flags, rows[i]);
        if found != flags.negate {
          b := true;
        } else if flags.negate {
          return false;
        }
      }
    }

    /** `Group::match`: leaves at the first node that decides. */
    method GroupMatches(g: Group, rows: seq<string>) returns (b: bool)
      requires Valid() && g in all
      ensures b == Match(g.view, rows)
      decreases g.view
    {
      assert ClosedOk(g);
      ghost var t := g.view;
      for i := 0 to |g.nodes|
        invariant g.ty.MatchAll? ==> forall k :: 0 <= k < i ==> Match(t.nodes[k], rows)
        invariant g.ty.MatchAny? ==> forall k :: 0 <= k < i ==> !Match(t.nodes[k], rows)
      {
        assert View(g.nodes[i]) == t.nodes[i] && t.nodes[i] in t.nodes;
        var found: bool;
        match g.nodes[i] {
          case TokenNode(text, flags) => found := TokenMatches(text, flags, rows);
          case GroupNode(sub) => found := GroupMatches(sub, rows);
        }
        if found {
          if g.ty.MatchAny? {
            return true;
          }
        } else if g.ty.MatchAll? {
          return g.flags.negate;
        }
      }
      return g.ty.MatchAll? && !g.flags.negate;
    }

    /** `Filter::match` on the tree the last input built. */
    method Matches(rows: seq<string>) returns (b: bool)
      requires Valid()
      ensures b == FilterMatch(root.view, rows)
    {
      b := GroupMatches(root, seq(|rows|, i requires 0 <= i < |rows| => LowerAll(rows[i])));
    }
  }
}
