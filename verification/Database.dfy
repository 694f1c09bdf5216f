/**
 * The connection of src/database.cpp: SQLite's stack of named savepoints, driven by a counter.
 * A rollback leaves its marker on the stack, so names repeat; the counter hides that.
 */
module Savepoints {
  import opened Basics

  datatype Mark<S> = Mark(name: nat, snapshot: S)

  // ----- SQLite's side -----

  /** The most recent mark that carries a name, or -1. */
  function Latest<S>(marks: seq<Mark<S>>, name: nat): (i: int)
    ensures -1 <= i < |marks|
    ensures i >= 0 ==> marks[i].name == name
    ensures forall j :: i < j < |marks| ==> marks[j].name != name
  {
    if marks == [] then -1
    else if marks[|marks| - 1].name == name then |marks| - 1
    else Latest(marks[..|marks| - 1], name)
  }

  lemma {:induction false} LatestIs<S>(marks: seq<Mark<S>>, name: nat, i: nat)
    requires i < |marks| && marks[i].name == name
    requires forall j :: i < j < |marks| ==> marks[j].name != name
    ensures Latest(marks, name) == i
  {
    var k := Latest(marks, name);
    assert !(k < i);
  }

  /** Open transaction: what queries see, what is durable, and the savepoints, oldest first. */
  datatype Conn<S> = Conn(now: S, durable: S, marks: seq<Mark<S>>, counter: nat)

  // ----- the counter's side -----

  function Save<S>(c: Conn<S>): Conn<S> {
    c.(marks := c.marks + [Mark(c.counter, c.now)], counter := c.counter + 1)
  }

  /** `ROLLBACK TO sp<counter-1>`: back to the mark, which stays; no such mark is an error. */
  function Restore<S>(c: Conn<S>): Option<Conn<S>> {
    if c.counter == 0 then None
    else
      var i := Latest(c.marks, c.counter - 1);
      if i < 0 then None
      else Some(Conn(c.marks[i].snapshot, c.durable, c.marks[..i + 1], c.counter - 1))
  }

  /** `RELEASE sp<counter-1>`: forgets the mark and those above it, keeping the changes. */
  function Release<S>(c: Conn<S>): Option<Conn<S>> {
    if c.counter == 0 then None
    else
      var i := Latest(c.marks, c.counter - 1);
      if i < 0 then None
      else Some(c.(marks := c.marks[..i], counter := c.counter - 1))
  }

  // ----- the plain stack it should be -----

  /** Every live name has a mark, later names further up. Marks of dead names may lie anywhere. */
  ghost predicate Live<S>(c: Conn<S>) {
    && (forall k {:trigger Latest(c.marks, k)} :: 0 <= k < c.counter ==> Latest(c.marks, k) >= 0)
    && (forall j, k {:trigger Latest(c.marks, j), Latest(c.marks, k)} ::
          0 <= j < k < c.counter ==> Latest(c.marks, j) < Latest(c.marks, k))
  }

  ghost function Snapshots<S>(c: Conn<S>): (stack: seq<S>)
    requires Live(c)
    ensures |stack| == c.counter
  {
    seq(c.counter, k requires 0 <= k < c.counter => c.marks[Latest(c.marks, k)].snapshot)
  }

  /** Cutting the stack above a live mark, or pushing above everything, moves no lower live mark. */
  lemma {:induction false} LatestPrefix<S>(marks: seq<Mark<S>>, longer: seq<Mark<S>>, name: nat)
    requires marks <= longer
    requires Latest(longer, name) < |marks|
    ensures Latest(marks, name) == Latest(longer, name)
  {
    var i := Latest(longer, name);
    if i >= 0 {
      LatestIs(marks, name, i);
    } else {
      assert forall j :: 0 <= j < |marks| ==> marks[j] == longer[j];
    }
  }

  lemma {:induction false} SaveRefines<S>(c: Conn<S>)
    requires Live(c)
    ensures Live(Save(c)) && Snapshots(Save(c)) == Snapshots(c) + [c.now]
  {
    var d := Save(c);
    LatestIs(d.marks, c.counter, |c.marks|);
    forall k | 0 <= k < c.counter
      ensures Latest(d.marks, k) == Latest(c.marks, k)
    {
      LatestIs(d.marks, k, Latest(c.marks, k));
    }
  }

  lemma {:induction false} RestoreRefines<S>(c: Conn<S>)
    requires Live(c)
    ensures Restore(c).Some? <==> c.counter > 0
    ensures c.counter > 0 ==>
      var d := Restore(c).value;
      Live(d) && Snapshots(d) == Snapshots(c)[..c.counter - 1] && d.now == Snapshots(c)[c.counter - 1]
  {
    if c.counter > 0 {
      var d := Restore(c).value;
      forall k | 0 <= k < d.counter
        ensures Latest(d.marks, k) == Latest(c.marks, k)
      {
        LatestPrefix(d.marks, c.marks, k);
      }
    }
  }

  lemma {:induction false} ReleaseRefines<S>(c: Conn<S>)
    requires Live(c)
    ensures Release(c).Some? <==> c.counter > 0
    ensures c.counter > 0 ==>
      var d := Release(c).value;
      Live(d) && Snapshots(d) == Snapshots(c)[..c.counter - 1] && d.now == c.now
  {
    if c.counter > 0 {
      var d := Release(c).value;
      forall k | 0 <= k < d.counter
        ensures Latest(d.marks, k) == Latest(c.marks, k)
      {
        LatestPrefix(d.marks, c.marks, k);
      }
    }
  }

  /** Releasing takes the newest mark of its name from the stack, with all above it; rolling back keeps that mark. */
  lemma {:induction false} MarksLeft<S>(c: Conn<S>)
    requires Live(c) && c.counter > 0
    ensures var marks, kept := Release(c).value.marks, Restore(c).value.marks;
      && marks < kept <= c.marks && |kept| == |marks| + 1 && kept[|marks|].name == c.counter - 1
      && forall j :: |kept| <= j < |c.marks| ==> c.marks[j].name != c.counter - 1
  {
    var i := Latest(c.marks, c.counter - 1);
    assert i >= 0;
  }

  // ----- whole runs -----

  datatype Op<S> = DoSave | DoRestore | DoRelease | DoWrite(content: S)

  function Step<S>(c: Conn<S>, op: Op<S>): Option<Conn<S>> {
    match op
    case DoSave => Some(Save(c))
    case DoRestore => Restore(c)
    case DoRelease => Release(c)
    case DoWrite(content) => Some(c.(now := content))
  }

  function Run<S>(c: Conn<S>, ops: seq<Op<S>>): Option<Conn<S>>
    decreases |ops|
  {
    if ops == [] then Some(c)
    else
      match Step(c, ops[0])
      case None => None
      case Some(d) => Run(d, ops[1..])
  }

  datatype Plain<S> = Plain(now: S, stack: seq<S>)

  function PlainStep<S>(p: Plain<S>, op: Op<S>): Option<Plain<S>> {
    match op
    case DoSave => Some(Plain(p.now, p.stack + [p.now]))
    case DoRestore => if p.stack == [] then None else Some(Plain(p.stack[|p.stack| - 1], p.stack[..|p.stack| - 1]))
    case DoRelease => if p.stack == [] then None else Some(Plain(p.now, p.stack[..|p.stack| - 1]))
    case DoWrite(content) => Some(Plain(content, p.stack))
  }

  function PlainRun<S>(p: Plain<S>, ops: seq<Op<S>>): Option<Plain<S>>
    decreases |ops|
  {
    if ops == [] then Some(p)
    else
      match PlainStep(p, ops[0])
      case None => None
      case Some(q) => PlainRun(q, ops[1..])
  }

  /**
   * For every sequence of calls, nested or not: the named savepoints fail exactly when a plain stack
   * of snapshots would be popped empty, and otherwise leave the same content and the same stack.
   */
  lemma {:induction false} NamedIsPlain<S>(c: Conn<S>, ops: seq<Op<S>>)
    requires Live(c)
    ensures var plain := PlainRun(Plain(c.now, Snapshots(c)), ops);
      match Run(c, ops)
      case None => plain.None?
      case Some(d) => Live(d) && d.durable == c.durable && plain == Some(Plain(d.now, Snapshots(d)))
    decreases |ops|
  {
    if ops != [] {
      SaveRefines(c);
      RestoreRefines(c);
      ReleaseRefines(c);
      match Step(c, ops[0])
      case None =>
      case Some(d) =>
        assert Live(d);
        assert PlainStep(Plain(c.now, Snapshots(c)), ops[0]) == Some(Plain(d.now, Snapshots(d)));
        NamedIsPlain(d, ops[1..]);
    }
  }

  /** Names do repeat: saving again after a rollback leaves two marks that carry one name. */
  lemma {:induction false} NamesRepeat<S>(c: Conn<S>)
    ensures Restore(Save(c)).Some?
    ensures var again := Save(Restore(Save(c)).value);
      again.marks == c.marks + [Mark(c.counter, c.now), Mark(c.counter, c.now)]
  {
    LatestIs(Save(c).marks, c.counter, |c.marks|);
  }

  lemma {:induction false} CommitLive<S>(c: Conn<S>)
    ensures Live(c.(durable := c.now, marks := [])) <==> c.counter == 0
  {
    var d := c.(durable := c.now, marks := []);
    if c.counter > 0 {
      assert Latest(d.marks, 0) == -1;
    }
  }

  // ----- the object -----

  class Database<S> {
    var conn: Conn<S>

    ghost predicate Valid()
      reads this
    {
      Live(conn)
    }

    ghost function Stack(): seq<S>
      requires Valid()
      reads this
    {
      Snapshots(conn)
    }

    /** Opening begins the transaction that lasts until `Commit`. */
    constructor (content: S)
      ensures Valid() && Stack() == [] && conn == Conn(content, content, [], 0)
    {
      conn := Conn(content, content, [], 0);
    }

    method Write(content: S)
      requires Valid()
      modifies this
      ensures Valid() && Stack() == old(Stack())
      ensures conn == old(conn).(now := content)
    {
      conn := conn.(now := content);
    }

    method Savepoint()
      requires Valid()
      modifies this
      ensures Valid() && Stack() == old(Stack()) + [old(conn.now)]
      ensures conn.now == old(conn.now) && conn.durable == old(conn.durable)
      ensures conn == Save(old(conn))
    {
      SaveRefines(conn);
      conn := Save(conn);
    }

    method RestoreSavepoint()
      requires Valid() && Stack() != []
      modifies this
      ensures Valid() && Stack() == old(Stack())[..|old(Stack())| - 1]
      ensures conn.now == old(Stack())[|old(Stack())| - 1] && conn.durable == old(conn.durable)
      ensures Restore(old(conn)) == Some(conn)
    {
      RestoreRefines(conn);
      conn := Restore(conn).value;
    }

    method ReleaseSavepoint()
      requires Valid() && Stack() != []
      modifies this
      ensures Valid() && Stack() == old(Stack())[..|old(Stack())| - 1]
      ensures conn.now == old(conn.now) && conn.durable == old(conn.durable)
      ensures Release(old(conn)) == Some(conn)
    {
      ReleaseRefines(conn);
      conn := Release(conn).value;
    }

    /**
     * `COMMIT` makes the content durable and ends every savepoint SQLite knows. The counter stays, so
     * names and savepoints agree afterwards exactly when none was open.
     */
    method Commit()
      requires Valid()
      modifies this
      ensures conn == old(conn).(durable := old(conn.now), marks := [])
      ensures Valid() <==> old(Stack()) == []
      ensures old(Stack()) == [] ==> Stack() == []
    {
      CommitLive(conn);
      conn := conn.(durable := conn.now, marks := []);
    }
  }
}
