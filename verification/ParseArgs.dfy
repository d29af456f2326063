/** Tree reconstruction: level-tagged preorder rows are hung below the last composite
    argument of the level above. That table of last composites is never cleared. The Go
    heap is an arena here: an argument is referred to by its index of creation. */
module ParseArgs {
  import opened Basics
  import opened Expand

  datatype Flavor = SimpleFlavor | RecordFlavor | TableFlavor

  /** The flavour given to a data type; an unnormalised index table counts as simple. */
  function FlavorOf(d: DataType): Flavor {
    match d
    case PlsqlRecord => RecordFlavor
    case TableType => TableFlavor
    case PlsqlTable => TableFlavor
    case RefCursor => TableFlavor
    case IndexTable => SimpleFlavor
    case Scalar(_) => SimpleFlavor
  }

  lemma FlavorsAgree(d: DataType)
    ensures IsComposite(d) <==> FlavorOf(d) != SimpleFlavor
  {
  }

  datatype Argument = Argument(item: Item, tableOf: Option<nat>, recordOf: seq<nat>)

  /** A table takes the last argument attached, a record collects them. */
  function Attach(a: Argument, n: nat): Argument {
    if FlavorOf(a.item.data).TableFlavor? then a.(tableOf := Some(n)) else a.(recordOf := a.recordOf + [n])
  }

  function Kids(a: Argument): seq<nat> {
    if FlavorOf(a.item.data).TableFlavor? then (if a.tableOf.Some? then [a.tableOf.value] else []) else a.recordOf
  }

  // ----- levels are signed bytes -----

  function Int8(u: int): int
    requires 0 <= u < 256
  {
    if u < 128 then u else u - 256
  }

  function Pred8(l: int): int {
    if l == -128 then 127 else l - 1
  }

  // ----- one row -----

  datatype PState = PState(nodes: seq<Argument>, last: map<int, nat>, ret: Option<nat>)

  const ROOT := Argument(Item("", PlsqlRecord, ""), None, [])
  const INIT := PState([ROOT], map[-1 := 0], None)

  predicate RowOk(row: Row) { 0 <= row.level < 256 }

  predicate IsRet(s: PState, row: Row) {
    row.level == 0 && s.ret.None? && row.item.name == ""
  }

  /** Every reference is to an argument that exists, and level -1 has a last composite. */
  predicate Closed(s: PState) {
    && -1 in s.last
    && (forall k :: k in s.last ==> s.last[k] < |s.nodes|)
    && forall i, j :: 0 <= i < |s.nodes| && 0 <= j < |s.nodes[i].recordOf| ==> s.nodes[i].recordOf[j] < |s.nodes|
  }

  /** The parts of the last composite of level -1, which is the root only if no argument took its
      place. The function's arguments are copied from there. */
  function ArgumentsOf(s: PState): seq<nat> {
    if -1 in s.last && s.last[-1] < |s.nodes| then s.nodes[s.last[-1]].recordOf else []
  }

  /** None is the panic on a missing parent; an index that is not yet created cannot be there. */
  function Step(s: PState, row: Row): Option<PState>
    requires RowOk(row)
  {
    var n, level := |s.nodes|, Int8(row.level);
    var last := if FlavorOf(row.item.data).SimpleFlavor? then s.last else s.last[level := n];
    if IsRet(s, row) then
      Some(PState(s.nodes + [Argument(row.item.(name := "ret"), None, [])], last, Some(n)))
    else if Pred8(level) !in last || last[Pred8(level)] >= n then None
    else
      var p := last[Pred8(level)];
      Some(PState(s.nodes[p := Attach(s.nodes[p], n)] + [Argument(row.item, None, [])], last, s.ret))
  }

  lemma {:induction false} StepCloses(s: PState, row: Row)
    requires RowOk(row) && Closed(s) && Step(s, row).Some?
    ensures Closed(Step(s, row).value)
  {
  }

  predicate RowsOk(rows: seq<Row>) {
    forall i :: 0 <= i < |rows| ==> RowOk(rows[i])
  }

  function Run(s: PState, rows: seq<Row>): Option<PState>
    requires RowsOk(rows)
    decreases |rows|
  {
    if rows == [] then Some(s) else
    match Step(s, rows[0])
    case None => None
    case Some(s') => Run(s', rows[1..])
  }

  lemma {:induction false} RunAppend(s: PState, a: seq<Row>, b: seq<Row>)
    requires RowsOk(a) && RowsOk(b) && RowsOk(a + b)
    ensures Run(s, a + b) == match Run(s, a) case None => None case Some(s') => Run(s', b)
    decreases |a|
  {
    if a == [] {
      assert a + b == b;
    } else {
      assert (a + b)[1..] == a[1..] + b;
      assert (a + b)[0] == a[0];
      var s1 := Step(s, a[0]);
      if s1.Some? {
        RunAppend(s1.value, a[1..], b);
      }
    }
  }

  // ----- the parser itself -----

  class Parser {
    var nodes: seq<Argument>
    var lastArgs: map<int, nat>
    var returns': Option<nat>

    ghost function State(): PState
      reads this
    {
      PState(nodes, lastArgs, returns')
    }

    ghost predicate Valid()
      reads this
    {
      Closed(State())
    }

    constructor ()
      ensures Valid() && State() == INIT
    {
      nodes, lastArgs, returns' := [ROOT], map[-1 := 0], None;
    }

    /** ok is false where the parser panics for want of a parent. */
    method ParseRow(row: Row) returns (ok: bool)
      requires Valid() && RowOk(row)
      modifies this
      ensures ok ==> Valid()
      ensures ok <==> Step(old(State()), row).Some?
      ensures ok ==> State() == Step(old(State()), row).value
    {
      if Step(State(), row).Some? { StepCloses(State(), row); }
      var level := Int8(row.level);
      var arg := |nodes|;
      var node := Argument(row.item, None, []);
      if !FlavorOf(row.item.data).SimpleFlavor? {
        lastArgs := lastArgs[level := arg];
      }
      if level == 0 && returns'.None? && row.item.name == "" {
        node := node.(item := node.item.(name := "ret"));
        nodes := nodes + [node];
        returns' := Some(arg);
        return true;
      }
      if Pred8(level) !in lastArgs || lastArgs[Pred8(level)] >= arg {
        return false;
      }
      var parent := lastArgs[Pred8(level)];
      nodes := nodes[parent := Attach(nodes[parent], arg)];
      nodes := nodes + [node];
      ok := true;
    }

    method Parse(rows: seq<Row>) returns (ok: bool)
      requires Valid() && RowsOk(rows)
      modifies this
      ensures ok ==> Valid()
      ensures ok <==> Run(old(State()), rows).Some?
      ensures ok ==> State() == Run(old(State()), rows).value
    {
      assert rows[0..] == rows;
      for i := 0 to |rows|
        invariant Valid()
        invariant Run(State(), rows[i..]) == Run(old(State()), rows)
      {
        assert rows[i..][0] == rows[i] && rows[i..][1..] == rows[i + 1..];
        ok := ParseRow(rows[i]);
        if !ok { return; }
      }
      assert rows[|rows|..] == [];
      ok := true;
    }

    /** Copies the arguments of the function out of the last composite of level -1. */
    method Arguments() returns (args: seq<Argument>)
      requires Valid()
      ensures |args| == |ArgumentsOf(State())|
      ensures forall i :: 0 <= i < |args| ==>
        ArgumentsOf(State())[i] < |nodes| && args[i] == nodes[ArgumentsOf(State())[i]]
    {
      args := [];
      var parts := nodes[lastArgs[-1]].recordOf;
      for i := 0 to |parts|
        invariant |args| == i
        invariant forall j :: 0 <= j < i ==> args[j] == nodes[parts[j]]
      {
        args := args + [nodes[parts[i]]];
      }
    }
  }

  // ----- argument forests -----

  /** A simple argument has no parts, a table exactly one. */
  predicate Shape(t: Tree) {
    && (t.item.data.Scalar? ==> t.kids == [])
    && (FlavorOf(t.item.data).TableFlavor? ==> |t.kids| == 1)
    && forall i :: 0 <= i < |t.kids| ==> Shape(t.kids[i])
  }

  /** All levels fit an unsigned byte. */
  predicate Fits(t: Tree, level: int)
    decreases t
  {
    && 0 <= level <= 255
    && forall i :: 0 <= i < |t.kids| ==> Fits(t.kids[i], level + 1)
  }

  predicate ShapesFit(ts: seq<Tree>, level: int) {
    forall i :: 0 <= i < |ts| ==> Shape(ts[i]) && Fits(ts[i], level)
  }

  /** No index table has a part. */
  predicate Indexless(t: Tree) {
    (t.item.data.IndexTable? ==> t.kids == []) && forall i :: 0 <= i < |t.kids| ==> Indexless(t.kids[i])
  }

  predicate AllIndexless(ts: seq<Tree>) {
    forall i :: 0 <= i < |ts| ==> Indexless(ts[i])
  }

  /** A composite argument is at level 255, which is -1 as a signed byte: the root's level. */
  predicate Wraps(t: Tree, level: int)
    decreases t
  {
    || (level == 255 && FlavorOf(t.item.data) != SimpleFlavor)
    || exists i :: 0 <= i < |t.kids| && Wraps(t.kids[i], level + 1)
  }

  predicate AnyWraps(ts: seq<Tree>, level: int) {
    exists i :: 0 <= i < |ts| && Wraps(ts[i], level)
  }

  /** Where an argument of each data type keeps its parts: the element of a table is in tableOf, the
      fields of a record are in recordOf, and the other place is empty. */
  predicate Keeps(a: Argument, parts: seq<nat>) {
    match a.item.data
    case TableType => a.recordOf == [] && parts == ElementOf(a)
    case PlsqlTable => a.recordOf == [] && parts == ElementOf(a)
    case RefCursor => a.recordOf == [] && parts == ElementOf(a)
    case _ => a.tableOf == None && a.recordOf == parts
  }

  function ElementOf(a: Argument): seq<nat> {
    match a.tableOf
    case None => []
    case Some(n) => [n]
  }

  /** Argument i of the arena and what hangs below it are the tree t. */
  ghost predicate TreeIs(nodes: seq<Argument>, i: nat, t: Tree)
    decreases t
  {
    && i < |nodes| && nodes[i].item == t.item && |Kids(nodes[i])| == |t.kids| && Keeps(nodes[i], Kids(nodes[i]))
    && forall j :: 0 <= j < |t.kids| ==> i < Kids(nodes[i])[j] && TreeIs(nodes, Kids(nodes[i])[j], t.kids[j])
  }

  lemma {:induction false} TreeIsKept(a: seq<Argument>, b: seq<Argument>, i: nat, t: Tree)
    requires TreeIs(a, i, t) && |a| <= |b| && forall j :: i <= j < |a| ==> a[j] == b[j]
    ensures TreeIs(b, i, t)
    decreases t
  {
    forall j | 0 <= j < |t.kids| ensures TreeIs(b, Kids(b[i])[j], t.kids[j]) {
      TreeIsKept(a, b, Kids(a[i])[j], t.kids[j]);
    }
  }

  lemma {:induction false} FlattenFits(t: Tree, level: int)
    requires Fits(t, level)
    ensures RowsOk(Flatten(t, level))
    decreases t, 1
  {
    FlattenAllFits(t.kids, level + 1);
  }

  lemma {:induction false} FlattenAllFits(ts: seq<Tree>, level: int)
    requires forall i :: 0 <= i < |ts| ==> Fits(ts[i], level)
    ensures RowsOk(FlattenAll(ts, level))
    decreases ts, 0
  {
    if ts != [] {
      FlattenFits(ts[0], level);
      FlattenAllFits(ts[1..], level);
    }
  }
}
