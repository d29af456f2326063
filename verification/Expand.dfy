/** Expansion of argument types: a composite argument row is followed by the rows of its type,
    each one level deeper, in preorder. */
module Expand {
  import opened Basics

  /** The DATA_TYPE of a row. */
  datatype DataType =
    | TableType | PlsqlTable | IndexTable | PlsqlRecord | RefCursor
    | Scalar(name: string)

  /** An argument or attribute: its name, its data type and the name of its type. */
  datatype Item = Item(name: string, data: DataType, typ: string)

  datatype Row = Row(item: Item, level: int)

  /** The dictionary lookup of a composite type; None is an error. */
  type Resolver = Item -> Option<seq<Item>>

  /** The level that resolved rows carry. */
  const RESOLVED_LEVEL := 1

  predicate IsComposite(d: DataType) {
    d.TableType? || d.PlsqlTable? || d.PlsqlRecord? || d.RefCursor?
  }

  function Normal(x: Item): Item {
    if x.data.IndexTable? then x.(data := PlsqlTable) else x
  }

  function NormalAll(xs: seq<Item>): seq<Item> {
    seq(|xs|, i requires 0 <= i < |xs| => Normal(xs[i]))
  }

  /** The attributes or the element of a composite item; a simple item has none. */
  function Parts(r: Resolver, x: Item): Option<seq<Item>> {
    if !IsComposite(x.data) then Some([]) else
    match r(x)
    case None => None
    case Some(q) => Some(NormalAll(q))
  }

  /** Types do not contain themselves: parts have a smaller rank. */
  ghost predicate Acyclic(r: Resolver, rank: Item -> nat) {
    forall x, i :: Parts(r, x).Some? && 0 <= i < |Parts(r, x).value| ==> rank(Parts(r, x).value[i]) < rank(x)
  }

  // ----- the type as a tree -----

  datatype Tree = Node(item: Item, kids: seq<Tree>)

  /** Every lookup below x succeeds. */
  ghost predicate Resolves(r: Resolver, rank: Item -> nat, x: Item)
    requires Acyclic(r, rank)
    decreases rank(x)
  {
    Parts(r, x).Some? && forall i :: 0 <= i < |Parts(r, x).value| ==> Resolves(r, rank, Parts(r, x).value[i])
  }

  ghost function Unfold(r: Resolver, rank: Item -> nat, x: Item): Tree
    requires Acyclic(r, rank) && Resolves(r, rank, x)
    decreases rank(x)
  {
    var q := Parts(r, x).value;
    Node(x, seq(|q|, i requires 0 <= i < |q| => Unfold(r, rank, q[i])))
  }

  /** Preorder rows of a tree whose root is at this level. */
  function Flatten(t: Tree, level: int): seq<Row> {
    [Row(t.item, level)] + FlattenAll(t.kids, level + 1)
  }

  function FlattenAll(ts: seq<Tree>, level: int): seq<Row> {
    if ts == [] then [] else Flatten(ts[0], level) + FlattenAll(ts[1..], level)
  }

  // ----- rows still to be expanded -----

  function RowsAt(xs: seq<Item>, level: int): seq<Row> {
    if xs == [] then [] else [Row(xs[0], level)] + RowsAt(xs[1..], level)
  }

  ghost predicate AllResolve(r: Resolver, rank: Item -> nat, rows: seq<Row>)
    requires Acyclic(r, rank)
  {
    rows != [] ==> Resolves(r, rank, Normal(rows[0].item)) && AllResolve(r, rank, rows[1..])
  }

  /** Each row as it stands, followed by the rows of its type. */
  ghost function ExpandRows(r: Resolver, rank: Item -> nat, rows: seq<Row>): seq<Row>
    requires Acyclic(r, rank) && AllResolve(r, rank, rows)
  {
    if rows == [] then [] else
    [rows[0]] + FlattenAll(Unfold(r, rank, Normal(rows[0].item)).kids, rows[0].level + 1)
    + ExpandRows(r, rank, rows[1..])
  }

  /** The number of rows an item will take; a failed lookup counts as simple. */
  ghost function Size(r: Resolver, rank: Item -> nat, x: Item): nat
    requires Acyclic(r, rank)
    decreases rank(x)
  {
    var q := Parts(r, x);
    if q.None? then 1 else 1 + Sum(seq(|q.value|, i requires 0 <= i < |q.value| => Size(r, rank, q.value[i])))
  }

  function Sum(s: seq<nat>): nat {
    if s == [] then 0 else s[0] + Sum(s[1..])
  }

  ghost function TotalSize(r: Resolver, rank: Item -> nat, rows: seq<Row>): nat
    requires Acyclic(r, rank)
  {
    if rows == [] then 0 else Size(r, rank, Normal(rows[0].item)) + TotalSize(r, rank, rows[1..])
  }

  lemma {:induction false} TotalSizeAppend(r: Resolver, rank: Item -> nat, a: seq<Row>, b: seq<Row>)
    requires Acyclic(r, rank)
    ensures TotalSize(r, rank, a + b) == TotalSize(r, rank, a) + TotalSize(r, rank, b)
  {
    if a == [] {
      assert a + b == b;
    } else {
      assert (a + b)[1..] == a[1..] + b;
      TotalSizeAppend(r, rank, a[1..], b);
    }
  }

  lemma {:induction false} AllResolveAppend(r: Resolver, rank: Item -> nat, a: seq<Row>, b: seq<Row>)
    requires Acyclic(r, rank)
    ensures AllResolve(r, rank, a + b) <==> AllResolve(r, rank, a) && AllResolve(r, rank, b)
  {
    if a == [] {
      assert a + b == b;
    } else {
      assert (a + b)[1..] == a[1..] + b;
      AllResolveAppend(r, rank, a[1..], b);
    }
  }

  lemma {:induction false} ExpandRowsAppend(r: Resolver, rank: Item -> nat, a: seq<Row>, b: seq<Row>)
    requires Acyclic(r, rank) && AllResolve(r, rank, a) && AllResolve(r, rank, b)
    ensures AllResolve(r, rank, a + b)
    ensures ExpandRows(r, rank, a + b) == ExpandRows(r, rank, a) + ExpandRows(r, rank, b)
  {
    AllResolveAppend(r, rank, a, b);
    if a == [] {
      assert a + b == b;
    } else {
      assert (a + b)[1..] == a[1..] + b;
      ExpandRowsAppend(r, rank, a[1..], b);
    }
  }

  predicate Normalised(xs: seq<Item>) {
    forall i :: 0 <= i < |xs| ==> Normal(xs[i]) == xs[i]
  }

  ghost predicate ItemsResolve(r: Resolver, rank: Item -> nat, xs: seq<Item>)
    requires Acyclic(r, rank)
  {
    forall i :: 0 <= i < |xs| ==> Resolves(r, rank, xs[i])
  }

  ghost function Sizes(r: Resolver, rank: Item -> nat, xs: seq<Item>): seq<nat>
    requires Acyclic(r, rank)
  {
    seq(|xs|, i requires 0 <= i < |xs| => Size(r, rank, xs[i]))
  }

  ghost function Trees(r: Resolver, rank: Item -> nat, xs: seq<Item>): seq<Tree>
    requires Acyclic(r, rank) && ItemsResolve(r, rank, xs)
  {
    seq(|xs|, i requires 0 <= i < |xs| => Unfold(r, rank, xs[i]))
  }

  lemma RootOf(r: Resolver, rank: Item -> nat, x: Item)
    requires Acyclic(r, rank) && Resolves(r, rank, x)
    ensures Unfold(r, rank, x).item == x
  {
  }

  lemma {:induction false} FirstItem(r: Resolver, rank: Item -> nat, xs: seq<Item>)
    requires Acyclic(r, rank) && xs != []
    ensures Sizes(r, rank, xs) == [Size(r, rank, xs[0])] + Sizes(r, rank, xs[1..])
    ensures ItemsResolve(r, rank, xs) <==> Resolves(r, rank, xs[0]) && ItemsResolve(r, rank, xs[1..])
    ensures ItemsResolve(r, rank, xs) ==>
      Trees(r, rank, xs) == [Unfold(r, rank, xs[0])] + Trees(r, rank, xs[1..])
    ensures Normalised(xs) ==> Normal(xs[0]) == xs[0] && Normalised(xs[1..])
  {
    hide Unfold;
    hide Resolves;
    hide Size;
    hide Normal;
    assert forall i :: 1 <= i < |xs| ==> xs[i] == xs[1..][i - 1];
    assert forall i :: 0 <= i < |xs[1..]| ==> xs[1..][i] == xs[i + 1];
  }

  /** Rows made from normalised items expand to the preorder of the items' trees. */
  lemma {:induction false} RowsOfParts(r: Resolver, rank: Item -> nat, xs: seq<Item>, level: int)
    requires Acyclic(r, rank) && Normalised(xs)
    ensures AllResolve(r, rank, RowsAt(xs, level)) <==> ItemsResolve(r, rank, xs)
    ensures TotalSize(r, rank, RowsAt(xs, level)) == Sum(Sizes(r, rank, xs))
    ensures ItemsResolve(r, rank, xs) ==>
      ExpandRows(r, rank, RowsAt(xs, level)) == FlattenAll(Trees(r, rank, xs), level)
  {
    hide Unfold;
    hide Resolves;
    hide Size;
    hide Normal;
    if xs != [] {
      FirstItem(r, rank, xs);
      if Resolves(r, rank, xs[0]) { RootOf(r, rank, xs[0]); }
      RowsOfParts(r, rank, xs[1..], level);
      var rows := RowsAt(xs, level);
      assert rows[0] == Row(xs[0], level) && rows[1..] == RowsAt(xs[1..], level);
      assert Sizes(r, rank, xs)[1..] == Sizes(r, rank, xs[1..]);
      if ItemsResolve(r, rank, xs) { assert Trees(r, rank, xs)[1..] == Trees(r, rank, xs[1..]); }
    }
  }

  /** Replacing a row by the rows of its parts behind it. */
  lemma StepExpands(r: Resolver, rank: Item -> nat, row: Row, rest: seq<Row>)
    requires Acyclic(r, rank)
    ensures var parts := Parts(r, Normal(row.item));
      && (parts.None? ==> !AllResolve(r, rank, [row] + rest))
      && (parts.Some? ==>
            var more := RowsAt(parts.value, row.level + 1) + rest;
            && (AllResolve(r, rank, [row] + rest) <==> AllResolve(r, rank, more))
            && TotalSize(r, rank, more) < TotalSize(r, rank, [row] + rest)
            && (AllResolve(r, rank, more) ==>
                  ExpandRows(r, rank, [row] + rest) == [row] + ExpandRows(r, rank, more)))
  {
    hide Resolves;
    hide Unfold;
    StepResolves(r, rank, row, rest);
    if Parts(r, Normal(row.item)).Some? {
      StepShrinks(r, rank, row, rest);
      if AllResolve(r, rank, [row] + rest) { StepUnfolds(r, rank, row, rest); }
    }
  }

  lemma {:induction false} StepResolves(r: Resolver, rank: Item -> nat, row: Row, rest: seq<Row>)
    requires Acyclic(r, rank)
    ensures var parts := Parts(r, Normal(row.item));
      AllResolve(r, rank, [row] + rest) <==>
      parts.Some? && AllResolve(r, rank, RowsAt(parts.value, row.level + 1) + rest)
  {
    var x := Normal(row.item);
    assert ([row] + rest)[1..] == rest;
    if Parts(r, x).Some? {
      var q := Parts(r, x).value;
      PartsAreNormal(r, x);
      RowsOfParts(r, rank, q, row.level + 1);
      AllResolveAppend(r, rank, RowsAt(q, row.level + 1), rest);
      assert Resolves(r, rank, x) <==> ItemsResolve(r, rank, q);
    }
  }

  lemma {:induction false} StepUnfolds(r: Resolver, rank: Item -> nat, row: Row, rest: seq<Row>)
    requires Acyclic(r, rank) && AllResolve(r, rank, [row] + rest) && Parts(r, Normal(row.item)).Some?
    requires AllResolve(r, rank, RowsAt(Parts(r, Normal(row.item)).value, row.level + 1) + rest)
    ensures ExpandRows(r, rank, [row] + rest) ==
            [row] + ExpandRows(r, rank, RowsAt(Parts(r, Normal(row.item)).value, row.level + 1) + rest)
  {
    var x := Normal(row.item);
    var q := Parts(r, x).value;
    var sub := RowsAt(q, row.level + 1);
    assert ([row] + rest)[1..] == rest;
    PartsAreNormal(r, x);
    KidsAreTrees(r, rank, x);
    hide Parts;
    hide Resolves;
    hide Unfold;
    hide Normal;
    RowsOfParts(r, rank, q, row.level + 1);
    AllResolveAppend(r, rank, sub, rest);
    ExpandRowsAppend(r, rank, sub, rest);
    assert ([row] + ExpandRows(r, rank, sub)) + ExpandRows(r, rank, rest) ==
      [row] + (ExpandRows(r, rank, sub) + ExpandRows(r, rank, rest));
  }

  lemma {:induction false} KidsAreTrees(r: Resolver, rank: Item -> nat, x: Item)
    requires Acyclic(r, rank) && Resolves(r, rank, x)
    ensures ItemsResolve(r, rank, Parts(r, x).value) && Unfold(r, rank, x).kids == Trees(r, rank, Parts(r, x).value)
  {
  }

  lemma {:induction false} StepShrinks(r: Resolver, rank: Item -> nat, row: Row, rest: seq<Row>)
    requires Acyclic(r, rank) && Parts(r, Normal(row.item)).Some?
    ensures var more := RowsAt(Parts(r, Normal(row.item)).value, row.level + 1) + rest;
      TotalSize(r, rank, more) < TotalSize(r, rank, [row] + rest)
  {
    var x := Normal(row.item);
    var q := Parts(r, x).value;
    hide Normal;
    assert ([row] + rest)[1..] == rest;
    assert Normalised(q) by { PartsAreNormal(r, x); }
    RowsOfParts(r, rank, q, row.level + 1);
    TotalSizeAppend(r, rank, RowsAt(q, row.level + 1), rest);
    assert Sizes(r, rank, q) == seq(|q|, i requires 0 <= i < |q| => Size(r, rank, q[i]));
  }

  lemma {:induction false} PartsAreNormal(r: Resolver, x: Item)
    ensures Parts(r, x).Some? ==> Normalised(Parts(r, x).value)
  {
  }

  lemma Inserted(a: seq<Row>, i: nat, q: seq<Row>)
    requires i < |a|
    ensures var b := a[..i + 1] + (q + a[i + 1..]);
      b[i + 1..] == q + a[i + 1..] && b[..i + 1] == a[..i] + [a[i]]
  {
  }

  lemma Regroup(a: seq<Row>, x: Row, b: seq<Row>)
    ensures a + ([x] + b) == (a + [x]) + b
  {
  }

  /** Walks the list while inserting into it. */
  method ExpandArgs(rows: seq<Row>, r: Resolver, ghost rank: Item -> nat) returns (plus: seq<Row>, ok: bool)
    requires Acyclic(r, rank)
    ensures ok <==> AllResolve(r, rank, rows)
    ensures ok ==> plus == ExpandRows(r, rank, rows)
  {
    plus := rows;
    var i := 0;
    while i < |plus|
      invariant 0 <= i <= |plus|
      invariant Progress(r, rank, rows, plus[..i], plus[i..])
      decreases TotalSize(r, rank, plus[i..])
    {
      var p := plus[i];
      ghost var before, rest := plus[..i], plus[i + 1..];
      assert plus[i..] == [p] + rest;
      Advance(r, rank, rows, before, p, rest);
      var x := Normal(p.item);
      var found := [];
      if IsComposite(x.data) {
        var q := r(x);
        if q.None? {
          return plus, false;
        }
        found := AddLevels(q.value, p.level);
      }
      Inserted(plus, i, found);
      plus := plus[..i + 1] + (found + plus[i + 1..]);
      i := i + 1;
    }
    ok := true;
    assert plus[..i] == plus && plus[i..] == [];
  }

  /** The rows before the index are final, those from it on are still to be expanded. */
  ghost predicate Progress(r: Resolver, rank: Item -> nat, rows: seq<Row>, done: seq<Row>, todo: seq<Row>)
    requires Acyclic(r, rank)
  {
    && (AllResolve(r, rank, rows) <==> AllResolve(r, rank, todo))
    && (AllResolve(r, rank, rows) ==> done + ExpandRows(r, rank, todo) == ExpandRows(r, rank, rows))
  }

  lemma Advance(r: Resolver, rank: Item -> nat, rows: seq<Row>, done: seq<Row>, p: Row, rest: seq<Row>)
    requires Acyclic(r, rank) && Progress(r, rank, rows, done, [p] + rest)
    ensures var parts := Parts(r, Normal(p.item));
      && (parts.None? ==> !AllResolve(r, rank, rows))
      && (parts.Some? ==>
            var more := RowsAt(parts.value, p.level + 1) + rest;
            Progress(r, rank, rows, done + [p], more) && TotalSize(r, rank, more) < TotalSize(r, rank, [p] + rest))
  {
    StepExpands(r, rank, p, rest);
    var parts := Parts(r, Normal(p.item));
    if parts.Some? {
      var more := RowsAt(parts.value, p.level + 1) + rest;
      if AllResolve(r, rank, more) {
        Regroup(done, p, ExpandRows(r, rank, more));
      }
    }
  }

  /** An index table is called a table; nothing else changes. */
  function Renamed(x: Item): Item {
    match x.data
    case IndexTable => Item(x.name, PlsqlTable, x.typ)
    case _ => x
  }

  lemma {:induction false} RowsOfItems(xs: seq<Item>, level: int)
    ensures |RowsAt(xs, level)| == |xs| && forall j :: 0 <= j < |xs| ==> RowsAt(xs, level)[j] == Row(xs[j], level)
  {
    if xs != [] { RowsOfItems(xs[1..], level); }
  }

  /** Normalises the resolved rows and moves them below their parent. */
  method AddLevels(q: seq<Item>, level: int) returns (rows: seq<Row>)
    ensures rows == RowsAt(NormalAll(q), level + 1)
    ensures |rows| == |q| && forall j :: 0 <= j < |q| ==> rows[j] == Row(Renamed(q[j]), level + 1)
  {
    RowsOfItems(NormalAll(q), level + 1);
    rows := [];
    ghost var all := NormalAll(q);
    assert all[0..] == all;
    for j := 0 to |q|
      invariant rows + RowsAt(all[j..], level + 1) == RowsAt(all, level + 1)
    {
      rows := rows + [Row(Normal(q[j]), RESOLVED_LEVEL + level)];
      assert all[j..][0] == Normal(q[j]) && all[j..][1..] == all[j + 1..];
    }
    assert all[|q|..] == [];
  }

  // ----- the arguments of a function -----

  lemma {:induction false} FlattenNothing(level: int)
    ensures FlattenAll([], level) == []
  {
  }

  lemma {:induction false} FlattenAllSnoc(ts: seq<Tree>, t: Tree, level: int)
    ensures FlattenAll(ts + [t], level) == FlattenAll(ts, level) + Flatten(t, level)
    decreases |ts|
  {
    if ts == [] {
      assert [t][1..] == [] && FlattenAll([t], level) == Flatten(t, level) + [];
    } else {
      assert (ts + [t])[1..] == ts[1..] + [t];
      FlattenAllSnoc(ts[1..], t, level);
    }
  }

  /** A row and the expansion of its type's rows are the preorder of the type tree. */
  lemma {:induction false} ItemExpands(r: Resolver, rank: Item -> nat, x: Item)
    requires Acyclic(r, rank)
    ensures Resolves(r, rank, x) <==> Parts(r, x).Some? && AllResolve(r, rank, RowsAt(Parts(r, x).value, 1))
    ensures Resolves(r, rank, x) ==>
      [Row(x, 0)] + ExpandRows(r, rank, RowsAt(Parts(r, x).value, 1)) == Flatten(Unfold(r, rank, x), 0)
  {
    if Parts(r, x).Some? {
      var q := Parts(r, x).value;
      RowsOfParts(r, rank, q, 1);
      if Resolves(r, rank, x) { assert Unfold(r, rank, x).kids == Trees(r, rank, q); }
    }
  }

  /** Each argument's row is sent as it is in the dictionary, then the expansion of its type; an
      index table is not expanded. */
  method ReadArguments(xs: seq<Item>, r: Resolver, ghost rank: Item -> nat) returns (rows: seq<Row>, ok: bool)
    requires Acyclic(r, rank)
    ensures ok <==> ItemsResolve(r, rank, xs)
    ensures ok ==> rows == FlattenAll(Trees(r, rank, xs), 0)
  {
    hide Unfold;
    hide Resolves;
    hide FlattenAll;
    rows := [];
    assert Trees(r, rank, xs[..0]) == [];
    FlattenNothing(0);
    for i := 0 to |xs|
      invariant ItemsResolve(r, rank, xs[..i])
      invariant rows == FlattenAll(Trees(r, rank, xs[..i]), 0)
    {
      var x := xs[i];
      ItemExpands(r, rank, x);
      rows := rows + [Row(x, 0)];
      ghost var before := xs[..i];
      if IsComposite(x.data) {
        var q := r(x);
        if q.None? {
          return rows, false;
        }
        var plus := AddLevels(q.value, 0);
        plus, ok := ExpandArgs(plus, r, rank);
        if !ok {
          return rows, false;
        }
        rows := rows + plus;
      }
      assert xs[..i + 1] == before + [x];
      assert Trees(r, rank, xs[..i + 1]) == Trees(r, rank, before) + [Unfold(r, rank, x)];
      FlattenAllSnoc(Trees(r, rank, before), Unfold(r, rank, x), 0);
    }
    assert xs[..|xs|] == xs;
    ok := true;
  }
}
