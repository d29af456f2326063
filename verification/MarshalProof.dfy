/** The steps from the generated fragments to the whole block. */
module MarshalProof {
  import opened Basics
  import opened Plsql
  import opened Marshal
  import opened MarshalRun

  // ----- what the variables of an argument hold between the fragments -----

  /** What a column variable holds before the scatter loop: an input column is not cleared. */
  function Stale(a: Arg, binds: Vars, p: string): map<int, Scalar> {
    if a.dir.IsInput() then ElemsAt(binds, p) else map[]
  }

  /** The argument's variable holds x; its column variables hold what was loaded into them. */
  ghost predicate Holds(a: Arg, x: Value, vars: Vars, binds: Vars) {
    match a
    case Simple(_, _) => true
    case Record(_, _, vn, _) => vn in vars && vars[vn] == x && x.Rec?
    case Table(_, _, vn) => vn in vars && vars[vn] == x && x.Arr? && a.Name() in vars && vars[a.Name()].Arr?
    case RecTable(_, _, vn, cols) =>
      && vn in vars && vars[vn] == x && x.RecArr?
      && forall c :: c in cols ==> c.param in vars && vars[c.param] == Arr(Stale(a, binds, c.param))
  }

  /** After the declarations. */
  ghost predicate Declared(a: Arg, vars: Vars, binds: Vars) {
    match a
    case Simple(_, _) => true
    case Record(_, _, vn, _) => vn in vars && vars[vn] == Rec(map[])
    case Table(_, _, vn) =>
      && vn in vars && vars[vn] == Arr(map[])
      && a.Name() in vars && vars[a.Name()] == Arr(Stale(a, binds, a.Name()))
    case RecTable(_, _, vn, cols) =>
      && vn in vars && vars[vn] == RecArr(map[])
      && forall c :: c in cols ==> c.param in vars && vars[c.param] == Arr(map[])
  }

  /** The binds of a composite output argument carry x. Column c of a table of records is the
      compacted column, laid over whatever the column still held. */
  ghost predicate Delivered(a: Arg, x: Value, binds: Vars, binds': Vars)
    requires HasType(a, x)
  {
    match a
    case Simple(_, _) => true
    case Record(_, _, _, cols) =>
      forall c :: c in cols ==> c.param in binds' && binds'[c.param] == Sca(Field(x.fields, c.field))
    case Table(_, _, _) => a.Name() in binds' && binds'[a.Name()] == x
    case RecTable(_, _, _, cols) =>
      forall c :: c in cols ==>
        c.param in binds' && binds'[c.param] == Arr(Stale(a, binds, c.param) + Column(x.rows, c.field))
  }

  lemma HoldsFrame(a: Arg, x: Value, vars: Vars, vars': Vars, binds: Vars, touched: set<string>)
    requires Agree(vars, vars', touched) && touched !! Locals(a)
    ensures Holds(a, x, vars, binds) ==> Holds(a, x, vars', binds)
    ensures Declared(a, vars, binds) ==> Declared(a, vars', binds)
  {
  }

  lemma DeliveredFrame(a: Arg, x: Value, binds: Vars, before: Vars, after: Vars, touched: set<string>)
    requires HasType(a, x) && Agree(before, after, touched) && touched !! BindsOf(a)
    ensures Delivered(a, x, binds, before) ==> Delivered(a, x, binds, after)
  {
  }

  // ----- the fragments of one argument -----

  lemma RecordByCols(cols: seq<Col>, binds: Vars, row: Row)
    requires ColsDistinct(cols) && row.Keys == Fields(cols)
    requires forall c :: c in cols ==> row[c.field] == ScalarAt(binds, c.param)
    ensures row == RecordFrom(cols, binds)
  {
    forall k | k in row ensures row[k] == ScalarAt(binds, ParamFor(cols, k)) {
      var c :| c in cols && c.field == k;
      ParamForCol(cols, c);
    }
  }

  lemma SameRow(cols: seq<Col>, x: Vars, y: Vars, i: int)
    requires ColsDistinct(cols)
    requires forall c :: c in cols ==> c.param in x && c.param in y && x[c.param] == y[c.param]
    ensures RowFrom(cols, x, i) == RowFrom(cols, y, i)
  {
    forall k | k in Fields(cols) ensures CellAt(x, ParamFor(cols, k), i) == CellAt(y, ParamFor(cols, k), i) {
      var c :| c in cols && c.field == k;
      ParamForCol(cols, c);
    }
  }

  lemma SameRows(cols: seq<Col>, x: Vars, y: Vars, idx: set<int>)
    requires ColsDistinct(cols)
    requires forall c :: c in cols ==> c.param in x && c.param in y && x[c.param] == y[c.param]
    ensures RowsAt(cols, x, idx) == RowsAt(cols, y, idx)
  {
    forall i ensures RowFrom(cols, x, i) == RowFrom(cols, y, i) {
      SameRow(cols, x, y, i);
    }
  }

  lemma RunsFirst(v: string, st: State) returns (st': State)
    requires I1 in st.vars && v in st.vars && Indexes(st.vars[v]).Some?
    ensures Runs([Assign(ToVar(I1), FirstOf(v))], st, st')
    ensures st' == st.(vars := st.vars[I1 := Sca(FirstIn(Indexes(st.vars[v]).value))])
  {
    st' := st.(vars := st.vars[I1 := Sca(FirstIn(Indexes(st.vars[v]).value))]);
    RunsAssign(ToVar(I1), FirstOf(v), st, st');
  }

  lemma RunsOne(st: State) returns (st': State)
    requires I2 in st.vars
    ensures Runs([Assign(ToVar(I2), IntLit(1))], st, st') && st' == st.(vars := st.vars[I2 := Sca(Num(1))])
  {
    st' := st.(vars := st.vars[I2 := Sca(Num(1))]);
    RunsAssign(ToVar(I2), IntLit(1), st, st');
  }

  /** Loading the columns and setting i1 to the first index. */
  lemma RunsGatherSetup(a: Arg, st: State) returns (st': State)
    requires a.RecTable? && a.dir.IsInput() && ArgOk(a) && Declared(a, st.vars, st.binds) && InputOk(a, st.binds)
    requires I1 in st.vars
    ensures var p0 := a.cols[0].param;
            Runs(Lines(LoadCol, a.vn, a.cols) + [Assign(ToVar(I1), FirstOf(p0))], st, st')
    ensures st'.binds == st.binds && Agree(st.vars, st'.vars, Params(a.cols) + {I1})
    ensures I1 in st'.vars && st'.vars[I1] == Sca(FirstIn(ElemsAt(st.binds, a.cols[0].param).Keys))
    ensures forall c :: c in a.cols ==> c.param in st'.vars && st'.vars[c.param] == st.binds[c.param]
  {
    hide Runs;
    hide Eval;
    hide ColsDistinct;
    var cols := a.cols;
    var p0 := cols[0].param;
    assert cols[0] in cols;
    assert forall c :: c in cols ==> c.param in Params(cols);
    var s1 := RunsPrepareCols(true, a.vn, cols, st);
    st' := RunsFirst(p0, s1);
    RunsSeq(Lines(LoadCol, a.vn, cols), [Assign(ToVar(I1), FirstOf(p0))], st, s1, st');
  }

  lemma TableNames(a: Arg)
    requires a.RecTable? && ArgOk(a)
    ensures a.cols != [] && ColsDistinct(a.cols) && Locals(a) == {a.vn} + Params(a.cols)
    ensures a.vn !in Params(a.cols) && I1 !in Params(a.cols) && I2 !in Params(a.cols) && a.vn != I1 && a.vn != I2
    ensures forall c :: c in a.cols ==> c.field in Fields(a.cols) && c.param in Params(a.cols)
  {
  }

  /** After the gather walk the variables of a hold what its binds describe. */
  lemma GatheredHolds(a: Arg, binds: Vars, loaded: Vars, vars: Vars)
    requires a.RecTable? && a.dir.IsInput() && ArgOk(a) && InputOk(a, binds)
    requires forall c :: c in a.cols ==> c.param in loaded && loaded[c.param] == binds[c.param]
    requires Agree(loaded, vars, {a.vn, I1}) && a.vn in vars
    requires vars[a.vn] == RecArr(map[] + RowsAt(a.cols, loaded, ElemsAt(binds, a.cols[0].param).Keys))
    ensures Holds(a, Start(a, binds), vars, binds)
  {
    hide RowsAt;
    hide ArgOk;
    hide ColsDistinct;
    hide Params;
    hide Locals;
    TableNames(a);
    var rows := RowsAt(a.cols, binds, ElemsAt(binds, a.cols[0].param).Keys);
    SameRows(a.cols, loaded, binds, ElemsAt(binds, a.cols[0].param).Keys);
    assert map[] + rows == rows;
  }

  lemma RunsPreRecTable(a: Arg, st: State) returns (st': State)
    requires a.RecTable? && a.dir.IsInput() && ArgOk(a) && Declared(a, st.vars, st.binds) && InputOk(a, st.binds)
    requires I1 in st.vars
    ensures Runs(PreArg(a), st, st')
    ensures st'.binds == st.binds && Agree(st.vars, st'.vars, Locals(a) + {I1}) && I1 in st'.vars
    ensures Holds(a, Start(a, st.binds), st'.vars, st.binds)
  {
    hide Runs;
    hide RowsAt;
    hide Holds;
    hide Lines;
    hide ArgOk;
    hide ColsDistinct;
    hide Params;
    hide Locals;
    TableNames(a);
    var cols, vn, p0 := a.cols, a.vn, a.cols[0].param;
    assert cols[0] in cols;
    var keys := ElemsAt(st.binds, p0).Keys;
    var s2 := RunsGatherSetup(a, st);
    st' := RunsGatherLoop(vn, cols, keys, keys, map[], s2);
    var load, walk := Lines(LoadCol, vn, cols), Walk(p0, Lines(GatherCell, vn, cols));
    var first := Assign(ToVar(I1), FirstOf(p0));
    RunsSeq(load + [first], walk[1..], st, s2, st');
    assert (load + [first]) + walk[1..] == load + walk;
    GatheredHolds(a, st.binds, s2.vars, st'.vars);
  }

  /** The whole copying walk, into an empty array. */
  lemma RunsCopy(dst: string, src: string, from: map<int, Scalar>, st: State) returns (st': State)
    requires dst != src && I1 != dst && I1 != src && I1 in st.vars
    requires src in st.vars && st.vars[src] == Arr(from) && dst in st.vars && st.vars[dst] == Arr(map[])
    ensures Runs(Walk(src, CopyCell(dst, src)), st, st')
    ensures st'.binds == st.binds && Agree(st.vars, st'.vars, {dst, I1})
    ensures I1 in st'.vars && dst in st'.vars && st'.vars[dst] == Arr(from)
  {
    hide Runs;
    hide Eval;
    var s1 := RunsFirst(src, st);
    st' := RunsCopyLoop(dst, src, from.Keys, from, map[], s1);
    var walk := Walk(src, CopyCell(dst, src));
    assert walk == [Assign(ToVar(I1), FirstOf(src))] + walk[1..];
    RunsSeq([Assign(ToVar(I1), FirstOf(src))], walk[1..], st, s1, st');
    assert map[] + ElemsIn(from, from.Keys) == from;
  }

  lemma RunsPre(a: Arg, st: State) returns (st': State)
    requires ArgOk(a) && Declared(a, st.vars, st.binds) && I1 in st.vars
    requires a.dir.IsInput() ==> InputOk(a, st.binds)
    ensures Runs(PreArg(a), st, st')
    ensures st'.binds == st.binds && Agree(st.vars, st'.vars, Locals(a) + {I1}) && I1 in st'.vars
    ensures Holds(a, Start(a, st.binds), st'.vars, st.binds)
  {
    RunsNothing(st);
    st' := st;
    match a {
      case Simple(_, _) =>
      case Record(_, dir, vn, cols) =>
        if dir.IsInput() {
          var row;
          st', row := RunsFetchFields(vn, cols, map[], st);
          RecordByCols(cols, st.binds, row);
        }
      case Table(_, dir, vn) =>
        if dir.IsInput() {
          var n := a.Name();
          RunsDelete(vn, st, st);
          assert st.vars[vn := Arr(map[])] == st.vars;
          st' := RunsCopy(vn, n, ElemsAt(st.binds, n), st);
          RunsSeq([Delete(vn)], Walk(n, CopyCell(vn, n)), st, st, st');
        }
      case RecTable(_, dir, vn, cols) =>
        if dir.IsInput() {
          st' := RunsPreRecTable(a, st);
        } else {
          RunsDelete(vn, st, st);
          assert st.vars[vn := RecArr(map[])] == st.vars;
          st' := RunsPrepareCols(false, vn, cols, st);
          RunsSeq([Delete(vn)], Lines(ClearCol, vn, cols), st, st, st');
          assert forall c :: c in cols ==> c.param in Params(cols);
        }
    }
  }

  lemma RunsScatter(a: Arg, x: Value, binds: Vars, st: State) returns (st': State)
    requires a.RecTable? && ArgOk(a) && Holds(a, x, st.vars, binds) && I1 in st.vars && I2 in st.vars
    ensures Runs(WalkCounting(a.vn, Lines(ScatterCell, a.vn, a.cols)), st, st')
    ensures Agree(st.vars, st'.vars, Locals(a) + {I1, I2}) && st'.binds == st.binds
    ensures I1 in st'.vars && I2 in st'.vars
    ensures forall c :: c in a.cols ==>
      c.param in st'.vars && st'.vars[c.param] == Arr(Stale(a, binds, c.param) + Column(x.rows, c.field))
  {
    hide Runs;
    hide Eval;
    hide Lines;
    hide ArgOk;
    hide ColsDistinct;
    hide Params;
    hide Locals;
    hide Spread;
    TableNames(a);
    var cols, vn := a.cols, a.vn;
    var first, one := Assign(ToVar(I1), FirstOf(vn)), Assign(ToVar(I2), IntLit(1));
    var s1 := RunsFirst(vn, st);
    var s2 := RunsOne(s1);
    st' := RunsScatterLoop(vn, cols, x.rows.Keys, 1, x.rows, s2);
    var walk := WalkCounting(vn, Lines(ScatterCell, vn, cols));
    RunsSeq([one], walk[2..], s1, s2, st');
    RunsSeq([first], [one] + walk[2..], st, s1, st');
    assert walk == [first] + ([one] + walk[2..]);
  }

  lemma RunsPostRecTable(a: Arg, x: Value, binds: Vars, st: State) returns (st': State)
    requires a.RecTable? && a.dir.IsOutput() && ArgOk(a) && Holds(a, x, st.vars, binds)
    requires I1 in st.vars && I2 in st.vars
    ensures Runs(PostArg(a), st, st')
    ensures Agree(st.vars, st'.vars, Locals(a) + {I1, I2}) && Agree(st.binds, st'.binds, Carriers(a))
    ensures I1 in st'.vars && I2 in st'.vars
    ensures Delivered(a, x, binds, st'.binds)
  {
    var s1 := RunsScatter(a, x, binds, st);
    st' := RunsReturnCols(a.vn, a.cols, s1);
    RunsSeq(WalkCounting(a.vn, Lines(ScatterCell, a.vn, a.cols)), Lines(ReturnCol, a.vn, a.cols), st, s1, st');
  }

  lemma RunsPostTable(a: Arg, x: Value, binds: Vars, st: State) returns (st': State)
    requires a.Table? && a.dir.IsOutput() && ArgOk(a) && Holds(a, x, st.vars, binds) && I1 in st.vars && I2 in st.vars
    ensures Runs(PostArg(a), st, st')
    ensures Agree(st.vars, st'.vars, Locals(a) + {I1, I2}) && Agree(st.binds, st'.binds, Carriers(a))
    ensures I1 in st'.vars && I2 in st'.vars
    ensures Delivered(a, x, binds, st'.binds)
  {
    var n, vn := a.Name(), a.vn;
    var s1 := st.(vars := st.vars[n := Arr(map[])]);
    RunsDelete(n, st, s1);
    var s3 := RunsCopy(n, vn, x.elems, s1);
    var walk := Walk(vn, CopyCell(n, vn));
    RunsSeq([Delete(n)], walk, st, s1, s3);
    st' := s3.(binds := s3.binds[n := x]);
    RunsAssign(ToBind(n), VarRef(n), s3, st');
    RunsSeq([Delete(n)] + walk, [Assign(ToBind(n), VarRef(n))], st, s3, st');
  }

  lemma RunsPost(a: Arg, x: Value, binds: Vars, st: State) returns (st': State)
    requires ArgOk(a) && HasType(a, x) && Holds(a, x, st.vars, binds) && I1 in st.vars && I2 in st.vars
    ensures Runs(PostArg(a), st, st')
    ensures Agree(st.vars, st'.vars, Locals(a) + {I1, I2})
    ensures Agree(st.binds, st'.binds, if a.dir.IsOutput() then Carriers(a) else {})
    ensures I1 in st'.vars && I2 in st'.vars
    ensures a.dir.IsOutput() ==> Delivered(a, x, binds, st'.binds)
  {
    RunsNothing(st);
    st' := st;
    if a.dir.IsOutput() {
      match a {
        case Simple(_, _) =>
        case Record(_, dir, vn, cols) =>
          st' := RunsReturnFields(vn, cols, x.fields, st);
        case Table(_, dir, vn) =>
          st' := RunsPostTable(a, x, binds, st);
        case RecTable(_, dir, vn, cols) =>
          st' := RunsPostRecTable(a, x, binds, st);
      }
    }
  }

  // ----- all arguments -----

  function LocalsOf(args: seq<Arg>): set<string> {
    if args == [] then {} else Locals(args[0]) + LocalsOf(args[1..])
  }

  function BindsOfAll(args: seq<Arg>): set<string> {
    if args == [] then {} else BindsOf(args[0]) + BindsOfAll(args[1..])
  }

  lemma {:induction false} OthersDisjoint(args: seq<Arg>)
    requires ArgsOk(args) && args != []
    ensures Locals(args[0]) !! LocalsOf(args[1..]) && BindsOf(args[0]) !! BindsOfAll(args[1..])
    ensures forall b :: b in args[1..] ==> Locals(args[0]) !! Locals(b) && BindsOf(args[0]) !! BindsOf(b)
  {
    DisjointFrom(args[0], args[1..]);
  }

  lemma {:induction false} DisjointFrom(a: Arg, args: seq<Arg>)
    requires forall b :: b in args ==> Locals(b) !! Locals(a) && BindsOf(b) !! BindsOf(a)
    ensures Locals(a) !! LocalsOf(args) && BindsOf(a) !! BindsOfAll(args)
  {
    if args != [] {
      assert args[0] in args;
      DisjointFrom(a, args[1..]);
    }
  }

  lemma {:induction false} RunsPreAll(args: seq<Arg>, st: State) returns (st': State)
    requires ArgsOk(args) && I1 in st.vars && InputsOk(args, st.binds)
    requires forall a :: a in args ==> Declared(a, st.vars, st.binds)
    ensures Runs(Pre(args), st, st')
    ensures st'.binds == st.binds && Agree(st.vars, st'.vars, LocalsOf(args) + {I1}) && I1 in st'.vars
    ensures forall a :: a in args ==> Holds(a, Start(a, st.binds), st'.vars, st.binds)
  {
    if args == [] {
      RunsNothing(st);
      st' := st;
    } else {
      var a := args[0];
      assert a in args;
      OthersDisjoint(args);
      var s1 := RunsPre(a, st);
      forall b | b in args[1..] ensures ArgOk(b) && Declared(b, s1.vars, s1.binds) {
        assert b in args;
        InArgs(args[1..], b);
        HoldsFrame(b, Start(b, st.binds), st.vars, s1.vars, st.binds, Locals(a) + {I1});
      }
      st' := RunsPreAll(args[1..], s1);
      RunsSeq(PreArg(a), Pre(args[1..]), st, s1, st');
      HoldsFrame(a, Start(a, st.binds), s1.vars, st'.vars, st.binds, LocalsOf(args[1..]) + {I1});
      assert forall b :: b in args ==> b == a || b in args[1..];
    }
  }

  lemma {:induction false} InArgs(args: seq<Arg>, a: Arg)
    requires ArgsOk(args) && a in args
    ensures ArgOk(a) && Locals(a) <= LocalsOf(args) && BindsOf(a) <= BindsOfAll(args)
  {
    if a != args[0] {
      InArgs(args[1..], a);
    }
  }

  lemma {:induction false} RunsPostAll(args: seq<Arg>, fin: map<Arg, Value>, binds: Vars, st: State)
    returns (st': State)
    requires ArgsOk(args) && I1 in st.vars && I2 in st.vars
    requires forall a :: a in args ==> a in fin && HasType(a, fin[a]) && Holds(a, fin[a], st.vars, binds)
    ensures Runs(Post(args), st, st')
    ensures Agree(st.vars, st'.vars, LocalsOf(args) + {I1, I2}) && I1 in st'.vars && I2 in st'.vars
    ensures Agree(st.binds, st'.binds, PostBinds(args))
    ensures forall a :: a in args && a.dir.IsOutput() ==> Delivered(a, fin[a], binds, st'.binds)
  {
    hide Runs;
    hide Holds;
    hide Locals;
    hide HasType;
    hide Delivered;
    hide ArgOk;
    hide BindsOf;
    hide Carriers;
    hide Agree;
    hide PostArg;
    AgreeSame(st.vars, {I1, I2});
    AgreeSame(st.binds, {});
    if args == [] {
      RunsNothing(st);
      st' := st;
      assert {} + {I1, I2} == {I1, I2};
    } else {
      var a := args[0];
      assert a in args;
      OthersDisjoint(args);
      var s1 := RunsPost(a, fin[a], binds, st);
      forall b | b in args[1..] ensures Holds(b, fin[b], s1.vars, binds) && b in fin && HasType(b, fin[b]) {
        assert b in args;
        InArgs(args[1..], b);
        HoldsFrame(b, fin[b], st.vars, s1.vars, binds, Locals(a) + {I1, I2});
      }
      st' := RunsPostAll(args[1..], fin, binds, s1);
      AgreeJoin(st.vars, s1.vars, st'.vars, Locals(a) + {I1, I2}, LocalsOf(args[1..]) + {I1, I2});
      assert Locals(a) + {I1, I2} + (LocalsOf(args[1..]) + {I1, I2}) == LocalsOf(args) + {I1, I2};
      AgreeJoin(st.binds, s1.binds, st'.binds, if a.dir.IsOutput() then Carriers(a) else {}, PostBinds(args[1..]));
      RunsSeq(PostArg(a), Post(args[1..]), st, s1, st');
      PostBindsAreBinds(args[1..]);
      DeliveredFrame(a, fin[a], binds, s1.binds, st'.binds, PostBinds(args[1..]));
      assert forall b :: b in args ==> b == a || b in args[1..];
    }
  }

  /** The binds the post fragments assign. */
  function PostBinds(args: seq<Arg>): set<string> {
    if args == [] then {}
    else (if args[0].dir.IsOutput() then Carriers(args[0]) else {}) + PostBinds(args[1..])
  }

  lemma {:induction false} PostBindsAreBinds(args: seq<Arg>)
    ensures PostBinds(args) <= BindsOfAll(args)
  {
    if args != [] { PostBindsAreBinds(args[1..]); }
  }

  // ----- declarations -----

  lemma {:induction false} DeclareAppend(a: seq<Decl>, b: seq<Decl>, st: State)
    ensures Declare(a + b, st) == match Declare(a, st) case Some(s) => Declare(b, s) case None => None
  {
    if a == [] {
      assert a + b == b;
    } else {
      assert (a + b)[1..] == a[1..] + b;
      var x := DeclareOne(a[0], st);
      if x.Some? {
        DeclareAppend(a[1..], b, x.value);
      }
    }
  }

  lemma DeclareCons(d: Decl, ds: seq<Decl>, st: State)
    ensures Declare([d] + ds, st) == match DeclareOne(d, st) case Some(s) => Declare(ds, s) case None => None
  {
  }

  lemma {:induction false} DeclareCols(cols: seq<Col>, st: State) returns (st': State)
    requires ColsDistinct(cols) && st.vars.Keys !! Params(cols)
    ensures Declare(ColDecls(cols), st) == Some(st') && st'.binds == st.binds
    ensures Agree(st.vars, st'.vars, Params(cols)) && st'.vars.Keys == st.vars.Keys + Params(cols)
    ensures forall c :: c in cols ==> c.param in st'.vars && st'.vars[c.param] == Arr(map[])
  {
    if cols == [] {
      st' := st;
    } else {
      var p := cols[0].param;
      assert cols[0] in cols && p in Params(cols);
      assert forall d :: d in cols <==> d == cols[0] || d in cols[1..];
      assert Params(cols) == {p} + Params(cols[1..]);
      assert p !in Params(cols[1..]);
      st' := DeclareCols(cols[1..], st.(vars := st.vars[p := Arr(map[])]));
      assert ([Decl(p, EmptyArr)] + ColDecls(cols[1..]))[1..] == ColDecls(cols[1..]);
    }
  }

  lemma DeclareArg(a: Arg, st: State) returns (st': State)
    requires ArgOk(a) && st.vars.Keys !! Locals(a) && (a.dir.IsInput() ==> InputOk(a, st.binds))
    ensures Declare(DeclsArg(a), st) == Some(st') && st'.binds == st.binds
    ensures Agree(st.vars, st'.vars, Locals(a)) && st'.vars.Keys == st.vars.Keys + Locals(a)
    ensures Declared(a, st'.vars, st.binds)
  {
    st' := st;
    match a {
      case Simple(_, _) =>
      case Record(_, _, vn, _) =>
        st' := st.(vars := st.vars[vn := Rec(map[])]);
        DeclareCons(Decl(vn, NullRecord), [], st);
      case Table(_, _, _) => st' := DeclareTable(a, st);
      case RecTable(_, _, _, _) => st' := DeclareRecTable(a, st);
    }
  }

  lemma DeclareTable(a: Arg, st: State) returns (st': State)
    requires a.Table? && ArgOk(a) && st.vars.Keys !! Locals(a) && (a.dir.IsInput() ==> InputOk(a, st.binds))
    ensures Declare(DeclsArg(a), st) == Some(st') && st'.binds == st.binds
    ensures Agree(st.vars, st'.vars, Locals(a)) && st'.vars.Keys == st.vars.Keys + Locals(a)
    ensures Declared(a, st'.vars, st.binds)
  {
    var n, vn := a.Name(), a.vn;
    var s1 := st.(vars := st.vars[n := Arr(Stale(a, st.binds, n))]);
    st' := s1.(vars := s1.vars[vn := Arr(map[])]);
    var d := Decl(n, if a.dir.IsInput() then FromBind(n) else EmptyArr);
    DeclareCons(d, [Decl(vn, EmptyArr)], st);
    DeclareCons(Decl(vn, EmptyArr), [], s1);
    assert DeclsArg(a) == [d] + [Decl(vn, EmptyArr)];
    assert [Decl(vn, EmptyArr)] + [] == [Decl(vn, EmptyArr)];
  }

  lemma DeclareRecTable(a: Arg, st: State) returns (st': State)
    requires a.RecTable? && ArgOk(a) && st.vars.Keys !! Locals(a)
    ensures Declare(DeclsArg(a), st) == Some(st') && st'.binds == st.binds
    ensures Agree(st.vars, st'.vars, Locals(a)) && st'.vars.Keys == st.vars.Keys + Locals(a)
    ensures Declared(a, st'.vars, st.binds)
  {
    var s1 := st.(vars := st.vars[a.vn := RecArr(map[])]);
    st' := DeclareCols(a.cols, s1);
    DeclareCons(Decl(a.vn, EmptyRecArr), ColDecls(a.cols), st);
    assert forall c :: c in a.cols ==> c.param in Params(a.cols);
  }

  lemma DeclareNothing(st: State)
    ensures Declare([], st) == Some(st)
  {
  }

  lemma {:induction false} DeclareAll(args: seq<Arg>, st: State) returns (st': State)
    requires ArgsOk(args) && st.vars.Keys !! LocalsOf(args) && InputsOk(args, st.binds)
    ensures Declare(Decls(args), st) == Some(st') && st'.binds == st.binds
    ensures Agree(st.vars, st'.vars, LocalsOf(args)) && st'.vars.Keys == st.vars.Keys + LocalsOf(args)
    ensures forall a :: a in args ==> Declared(a, st'.vars, st.binds)
  {
    hide Declared;
    hide Locals;
    hide HasType;
    hide InputOk;
    hide Declare;
    hide DeclsArg;
    hide ArgOk;
    hide BindsOf;
    hide Agree;
    AgreeSame(st.vars, {});
    if args == [] {
      st' := st;
      DeclareNothing(st);
    } else {
      var a := args[0];
      assert a in args;
      OthersDisjoint(args);
      var s1 := DeclareArg(a, st);
      assert forall b :: b in args[1..] ==> b in args;
      st' := DeclareAll(args[1..], s1);
      DeclareAppend(DeclsArg(a), Decls(args[1..]), st);
      AgreeJoin(st.vars, s1.vars, st'.vars, Locals(a), LocalsOf(args[1..]));
      HoldsFrame(a, Unset(a), s1.vars, st'.vars, st.binds, LocalsOf(args[1..]));
      assert forall b :: b in args ==> b == a || b in args[1..];
    }
  }

  // ----- the call -----

  /** A replaced name never ends in a hash mark. */
  lemma ReplacedName(text: string)
    ensures ReplHidden(text) != text <==> text != "" && text[|text| - 1] == '#'
    ensures ReplHidden(text) != text ==> ReplHidden(text) == text[..|text| - 1] + "_hidden"
    ensures ReplHidden(ReplHidden(text)) == ReplHidden(text)
  {
  }

  lemma HeadName(args: seq<Arg>)
    requires ArgsOk(args) && args != []
    ensures ArgsOk(args[1..]) && forall b :: b in args[1..] ==> b.Name() != args[0].Name()
    ensures forall b :: b in args <==> b == args[0] || b in args[1..]
  {
  }

  ghost predicate Registered(args: seq<Arg>, k: string) {
    exists a :: a in args && !a.Simple? && a.Name() == k
  }

  /** The variables are found under the replaced names of the composite arguments. */
  lemma {:induction false} CallArgsAt(args: seq<Arg>, m: map<string, string>)
    requires ArgsOk(args)
    ensures var r := CallArgs(args, m);
      && (forall k :: k in r <==> k in m || Registered(args, k))
      && (forall k :: k in m && !Registered(args, k) ==> r[k] == m[k])
      && (forall a :: a in args && !a.Simple? ==> a.Name() in r && r[a.Name()] == a.vn)
  {
    hide ReplHidden;
    hide ArgsOk;
    if args != [] {
      var a := args[0];
      HeadName(args);
      CallArgsAt(args[1..], if a.Simple? then m else m[a.Name() := a.vn]);
      forall k ensures Registered(args, k) <==> (!a.Simple? && a.Name() == k) || Registered(args[1..], k) {}
      assert !Registered(args[1..], a.Name());
    }
  }

  lemma {:induction false} NamesDiffer(args: seq<Arg>, a: Arg, b: Arg)
    requires ArgsOk(args) && a in args && b in args && a.Name() == b.Name()
    ensures a == b
  {
    if a != args[0] && b != args[0] {
      NamesDiffer(args[1..], a, b);
    }
  }

  /** Each argument is passed where its value is, but for hidden ones. */
  ghost predicate WellPlaced(a: Arg, callArgs: map<string, string>) {
    if a.ByBind() then a.formal !in callArgs
    else a.formal in callArgs && callArgs[a.formal] == a.vn
  }

  lemma Placed(all: seq<Arg>, a: Arg)
    requires ArgsOk(all) && a in all
    ensures WellPlaced(a, CallArgs(all, map[]))
  {
    CallArgsAt(all, map[]);
    ReplacedName(a.formal);
    if a.ByBind() && a.formal in CallArgs(all, map[]) {
      assert Registered(all, a.formal);
      var b :| b in all && !b.Simple? && b.Name() == a.formal;
      ReplacedName(b.formal);
      NamesDiffer(all, a, b);
    }
  }

  lemma {:induction false} InputsAreGathered(args: seq<Arg>, callArgs: map<string, string>, st: State)
    requires InputsOk(args, st.binds)
    requires forall a :: a in args ==> WellPlaced(a, callArgs) && Holds(a, Start(a, st.binds), st.vars, st.binds)
    ensures Inputs(Actuals(args, callArgs), st) ==
            if HiddenBound(args, st.binds) then Some(DirectInputs(args, st.binds)) else None
  {
    if args != [] {
      assert args[0] in args;
      InputsAreGathered(args[1..], callArgs, st);
      var acts := Actuals(args, callArgs);
      assert acts[1..] == Actuals(args[1..], callArgs);
    }
  }

  /** The binds of the output arguments. */
  function OutBinds(args: seq<Arg>): set<string> {
    if args == [] then {}
    else (if args[0].dir.IsOutput() then BindsOf(args[0]) else {}) + OutBinds(args[1..])
  }

  lemma {:induction false} OutBindsAreBinds(args: seq<Arg>)
    ensures PostBinds(args) <= OutBinds(args) <= BindsOfAll(args)
  {
    if args != [] { OutBindsAreBinds(args[1..]); }
  }

  function After(a: Arg, outs: Vars, binds: Vars): Value {
    if a.dir.IsOutput() && !a.Hidden() && a.formal in outs then outs[a.formal] else Start(a, binds)
  }

  /** One output is copied back to the place that was passed for it. */
  lemma CopiedBack(a: Arg, callArgs: map<string, string>, x: Value, binds: Vars, st: State) returns (s1: State)
    requires ArgOk(a) && WellPlaced(a, callArgs) && HasType(a, x) && Holds(a, Start(a, binds), st.vars, binds)
    ensures var place := if a.formal in callArgs then AtVar(callArgs[a.formal]) else AtBind(a.formal);
      s1 == SetPlace(place, x, st)
    ensures Agree(st.vars, s1.vars, Locals(a)) && Agree(st.binds, s1.binds, BindsOf(a))
    ensures Holds(a, if a.Hidden() then Start(a, binds) else x, s1.vars, binds)
    ensures a.ByBind() ==> a.formal in s1.binds && s1.binds[a.formal] == x
  {
    hide Start;
    hide ColsDistinct;
    s1 := SetPlace(if a.formal in callArgs then AtVar(callArgs[a.formal]) else AtBind(a.formal), x, st);
    if a.RecTable? { TableNames(a); }
  }

  lemma AllSets(args: seq<Arg>)
    ensures LocalsOf(args) == if args == [] then {} else Locals(args[0]) + LocalsOf(args[1..])
    ensures OutBinds(args) ==
            if args == [] then {} else (if args[0].dir.IsOutput() then BindsOf(args[0]) else {}) + OutBinds(args[1..])
  {
  }

  lemma {:induction false} RunsCopyBack(args: seq<Arg>, callArgs: map<string, string>, outs: Vars, binds: Vars,
                                        st: State)
    returns (st': State)
    requires ArgsOk(args) && ReplyOk(args, Returned(outs, Sca(Null)))
    requires forall a :: a in args ==> WellPlaced(a, callArgs) && Holds(a, Start(a, binds), st.vars, binds)
    ensures CopyBack(Actuals(args, callArgs), outs, st) == Some(st')
    ensures Agree(st.vars, st'.vars, LocalsOf(args)) && Agree(st.binds, st'.binds, OutBinds(args))
    ensures forall a :: a in args ==> Holds(a, After(a, outs, binds), st'.vars, binds)
    ensures forall a :: a in args && a.ByBind() && a.dir.IsOutput() ==>
              a.formal in st'.binds && st'.binds[a.formal] == outs[a.formal]
  {
    hide Holds;
    hide Start;
    hide SetPlace;
    hide Locals;
    hide BindsOf;
    hide WellPlaced;
    hide ArgOk;
    hide HasType;
    hide Agree;
    hide LocalsOf;
    hide OutBinds;
    AllSets(args);
    AgreeSame(st.vars, if args == [] then {} else Locals(args[0]));
    AgreeSame(st.binds, {});
    if args == [] {
      st' := st;
    } else {
      var a := args[0];
      assert a in args;
      OthersDisjoint(args);
      OutBindsAreBinds(args[1..]);
      var acts := Actuals(args, callArgs);
      assert acts[1..] == Actuals(args[1..], callArgs);
      var s1 := st;
      if a.dir.IsOutput() { s1 := CopiedBack(a, callArgs, outs[a.formal], binds, st); }
      assert forall b :: b in args <==> b == a || b in args[1..];
      forall b | b in args[1..] ensures Holds(b, Start(b, binds), s1.vars, binds) {
        HoldsFrame(b, Start(b, binds), st.vars, s1.vars, binds, Locals(a));
      }
      st' := RunsCopyBack(args[1..], callArgs, outs, binds, s1);
      HoldsFrame(a, After(a, outs, binds), s1.vars, st'.vars, binds, LocalsOf(args[1..]));
      FormalIsBind(a);
      AgreeJoin(st.vars, s1.vars, st'.vars, Locals(a), LocalsOf(args[1..]));
      AgreeJoin(st.binds, s1.binds, st'.binds, if a.dir.IsOutput() then BindsOf(a) else {}, OutBinds(args[1..]));
      if a.ByBind() { AgreeAt(s1.binds, st'.binds, OutBinds(args[1..]), a.formal); }
    }
  }

  lemma FormalIsBind(a: Arg)
    ensures a.ByBind() ==> a.formal in BindsOf(a)
  {
  }

  // ----- the main theorem -----

  ghost predicate FunctionOk(f: Function) {
    && ArgsOk(AllArgs(f))
    && (forall a :: a in f.args ==> RET !in BindsOf(a))
    && (f.result.Some? ==> f.result.value.formal == RET && f.result.value.dir == Out)
  }

  /** What the variable of a holds when the scatter fragments start. */
  function Final(f: Function, a: Arg, r: Reply, binds: Vars): Value {
    if r.Returned? && a in f.args && a.dir.IsOutput() && !a.Hidden() && a.formal in r.outs then r.outs[a.formal]
    else Start(a, binds)
  }

  function Touched(f: Function, r: Reply): set<string> {
    if r.Returned? then OutBinds(AllArgs(f)) + (if f.result.Some? then {RET} else {})
    else PostBinds(AllArgs(f))
  }

  /** The binds after the block, in terms of the callee's reply alone. A hidden output stays in the
      bind of its own name, and its carriers get what was sent. */
  ghost predicate DirectResult(f: Function, r: Reply, binds: Vars, binds': Vars) {
    && (forall a :: a in AllArgs(f) && a.dir.IsOutput() && !a.Simple? ==>
          HasType(a, Final(f, a, r, binds)) && Delivered(a, Final(f, a, r, binds), binds, binds'))
    && (r.Returned? ==> forall a :: a in f.args && a.dir.IsOutput() && a.ByBind() ==>
          a.formal in r.outs && a.formal in binds' && binds'[a.formal] == r.outs[a.formal])
    && (r.Returned? && f.result.Some? && f.result.value.Simple? ==> RET in binds' && binds'[RET] == r.ret)
    && Agree(binds, binds', Touched(f, r))
  }

  /** The declarations of the whole block. */
  lemma DeclareBlock(args: seq<Arg>, binds: Vars) returns (s0: State)
    requires ArgsOk(args) && InputsOk(args, binds)
    ensures Declare([Decl(I1, NullIndex), Decl(I2, NullIndex)] + Decls(args), State(map[], binds)) == Some(s0)
    ensures s0.binds == binds && I1 in s0.vars && I2 in s0.vars
    ensures forall a :: a in args ==> Declared(a, s0.vars, binds)
  {
    hide Declared;
    hide InputsOk;
    hide ArgsOk;
    hide LocalsOf;
    var s := State(map[], binds);
    var si := State(map[I1 := Sca(Null)][I2 := Sca(Null)], binds);
    TwoIndexes(s, si);
    NoIndexLocals(args);
    assert si.vars.Keys == {I1, I2};
    s0 := DeclareAll(args, si);
    DeclareAppend([Decl(I1, NullIndex), Decl(I2, NullIndex)], Decls(args), s);
  }

  lemma TwoIndexes(s: State, si: State)
    requires s.vars == map[] && si == s.(vars := map[I1 := Sca(Null)][I2 := Sca(Null)])
    ensures Declare([Decl(I1, NullIndex), Decl(I2, NullIndex)], s) == Some(si)
  {
    var sj := s.(vars := map[I1 := Sca(Null)]);
    assert DeclareOne(Decl(I1, NullIndex), s) == Some(sj);
    assert I2 != I1 && DeclareOne(Decl(I2, NullIndex), sj) == Some(si);
    DeclareCons(Decl(I1, NullIndex), [Decl(I2, NullIndex)], s);
    DeclareCons(Decl(I2, NullIndex), [], sj);
    assert [Decl(I1, NullIndex)] + [Decl(I2, NullIndex)] == [Decl(I1, NullIndex), Decl(I2, NullIndex)];
    assert [Decl(I2, NullIndex)] + [] == [Decl(I2, NullIndex)];
  }

  /** Everything up to the call. */
  lemma RunsUpToCall(f: Function, binds: Vars) returns (s0: State, s1: State)
    requires FunctionOk(f) && InputsOk(f.args, binds)
    ensures Declare(BlockOf(f).decls, State(map[], binds)) == Some(s0) && Runs(BlockOf(f).pre, s0, s1)
    ensures s1.binds == binds && I1 in s1.vars && I2 in s1.vars
    ensures forall a :: a in AllArgs(f) ==> Holds(a, Start(a, binds), s1.vars, binds)
    ensures Inputs(BlockOf(f).actuals, s1) ==
            if HiddenBound(f.args, binds) then Some(DirectInputs(f.args, binds)) else None
  {
    hide Holds;
    hide Start;
    hide Declared;
    hide Runs;
    hide Declare;
    hide InputOk;
    hide WellPlaced;
    hide ArgsOk;
    hide LocalsOf;
    hide HiddenBound;
    var all := AllArgs(f);
    assert forall a :: a in f.args ==> a in all;
    s0 := DeclareBlock(all, binds);
    s1 := RunsPreAll(all, s0);
    NoIndexLocals(all);
    forall a | a in f.args ensures WellPlaced(a, CallArgs(all, map[])) { Placed(all, a); }
    InputsAreGathered(f.args, CallArgs(all, map[]), s1);
  }

  lemma {:induction false} NoIndexLocals(args: seq<Arg>)
    requires ArgsOk(args)
    ensures I1 !in LocalsOf(args) && I2 !in LocalsOf(args)
  {
    if args != [] { NoIndexLocals(args[1..]); }
  }

  lemma {:induction false} PrefixOk(args: seq<Arg>, more: seq<Arg>)
    requires ArgsOk(args + more)
    ensures ArgsOk(args)
  {
    if args != [] {
      assert (args + more)[1..] == args[1..] + more;
      PrefixOk(args[1..], more);
      assert forall b :: b in args[1..] ==> b in args[1..] + more;
    }
  }

  lemma {:induction false} PrefixSets(args: seq<Arg>, more: seq<Arg>)
    requires ArgsOk(args + more)
    ensures LocalsOf(args) <= LocalsOf(args + more) && OutBinds(args) <= OutBinds(args + more)
    ensures forall b :: b in more ==> Locals(b) !! LocalsOf(args)
  {
    if args != [] {
      assert (args + more)[1..] == args[1..] + more;
      PrefixSets(args[1..], more);
      assert forall b :: b in more ==> b in args[1..] + more;
    }
  }

  lemma FinalHolds(f: Function, r: Reply, binds: Vars, before: Vars, vars: Vars)
    requires FunctionOk(f) && r.Returned?
    requires forall a :: a in AllArgs(f) ==> Holds(a, Start(a, binds), before, binds)
    requires forall a :: a in f.args ==> Holds(a, After(a, r.outs, binds), vars, binds)
    requires Agree(before, vars, LocalsOf(f.args))
    ensures forall a :: a in AllArgs(f) ==> Holds(a, Final(f, a, r, binds), vars, binds)
  {
    hide Holds;
    hide Start;
    hide Locals;
    hide Agree;
    hide ArgsOk;
    var more := if f.result.Some? then [f.result.value] else [];
    PrefixSets(f.args, more);
    forall a | a in AllArgs(f) ensures Holds(a, Final(f, a, r, binds), vars, binds) {
      if a !in f.args {
        assert a in more;
        HoldsFrame(a, Start(a, binds), before, vars, binds, LocalsOf(f.args));
      }
    }
  }

  /** The call leaves every argument's variable holding its final value. */
  lemma CallHolds(f: Function, callee: Callee, binds: Vars, s1: State) returns (s2: State)
    requires FunctionOk(f) && s1.binds == binds
    requires forall a :: a in AllArgs(f) ==> Holds(a, Start(a, binds), s1.vars, binds)
    requires Inputs(BlockOf(f).actuals, s1) == Some(DirectInputs(f.args, binds))
    requires var r := callee(DirectInputs(f.args, binds));
             ReplyOk(f.args, r) && (r.Returned? || (r.named && f.handles))
    ensures var r := callee(DirectInputs(f.args, binds));
      && Call(BlockOf(f), callee, s1) == Some(s2)
      && Agree(s1.vars, s2.vars, LocalsOf(AllArgs(f)))
      && (forall a :: a in AllArgs(f) ==> Holds(a, Final(f, a, r, binds), s2.vars, binds))
      && (r.Returned? ==> forall a :: a in f.args && a.dir.IsOutput() && a.ByBind() ==>
            a.formal in s2.binds && s2.binds[a.formal] == r.outs[a.formal])
      && (r.Returned? && f.result.Some? ==> RET in s2.binds && s2.binds[RET] == r.ret)
      && Agree(binds, s2.binds, if r.Returned? then Touched(f, r) else {})
  {
    hide Holds;
    hide Start;
    hide Final;
    hide ArgsOk;
    hide WellPlaced;
    hide CopyBack;
    hide Actuals;
    hide HasType;
    hide Agree;
    hide BindsOf;
    hide LocalsOf;
    hide OutBinds;
    var all := AllArgs(f);
    var r := callee(DirectInputs(f.args, binds));
    AgreeSame(s1.vars, LocalsOf(all));
    AgreeSame(binds, {});
    if r.Threw? {
      s2 := s1;
      SameAsStart(f, r, binds);
      return;
    }
    var more := if f.result.Some? then [f.result.value] else [];
    PrefixOk(f.args, more);
    PrefixSets(f.args, more);
    forall a | a in f.args ensures a in all && WellPlaced(a, CallArgs(all, map[])) { Placed(all, a); }
    var s := RunsCopyBack(f.args, CallArgs(all, map[]), r.outs, binds, s1);
    s2 := if f.result.Some? then SetPlace(AtBind(RET), r.ret, s) else s;
    FinalHolds(f, r, binds, s1.vars, s2.vars);
    AgreeMore(s1.vars, s.vars, LocalsOf(f.args), LocalsOf(all));
    AgreeMore(binds, s.binds, OutBinds(f.args), OutBinds(all));
    AgreeSet(binds, s.binds, OutBinds(all), RET, r.ret);
    assert OutBinds(all) + {} == OutBinds(all);
    forall a | a in f.args && a.dir.IsOutput() && a.ByBind()
      ensures a.formal in s2.binds && s2.binds[a.formal] == r.outs[a.formal]
    {
      FormalIsBind(a);
    }
  }

  lemma SameAsStart(f: Function, r: Reply, binds: Vars)
    requires r.Threw?
    ensures forall a :: Final(f, a, r, binds) == Start(a, binds)
  {
  }
}
