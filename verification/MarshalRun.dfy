/** What the generated block does when it runs, against calling the procedure directly. */
module MarshalRun {
  import opened Basics
  import opened Plsql
  import opened Marshal

  type Vars = map<string, Value>

  // ----- running a block around an opaque callee -----

  /** The callee sees the values of its input parameters and sets its output parameters and,
      for a function, the result; or it raises an exception, which the block handles if it is
      one of those named in its handler. */
  datatype Reply = Returned(outs: Vars, ret: Value) | Threw(named: bool)

  type Callee = Vars -> Reply

  function PlaceValue(p: Place, st: State): Option<Value> {
    match p
    case AtBind(b) => Lookup(st.binds, b)
    case AtVar(v) => Lookup(st.vars, v)
  }

  function SetPlace(p: Place, x: Value, st: State): State {
    match p
    case AtBind(b) => st.(binds := st.binds[b := x])
    case AtVar(v) => st.(vars := st.vars[v := x])
  }

  function Inputs(actuals: seq<Actual>, st: State): Option<Vars> {
    if actuals == [] then Some(map[]) else
    var rest := Inputs(actuals[1..], st);
    if !actuals[0].dir.IsInput() then rest else
    var x := PlaceValue(actuals[0].place, st);
    if rest.None? || x.None? then None else Some(rest.value[actuals[0].formal := x.value])
  }

  function CopyBack(actuals: seq<Actual>, outs: Vars, st: State): Option<State> {
    if actuals == [] then Some(st)
    else if !actuals[0].dir.IsOutput() then CopyBack(actuals[1..], outs, st)
    else if actuals[0].formal !in outs then None
    else CopyBack(actuals[1..], outs, SetPlace(actuals[0].place, outs[actuals[0].formal], st))
  }

  /** The call statement; None when an exception leaves the block. */
  function Call(b: Block, callee: Callee, st: State): Option<State> {
    var ins := Inputs(b.actuals, st);
    if ins.None? then None else
    match callee(ins.value)
    case Threw(named) => if b.handles && named then Some(st) else None
    case Returned(outs, ret) =>
      var st' := CopyBack(b.actuals, outs, st);
      if st'.None? || !b.hasResult then st' else Some(SetPlace(AtBind(RET), ret, st'.value))
  }

  function DeclareOne(d: Decl, st: State): Option<State> {
    var x := match d.init
      case NullIndex => Some(Sca(Null))
      case NullRecord => Some(Rec(map[]))
      case EmptyArr => Some(Arr(map[]))
      case EmptyRecArr => Some(RecArr(map[]))
      case FromBind(b) => Lookup(st.binds, b);
    if x.None? || d.v in st.vars then None else Some(st.(vars := st.vars[d.v := x.value]))
  }

  function Declare(ds: seq<Decl>, st: State): Option<State> {
    if ds == [] then Some(st) else
    var x := DeclareOne(ds[0], st);
    if x.None? then None else Declare(ds[1..], x.value)
  }

  ghost predicate BlockRuns(b: Block, callee: Callee, binds: Vars, binds': Vars) {
    exists s0, s1, s2, s3 ::
      && Declare(b.decls, State(map[], binds)) == Some(s0)
      && Runs(b.pre, s0, s1)
      && Call(b, callee, s1) == Some(s2)
      && Runs(b.post, s2, s3)
      && s3.binds == binds'
  }

  // ----- the direct call: the reference the block is measured against -----

  function Fields(cols: seq<Col>): set<string> { set c | c in cols :: c.field }
  function Params(cols: seq<Col>): set<string> { set c | c in cols :: c.param }

  /** The parameter that carries field k. */
  function ParamFor(cols: seq<Col>, k: string): string
    requires k in Fields(cols)
  {
    if cols[0].field == k then cols[0].param else ParamFor(cols[1..], k)
  }

  function ScalarAt(binds: Vars, p: string): Scalar {
    if p in binds && binds[p].Sca? then binds[p].s else Null
  }

  function ElemsAt(binds: Vars, p: string): map<int, Scalar> {
    if p in binds && binds[p].Arr? then binds[p].elems else map[]
  }

  function CellAt(binds: Vars, p: string, i: int): Scalar {
    if i in ElemsAt(binds, p) then ElemsAt(binds, p)[i] else Null
  }

  /** The record whose fields arrive in the binds of cols. */
  function RecordFrom(cols: seq<Col>, binds: Vars): Row {
    map k | k in Fields(cols) :: ScalarAt(binds, ParamFor(cols, k))
  }

  /** Row i of the table whose columns arrive in the binds of cols. */
  function RowFrom(cols: seq<Col>, binds: Vars, i: int): Row {
    map k | k in Fields(cols) :: CellAt(binds, ParamFor(cols, k), i)
  }

  function RowsFrom(cols: seq<Col>, binds: Vars): map<int, Row> {
    if cols == [] then map[] else
    RowsAt(cols, binds, ElemsAt(binds, cols[0].param).Keys)
  }

  function RowsAt(cols: seq<Col>, binds: Vars, idx: set<int>): map<int, Row> {
    map i | i in idx :: RowFrom(cols, binds, i)
  }

  /** What an input argument is, put together from the binds. */
  function Gathered(a: Arg, binds: Vars): Value {
    match a
    case Simple(_, _) => if a.formal in binds then binds[a.formal] else Sca(Null)
    case Record(_, _, _, cols) => Rec(RecordFrom(cols, binds))
    case Table(_, _, _) => Arr(ElemsAt(binds, a.Name()))
    case RecTable(_, _, _, cols) => RecArr(RowsFrom(cols, binds))
  }

  /** The value of an argument's variable before anything is assigned to it. */
  function Unset(a: Arg): Value {
    match a
    case Simple(_, _) => Sca(Null)
    case Record(_, _, _, _) => Rec(map[])
    case Table(_, _, _) => Arr(map[])
    case RecTable(_, _, _, _) => RecArr(map[])
  }

  function Start(a: Arg, binds: Vars): Value {
    if a.dir.IsInput() then Gathered(a, binds) else Unset(a)
  }

  /** What the callee sees of an input argument: a hidden one is read from a bind of its name. */
  function Passed(a: Arg, binds: Vars): Value {
    if !a.Hidden() then Gathered(a, binds) else if a.formal in binds then binds[a.formal] else Sca(Null)
  }

  function DirectInputs(args: seq<Arg>, binds: Vars): Vars {
    if args == [] then map[] else
    var rest := DirectInputs(args[1..], binds);
    if args[0].dir.IsInput() then rest[args[0].formal := Passed(args[0], binds)] else rest
  }

  /** Column k of a table of records, compacted: row number n of the index order goes to n. */
  ghost function Column(rows: map<int, Row>, k: string): map<int, Scalar> {
    Spread(rows, Ascending(rows.Keys), k, 1)
  }

  function Spread(rows: map<int, Row>, order: seq<int>, k: string, from: int): map<int, Scalar>
    requires forall t :: 0 <= t < |order| ==> order[t] in rows
  {
    if order == [] then map[] else
    Spread(rows, order[1..], k, from + 1)[from := Field(rows[order[0]], k)]
  }

  lemma {:induction false} SpreadAt(rows: map<int, Row>, order: seq<int>, k: string, from: int)
    requires forall t :: 0 <= t < |order| ==> order[t] in rows
    ensures forall j :: j in Spread(rows, order, k, from) <==> from <= j < from + |order|
    ensures forall t :: 0 <= t < |order| ==>
              from + t in Spread(rows, order, k, from)
              && Spread(rows, order, k, from)[from + t] == Field(rows[order[t]], k)
  {
    if order != [] {
      var m := Spread(rows, order[1..], k, from + 1);
      SpreadAt(rows, order[1..], k, from + 1);
      forall t | 0 <= t < |order|
        ensures from + t in m[from := Field(rows[order[0]], k)]
        ensures m[from := Field(rows[order[0]], k)][from + t] == Field(rows[order[t]], k)
      {
        if t > 0 {
          assert order[1..][t - 1] == order[t];
          assert from + t == from + 1 + (t - 1);
        }
      }
    }
  }

  // ----- names -----

  ghost predicate ColsDistinct(cols: seq<Col>) {
    cols != [] ==>
      && (forall c :: c in cols[1..] ==> c.field != cols[0].field && c.param != cols[0].param)
      && ColsDistinct(cols[1..])
  }

  lemma {:induction false} ParamForCol(cols: seq<Col>, c: Col)
    requires ColsDistinct(cols) && c in cols
    ensures c.field in Fields(cols) && ParamFor(cols, c.field) == c.param
  {
    if c == cols[0] {
    } else {
      assert c in cols[1..];
      ParamForCol(cols[1..], c);
    }
  }

  function Locals(a: Arg): set<string> {
    match a
    case Simple(_, _) => {}
    case Record(_, _, vn, _) => {vn}
    case Table(_, _, vn) => {vn, a.Name()}
    case RecTable(_, _, vn, cols) => {vn} + Params(cols)
  }

  /** The binds that carry the parts of a composite argument. */
  function Carriers(a: Arg): set<string> {
    match a
    case Simple(_, _) => {}
    case Record(_, _, _, cols) => Params(cols)
    case Table(_, _, _) => {a.Name()}
    case RecTable(_, _, _, cols) => Params(cols)
  }

  function BindsOf(a: Arg): set<string> {
    Carriers(a) + if a.ByBind() then {a.formal} else {}
  }

  /** The names of one argument do not clash with each other, and a record has at least one field. */
  ghost predicate ArgOk(a: Arg) {
    && I1 !in Locals(a) && I2 !in Locals(a)
    && (a.Hidden() ==> a.formal !in Carriers(a))
    && (a.Table? ==> a.vn != a.Name())
    && (a.Record? || a.RecTable? ==> a.cols != [] && ColsDistinct(a.cols))
    && (a.RecTable? ==> a.vn !in Params(a.cols))
  }

  ghost predicate ArgsOk(args: seq<Arg>) {
    args != [] ==>
      && ArgOk(args[0]) && ArgsOk(args[1..])
      && forall b :: b in args[1..] ==>
           b.Name() != args[0].Name() && Locals(b) !! Locals(args[0]) && BindsOf(b) !! BindsOf(args[0])
  }

  // ----- types -----

  /** The binds of an input argument hold what the Go side sends: all columns of a table of
      records have the same indexes. */
  ghost predicate InputOk(a: Arg, binds: Vars) {
    match a
    case Simple(_, _) => a.formal in binds
    case Record(_, _, _, cols) => forall c :: c in cols ==> c.param in binds && binds[c.param].Sca?
    case Table(_, _, _) => a.Name() in binds && binds[a.Name()].Arr?
    case RecTable(_, _, _, cols) =>
      forall c :: c in cols ==>
        && c.param in binds && binds[c.param].Arr?
        && binds[c.param].elems.Keys == ElemsAt(binds, cols[0].param).Keys
  }

  ghost predicate InputsOk(args: seq<Arg>, binds: Vars) {
    forall a :: a in args && a.dir.IsInput() ==> InputOk(a, binds)
  }

  /** The binds of hidden input arguments exist. */
  ghost predicate HiddenBound(args: seq<Arg>, binds: Vars) {
    forall a :: a in args && a.Hidden() && a.dir.IsInput() ==> a.formal in binds
  }

  /** A value of the argument's type. */
  predicate HasType(a: Arg, x: Value) {
    match a
    case Simple(_, _) => true
    case Record(_, _, _, _) => x.Rec?
    case Table(_, _, _) => x.Arr?
    case RecTable(_, _, _, _) => x.RecArr?
  }

  ghost predicate ReplyOk(args: seq<Arg>, r: Reply) {
    r.Returned? ==>
      forall a :: a in args && a.dir.IsOutput() ==> a.formal in r.outs && HasType(a, r.outs[a.formal])
  }

  // ----- frames -----

  ghost predicate Agree(x: Vars, y: Vars, touched: set<string>) {
    forall v :: v !in touched ==> (v in x <==> v in y) && (v in x ==> x[v] == y[v])
  }

  lemma AgreeJoin(x: Vars, y: Vars, z: Vars, s: set<string>, t: set<string>)
    requires Agree(x, y, s) && Agree(y, z, t)
    ensures Agree(x, z, s + t)
  {
  }

  lemma AgreeAt(x: Vars, y: Vars, touched: set<string>, v: string)
    requires Agree(x, y, touched) && v !in touched
    ensures (v in x <==> v in y) && (v in x ==> x[v] == y[v])
  {
  }

  lemma AgreeMore(x: Vars, y: Vars, s: set<string>, t: set<string>)
    requires Agree(x, y, s) && s <= t
    ensures Agree(x, y, t)
  {
  }

  lemma AgreeSet(x: Vars, y: Vars, touched: set<string>, k: string, v: Value)
    requires Agree(x, y, touched)
    ensures Agree(x, y[k := v], touched + {k})
  {
  }

  lemma AgreeSame(x: Vars, touched: set<string>)
    ensures Agree(x, x, touched)
  {
  }

  // ----- runs of straight line fragments -----

  lemma {:induction false} RunsFetchFields(vn: string, cols: seq<Col>, row: Row, st: State)
    returns (st': State, row': Row)
    requires vn in st.vars && st.vars[vn] == Rec(row) && ColsDistinct(cols)
    requires forall c :: c in cols ==> c.param in st.binds && st.binds[c.param].Sca?
    ensures Runs(Lines(FetchField, vn, cols), st, st')
    ensures st'.binds == st.binds && Agree(st.vars, st'.vars, {vn})
    ensures vn in st'.vars && st'.vars[vn] == Rec(row') && row'.Keys == row.Keys + Fields(cols)
    ensures forall k :: k in row && k !in Fields(cols) ==> row'[k] == row[k]
    ensures forall c :: c in cols ==> row'[c.field] == ScalarAt(st.binds, c.param)
  {
    hide Params;
    hide Fields;
    hide Runs;
    hide ColsDistinct;
    ColsIn(cols);
    if cols == [] {
      RunsNothing(st);
      st', row' := st, row;
    } else {
      var c := cols[0];
      ColsSplit(cols);
      ColsIn(cols[1..]);
      var row1 := row[c.field := st.binds[c.param].s];
      var s1 := st.(vars := st.vars[vn := Rec(row1)]);
      RunsAssign(ToField(vn, c.field), BindRef(c.param), st, s1);
      st', row' := RunsFetchFields(vn, cols[1..], row1, s1);
      RunsLines(FetchField, vn, cols, st, s1, st');
    }
  }

  lemma {:induction false} RunsReturnFields(vn: string, cols: seq<Col>, row: Row, st: State)
    returns (st': State)
    requires vn in st.vars && st.vars[vn] == Rec(row) && ColsDistinct(cols)
    ensures Runs(Lines(ReturnField, vn, cols), st, st')
    ensures st'.vars == st.vars && Agree(st.binds, st'.binds, Params(cols))
    ensures forall c :: c in cols ==> c.param in st'.binds && st'.binds[c.param] == Sca(Field(row, c.field))
  {
    hide Runs;
    hide ColsDistinct;
    if cols == [] {
      RunsNothing(st);
      st' := st;
    } else {
      var c := cols[0];
      ColsSplit(cols);
      ColsIn(cols[1..]);
      var s1 := st.(binds := st.binds[c.param := Sca(Field(row, c.field))]);
      RunsAssign(ToBind(c.param), FieldOf(vn, c.field), st, s1);
      st' := RunsReturnFields(vn, cols[1..], row, s1);
      RunsLines(ReturnField, vn, cols, st, s1, st');
    }
  }

  lemma {:induction false} RunsReturnCols(vn: string, cols: seq<Col>, st: State)
    returns (st': State)
    requires ColsDistinct(cols) && forall c :: c in cols ==> c.param in st.vars
    ensures Runs(Lines(ReturnCol, vn, cols), st, st')
    ensures st'.vars == st.vars && Agree(st.binds, st'.binds, Params(cols))
    ensures forall c :: c in cols ==> c.param in st'.binds && st'.binds[c.param] == st.vars[c.param]
  {
    hide Runs;
    hide ColsDistinct;
    if cols == [] {
      RunsNothing(st);
      st' := st;
    } else {
      var c := cols[0];
      ColsSplit(cols);
      ColsIn(cols[1..]);
      var s1 := st.(binds := st.binds[c.param := st.vars[c.param]]);
      RunsAssign(ToBind(c.param), VarRef(c.param), st, s1);
      st' := RunsReturnCols(vn, cols[1..], s1);
      RunsLines(ReturnCol, vn, cols, st, s1, st');
    }
  }

  /** Both ways of preparing the column variables. */
  lemma {:induction false} RunsPrepareCols(load: bool, vn: string, cols: seq<Col>, st: State)
    returns (st': State)
    requires ColsDistinct(cols) && forall c :: c in cols ==> c.param in st.vars && st.vars[c.param].Arr?
    requires load ==> forall c :: c in cols ==> c.param in st.binds
    ensures Runs(Lines(if load then LoadCol else ClearCol, vn, cols), st, st')
    ensures st'.binds == st.binds && Agree(st.vars, st'.vars, Params(cols))
    ensures forall c :: c in cols ==>
              c.param in st'.vars && st'.vars[c.param] == if load then st.binds[c.param] else Arr(map[])
  {
    hide Params;
    hide Fields;
    hide Runs;
    hide ColsDistinct;
    ColsIn(cols);
    if cols == [] {
      RunsNothing(st);
      st' := st;
    } else {
      var c := cols[0];
      ColsSplit(cols);
      ColsIn(cols[1..]);
      var s1 := st.(vars := st.vars[c.param := if load then st.binds[c.param] else Arr(map[])]);
      if load { RunsAssign(ToVar(c.param), BindRef(c.param), st, s1); } else { RunsDelete(c.param, st, s1); }
      st' := RunsPrepareCols(load, vn, cols[1..], s1);
      var kind := if load then LoadCol else ClearCol;
      RunsLines(kind, vn, cols, st, s1, st');
    }
  }

  // ----- loop bodies -----

  lemma ColsSplit(cols: seq<Col>)
    requires ColsDistinct(cols) && cols != []
    ensures ColsDistinct(cols[1..]) && forall d :: d in cols <==> d == cols[0] || d in cols[1..]
    ensures Fields(cols) == {cols[0].field} + Fields(cols[1..]) && cols[0].field !in Fields(cols[1..])
    ensures Params(cols) == {cols[0].param} + Params(cols[1..]) && cols[0].param !in Params(cols[1..])
  {
    assert forall d :: d in cols <==> d == cols[0] || d in cols[1..];
  }

  lemma ColsIn(cols: seq<Col>)
    ensures forall c :: c in cols ==> c.field in Fields(cols) && c.param in Params(cols)
    ensures cols == [] ==> Fields(cols) == {} && Params(cols) == {}
  {
  }

  /** One cell: field c of row x, which may be created. */
  lemma RunsGatherCell(vn: string, c: Col, x: int, rows: map<int, Row>, st: State) returns (st': State)
    requires vn in st.vars && st.vars[vn] == RecArr(rows) && I1 != vn && Counter(st, I1) == Some(x)
    requires c.param in st.vars && st.vars[c.param].Arr? && x in st.vars[c.param].elems
    ensures Runs([Line(GatherCell, vn, c)], st, st')
    ensures st' == st.(vars := st.vars[vn := RecArr(rows[x := RowAt(rows, x)[c.field := st.vars[c.param].elems[x]]])])
  {
    st' := st.(vars := st.vars[vn := RecArr(rows[x := RowAt(rows, x)[c.field := st.vars[c.param].elems[x]]])]);
    RunsAssign(ToElemField(vn, I1, c.field), ElemOf(c.param, I1), st, st');
  }

  lemma RunsLines(kind: LineKind, vn: string, cols: seq<Col>, st: State, s1: State, s2: State)
    requires cols != [] && Runs([Line(kind, vn, cols[0])], st, s1) && Runs(Lines(kind, vn, cols[1..]), s1, s2)
    ensures Runs(Lines(kind, vn, cols), st, s2)
  {
    hide Runs;
    RunsSeq([Line(kind, vn, cols[0])], Lines(kind, vn, cols[1..]), st, s1, s2);
  }

  function RowAt(rows: map<int, Row>, x: int): Row {
    if x in rows then rows[x] else map[]
  }

  lemma SetAgain<K, V>(m: map<K, V>, k: K, v: V, w: V)
    ensures m[k := v][k := w] == m[k := w]
  {
  }

  /** The row after the cells of cols are set. */
  function Filled(cols: seq<Col>, data: Vars, x: int, row: Row): Row {
    if cols == [] then row
    else Filled(cols[1..], data, x, row[cols[0].field := CellAt(data, cols[0].param, x)])
  }

  lemma {:induction false} FilledAt(cols: seq<Col>, data: Vars, x: int, row: Row)
    requires ColsDistinct(cols)
    ensures var row' := Filled(cols, data, x, row);
      && row'.Keys == row.Keys + Fields(cols)
      && (forall k :: k in row && k !in Fields(cols) ==> row'[k] == row[k])
      && forall c :: c in cols ==> row'[c.field] == CellAt(data, c.param, x)
  {
    hide ColsDistinct;
    hide CellAt;
    if cols != [] {
      ColsSplit(cols);
      FilledAt(cols[1..], data, x, row[cols[0].field := CellAt(data, cols[0].param, x)]);
    }
  }

  lemma {:induction false} RunsGatherMore(vn: string, cols: seq<Col>, x: int, rows: map<int, Row>, data: Vars,
                                          st: State)
    returns (st': State)
    requires vn in st.vars && st.vars[vn] == RecArr(rows) && cols != []
    requires I1 != vn && Counter(st, I1) == Some(x)
    requires forall c :: c in cols ==>
      c.param != vn && c.param in st.vars && st.vars[c.param].Arr? && x in st.vars[c.param].elems
      && c.param in data && data[c.param] == st.vars[c.param]
    ensures Runs(Lines(GatherCell, vn, cols), st, st')
    ensures st' == st.(vars := st.vars[vn := RecArr(rows[x := Filled(cols, data, x, RowAt(rows, x))])])
  {
    hide Runs;
    var c := cols[0];
    assert c in cols;
    var row1 := RowAt(rows, x)[c.field := CellAt(data, c.param, x)];
    var s1 := RunsGatherCell(vn, c, x, rows, st);
    if cols[1..] == [] {
      RunsNothing(s1);
      st' := s1;
    } else {
      assert forall d :: d in cols[1..] ==> d in cols;
      st' := RunsGatherMore(vn, cols[1..], x, rows[x := row1], data, s1);
      var row' := Filled(cols, data, x, RowAt(rows, x));
      SetAgain(rows, x, row1, row');
      SetAgain(st.vars, vn, RecArr(rows[x := row1]), RecArr(rows[x := row']));
    }
    RunsLines(GatherCell, vn, cols, st, s1, st');
  }

  /** One pass of the gather loop creates row x. */
  lemma RunsGatherCells(vn: string, cols: seq<Col>, x: int, rows: map<int, Row>, st: State)
    returns (st': State)
    requires vn in st.vars && st.vars[vn] == RecArr(rows) && x !in rows && ColsDistinct(cols) && cols != []
    requires I1 != vn && Counter(st, I1) == Some(x) && vn !in Params(cols)
    requires forall c :: c in cols ==> c.param in st.vars && st.vars[c.param].Arr? && x in st.vars[c.param].elems
    ensures Runs(Lines(GatherCell, vn, cols), st, st')
    ensures st'.binds == st.binds && Agree(st.vars, st'.vars, {vn})
    ensures vn in st'.vars && st'.vars[vn] == RecArr(rows[x := RowFrom(cols, st.vars, x)])
  {
    hide Runs;
    hide RowFrom;
    hide Filled;
    st' := RunsGatherMore(vn, cols, x, rows, st.vars, st);
    FilledAt(cols, st.vars, x, map[]);
    RowByCols(cols, st.vars, x, Filled(cols, st.vars, x, map[]));
  }

  lemma RowByCols(cols: seq<Col>, data: Vars, x: int, row: Row)
    requires ColsDistinct(cols) && row.Keys == Fields(cols)
    requires forall c :: c in cols ==> row[c.field] == CellAt(data, c.param, x)
    ensures row == RowFrom(cols, data, x)
  {
    forall k | k in row ensures row[k] == CellAt(data, ParamFor(cols, k), x) {
      var c :| c in cols && c.field == k;
      ParamForCol(cols, c);
    }
  }

  lemma {:induction false} RunsScatterCells(vn: string, cols: seq<Col>, x: int, j: int, rows: map<int, Row>, st: State)
    returns (st': State)
    requires vn in st.vars && st.vars[vn] == RecArr(rows) && x in rows && ColsDistinct(cols)
    requires Counter(st, I1) == Some(x) && Counter(st, I2) == Some(j)
    requires vn !in Params(cols) && I1 !in Params(cols) && I2 !in Params(cols)
    requires forall c :: c in cols ==> c.param in st.vars && st.vars[c.param].Arr?
    ensures Runs(Lines(ScatterCell, vn, cols), st, st')
    ensures st'.binds == st.binds && Agree(st.vars, st'.vars, Params(cols))
    ensures forall c :: c in cols ==>
              c.param in st'.vars && st'.vars[c.param] == Arr(st.vars[c.param].elems[j := Field(rows[x], c.field)])
  {
    hide Params;
    hide Fields;
    hide Runs;
    hide ColsDistinct;
    ColsIn(cols);
    if cols == [] {
      RunsNothing(st);
      st' := st;
    } else {
      var c := cols[0];
      ColsSplit(cols);
      ColsIn(cols[1..]);
      var s1 := st.(vars := st.vars[c.param := Arr(st.vars[c.param].elems[j := Field(rows[x], c.field)])]);
      RunsAssign(ToElem(c.param, I2), ElemField(vn, I1, c.field), st, s1);
      st' := RunsScatterCells(vn, cols[1..], x, j, rows, s1);
      RunsLines(ScatterCell, vn, cols, st, s1, st');
    }
  }

  // ----- loops -----

  lemma RowFromAgree(cols: seq<Col>, x: Vars, y: Vars, touched: set<string>, i: int)
    requires Agree(x, y, touched) && touched !! Params(cols) && ColsDistinct(cols)
    ensures RowFrom(cols, x, i) == RowFrom(cols, y, i)
  {
    forall k | k in Fields(cols) ensures CellAt(x, ParamFor(cols, k), i) == CellAt(y, ParamFor(cols, k), i) {
      var c :| c in cols && c.field == k;
      ParamForCol(cols, c);
      assert c.param in Params(cols);
    }
  }

  lemma RowsAtStep(cols: seq<Col>, data: Vars, data': Vars, touched: set<string>, rows: map<int, Row>,
                   rest: set<int>, x: int)
    requires x in rest
    requires Agree(data, data', touched) && touched !! Params(cols) && ColsDistinct(cols)
    ensures rows + RowsAt(cols, data, rest) == rows[x := RowFrom(cols, data, x)] + RowsAt(cols, data', rest - {x})
  {
    forall i ensures RowFrom(cols, data, i) == RowFrom(cols, data', i) {
      RowFromAgree(cols, data, data', touched, i);
    }
  }

  lemma RunsGatherPass(vn: string, cols: seq<Col>, x: int, next: Scalar, keys: set<int>, rows: map<int, Row>, st: State)
    returns (st': State)
    requires vn in st.vars && st.vars[vn] == RecArr(rows) && x !in rows && ColsDistinct(cols) && cols != []
    requires I1 in st.vars && st.vars[I1] == Sca(Num(x)) && x in keys && NextIn(keys, x) == next
    requires I1 != vn && vn !in Params(cols) && I1 !in Params(cols)
    requires forall c :: c in cols ==>
      c.param in st.vars && st.vars[c.param].Arr? && st.vars[c.param].elems.Keys == keys
    ensures Runs(Lines(GatherCell, vn, cols) + [Assign(ToVar(I1), NextOf(cols[0].param, I1))], st, st')
    ensures st'.binds == st.binds && Agree(st.vars, st'.vars, {vn, I1})
    ensures I1 in st'.vars && st'.vars[I1] == Sca(next)
    ensures vn in st'.vars && st'.vars[vn] == RecArr(rows[x := RowFrom(cols, st.vars, x)])
  {
    hide Runs;
    hide Exec;
    var p0 := cols[0].param;
    assert cols[0] in cols && p0 in Params(cols);
    var s1 := RunsGatherCells(vn, cols, x, rows, st);
    assert s1.vars[p0] == st.vars[p0];
    st' := s1.(vars := s1.vars[I1 := Sca(next)]);
    RunsAssign(ToVar(I1), NextOf(p0, I1), s1, st');
    RunsSeq(Lines(GatherCell, vn, cols), [Assign(ToVar(I1), NextOf(p0, I1))], st, s1, st');
  }

  lemma ColsKept(cols: seq<Col>, x: Vars, y: Vars, touched: set<string>)
    requires Agree(x, y, touched) && touched !! Params(cols)
    ensures forall c :: c in cols ==> (c.param in x <==> c.param in y) && (c.param in x ==> x[c.param] == y[c.param])
  {
    ColsIn(cols);
  }

  lemma NoRows(cols: seq<Col>, data: Vars, rows: map<int, Row>)
    ensures rows + RowsAt(cols, data, {}) == rows
  {
  }

  lemma {:induction false} RunsGatherLoop(vn: string, cols: seq<Col>, rest: set<int>, keys: set<int>,
                                          rows: map<int, Row>, st: State)
    returns (st': State)
    requires cols != [] && ColsDistinct(cols) && UpperPart(rest, keys)
    requires vn in st.vars && st.vars[vn] == RecArr(rows) && rows.Keys !! rest
    requires I1 in st.vars && st.vars[I1] == Sca(FirstIn(rest))
    requires I1 != vn && vn !in Params(cols) && I1 !in Params(cols)
    requires forall c :: c in cols ==>
      c.param in st.vars && st.vars[c.param].Arr? && st.vars[c.param].elems.Keys == keys
    ensures Runs(Walk(cols[0].param, Lines(GatherCell, vn, cols))[1..], st, st')
    ensures st'.binds == st.binds && Agree(st.vars, st'.vars, {vn, I1})
    ensures I1 in st'.vars && vn in st'.vars
    ensures st'.vars[vn] == RecArr(rows + RowsAt(cols, st.vars, rest))
    decreases |rest|
  {
    hide Agree;
    hide Runs;
    hide RowsAt;
    hide RowFrom;
    hide ColsDistinct;
    hide Lines;
    var p0 := cols[0].param;
    var next := [Assign(ToVar(I1), NextOf(p0, I1))];
    var body := Lines(GatherCell, vn, cols) + next;
    assert Walk(p0, Lines(GatherCell, vn, cols))[1..] == [WhileNotNull(I1, body)];
    assert cols[0] in cols && p0 in Params(cols);
    AgreeSame(st.vars, {vn, I1});
    if rest == {} {
      RunsLoopExit(I1, body, st);
      st' := st;
      NoRows(cols, st.vars, rows);
    } else {
      var x := Least(rest);
      assert x in keys;
      NextSkipsOne(rest, keys);
      var s2 := RunsGatherPass(vn, cols, x, FirstIn(rest - {x}), keys, rows, st);
      ColsKept(cols, st.vars, s2.vars, {vn, I1});
      var rows' := rows[x := RowFrom(cols, st.vars, x)];
      st' := RunsGatherLoop(vn, cols, rest - {x}, keys, rows', s2);
      AgreeJoin(st.vars, s2.vars, st'.vars, {vn, I1}, {vn, I1});
      assert {vn, I1} + {vn, I1} == {vn, I1};
      RunsLoopStep(I1, body, st, s2, st');
      RowsAtStep(cols, st.vars, s2.vars, {vn, I1}, rows, rest, x);
    }
  }

  lemma RunsCopyPass(dst: string, src: string, x: int, next: Scalar,
                     from: map<int, Scalar>, to: map<int, Scalar>, st: State)
    returns (st': State)
    requires dst != src && I1 != dst && I1 != src && x in from && NextIn(from.Keys, x) == next
    requires src in st.vars && st.vars[src] == Arr(from) && dst in st.vars && st.vars[dst] == Arr(to)
    requires I1 in st.vars && st.vars[I1] == Sca(Num(x))
    ensures st' == st.(vars := st.vars[dst := Arr(to[x := from[x]])][I1 := Sca(next)])
    ensures Runs(CopyCell(dst, src) + [Assign(ToVar(I1), NextOf(src, I1))], st, st')
  {
    var s1 := st.(vars := st.vars[dst := Arr(to[x := from[x]])]);
    RunsAssign(ToElem(dst, I1), ElemOf(src, I1), st, s1);
    st' := s1.(vars := s1.vars[I1 := Sca(next)]);
    RunsAssign(ToVar(I1), NextOf(src, I1), s1, st');
    RunsSeq(CopyCell(dst, src), [Assign(ToVar(I1), NextOf(src, I1))], st, s1, st');
  }

  /** The elements of m at these indexes. */
  function ElemsIn(m: map<int, Scalar>, idx: set<int>): map<int, Scalar> {
    map i | i in idx && i in m :: m[i]
  }

  lemma CopyStep(from: map<int, Scalar>, to: map<int, Scalar>, rest: set<int>, x: int)
    requires x in rest && rest <= from.Keys
    ensures to + ElemsIn(from, rest) == to[x := from[x]] + ElemsIn(from, rest - {x})
  {
  }

  lemma {:induction false} RunsCopyLoop(dst: string, src: string, rest: set<int>,
                                        from: map<int, Scalar>, to: map<int, Scalar>, st: State)
    returns (st': State)
    requires dst != src && I1 != dst && I1 != src && UpperPart(rest, from.Keys)
    requires src in st.vars && st.vars[src] == Arr(from) && dst in st.vars && st.vars[dst] == Arr(to)
    requires I1 in st.vars && st.vars[I1] == Sca(FirstIn(rest))
    ensures Runs(Walk(src, CopyCell(dst, src))[1..], st, st')
    ensures st'.binds == st.binds && Agree(st.vars, st'.vars, {dst, I1})
    ensures I1 in st'.vars && dst in st'.vars && st'.vars[dst] == Arr(to + ElemsIn(from, rest))
    decreases |rest|
  {
    var next := [Assign(ToVar(I1), NextOf(src, I1))];
    var body := CopyCell(dst, src) + next;
    assert Walk(src, CopyCell(dst, src))[1..] == [WhileNotNull(I1, body)];
    if rest == {} {
      RunsLoopExit(I1, body, st);
      st' := st;
      assert to + ElemsIn(from, rest) == to;
    } else {
      var x := Least(rest);
      var to' := to[x := from[x]];
      NextSkipsOne(rest, from.Keys);
      var s2 := RunsCopyPass(dst, src, x, FirstIn(rest - {x}), from, to, st);
      st' := RunsCopyLoop(dst, src, rest - {x}, from, to', s2);
      RunsLoopStep(I1, body, st, s2, st');
      CopyStep(from, to, rest, x);
    }
  }

  lemma PushKey(a: map<int, Scalar>, b: map<int, Scalar>, x: int, v: Scalar)
    requires x !in b
    ensures a + b[x := v] == a[x := v] + b
  {
  }

  lemma SpreadStep(rows: map<int, Row>, rest: set<int>, k: string, j: int, old': map<int, Scalar>)
    requires rest != {} && rest <= rows.Keys
    ensures var x := Least(rest);
      old' + Spread(rows, Ascending(rest), k, j)
      == old'[j := Field(rows[x], k)] + Spread(rows, Ascending(rest - {x}), k, j + 1)
  {
    var r := Ascending(rest);
    var m := Spread(rows, r[1..], k, j + 1);
    assert r[0] == Least(rest) && r[1..] == Ascending(rest - {Least(rest)});
    SpreadAt(rows, r[1..], k, j + 1);
    PushKey(old', m, j, Field(rows[r[0]], k));
  }

  /** The index moves on and the counter is raised. */
  lemma RunsIndexes(vn: string, x: int, j: int, rows: map<int, Row>, st: State) returns (st': State)
    requires vn in st.vars && st.vars[vn] == RecArr(rows) && vn != I1 && vn != I2
    requires Counter(st, I1) == Some(x) && Counter(st, I2) == Some(j)
    ensures Runs([Assign(ToVar(I1), NextOf(vn, I1)), Assign(ToVar(I2), PlusOne(I2))], st, st')
    ensures st' == st.(vars := st.vars[I1 := Sca(NextIn(rows.Keys, x))][I2 := Sca(Num(j + 1))])
  {
    hide Runs;
    var n1, n2 := Assign(ToVar(I1), NextOf(vn, I1)), Assign(ToVar(I2), PlusOne(I2));
    var s1 := st.(vars := st.vars[I1 := Sca(NextIn(rows.Keys, x))]);
    RunsAssign(ToVar(I1), NextOf(vn, I1), st, s1);
    st' := s1.(vars := s1.vars[I2 := Sca(Num(j + 1))]);
    RunsAssign(ToVar(I2), PlusOne(I2), s1, st');
    RunsSeq([n1], [n2], st, s1, st');
    assert [n1] + [n2] == [n1, n2];
  }

  lemma RunsScatterPass(vn: string, cols: seq<Col>, x: int, next: Scalar, j: int, rows: map<int, Row>, st: State)
    returns (st': State)
    requires vn in st.vars && st.vars[vn] == RecArr(rows) && x in rows && ColsDistinct(cols)
    requires NextIn(rows.Keys, x) == next && Counter(st, I1) == Some(x) && Counter(st, I2) == Some(j)
    requires vn !in Params(cols) && I1 !in Params(cols) && I2 !in Params(cols) && vn != I1 && vn != I2
    requires forall c :: c in cols ==> c.param in st.vars && st.vars[c.param].Arr?
    ensures Runs(Lines(ScatterCell, vn, cols) + [Assign(ToVar(I1), NextOf(vn, I1)), Assign(ToVar(I2), PlusOne(I2))],
                 st, st')
    ensures st'.binds == st.binds && Agree(st.vars, st'.vars, Params(cols) + {I1, I2})
    ensures I1 in st'.vars && st'.vars[I1] == Sca(next) && I2 in st'.vars && st'.vars[I2] == Sca(Num(j + 1))
    ensures forall c :: c in cols ==>
      c.param in st'.vars && st'.vars[c.param] == Arr(st.vars[c.param].elems[j := Field(rows[x], c.field)])
  {
    hide Runs;
    hide Eval;
    hide Lines;
    hide ColsDistinct;
    hide Params;
    ColsIn(cols);
    var n1, n2 := Assign(ToVar(I1), NextOf(vn, I1)), Assign(ToVar(I2), PlusOne(I2));
    var s1 := RunsScatterCells(vn, cols, x, j, rows, st);
    st' := RunsIndexes(vn, x, j, rows, s1);
    RunsSeq(Lines(ScatterCell, vn, cols), [n1, n2], st, s1, st');
  }

  lemma {:induction false} RunsScatterLoop(vn: string, cols: seq<Col>, rest: set<int>, j: int,
                                           rows: map<int, Row>, st: State)
    returns (st': State)
    requires ColsDistinct(cols) && UpperPart(rest, rows.Keys)
    requires vn in st.vars && st.vars[vn] == RecArr(rows)
    requires I1 in st.vars && st.vars[I1] == Sca(FirstIn(rest)) && I2 in st.vars && st.vars[I2] == Sca(Num(j))
    requires vn !in Params(cols) && I1 !in Params(cols) && I2 !in Params(cols) && vn != I1 && vn != I2
    requires forall c :: c in cols ==> c.param in st.vars && st.vars[c.param].Arr?
    ensures Runs(WalkCounting(vn, Lines(ScatterCell, vn, cols))[2..], st, st')
    ensures st'.binds == st.binds && Agree(st.vars, st'.vars, Params(cols) + {I1, I2})
    ensures I1 in st'.vars && I2 in st'.vars
    ensures forall c :: c in cols ==>
      c.param in st'.vars &&
      st'.vars[c.param] == Arr(st.vars[c.param].elems + Spread(rows, Ascending(rest), c.field, j))
    decreases |rest|
  {
    var lines := Lines(ScatterCell, vn, cols);
    var n1, n2 := Assign(ToVar(I1), NextOf(vn, I1)), Assign(ToVar(I2), PlusOne(I2));
    var body := lines + [n1, n2];
    assert WalkCounting(vn, lines)[2..] == [WhileNotNull(I1, body)];
    if rest == {} {
      RunsLoopExit(I1, body, st);
      st' := st;
      forall c | c in cols
        ensures st.vars[c.param].elems + Spread(rows, Ascending(rest), c.field, j) == st.vars[c.param].elems {}
    } else {
      var x := Least(rest);
      NextSkipsOne(rest, rows.Keys);
      var s3 := RunsScatterPass(vn, cols, x, FirstIn(rest - {x}), j, rows, st);
      st' := RunsScatterLoop(vn, cols, rest - {x}, j + 1, rows, s3);
      RunsLoopStep(I1, body, st, s3, st');
      forall c | c in cols
        ensures st'.vars[c.param] == Arr(st.vars[c.param].elems + Spread(rows, Ascending(rest), c.field, j))
      {
        SpreadStep(rows, rest, c.field, j, st.vars[c.param].elems);
      }
    }
  }
}
