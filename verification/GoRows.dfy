/** The Go side of a table of records: rows are transposed to columns before the call and
    columns back to rows after it, in slices with an explicit capacity. */
module GoRows {
  import opened Basics
  import opened Plsql
  import opened Marshal
  import opened MarshalRun
  import opened MarshalProof
  import opened MarshalTheorem

  // ----- slices -----

  /** A Go slice: the first len cells of mem are in use, |mem| is the capacity. */
  datatype Slice<+T> = Slice(mem: seq<T>, len: nat) {
    predicate Valid() { len <= |mem| }
    function Cap(): nat { |mem| }
    function Elems(): seq<T> requires Valid() { mem[..len] }
  }

  /** make([]T, len, cap) panics when len exceeds cap. */
  function Make<T>(zero: T, len: nat, cap: nat): Option<Slice<T>> {
    if len > cap then None else Some(Slice(seq(cap, _ => zero), len))
  }

  /** s[:n] panics beyond the capacity. */
  function Reslice<T>(s: Slice<T>, n: nat): Option<Slice<T>> {
    if n > s.Cap() then None else Some(Slice(s.mem, n))
  }

  /** append: in place while the capacity lasts, else into a new array with some spare cells. */
  function Append<T>(zero: T, s: Slice<T>, xs: seq<T>, spare: nat): (r: Slice<T>)
    requires s.Valid()
    ensures r.Valid() && r.Elems() == s.Elems() + xs && r.Cap() >= s.Cap()
  {
    var n := s.len + |xs|;
    if n <= s.Cap() then Slice(s.mem[..s.len] + xs + s.mem[n..], n)
    else Slice(s.mem[..s.len] + xs + seq(spare, _ => zero), n)
  }

  // ----- rows to columns -----

  /** The array a column bind carries: arrays bound by OCI are indexed from 1. */
  function ColumnOf(rows: seq<Row>, k: string): Value {
    Arr(map j | j in Positions(|rows|) :: Field(rows[j - 1], k))
  }

  function ArrayOf(x: seq<Scalar>): Value {
    Arr(map j | j in Positions(|x|) :: x[j - 1])
  }

  /** The indexes 1..n. */
  function Positions(n: nat): (s: set<int>)
    ensures forall j :: j in s <==> 1 <= j <= n
  {
    if n == 0 then {} else Positions(n - 1) + {n}
  }

  ghost predicate RowsBound(a: Arg, rows: seq<Row>, binds: Vars)
    requires a.RecTable?
  {
    forall c :: c in a.cols ==> c.param in binds && binds[c.param] == ColumnOf(rows, c.field)
  }

  /** Fills one column; None is the panic on more rows than the table size. */
  method BuildColumn(rows: seq<Row>, k: string, tableSize: nat) returns (x: Option<Slice<Scalar>>)
    ensures x.Some? <==> |rows| <= tableSize
    ensures x.Some? ==> x.value.Valid() && ArrayOf(x.value.Elems()) == ColumnOf(rows, k)
  {
    var made := Make(Null, |rows|, tableSize);
    if made.None? { return None; }
    var s := made.value;
    for i := 0 to |rows|
      invariant |s.mem| == tableSize && s.len == |rows|
      invariant forall j :: 0 <= j < i ==> s.mem[j] == Field(rows[j], k)
    {
      s := s.(mem := s.mem[i := Field(rows[i], k)]);
    }
    x := Some(s);
  }

  // ----- columns to rows -----

  /** The row under construction: the fields done so far of row i. */
  function PartialRow(fields: seq<string>, data: map<string, seq<Scalar>>, i: int): Row {
    map k | k in fields && k in data && 0 <= i < |data[k]| :: data[k][i]
  }

  lemma ExtendRow(fields: seq<string>, k: string, data: map<string, seq<Scalar>>, i: int)
    requires k in data && 0 <= i < |data[k]|
    ensures PartialRow(fields + [k], data, i) == PartialRow(fields, data, i)[k := data[k][i]]
  {
  }

  lemma NoFields(data: map<string, seq<Scalar>>, i: int)
    ensures PartialRow([], data, i) == map[]
  {
  }

  /** Sets field k of the first |x| rows, creating the rows that do not exist yet. */
  method SetField(out: Slice<Option<Row>>, k: string, x: seq<Scalar>) returns (r: Slice<Option<Row>>)
    requires out.Valid() && out.len == |x|
    ensures r.Valid() && r.len == out.len && r.Cap() == out.Cap()
    ensures forall i :: 0 <= i < |x| ==>
      r.mem[i] == Some((if out.mem[i].Some? then out.mem[i].value else map[])[k := x[i]])
  {
    r := out;
    for i := 0 to |x|
      invariant r.len == out.len && r.Cap() == out.Cap()
      invariant forall j :: i <= j < |x| ==> r.mem[j] == out.mem[j]
      invariant forall j :: 0 <= j < i ==>
        r.mem[j] == Some((if out.mem[j].Some? then out.mem[j].value else map[])[k := x[j]])
    {
      if r.mem[i].None? {
        r := r.(mem := r.mem[i := Some(map[])]);
      }
      r := r.(mem := r.mem[i := Some(r.mem[i].value[k := x[i]])]);
    }
  }

  /** Reads the columns back into a fresh slice of rows; None is a panic. While the number of
      rows stays within the table size no reslice passes the capacity, whatever spare room
      append allocates. */
  method TakeRows(fields: seq<string>, data: map<string, seq<Scalar>>, tableSize: nat, n: nat, spare: nat)
    returns (out: Option<Slice<Option<Row>>>)
    requires fields != [] && forall k :: k in fields ==> k in data && |data[k]| == n
    ensures n <= tableSize ==> out.Some?
    ensures out.Some? ==> out.value.Valid() && out.value.len == n
    ensures out.Some? ==> forall i :: 0 <= i < n ==> out.value.mem[i] == Some(PartialRow(fields, data, i))
  {
    hide PartialRow;
    var s: Slice<Option<Row>> := Slice([], 0);
    if tableSize > s.Cap() {
      s := Append(None, Slice(s.mem, s.Cap()), seq(tableSize - s.Cap(), _ => None), spare);
    }
    out := Reslice(s, tableSize);
    if out.None? { return; }
    s := out.value;
    for f := 0 to |fields|
      invariant s.Valid() && s.Cap() >= tableSize && (f == 0 || s.len == n)
      invariant f == 0 ==> forall j :: 0 <= j < s.Cap() ==> s.mem[j] == None
      invariant f > 0 ==> forall j :: 0 <= j < n ==> s.mem[j] == Some(PartialRow(fields[..f], data, j))
    {
      var k := fields[f];
      var x := data[k];
      if |x| > s.Cap() {
        s := Append(None, s, seq(|x| - s.Cap(), _ => None), spare);
      }
      out := Reslice(s, |x|);
      if out.None? { return; }
      s := out.value;
      s := SetField(s, k, x);
      assert fields[..f + 1] == fields[..f] + [k];
      forall j | 0 <= j < n ensures s.mem[j] == Some(PartialRow(fields[..f + 1], data, j)) {
        ExtendRow(fields[..f], k, data, j);
        if f == 0 { NoFields(data, j); }
      }
    }
    assert fields[..|fields|] == fields;
    out := Some(s);
  }

  // ----- through the block -----

  /** The rows of an associative array, in index order. */
  ghost function InOrder(rows: map<int, Row>): seq<Row> {
    var idx := Ascending(rows.Keys);
    seq(|idx|, t requires 0 <= t < |idx| => rows[idx[t]])
  }

  lemma ColumnOfInOrder(rows: map<int, Row>, k: string)
    ensures Arr(Column(rows, k)) == ColumnOf(InOrder(rows), k)
  {
    hide Spread;
    hide ColumnOf;
    SpreadAt(rows, Ascending(rows.Keys), k, 1);
    ColumnIs(Column(rows, k), InOrder(rows), k);
  }

  lemma ColumnIs(m: map<int, Scalar>, rows: seq<Row>, k: string)
    requires forall j :: j in m <==> 1 <= j < 1 + |rows|
    requires forall t :: 0 <= t < |rows| ==> 1 + t in m && m[1 + t] == Field(rows[t], k)
    ensures Arr(m) == ColumnOf(rows, k)
  {
    assert m.Keys == Positions(|rows|);
    forall j | j in m ensures m[j] == Field(rows[j - 1], k) {
      assert m[1 + (j - 1)] == Field(rows[j - 1], k);
    }
  }

  lemma CompactedIsRows(a: Arg, x: Value, binds': Vars)
    requires a.RecTable? && x.RecArr?
    ensures Compacted(a, x, binds') <==> RowsBound(a, InOrder(x.rows), binds')
  {
    hide Column;
    hide ColumnOf;
    hide InOrder;
    forall c | c in a.cols ensures Arr(Column(x.rows, c.field)) == ColumnOf(InOrder(x.rows), c.field) {
      ColumnOfInOrder(x.rows, c.field);
    }
  }

  /** The rows sent are numbered from 1. */
  lemma SentIndexes(a: Arg, sent: seq<Row>, binds: Vars, n: nat)
    requires a.RecTable? && a.cols != [] && RowsBound(a, sent, binds)
    ensures (forall i :: i in ElemsAt(binds, a.cols[0].param) ==> 1 <= i <= n) <==> |sent| <= n
    ensures InputOk(a, binds)
  {
    var c0 := a.cols[0];
    assert c0 in a.cols;
    forall c | c in a.cols
      ensures c.param in binds && binds[c.param].Arr? && binds[c.param].elems.Keys == Positions(|sent|)
    {
      ColumnLength(sent, c.field);
    }
    assert forall i :: i in ElemsAt(binds, c0.param) <==> i in Positions(|sent|);
    if |sent| > n { assert |sent| in Positions(|sent|); }
  }

  /** What Go reads back are the rows the procedure left in the table, in index order, exactly
      when an IN/OUT table did not shrink below the rows sent. */
  lemma GoSeesTheRows(f: Function, r: Reply, binds: Vars, binds': Vars, a: Arg, sent: seq<Row>)
    requires FunctionOk(f) && DirectResult(f, r, binds, binds') && r.Returned? && ReplyOk(f.args, r)
    requires a in f.args && a.RecTable? && a.dir.InOut? && !a.Hidden() && RowsBound(a, sent, binds)
    ensures RowsBound(a, InOrder(r.outs[a.formal].rows), binds') <==> |sent| <= |r.outs[a.formal].rows|
  {
    hide RowsBound;
    hide InOrder;
    hide Compacted;
    hide Delivered;
    hide InputOk;
    hide ElemsAt;
    var x := r.outs[a.formal];
    assert a in AllArgs(f) && Final(f, a, r, binds) == x;
    InArgs(AllArgs(f), a);
    SentIndexes(a, sent, binds, |x.rows|);
    ShrinkingLeavesStaleRows(a, x, binds, binds');
    CompactedIsRows(a, x, binds');
  }

  function TableOf(rows: seq<Row>): map<int, Row> {
    map j | j in Positions(|rows|) :: rows[j - 1]
  }

  lemma GatheredRow(a: Arg, rows: seq<Row>, binds: Vars, j: int)
    requires a.RecTable? && ArgOk(a) && RowsBound(a, rows, binds) && 1 <= j <= |rows|
    requires rows[j - 1].Keys == Fields(a.cols)
    ensures RowFrom(a.cols, binds, j) == rows[j - 1]
  {
    forall c | c in a.cols ensures rows[j - 1][c.field] == CellAt(binds, c.param, j) {
      assert c.field in Fields(a.cols);
      assert ElemsAt(binds, c.param) == ColumnOf(rows, c.field).elems;
    }
    RowByCols(a.cols, binds, j, rows[j - 1]);
  }

  /** The table the block gathers from the columns of these rows. */
  lemma GatheredRows(a: Arg, rows: seq<Row>, binds: Vars)
    requires a.RecTable? && ArgOk(a) && RowsBound(a, rows, binds)
    requires forall i :: 0 <= i < |rows| ==> rows[i].Keys == Fields(a.cols)
    ensures Gathered(a, binds) == RecArr(TableOf(rows))
  {
    var c0 := a.cols[0];
    assert c0 in a.cols;
    assert ElemsAt(binds, c0.param).Keys == Positions(|rows|);
    forall j | j in Positions(|rows|) ensures RowFrom(a.cols, binds, j) == rows[j - 1] {
      GatheredRow(a, rows, binds, j);
    }
    TableByRows(a.cols, binds, rows);
  }

  lemma TableByRows(cols: seq<Col>, binds: Vars, rows: seq<Row>)
    requires forall j :: j in Positions(|rows|) ==> RowFrom(cols, binds, j) == rows[j - 1]
    ensures RowsAt(cols, binds, Positions(|rows|)) == TableOf(rows)
  {
  }

  lemma {:induction false} InOrderOfPositions(n: nat, s: set<int>, t: nat)
    requires |Ascending(s)| == n && t < n && forall j :: j in s <==> 1 <= j <= n
    ensures Ascending(s)[t] == t + 1
  {
    AscendingOrder(s);
    var r := Ascending(s);
    AtLeast(s, t);
    AtMost(s, n, t);
  }

  lemma {:induction false} AtLeast(s: set<int>, t: nat)
    requires t < |s| && forall j :: j in s ==> 1 <= j
    ensures Ascending(s)[t] >= t + 1
  {
    AscendingOrder(s);
    if t > 0 {
      AtLeast(s, t - 1);
      assert Ascending(s)[t - 1] < Ascending(s)[t];
    }
  }

  lemma {:induction false} AtMost(s: set<int>, n: nat, t: nat)
    requires t < |s| == n && forall j :: j in s ==> j <= n
    ensures Ascending(s)[t] <= t + 1
    decreases n - t
  {
    AscendingOrder(s);
    if t + 1 < n {
      AtMost(s, n, t + 1);
      assert Ascending(s)[t] < Ascending(s)[t + 1];
    }
  }

  lemma {:induction false} PositionsSize(n: nat)
    ensures |Positions(n)| == n
  {
    if n > 0 { PositionsSize(n - 1); }
  }

  lemma RowsInOrder(rows: seq<Row>)
    ensures |TableOf(rows)| == |rows| && InOrder(TableOf(rows)) == rows
  {
    var m := TableOf(rows);
    PositionsSize(|rows|);
    assert m.Keys == Positions(|rows|);
    assert |m.Keys| == |m|;
    forall t | 0 <= t < |rows| ensures InOrder(m)[t] == rows[t] {
      InOrderOfPositions(|rows|, m.Keys, t);
    }
  }

  /** End to end: rows sent through the block to a procedure that leaves the table as it is
      come back unchanged. */
  lemma UntouchedRowsComeBack(f: Function, callee: Callee, binds: Vars, binds': Vars, a: Arg, rows: seq<Row>)
    requires FunctionOk(f) && InputsOk(f.args, binds) && BlockRuns(BlockOf(f), callee, binds, binds')
    requires var r := callee(DirectInputs(f.args, binds));
      r.Returned? && ReplyOk(f.args, r) && a in f.args && a.RecTable? && a.dir.InOut? && !a.Hidden()
      && r.outs[a.formal] == Gathered(a, binds)
    requires RowsBound(a, rows, binds) && forall i :: 0 <= i < |rows| ==> rows[i].Keys == Fields(a.cols)
    ensures RowsBound(a, rows, binds')
  {
    var r := callee(DirectInputs(f.args, binds));
    BlockIsDirectCall(f, callee, binds);
    assert a in AllArgs(f);
    InArgs(AllArgs(f), a);
    GatheredRows(a, rows, binds);
    RowsInOrder(rows);
    GoSeesTheRows(f, r, binds, binds', a, rows);
  }

  // ----- from Go rows to Go rows -----

  /** The elements of an array that is indexed from 1 to n, as OCI hands them to a slice. */
  function SliceOf(v: Value, n: nat): (x: seq<Scalar>)
    requires v.Arr? && v.elems.Keys == Positions(n)
    ensures |x| == n && ArrayOf(x) == v
  {
    var x := seq(n, j requires 0 <= j < n => v.elems[j + 1]);
    assert ArrayOf(x).elems == v.elems;
    x
  }

  lemma ColumnLength(rows: seq<Row>, k: string)
    ensures ColumnOf(rows, k).Arr? && ColumnOf(rows, k).elems.Keys == Positions(|rows|)
    ensures |ColumnOf(rows, k).elems| == |rows|
  {
    PositionsSize(|rows|);
    var m := ColumnOf(rows, k).elems;
    assert |m| == |m.Keys|;
  }

  /** Rows are determined by the columns of all their fields. */
  lemma ColumnsHoldRows(fields: seq<string>, data: map<string, seq<Scalar>>, rows: seq<Row>, i: nat)
    requires forall k :: k in fields ==> k in data && |data[k]| == |rows| && ArrayOf(data[k]) == ColumnOf(rows, k)
    requires i < |rows| && rows[i].Keys == set k | k in fields
    ensures PartialRow(fields, data, i) == rows[i]
  {
    forall k | k in fields ensures data[k][i] == rows[i][k] {
      assert ArrayOf(data[k]).elems[i + 1] == ColumnOf(rows, k).elems[i + 1];
    }
  }

  /** The input side of a table of records: one bind for each column; None is the panic. */
  method SendRows(cols: seq<Col>, rows: seq<Row>, tableSize: nat, others: Vars) returns (binds: Option<Vars>)
    requires ColsDistinct(cols)
    ensures binds.Some? <==> cols == [] || |rows| <= tableSize
    ensures binds.Some? ==>
      forall c :: c in cols ==> c.param in binds.value && binds.value[c.param] == ColumnOf(rows, c.field)
    ensures binds.Some? ==> Agree(others, binds.value, Params(cols))
  {
    hide ColsDistinct;
    hide Agree;
    hide ColumnOf;
    hide ArrayOf;
    hide Params;
    var b := others;
    ColsIn(cols);
    AgreeSame(others, Params(cols));
    for n := 0 to |cols|
      invariant n > 0 ==> |rows| <= tableSize
      invariant forall j :: 0 <= j < n ==> cols[j].param in b && b[cols[j].param] == ColumnOf(rows, cols[j].field)
      invariant Agree(others, b, Params(cols))
    {
      var c := cols[n];
      var x := BuildColumn(rows, c.field, tableSize);
      if x.None? {
        return None;
      }
      assert c in cols;
      forall j | 0 <= j < n ensures cols[j].param != c.param { ParamsDiffer(cols, j, n); }
      AgreeSet(others, b, Params(cols), c.param, ArrayOf(x.value.Elems()));
      assert Params(cols) + {c.param} == Params(cols);
      b := b[c.param := ArrayOf(x.value.Elems())];
    }
    binds := Some(b);
  }

  lemma {:induction false} ParamsDiffer(cols: seq<Col>, i: nat, j: nat)
    requires ColsDistinct(cols) && i < j < |cols|
    ensures cols[i].param != cols[j].param && cols[i].field != cols[j].field
    decreases |cols|
  {
    if i == 0 {
      assert cols[j] == cols[1..][j - 1];
    } else {
      ParamsDiffer(cols[1..], i - 1, j - 1);
    }
  }

  method TakeColumns(cols: seq<Col>, binds: Vars, ghost rows: seq<Row>)
    returns (fields: seq<string>, data: map<string, seq<Scalar>>)
    requires forall c :: c in cols ==> c.param in binds && binds[c.param] == ColumnOf(rows, c.field)
    ensures |fields| == |cols| && forall j :: 0 <= j < |cols| ==> fields[j] == cols[j].field
    ensures forall k :: k in fields ==> k in data && |data[k]| == |rows| && ArrayOf(data[k]) == ColumnOf(rows, k)
  {
    hide ColumnOf;
    hide ArrayOf;
    fields, data := [], map[];
    for n := 0 to |cols|
      invariant |fields| == n && forall j :: 0 <= j < n ==> fields[j] == cols[j].field
      invariant forall k :: k in fields ==> k in data && |data[k]| == |rows| && ArrayOf(data[k]) == ColumnOf(rows, k)
    {
      var c := cols[n];
      assert c in cols;
      ColumnLength(rows, c.field);
      var v := binds[c.param];
      fields := fields + [c.field];
      data := data[c.field := SliceOf(v, |v.elems|)];
    }
  }

  /** The output side: the columns in the binds become rows; None is a panic. */
  method ReceiveRows(cols: seq<Col>, binds: Vars, tableSize: nat, spare: nat, ghost rows: seq<Row>)
    returns (out: Option<seq<Row>>)
    requires cols != [] && forall c :: c in cols ==> c.param in binds && binds[c.param] == ColumnOf(rows, c.field)
    requires forall i :: 0 <= i < |rows| ==> rows[i].Keys == Fields(cols)
    ensures |rows| <= tableSize ==> out.Some?
    ensures out.Some? ==> out.value == rows
  {
    hide ColumnOf;
    hide ArrayOf;
    hide PartialRow;
    var fields, data := TakeColumns(cols, binds, rows);
    assert fields[0] in fields;
    FieldsOfCols(cols, fields);
    var taken := TakeRows(fields, data, tableSize, |data[fields[0]]|, spare);
    if taken.None? {
      return None;
    }
    var s := taken.value;
    forall i | 0 <= i < |rows| ensures s.mem[i] == Some(rows[i]) { ColumnsHoldRows(fields, data, rows, i); }
    out := Some(seq(s.len, i requires 0 <= i < s.len && s.mem[i].Some? => s.mem[i].value));
  }

  lemma FieldsOfCols(cols: seq<Col>, fields: seq<string>)
    requires |fields| == |cols| && forall j :: 0 <= j < |cols| ==> fields[j] == cols[j].field
    ensures (set k | k in fields) == Fields(cols)
  {
    forall k | k in fields ensures k in Fields(cols) {
      var j :| 0 <= j < |fields| && fields[j] == k;
      assert cols[j] in cols;
    }
    forall k | k in Fields(cols) ensures k in fields {
      var c :| c in cols && c.field == k;
      var j :| 0 <= j < |cols| && cols[j] == c;
      assert fields[j] == k;
    }
  }

  /** The block runs from binds to binds', and the procedure leaves the table of a alone. */
  ghost predicate LeavesAlone(f: Function, callee: Callee, a: Arg, binds: Vars, binds': Vars)
    requires a.RecTable?
  {
    && InputsOk(f.args, binds) && BlockRuns(BlockOf(f), callee, binds, binds')
    && var r := callee(DirectInputs(f.args, binds));
       r.Returned? && ReplyOk(f.args, r) && a in f.args && a.formal in r.outs && r.outs[a.formal] == Gathered(a, binds)
  }

  /** Go rows through the columns, the block and back: they come back equal if they fit into the
      table size, and the call panics if they do not. */
  method CallWithRows(f: Function, ghost callee: Callee, block: Vars -> Vars, a: Arg, rows: seq<Row>, others: Vars,
                      tableSize: nat, spare: nat)
    returns (out: Option<seq<Row>>)
    requires FunctionOk(f) && a in f.args && a.RecTable? && a.dir.InOut? && !a.Hidden()
    requires forall i :: 0 <= i < |rows| ==> rows[i].Keys == Fields(a.cols)
    requires forall binds :: RowsBound(a, rows, binds) && Agree(others, binds, Params(a.cols)) ==>
      LeavesAlone(f, callee, a, binds, block(binds))
    ensures out == if |rows| <= tableSize then Some(rows) else None
  {
    ghost var all := AllArgs(f);
    assert a in all;
    InArgs(all, a);
    var sent := SendRows(a.cols, rows, tableSize, others);
    if sent.None? {
      return None;
    }
    var binds' := block(sent.value);
    assert RowsBound(a, rows, sent.value);
    UntouchedRowsComeBack(f, callee, sent.value, binds', a, rows);
    out := ReceiveRows(a.cols, binds', tableSize, spare, rows);
  }
}
