/** The fragment of PL/SQL that the generated wrapper blocks use, with an evaluator.
    Collections are associative arrays indexed by BINARY_INTEGER; FIRST, NEXT and DELETE
    follow "Collection Methods" in the Oracle Database PL/SQL Language Reference. */
module Plsql {
  import opened Basics

  datatype Scalar = Null | Num(n: int) | Text(s: string)

  type Row = map<string, Scalar>

  datatype Value =
    | Sca(s: Scalar)
    | Rec(fields: Row)
    | Arr(elems: map<int, Scalar>)
    | RecArr(rows: map<int, Row>)

  datatype State = State(vars: map<string, Value>, binds: map<string, Value>)

  datatype Expr =
    | BindRef(b: string)
    | VarRef(v: string)
    | FieldOf(v: string, k: string)
    | ElemOf(v: string, i: string)
    | ElemField(v: string, i: string, k: string)
    | FirstOf(v: string)
    | NextOf(v: string, i: string)
    | IntLit(n: int)
    | PlusOne(v: string)

  datatype Target =
    | ToBind(b: string)
    | ToVar(v: string)
    | ToField(v: string, k: string)
    | ToElem(v: string, i: string)
    | ToElemField(v: string, i: string, k: string)

  datatype Stmt =
    | Assign(t: Target, e: Expr)
    | Delete(v: string)
    | WhileNotNull(i: string, body: seq<Stmt>)

  datatype Outcome = Done(st: State) | Raised | OutOfFuel

  // ----- collections -----

  lemma SomeMember<T>(s: set<T>) returns (x: T)
    requires s != {}
    ensures x in s
  {
    x :| x in s;
  }

  lemma {:induction false} LeastExists(s: set<int>)
    requires s != {}
    ensures exists m :: m in s && forall x :: x in s ==> m <= x
    decreases |s|
  {
    var y := SomeMember(s);
    var t := s - {y};
    assert forall x :: x in s ==> x == y || x in t;
    if t != {} {
      LeastExists(t);
      var m :| m in t && forall x :: x in t ==> m <= x;
      var z := if y < m then y else m;
      assert z in s && forall x :: x in s ==> z <= x;
    }
  }

  ghost function Least(s: set<int>): (m: int)
    requires s != {}
    ensures m in s && forall x :: x in s ==> m <= x
  {
    LeastExists(s);
    var m :| m in s && forall x :: x in s ==> m <= x;
    m
  }

  /** The value of FIRST on a collection with these indexes. */
  ghost function FirstIn(keys: set<int>): Scalar {
    if keys == {} then Null else Num(Least(keys))
  }

  lemma FirstInSame(s: set<int>, t: set<int>)
    requires forall x :: x in s <==> x in t
    ensures FirstIn(s) == FirstIn(t)
  {
  }

  /** The value of NEXT(i): defined for any i, present or not. */
  ghost function NextIn(keys: set<int>, i: int): Scalar {
    FirstIn(set k | k in keys && k > i)
  }

  ghost function Indexes(v: Value): Option<set<int>> {
    match v
    case Arr(m) => Some(m.Keys)
    case RecArr(m) => Some(m.Keys)
    case _ => None
  }

  /** A field that was never assigned is NULL. */
  function Field(r: Row, k: string): Scalar {
    if k in r then r[k] else Null
  }

  // ----- evaluation; None is a raised exception -----

  function Lookup(m: map<string, Value>, x: string): Option<Value> {
    if x in m then Some(m[x]) else None
  }

  function Counter(st: State, i: string): Option<int> {
    if i in st.vars && st.vars[i].Sca? && st.vars[i].s.Num? then Some(st.vars[i].s.n) else None
  }

  ghost function Eval(e: Expr, st: State): Option<Value> {
    match e
    case BindRef(b) => Lookup(st.binds, b)
    case VarRef(v) => Lookup(st.vars, v)
    case FieldOf(v, k) =>
      if v in st.vars && st.vars[v].Rec? then Some(Sca(Field(st.vars[v].fields, k))) else None
    case ElemOf(v, i) =>
      var n := Counter(st, i);
      if v in st.vars && st.vars[v].Arr? && n.Some? && n.value in st.vars[v].elems
      then Some(Sca(st.vars[v].elems[n.value])) else None
    case ElemField(v, i, k) =>
      var n := Counter(st, i);
      if v in st.vars && st.vars[v].RecArr? && n.Some? && n.value in st.vars[v].rows
      then Some(Sca(Field(st.vars[v].rows[n.value], k))) else None
    case FirstOf(v) =>
      if v in st.vars && Indexes(st.vars[v]).Some?
      then Some(Sca(FirstIn(Indexes(st.vars[v]).value))) else None
    case NextOf(v, i) =>
      var n := Counter(st, i);
      if v in st.vars && Indexes(st.vars[v]).Some? && n.Some?
      then Some(Sca(NextIn(Indexes(st.vars[v]).value, n.value))) else None
    case IntLit(n) => Some(Sca(Num(n)))
    case PlusOne(v) =>
      var n := Counter(st, v);
      if n.Some? then Some(Sca(Num(n.value + 1))) else None
  }

  /** Writing to an absent element of an associative array creates it. */
  function Store(t: Target, x: Value, st: State): Option<State> {
    match t
    case ToBind(b) => Some(st.(binds := st.binds[b := x]))
    case ToVar(v) => if v in st.vars then Some(st.(vars := st.vars[v := x])) else None
    case ToField(v, k) =>
      if v in st.vars && st.vars[v].Rec? && x.Sca?
      then Some(st.(vars := st.vars[v := Rec(st.vars[v].fields[k := x.s])])) else None
    case ToElem(v, i) =>
      var n := Counter(st, i);
      if v in st.vars && st.vars[v].Arr? && n.Some? && x.Sca?
      then Some(st.(vars := st.vars[v := Arr(st.vars[v].elems[n.value := x.s])])) else None
    case ToElemField(v, i, k) =>
      var n := Counter(st, i);
      if v in st.vars && st.vars[v].RecArr? && n.Some? && x.Sca? then
        var m := st.vars[v].rows;
        var row := if n.value in m then m[n.value] else map[];
        Some(st.(vars := st.vars[v := RecArr(m[n.value := row[k := x.s]])]))
      else None
  }

  ghost function ExecStmt(s: Stmt, st: State, fuel: nat): Outcome
    decreases fuel, s, 0
  {
    match s
    case Assign(t, e) =>
      var x := Eval(e, st);
      if x.None? then Raised else
      var st' := Store(t, x.value, st);
      if st'.None? then Raised else Done(st'.value)
    case Delete(v) =>
      if v !in st.vars then Raised
      else if st.vars[v].Arr? then Done(st.(vars := st.vars[v := Arr(map[])]))
      else if st.vars[v].RecArr? then Done(st.(vars := st.vars[v := RecArr(map[])]))
      else Raised
    case WhileNotNull(i, body) =>
      if i !in st.vars || !st.vars[i].Sca? then Raised
      else if st.vars[i].s.Null? then Done(st)
      else if fuel == 0 then OutOfFuel
      else
        var o := Exec(body, st, fuel - 1);
        if o.Done? then ExecStmt(s, o.st, fuel - 1) else o
  }

  ghost function Exec(ss: seq<Stmt>, st: State, fuel: nat): Outcome
    decreases fuel, ss, 1
  {
    if ss == [] then Done(st) else
    var o := ExecStmt(ss[0], st, fuel);
    if o.Done? then Exec(ss[1..], o.st, fuel) else o
  }

  // ----- big-step reading of the evaluator -----

  /** Starting in st, the statements end normally in st'. */
  ghost predicate Runs(ss: seq<Stmt>, st: State, st': State) {
    exists fuel: nat :: Exec(ss, st, fuel) == Done(st')
  }

  /** Starting in st, the statements raise an exception. */
  ghost predicate Raises(ss: seq<Stmt>, st: State) {
    exists fuel: nat :: Exec(ss, st, fuel) == Raised
  }

  lemma {:induction false} MoreFuelStmt(s: Stmt, st: State, f: nat, g: nat)
    requires f <= g && !ExecStmt(s, st, f).OutOfFuel?
    ensures ExecStmt(s, st, g) == ExecStmt(s, st, f)
    decreases f, s, 0
  {
    if s.WhileNotNull? && s.i in st.vars && st.vars[s.i].Sca? && !st.vars[s.i].s.Null? {
      MoreFuel(s.body, st, f - 1, g - 1);
      var o := Exec(s.body, st, f - 1);
      if o.Done? {
        MoreFuelStmt(s, o.st, f - 1, g - 1);
      }
    }
  }

  lemma {:induction false} MoreFuel(ss: seq<Stmt>, st: State, f: nat, g: nat)
    requires f <= g && !Exec(ss, st, f).OutOfFuel?
    ensures Exec(ss, st, g) == Exec(ss, st, f)
    decreases f, ss, 1
  {
    if ss != [] {
      MoreFuelStmt(ss[0], st, f, g);
      var o := ExecStmt(ss[0], st, f);
      if o.Done? {
        MoreFuel(ss[1..], o.st, f, g);
      }
    }
  }

  /** The fuel is only a device: a run has one result. */
  lemma RunsOnce(ss: seq<Stmt>, st: State, a: State, b: State)
    requires Runs(ss, st, a)
    ensures Runs(ss, st, b) ==> a == b
    ensures !Raises(ss, st)
  {
    var f: nat :| Exec(ss, st, f) == Done(a);
    if Runs(ss, st, b) {
      var g: nat :| Exec(ss, st, g) == Done(b);
      if f <= g { MoreFuel(ss, st, f, g); } else { MoreFuel(ss, st, g, f); }
    }
    if Raises(ss, st) {
      var g: nat :| Exec(ss, st, g) == Raised;
      if f <= g { MoreFuel(ss, st, f, g); } else { MoreFuel(ss, st, g, f); }
    }
  }

  lemma {:induction false} ExecAppend(a: seq<Stmt>, b: seq<Stmt>, st: State, f: nat)
    ensures var o := Exec(a, st, f);
            Exec(a + b, st, f) == if o.Done? then Exec(b, o.st, f) else o
    decreases a
  {
    if a == [] {
      assert a + b == b;
    } else {
      assert (a + b)[1..] == a[1..] + b;
      var o := ExecStmt(a[0], st, f);
      if o.Done? {
        ExecAppend(a[1..], b, o.st, f);
      }
    }
  }

  lemma RunsNothing(st: State)
    ensures Runs([], st, st)
  {
    assert Exec([], st, 0) == Done(st);
  }

  lemma RunsSeq(a: seq<Stmt>, b: seq<Stmt>, st: State, s1: State, s2: State)
    requires Runs(a, st, s1) && Runs(b, s1, s2)
    ensures Runs(a + b, st, s2)
  {
    var f: nat :| Exec(a, st, f) == Done(s1);
    var g: nat :| Exec(b, s1, g) == Done(s2);
    var h := if f <= g then g else f;
    MoreFuel(a, st, f, h);
    MoreFuel(b, s1, g, h);
    ExecAppend(a, b, st, h);
    assert Exec(a + b, st, h) == Done(s2);
  }

  lemma RunsAssign(t: Target, e: Expr, st: State, st': State)
    requires Eval(e, st).Some? && Store(t, Eval(e, st).value, st) == Some(st')
    ensures Runs([Assign(t, e)], st, st')
  {
    var ss := [Assign(t, e)];
    assert ss[1..] == [];
    assert Exec(ss, st, 0) == Done(st');
  }

  lemma RunsDelete(v: string, st: State, st': State)
    requires v in st.vars && (st.vars[v].Arr? || st.vars[v].RecArr?)
    requires st' == st.(vars := st.vars[v := if st.vars[v].Arr? then Arr(map[]) else RecArr(map[])])
    ensures Runs([Delete(v)], st, st')
  {
    var ss := [Delete(v)];
    assert ss[1..] == [];
    assert Exec(ss, st, 0) == Done(st');
  }

  lemma RunsLoopExit(i: string, body: seq<Stmt>, st: State)
    requires i in st.vars && st.vars[i] == Sca(Null)
    ensures Runs([WhileNotNull(i, body)], st, st)
  {
    var ss := [WhileNotNull(i, body)];
    assert ss[1..] == [];
    assert Exec(ss, st, 0) == Done(st);
  }

  lemma RunsLoopStep(i: string, body: seq<Stmt>, st: State, s1: State, s2: State)
    requires i in st.vars && st.vars[i].Sca? && !st.vars[i].s.Null?
    requires Runs(body, st, s1) && Runs([WhileNotNull(i, body)], s1, s2)
    ensures Runs([WhileNotNull(i, body)], st, s2)
  {
    var s := WhileNotNull(i, body);
    var ss := [s];
    assert ss[1..] == [];
    var f: nat :| Exec(body, st, f) == Done(s1);
    var g: nat :| Exec(ss, s1, g) == Done(s2);
    var h := if f <= g then g else f;
    MoreFuel(body, st, f, h);
    MoreFuel(ss, s1, g, h);
    assert ExecStmt(s, s1, h) == Done(s2) by {
      var o := ExecStmt(s, s1, h);
      assert Exec(ss, s1, h) == if o.Done? then Exec(ss[1..], o.st, h) else o;
    }
    assert ExecStmt(s, st, h + 1) == Done(s2);
    assert Exec(ss, st, h + 1) == Done(s2);
  }

  // ----- walking a collection in index order -----

  /** rest holds the indexes of keys still to be visited: an upper part of keys. */
  ghost predicate UpperPart(rest: set<int>, keys: set<int>) {
    rest <= keys && forall a, b :: a in keys - rest && b in rest ==> a < b
  }

  lemma NextSkipsOne(rest: set<int>, keys: set<int>)
    requires UpperPart(rest, keys) && rest != {}
    ensures UpperPart(rest - {Least(rest)}, keys)
    ensures NextIn(keys, Least(rest)) == FirstIn(rest - {Least(rest)})
  {
    var x := Least(rest);
    assert forall k :: k in keys - rest ==> k < x;
    var above := set k | k in keys && k > x;
    forall k ensures k in above <==> k in rest - {x} {
      assert k in keys && k !in rest ==> k in keys - rest;
    }
    FirstInSame(above, rest - {x});
  }

  /** The indexes in ascending order. */
  ghost function Ascending(s: set<int>): (r: seq<int>)
    ensures |r| == |s|
    ensures forall i :: 0 <= i < |r| ==> r[i] in s
  {
    if s == {} then [] else [Least(s)] + Ascending(s - {Least(s)})
  }

  lemma {:induction false} AscendingOrder(s: set<int>)
    ensures forall i, j :: 0 <= i < j < |s| ==> Ascending(s)[i] < Ascending(s)[j]
  {
    if s != {} {
      var t := s - {Least(s)};
      AscendingOrder(t);
      assert forall j :: 0 < j < |s| ==> Ascending(s)[j] == Ascending(t)[j - 1];
    }
  }

  lemma {:induction false} AscendingCovers(s: set<int>, k: int)
    requires k in s
    ensures exists i :: 0 <= i < |s| && Ascending(s)[i] == k
  {
    var t := s - {Least(s)};
    if k == Least(s) {
      assert Ascending(s)[0] == k;
    } else {
      AscendingCovers(t, k);
      var i :| 0 <= i < |t| && Ascending(t)[i] == k;
      assert Ascending(s)[i + 1] == k;
    }
  }
}
