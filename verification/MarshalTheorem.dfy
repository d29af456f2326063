/** The generated block does what the direct call does: main results. */
module MarshalTheorem {
  import opened Basics
  import opened Plsql
  import opened Marshal
  import opened MarshalRun
  import opened MarshalProof

  /** The block ends normally for this reply. */
  predicate Ends(f: Function, r: Reply) {
    r.Returned? || (r.named && f.handles)
  }

  /** The result, from what holds right after the call and what the scatter fragments did. */
  lemma ResultAfterPost(f: Function, r: Reply, binds: Vars, mid: Vars, binds': Vars)
    requires FunctionOk(f) && ReplyOk(f.args, r) && Agree(mid, binds', PostBinds(AllArgs(f)))
    requires forall a :: a in AllArgs(f) && a.dir.IsOutput() && !a.Simple? ==>
      HasType(a, Final(f, a, r, binds)) && Delivered(a, Final(f, a, r, binds), binds, binds')
    requires r.Returned? ==> forall a :: a in f.args && a.dir.IsOutput() && a.ByBind() ==>
      a.formal in mid && mid[a.formal] == r.outs[a.formal]
    requires r.Returned? && f.result.Some? ==> RET in mid && mid[RET] == r.ret
    requires Agree(binds, mid, if r.Returned? then Touched(f, r) else {})
    ensures DirectResult(f, r, binds, binds')
  {
    var all := AllArgs(f);
    OutBindsAreBinds(all);
    forall a | a in f.args && a.dir.IsOutput() && a.ByBind() && r.Returned?
      ensures a.formal in binds' && binds'[a.formal] == r.outs[a.formal]
    {
      assert a in all;
      PassedNotPosted(all, a);
    }
    if f.result.Some? && f.result.value.Simple? {
      assert f.result.value in all;
      PassedNotPosted(all, f.result.value);
    }
    assert PostBinds(all) <= Touched(f, r);
  }

  lemma FinalHasType(f: Function, a: Arg, r: Reply, binds: Vars)
    requires ReplyOk(f.args, r)
    ensures HasType(a, Final(f, a, r, binds))
  {
  }

  /** A result in the bind `ret`, unless a scatter fragment assigns that bind. */
  ghost predicate ResultBound(f: Function, r: Reply, binds': Vars) {
    r.Returned? && f.result.Some? && "ret" !in PostBinds(AllArgs(f)) ==>
      "ret" in binds' && binds'["ret"] == r.ret
  }

  lemma BlockReaches(f: Function, callee: Callee, binds: Vars) returns (binds': Vars)
    requires FunctionOk(f) && InputsOk(f.args, binds) && HiddenBound(f.args, binds)
    requires var r := callee(DirectInputs(f.args, binds)); ReplyOk(f.args, r) && Ends(f, r)
    ensures BlockRuns(BlockOf(f), callee, binds, binds')
    ensures DirectResult(f, callee(DirectInputs(f.args, binds)), binds, binds')
    ensures ResultBound(f, callee(DirectInputs(f.args, binds)), binds')
  {
    var r := callee(DirectInputs(f.args, binds));
    var s0, s1 := RunsUpToCall(f, binds);
    var s2 := CallHolds(f, callee, binds, s1);
    NoIndexLocals(AllArgs(f));
    var s3 := ScatterAll(f, r, binds, s2);
    binds' := s3.binds;
    ResultAfterPost(f, r, binds, s2.binds, binds');
  }

  lemma ScatterAll(f: Function, r: Reply, binds: Vars, s2: State) returns (s3: State)
    requires FunctionOk(f) && ReplyOk(f.args, r) && I1 in s2.vars && I2 in s2.vars
    requires forall a :: a in AllArgs(f) ==> Holds(a, Final(f, a, r, binds), s2.vars, binds)
    ensures Runs(BlockOf(f).post, s2, s3) && Agree(s2.binds, s3.binds, PostBinds(AllArgs(f)))
    ensures forall a :: a in AllArgs(f) && a.dir.IsOutput() && !a.Simple? ==>
      HasType(a, Final(f, a, r, binds)) && Delivered(a, Final(f, a, r, binds), binds, s3.binds)
  {
    var all := AllArgs(f);
    var fin := map a | a in all :: Final(f, a, r, binds);
    forall a | a in all ensures HasType(a, fin[a]) { FinalHasType(f, a, r, binds); }
    s3 := RunsPostAll(all, fin, binds, s2);
  }

  lemma {:induction false} PassedNotPosted(args: seq<Arg>, a: Arg)
    requires ArgsOk(args) && a in args && a.ByBind()
    ensures a.formal !in PostBinds(args)
  {
    OthersDisjoint(args);
    PostBindsAreBinds(args[1..]);
    if a == args[0] {
      assert a.formal in BindsOf(a);
    } else {
      PassedNotPosted(args[1..], a);
      assert a.formal in BindsOf(a);
    }
  }

  ghost predicate Phases(b: Block, callee: Callee, binds: Vars, s0: State, s1: State, s2: State, s3: State) {
    && Declare(b.decls, State(map[], binds)) == Some(s0)
    && Runs(b.pre, s0, s1)
    && Call(b, callee, s1) == Some(s2)
    && Runs(b.post, s2, s3)
  }

  lemma PhasesOf(b: Block, callee: Callee, binds: Vars, binds': Vars)
    returns (s0: State, s1: State, s2: State, s3: State)
    requires BlockRuns(b, callee, binds, binds')
    ensures Phases(b, callee, binds, s0, s1, s2, s3) && s3.binds == binds'
  {
    s0, s1, s2, s3 :| Declare(b.decls, State(map[], binds)) == Some(s0) && Runs(b.pre, s0, s1)
      && Call(b, callee, s1) == Some(s2) && Runs(b.post, s2, s3) && s3.binds == binds';
  }

  lemma BlockRunsOnce(b: Block, callee: Callee, binds: Vars, x: Vars, y: Vars)
    requires BlockRuns(b, callee, binds, x) && BlockRuns(b, callee, binds, y)
    ensures x == y
  {
    var s0, s1, s2, s3 := PhasesOf(b, callee, binds, x);
    var t0, t1, t2, t3 := PhasesOf(b, callee, binds, y);
    RunsOnce(b.pre, s0, s1, t1);
    RunsOnce(b.post, s2, s3, t3);
  }

  /** A block whose callee's exception is not handled has no normal end. */
  lemma NoEnd(b: Block, callee: Callee, binds: Vars, s0: State, s1: State, binds': Vars)
    requires Declare(b.decls, State(map[], binds)) == Some(s0) && Runs(b.pre, s0, s1)
    requires Call(b, callee, s1) == None
    ensures !BlockRuns(b, callee, binds, binds')
  {
    if BlockRuns(b, callee, binds, binds') {
      var t0, t1, t2, t3 := PhasesOf(b, callee, binds, binds');
      RunsOnce(b.pre, s0, s1, t1);
    }
  }

  /** Running the block is calling the procedure on the records and tables themselves: it ends
      exactly when the binds of hidden inputs exist and the callee returns or raises a handled
      exception, and then the binds are those of the direct result, whatever mix of arguments the
      function has. */
  lemma BlockIsDirectCall(f: Function, callee: Callee, binds: Vars)
    requires FunctionOk(f) && InputsOk(f.args, binds)
    requires ReplyOk(f.args, callee(DirectInputs(f.args, binds)))
    ensures var r := callee(DirectInputs(f.args, binds));
      && (Ends(f, r) && HiddenBound(f.args, binds) <==> exists binds' :: BlockRuns(BlockOf(f), callee, binds, binds'))
      && forall binds' :: BlockRuns(BlockOf(f), callee, binds, binds') ==>
           DirectResult(f, r, binds, binds') && ResultBound(f, r, binds')
  {
    hide BlockRuns;
    hide FunctionOk;
    hide DirectResult;
    hide ResultBound;
    hide InputsOk;
    hide ReplyOk;
    var r := callee(DirectInputs(f.args, binds));
    if Ends(f, r) && HiddenBound(f.args, binds) {
      var b := BlockReaches(f, callee, binds);
      forall b' | BlockRuns(BlockOf(f), callee, binds, b') ensures b' == b {
        BlockRunsOnce(BlockOf(f), callee, binds, b, b');
      }
    } else {
      var s0, s1 := RunsUpToCall(f, binds);
      forall b' ensures !BlockRuns(BlockOf(f), callee, binds, b') {
        NoEnd(BlockOf(f), callee, binds, s0, s1, b');
      }
    }
  }

  lemma {:induction false} OnlyOutputs(args: seq<Arg>, a: Arg)
    requires ArgsOk(args) && a in args && !a.dir.IsOutput()
    ensures OutBinds(args) !! BindsOf(a)
  {
    OthersDisjoint(args);
    OutBindsAreBinds(args[1..]);
    if a != args[0] {
      OnlyOutputs(args[1..], a);
      InArgs(args[1..], a);
    }
  }

  lemma {:induction false} PassedAt(args: seq<Arg>, binds: Vars, a: Arg)
    requires ArgsOk(args) && a in args
    ensures a.formal in DirectInputs(args, binds) <==> a.dir.IsInput()
    ensures a.dir.IsInput() ==> DirectInputs(args, binds)[a.formal] == Passed(a, binds)
  {
    hide Passed;
    if a != args[0] {
      PassedAt(args[1..], binds, a);
    } else {
      NotPassedAgain(args[1..], binds, a.formal);
    }
  }

  lemma {:induction false} NotPassedAgain(args: seq<Arg>, binds: Vars, k: string)
    requires forall b :: b in args ==> b.formal != k
    ensures k !in DirectInputs(args, binds)
  {
    if args != [] { NotPassedAgain(args[1..], binds, k); }
  }

  /** By the direction of an argument: the procedure gets IN and IN OUT arguments, what it leaves in
      OUT and IN OUT arguments is delivered, and the binds of IN arguments are not touched. */
  lemma BlockByDirection(f: Function, callee: Callee, binds: Vars, binds': Vars, a: Arg)
    requires FunctionOk(f) && InputsOk(f.args, binds) && a in f.args && !a.Hidden()
    requires ReplyOk(f.args, callee(DirectInputs(f.args, binds)))
    requires BlockRuns(BlockOf(f), callee, binds, binds') && callee(DirectInputs(f.args, binds)).Returned?
    ensures var ins, outs := DirectInputs(f.args, binds), callee(DirectInputs(f.args, binds)).outs;
      match a.dir
      case In => && a.formal in ins && ins[a.formal] == Gathered(a, binds)
                 && Untouched(BindsOf(a), binds, binds')
      case Out => a.formal !in ins && a.formal in outs && Arrives(a, outs[a.formal], binds, binds')
      case InOut => && a.formal in ins && ins[a.formal] == Gathered(a, binds)
                    && a.formal in outs && Arrives(a, outs[a.formal], binds, binds')
  {
    hide FunctionOk;
    hide BlockRuns;
    hide InputsOk;
    hide ReplyOk;
    hide Delivered;
    hide HasType;
    BlockIsDirectCall(f, callee, binds);
    DirectionOf(f, callee(DirectInputs(f.args, binds)), binds, binds', a);
  }

  predicate Untouched(names: set<string>, binds: Vars, binds': Vars) {
    forall k :: k in names ==> (k in binds <==> k in binds') && (k in binds ==> binds'[k] == binds[k])
  }

  /** A simple value is in the argument's bind, a composite one is spread over its carriers. */
  ghost predicate Arrives(a: Arg, x: Value, binds: Vars, binds': Vars) {
    if a.Simple? then a.formal in binds' && binds'[a.formal] == x
    else HasType(a, x) && Delivered(a, x, binds, binds')
  }

  lemma DirectionOf(f: Function, r: Reply, binds: Vars, binds': Vars, a: Arg)
    requires FunctionOk(f) && DirectResult(f, r, binds, binds') && r.Returned? && ReplyOk(f.args, r)
    requires a in f.args && !a.Hidden()
    ensures a.formal in DirectInputs(f.args, binds) <==> a.dir != Out
    ensures a.dir != Out ==> DirectInputs(f.args, binds)[a.formal] == Gathered(a, binds)
    ensures a.dir != In ==> a.formal in r.outs && Arrives(a, r.outs[a.formal], binds, binds')
    ensures a.dir == In ==> Untouched(BindsOf(a), binds, binds')
  {
    hide Delivered;
    hide Gathered;
    hide HasType;
    hide ArgsOk;
    hide OutBinds;
    hide PostBinds;
    hide BindsOf;
    hide DirectInputs;
    hide Unset;
    var all := AllArgs(f);
    assert a in all;
    PrefixOk(f.args, if f.result.Some? then [f.result.value] else []);
    PassedAt(f.args, binds, a);
    if a.dir == In { OnlyOutputs(all, a); }
  }

  // ----- where the block departs from the direct call -----

  /** What the caller of a table of records should see: the rows, compacted to 1..n in index order. */
  ghost predicate Compacted(a: Arg, x: Value, binds': Vars)
    requires a.RecTable? && x.RecArr?
  {
    forall c :: c in a.cols ==> c.param in binds' && binds'[c.param] == Arr(Column(x.rows, c.field))
  }

  lemma ColumnIndexes(rows: map<int, Row>, k: string)
    ensures forall j :: j in Column(rows, k) <==> 1 <= j <= |rows|
  {
    SpreadAt(rows, Ascending(rows.Keys), k, 1);
    assert |rows.Keys| == |rows|;
  }

  /** Every row arrives: the row with the t-th smallest index is element 1 + t of each column. */
  lemma ColumnIsCompact(rows: map<int, Row>, k: string, i: int)
    requires i in rows
    ensures exists t :: 0 <= t < |rows.Keys| && Ascending(rows.Keys)[t] == i
                        && 1 + t in Column(rows, k) && Column(rows, k)[1 + t] == Field(rows[i], k)
  {
    SpreadAt(rows, Ascending(rows.Keys), k, 1);
    AscendingCovers(rows.Keys, i);
    var t :| 0 <= t < |rows.Keys| && Ascending(rows.Keys)[t] == i;
    assert 1 + t in Column(rows, k);
  }

  /** Column c as it comes back is the compacted one exactly when it held no later element. */
  lemma StaleColumn(a: Arg, x: Value, binds: Vars, c: Col)
    requires a.RecTable? && c in a.cols && x.RecArr? && (a.dir.IsInput() ==> InputOk(a, binds))
    ensures Stale(a, binds, c.param) + Column(x.rows, c.field) == Column(x.rows, c.field)
       <==> forall i :: i in Stale(a, binds, c.param) ==> 1 <= i <= |x.rows|
    ensures a.dir.IsInput() ==> Stale(a, binds, c.param).Keys == ElemsAt(binds, a.cols[0].param).Keys
  {
    ColumnIndexes(x.rows, c.field);
    LaidOver(Stale(a, binds, c.param), Column(x.rows, c.field), |x.rows|);
  }

  /** The columns of an IN/OUT table of records are not cleared before the scatter loop, so
      the caller sees the compacted rows exactly when the table did not shrink. */
  lemma ShrinkingLeavesStaleRows(a: Arg, x: Value, binds: Vars, binds': Vars)
    requires a.RecTable? && ArgOk(a) && x.RecArr? && Delivered(a, x, binds, binds')
    requires a.dir.IsInput() ==> InputOk(a, binds)
    ensures Compacted(a, x, binds') <==>
            a.dir.IsInput() ==> forall i :: i in ElemsAt(binds, a.cols[0].param) ==> 1 <= i <= |x.rows|
  {
    hide Column;
    hide InputOk;
    hide ElemsAt;
    var c0 := a.cols[0];
    assert c0 in a.cols;
    forall c | c in a.cols
      ensures Stale(a, binds, c.param) + Column(x.rows, c.field) == Column(x.rows, c.field)
         <==> forall i :: i in Stale(a, binds, c.param) ==> 1 <= i <= |x.rows|
      ensures a.dir.IsInput() ==> Stale(a, binds, c.param).Keys == ElemsAt(binds, c0.param).Keys
    {
      StaleColumn(a, x, binds, c);
    }
    var fits := forall i :: i in ElemsAt(binds, c0.param) ==> 1 <= i <= |x.rows|;
    if a.dir.IsInput() {
      assert Stale(a, binds, c0.param) == ElemsAt(binds, c0.param);
      forall c | c in a.cols && fits ensures forall i :: i in Stale(a, binds, c.param) ==> 1 <= i <= |x.rows| {
        assert forall i :: i in Stale(a, binds, c.param) <==> i in ElemsAt(binds, c0.param);
      }
    }
  }

  lemma LaidOver(s: map<int, Scalar>, m: map<int, Scalar>, n: nat)
    requires forall j :: j in m <==> 1 <= j <= n
    ensures s + m == m <==> forall i :: i in s ==> 1 <= i <= n
  {
    if s + m == m {
      forall i | i in s ensures 1 <= i <= n { assert i in s + m; }
    }
    if forall i :: i in s ==> 1 <= i <= n {
      assert (s + m).Keys == m.Keys by {
        forall i | i in (s + m).Keys ensures i in m.Keys { assert i in s || i in m; }
      }
      assert s + m == m;
    }
  }

  lemma EmptyColumn(rows: map<int, Row>, k: string)
    ensures map[] + Column(rows, k) == Column(rows, k)
    ensures Column(rows, k) == map[] <==> rows == map[]
  {
    ColumnIndexes(rows, k);
    if rows != map[] { assert 1 in Column(rows, k); }
  }

  /** The result of a call is always assigned to the bind `ret`, so a composite result never
      reaches the fields that are scattered: it arrives only if it is all NULL or empty. */
  lemma CompositeResultIsLost(f: Function, r: Reply, binds: Vars, binds': Vars)
    requires FunctionOk(f) && DirectResult(f, r, binds, binds') && r.Returned?
    requires f.result.Some? && !f.result.value.Simple? && f.result.value !in f.args
    requires HasType(f.result.value, r.ret)
    ensures var a := f.result.value;
      Delivered(a, r.ret, binds, binds') <==>
      match a
      case Record(_, _, _, cols) => forall c :: c in cols ==> Field(r.ret.fields, c.field) == Null
      case Table(_, _, _) => r.ret.elems == map[]
      case RecTable(_, _, _, _) => r.ret.rows == map[]
      case Simple(_, _) => true
  {
    var a := f.result.value;
    assert a in AllArgs(f);
    assert Final(f, a, r, binds) == Unset(a);
    InArgs(AllArgs(f), a);
    if a.RecTable? {
      var c := a.cols[0];
      assert c in a.cols;
      EmptyColumn(r.ret.rows, c.field);
      EmptyColumn(map[], c.field);
      assert Stale(a, binds, c.param) == map[];
    }
  }

  /** Binds that a driver can set: scalars and arrays of scalars. */
  predicate Bindable(x: Value) {
    x.Sca? || x.Arr?
  }

  /** With a record or a table of records as its result, a block that ends leaves that value in
      the bind `ret`; where binds hold no such values, the block has no normal end. */
  lemma CompositeResultNeedsCompositeBind(f: Function, callee: Callee, binds: Vars, binds': Vars)
    requires FunctionOk(f) && InputsOk(f.args, binds) && "ret" !in PostBinds(AllArgs(f))
    requires f.result.Some? && (f.result.value.Record? || f.result.value.RecTable?)
    requires var r := callee(DirectInputs(f.args, binds));
      ReplyOk(f.args, r) && (r.Returned? ==> HasType(f.result.value, r.ret))
    requires BlockRuns(BlockOf(f), callee, binds, binds') && callee(DirectInputs(f.args, binds)).Returned?
    ensures "ret" in binds' && binds'["ret"] == callee(DirectInputs(f.args, binds)).ret && !Bindable(binds'["ret"])
  {
    hide BlockRuns;
    hide FunctionOk;
    hide InputsOk;
    hide ReplyOk;
    hide DirectResult;
    BlockIsDirectCall(f, callee, binds);
  }

  /** A composite argument is registered under its replaced name: the call passes the variable
      that was filled if and only if the name has no trailing hash mark, and otherwise a bind of
      the argument's own name. */
  lemma CompositeIsPassed(f: Function, i: nat)
    requires ArgsOk(AllArgs(f)) && i < |f.args| && !f.args[i].Simple?
    ensures i < |BlockOf(f).actuals|
    ensures var a, place := f.args[i], BlockOf(f).actuals[i].place;
      && (place == AtVar(a.vn) <==> a.formal == "" || a.formal[|a.formal| - 1] != '#')
      && (place != AtVar(a.vn) ==> place == AtBind(a.formal))
  {
    var a := f.args[i];
    assert AllArgs(f)[i] == a;
    Placed(AllArgs(f), a);
    ReplacedName(a.formal);
    ActualAt(f.args, CallArgs(AllArgs(f), map[]), i);
  }

  /** What the block does with a hidden argument: without a bind of its own name as an input it
      has no normal end, and an output stays in that bind while the argument's carriers get back
      what was sent in them, or nothing. */
  lemma HiddenCompositeIsNotPassed(f: Function, callee: Callee, binds: Vars, a: Arg)
    requires FunctionOk(f) && InputsOk(f.args, binds) && a in f.args && a.Hidden()
    requires ReplyOk(f.args, callee(DirectInputs(f.args, binds)))
    ensures a.dir.IsInput() && a.formal !in binds ==> forall b' :: !BlockRuns(BlockOf(f), callee, binds, b')
    ensures forall b' :: BlockRuns(BlockOf(f), callee, binds, b') && a.dir.IsOutput() ==>
      var r := callee(DirectInputs(f.args, binds));
      && (r.Returned? ==> a.formal in b' && b'[a.formal] == r.outs[a.formal])
      && HasType(a, Start(a, binds)) && Delivered(a, Start(a, binds), binds, b')
  {
    hide BlockRuns;
    hide FunctionOk;
    hide InputsOk;
    hide ReplyOk;
    hide Delivered;
    BlockIsDirectCall(f, callee, binds);
    var r := callee(DirectInputs(f.args, binds));
    assert a in AllArgs(f);
    assert Final(f, a, r, binds) == Start(a, binds);
  }

  lemma {:induction false} ActualAt(args: seq<Arg>, callArgs: map<string, string>, i: nat)
    requires i < |args|
    ensures i < |Actuals(args, callArgs)|
    ensures var a := args[i];
      Actuals(args, callArgs)[i] ==
        Actual(a.formal, a.dir, if a.formal in callArgs then AtVar(callArgs[a.formal]) else AtBind(a.formal))
  {
    if i > 0 {
      ActualAt(args[1..], callArgs, i - 1);
      assert args[i] == args[1..][i - 1];
    }
  }
}
