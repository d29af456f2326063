/** The reader, grouper and parser of a CSV file, connected by two bounded channels. */
module Pipeline {
  import opened Basics

  datatype Program = Program(package: string, object: string, objectID: nat, subprogramID: nat)

  datatype UserArgument = UserArgument(program: Program, text: string)

  const ZERO := Program("", "", 0, 0)
  const CAPACITY := 16

  type Rows = seq<UserArgument>
  type Keep = UserArgument -> bool

  // ----- sequentially: filter, then group, then parse -----

  function Filter(rows: Rows, keep: Keep): Rows {
    if rows == [] then [] else (if keep(rows[0]) then [rows[0]] else []) + Filter(rows[1..], keep)
  }

  /** The group being collected ends before a row of another program. */
  predicate Cut(args: Rows, last: Program, ua: UserArgument) {
    last != ZERO && last != ua.program && args != []
  }

  function Groups(args: Rows, last: Program, rows: Rows): seq<Rows>
    decreases |rows|
  {
    if rows == [] then (if args == [] then [] else [args])
    else if Cut(args, last, rows[0]) then [args] + Groups([rows[0]], rows[0].program, rows[1..])
    else Groups(args + [rows[0]], rows[0].program, rows[1..])
  }

  method FilterAndGroup(rows: Rows, keep: Keep) returns (groups: seq<Rows>)
    ensures groups == Groups([], ZERO, Filter(rows, keep))
    ensures Flat(groups) == Filter(rows, keep) && WellCut(groups)
  {
    hide Flat;
    hide WellCut;
    hide Filter;
    hide Groups;
    RightGroups(rows, keep);
    NoRows(keep);
    groups := [];
    var args, last := [], ZERO;
    assert rows[0..] == rows && groups + Groups([], ZERO, Filter(rows, keep)) == Groups([], ZERO, Filter(rows, keep));
    for i := 0 to |rows|
      invariant groups + Groups(args, last, Filter(rows[i..], keep)) == Groups([], ZERO, Filter(rows, keep))
    {
      var ua := rows[i];
      assert rows[i..][0] == ua && rows[i..][1..] == rows[i + 1..];
      ghost var f := Filter(rows[i + 1..], keep);
      assert rows[i..] == [ua] + rows[i + 1..];
      FilterFirst(ua, rows[i + 1..], keep);
      if keep(ua) {
        GroupsFirst(args, last, ua, f);
        if Cut(args, last, ua) {
          assert groups + ([args] + Groups([ua], ua.program, f)) == (groups + [args]) + Groups([ua], ua.program, f);
          groups := groups + [args];
          args := [];
          assert args + [ua] == [ua];
        }
        args := args + [ua];
        last := ua.program;
      } else {
        assert [] + f == f;
      }
    }
    assert rows[|rows|..] == [];
    GroupsEnd(args, last);
    if args != [] {
      groups := groups + [args];
    } else {
      assert groups + [] == groups;
    }
  }

  lemma NoRows(keep: Keep)
    ensures Filter([], keep) == []
  {
  }

  lemma GroupsEnd(args: Rows, last: Program)
    ensures Groups(args, last, []) == if args == [] then [] else [args]
  {
  }

  function Flat(groups: seq<Rows>): Rows {
    if groups == [] then [] else groups[0] + Flat(groups[1..])
  }

  /** Grouping neither loses nor reorders rows, and no group is empty. */
  lemma {:induction false} GroupsPartition(args: Rows, last: Program, rows: Rows)
    ensures Flat(Groups(args, last, rows)) == args + rows
    ensures forall g :: 0 <= g < |Groups(args, last, rows)| ==> Groups(args, last, rows)[g] != []
    decreases |rows|
  {
    if rows == [] {
      assert [args][1..] == [] && args + [] == args;
    } else if Cut(args, last, rows[0]) {
      var more := Groups([rows[0]], rows[0].program, rows[1..]);
      GroupsPartition([rows[0]], rows[0].program, rows[1..]);
      assert ([args] + more)[1..] == more;
      assert args + ([rows[0]] + rows[1..]) == args + rows;
    } else {
      GroupsPartition(args + [rows[0]], rows[0].program, rows[1..]);
      assert args + [rows[0]] + rows[1..] == args + rows;
    }
  }

  predicate Accepted(rows: Rows, keep: Keep, i: nat) {
    i < |rows| && keep(rows[i])
  }

  /** What is kept: the rows that the filter accepts, each once and in order. */
  lemma {:induction false} FilterPicks(rows: Rows, keep: Keep, n: nat) returns (idx: seq<nat>)
    requires n <= |rows|
    ensures Picks(idx, n, (i: nat) => Accepted(rows, keep, i))
    ensures var kept := Filter(rows[..n], keep);
      |kept| == |idx| && forall j :: 0 <= j < |idx| ==> idx[j] < |rows| && kept[j] == rows[idx[j]]
    decreases n
  {
    if n == 0 {
      idx := [];
    } else {
      idx := FilterPicks(rows, keep, n - 1);
      PickNext(idx, n - 1, (i: nat) => Accepted(rows, keep, i));
      FilterLast(rows[..n - 1], rows[n - 1], keep);
      assert rows[..n - 1] + [rows[n - 1]] == rows[..n];
      idx := idx + if keep(rows[n - 1]) then [n - 1] else [];
    }
  }

  lemma {:induction false} FilterLast(rows: Rows, ua: UserArgument, keep: Keep)
    ensures Filter(rows + [ua], keep) == Filter(rows, keep) + if keep(ua) then [ua] else []
    decreases |rows|
  {
    if rows == [] {
      assert rows + [ua] == [ua] && [ua][1..] == [];
    } else {
      assert (rows + [ua])[1..] == rows[1..] + [ua];
      FilterLast(rows[1..], ua, keep);
    }
  }

  /** A group goes on while the program stays the same, or is empty, and ends where another program
      follows. */
  predicate WellCut(groups: seq<Rows>) {
    && (forall g :: 0 <= g < |groups| ==> groups[g] != [])
    && (forall g, i :: 0 <= g < |groups| && 0 < i < |groups[g]| ==>
          Empty(groups[g][i - 1].program) || groups[g][i - 1].program == groups[g][i].program)
    && (forall g :: 0 < g < |groups| ==> Ends(groups[g - 1], groups[g]))
  }

  predicate Ends(g: Rows, next: Rows)
    requires g != [] && next != []
  {
    !Empty(g[|g| - 1].program) && g[|g| - 1].program != next[0].program
  }

  /** No program was set: all fields have their zero values. */
  predicate Empty(p: Program) {
    match p
    case Program("", "", 0, 0) => true
    case _ => false
  }

  lemma {:induction false} RightGroups(rows: Rows, keep: Keep)
    ensures var groups := Groups([], ZERO, Filter(rows, keep)); Flat(groups) == Filter(rows, keep) && WellCut(groups)
  {
    GroupsPartition([], ZERO, Filter(rows, keep));
    GroupsAreWellCut([], ZERO, Filter(rows, keep));
    assert [] + Filter(rows, keep) == Filter(rows, keep);
  }

  /** The rows collected so far are part of a group. */
  predicate Going(args: Rows, last: Program) {
    && (if args == [] then last == ZERO else args[|args| - 1].program == last)
    && forall i :: 0 < i < |args| ==> Empty(args[i - 1].program) || args[i - 1].program == args[i].program
  }

  lemma {:induction false} GroupsAreWellCut(args: Rows, last: Program, rows: Rows)
    requires Going(args, last)
    ensures var gs := Groups(args, last, rows);
      WellCut(gs) && (args != [] ==> gs != [] && gs[0] != [] && gs[0][0] == args[0])
    decreases |rows|
  {
    if rows != [] {
      var ua := rows[0];
      if Cut(args, last, ua) {
        var more := Groups([ua], ua.program, rows[1..]);
        GroupsAreWellCut([ua], ua.program, rows[1..]);
        assert forall g :: 0 < g < |more| + 1 ==> ([args] + more)[g] == more[g - 1];
      } else {
        GroupsAreWellCut(args + [ua], ua.program, rows[1..]);
      }
    }
  }

  predicate Uniform(g: Rows) {
    forall i :: 0 <= i < |g| ==> g[i].program == g[0].program
  }

  predicate AllUniform(groups: seq<Rows>) {
    forall g :: 0 <= g < |groups| ==> Uniform(groups[g])
  }

  /** A row of the zero program before a row of another one. */
  predicate ZeroFirst(last: Program, rows: Rows)
    decreases |rows|
  {
    rows != [] && ((last == ZERO && rows[0].program != ZERO) || ZeroFirst(rows[0].program, rows[1..]))
  }

  /** Each group holds the rows of one program exactly when no row of the zero program is
      directly followed by a row of another program. */
  lemma {:induction false} GroupsAreUniform(args: Rows, last: Program, rows: Rows)
    requires args != [] && Uniform(args) && args[0].program == last
    ensures AllUniform(Groups(args, last, rows)) <==> !ZeroFirst(last, rows)
    decreases |rows|
  {
    if rows == [] {
      assert AllUniform([args]);
    } else {
      var ua := rows[0];
      if Cut(args, last, ua) {
        var more := Groups([ua], ua.program, rows[1..]);
        GroupsAreUniform([ua], ua.program, rows[1..]);
        assert forall g :: 0 <= g < |more| ==> ([args] + more)[g + 1] == more[g];
        assert AllUniform([args] + more) <==> AllUniform(more);
      } else if ua.program == last {
        GroupsAreUniform(args + [ua], last, rows[1..]);
      } else {
        StaysMixed(args + [ua], ua.program, rows[1..], |args|);
      }
    }
  }

  lemma {:induction false} StaysMixed(args: Rows, last: Program, rows: Rows, i: nat)
    requires i < |args| && args[i].program != args[0].program
    ensures !AllUniform(Groups(args, last, rows))
    decreases |rows|
  {
    if rows == [] || Cut(args, last, rows[0]) {
      assert Groups(args, last, rows)[0] == args;
    } else {
      StaysMixed(args + [rows[0]], rows[0].program, rows[1..], i);
    }
  }

  lemma GroupsOfFile(rows: Rows)
    requires rows != []
    ensures AllUniform(Groups([], ZERO, rows)) <==> !ZeroFirst(rows[0].program, rows[1..])
  {
    assert [] + [rows[0]] == [rows[0]];
    GroupsAreUniform([rows[0]], rows[0].program, rows[1..]);
  }

  /** The functions of a list of groups; a skipped group gives none. */
  function ParseAll<F>(groups: seq<Rows>, parse: Rows -> seq<F>): seq<F> {
    if groups == [] then [] else parse(groups[0]) + ParseAll(groups[1..], parse)
  }

  function Sequential<F>(rows: Rows, keep: Keep, parse: Rows -> seq<F>): seq<F> {
    ParseAll(Groups([], ZERO, Filter(rows, keep)), parse)
  }

  // ----- concurrently -----

  /** Reader: rows not yet sent. Grouper: the group being collected, the last program, a group
      waiting to be sent, and whether its input has ended. Parser: the functions so far. */
  datatype State<F> = State(
    input: Rows, ch1: Rows, closed1: bool,
    args: Rows, last: Program, pending: Option<Rows>, drained: bool,
    ch2: seq<Rows>, closed2: bool,
    functions: seq<F>, done: bool)

  function Init<F>(rows: Rows): State<F> {
    State(rows, [], false, [], ZERO, None, false, [], false, [], false)
  }

  predicate Send1<F(==)>(s: State<F>, s': State<F>) {
    && s.input != [] && |s.ch1| < CAPACITY
    && s' == s.(input := s.input[1..], ch1 := s.ch1 + [s.input[0]])
  }

  predicate Close1<F(==)>(s: State<F>, s': State<F>) {
    s.input == [] && !s.closed1 && s' == s.(closed1 := true)
  }

  /** The grouper after row ua: the group that is now pending, the collected rows, the program. */
  function Collected(args: Rows, last: Program, ua: UserArgument, keep: Keep): (Option<Rows>, Rows, Program) {
    if !keep(ua) then (None, args, last)
    else if Cut(args, last, ua) then (Some(args), [ua], ua.program)
    else (None, args + [ua], ua.program)
  }

  predicate Collect<F(==)>(s: State<F>, s': State<F>, keep: Keep) {
    && s.pending.None? && s.ch1 != []
    && var (pending, args, last) := Collected(s.args, s.last, s.ch1[0], keep);
       s' == s.(ch1 := s.ch1[1..], pending := pending, args := args, last := last)
  }

  predicate Drain<F(==)>(s: State<F>, s': State<F>) {
    && s.pending.None? && s.ch1 == [] && s.closed1 && !s.drained
    && s' == s.(drained := true, pending := if s.args == [] then None else Some(s.args), args := [])
  }

  predicate Send2<F(==)>(s: State<F>, s': State<F>) {
    && s.pending.Some? && |s.ch2| < CAPACITY
    && s' == s.(pending := None, ch2 := s.ch2 + [s.pending.value])
  }

  predicate Close2<F(==)>(s: State<F>, s': State<F>) {
    s.drained && s.pending.None? && !s.closed2 && s' == s.(closed2 := true)
  }

  predicate ParseOne<F(==)>(s: State<F>, s': State<F>, parse: Rows -> seq<F>) {
    s.ch2 != [] && s' == s.(ch2 := s.ch2[1..], functions := s.functions + parse(s.ch2[0]))
  }

  predicate Finish<F(==)>(s: State<F>, s': State<F>) {
    s.ch2 == [] && s.closed2 && !s.done && s' == s.(done := true)
  }

  predicate Next<F(==)>(s: State<F>, s': State<F>, keep: Keep, parse: Rows -> seq<F>) {
    || Send1(s, s') || Close1(s, s')
    || Collect(s, s', keep) || Drain(s, s') || Send2(s, s') || Close2(s, s')
    || ParseOne(s, s', parse) || Finish(s, s')
  }

  predicate Final<F>(s: State<F>) {
    s.done && s.closed1 && s.closed2
  }

  // ----- the invariant -----

  function Waiting<F>(s: State<F>): seq<Rows> {
    s.ch2 + if s.pending.Some? then [s.pending.value] else []
  }

  /** What the rest of the run will add to the functions. */
  function Rest<F>(s: State<F>, keep: Keep, parse: Rows -> seq<F>): seq<F> {
    ParseAll(Waiting(s) + Groups(s.args, s.last, Filter(s.ch1 + s.input, keep)), parse)
  }

  ghost predicate Inv<F>(s: State<F>, rows: Rows, keep: Keep, parse: Rows -> seq<F>) {
    && |s.ch1| <= CAPACITY && |s.ch2| <= CAPACITY
    && (s.closed1 ==> s.input == [])
    && (s.drained ==> s.closed1 && s.ch1 == [] && s.args == [])
    && (s.closed2 ==> s.drained && s.pending.None?)
    && (s.done ==> s.closed2 && s.ch2 == [])
    && s.functions + Rest(s, keep, parse) == Sequential(rows, keep, parse)
  }

  lemma InitInv<F>(rows: Rows, keep: Keep, parse: Rows -> seq<F>)
    ensures Inv(Init(rows), rows, keep, parse)
  {
    var s: State<F> := Init(rows);
    assert s.ch1 + s.input == rows;
    var g := Groups(s.args, s.last, Filter(rows, keep));
    assert Waiting(s) + g == g;
    assert s.functions + Rest(s, keep, parse) == Rest(s, keep, parse);
  }

  lemma FilterFirst(ua: UserArgument, more: Rows, keep: Keep)
    ensures Filter([ua] + more, keep) == (if keep(ua) then [ua] else []) + Filter(more, keep)
  {
  }

  lemma GroupsFirst(args: Rows, last: Program, ua: UserArgument, f: Rows)
    ensures Groups(args, last, [ua] + f) ==
      if Cut(args, last, ua) then [args] + Groups([ua], ua.program, f) else Groups(args + [ua], ua.program, f)
  {
  }

  lemma CollectFields<F>(s: State<F>, s': State<F>, keep: Keep)
    requires Collect(s, s', keep)
    ensures s.ch1 != [] && s'.ch1 == s.ch1[1..] && s'.input == s.input && s'.ch2 == s.ch2 && s'.functions == s.functions
    ensures s'.closed1 == s.closed1 && s'.drained == s.drained && s'.closed2 == s.closed2 && s'.done == s.done
    ensures s.pending == None && (s'.pending, s'.args, s'.last) == Collected(s.args, s.last, s.ch1[0], keep)
  {
    hide Collected;
  }

  /** A collected row changes nothing of what is still to come. */
  lemma CollectedGroups(args: Rows, last: Program, ua: UserArgument, more: Rows, keep: Keep)
    ensures var (pending, args', last') := Collected(args, last, ua, keep);
      Groups(args, last, Filter([ua] + more, keep)) ==
      (if pending.Some? then [pending.value] else []) + Groups(args', last', Filter(more, keep))
  {
    hide Filter;
    hide Groups;
    var f := Filter(more, keep);
    FilterFirst(ua, more, keep);
    assert [] + f == f;
    if keep(ua) { GroupsFirst(args, last, ua, f); }
    var (pending, args', last') := Collected(args, last, ua, keep);
    assert [] + Groups(args', last', f) == Groups(args', last', f);
  }

  lemma CollectKeepsRest<F>(s: State<F>, s': State<F>, keep: Keep, parse: Rows -> seq<F>)
    requires Collect(s, s', keep)
    ensures Rest(s', keep, parse) == Rest(s, keep, parse)
  {
    hide Filter;
    hide Groups;
    hide ParseAll;
    hide Collect;
    hide Collected;
    CollectFields(s, s', keep);
    var ua, more := s.ch1[0], s.ch1[1..] + s.input;
    assert s.ch1 + s.input == [ua] + more && s'.ch1 + s'.input == more;
    CollectedGroups(s.args, s.last, ua, more, keep);
    var g := Groups(s'.args, s'.last, Filter(more, keep));
    assert Waiting(s') + g == Waiting(s) + ((if s'.pending.Some? then [s'.pending.value] else []) + g);
  }

  lemma ParseKeepsTotal<F>(s: State<F>, s': State<F>, keep: Keep, parse: Rows -> seq<F>)
    requires ParseOne(s, s', parse)
    ensures s'.functions + Rest(s', keep, parse) == s.functions + Rest(s, keep, parse)
  {
    var g := Groups(s.args, s.last, Filter(s.ch1 + s.input, keep));
    var w := Waiting(s) + g;
    assert w[0] == s.ch2[0] && w[1..] == Waiting(s') + g;
  }

  lemma NextKeepsInv<F>(s: State<F>, s': State<F>, rows: Rows, keep: Keep, parse: Rows -> seq<F>)
    requires Inv(s, rows, keep, parse) && Next(s, s', keep, parse)
    ensures Inv(s', rows, keep, parse)
  {
    var f := Filter(s.ch1 + s.input, keep);
    if Send1(s, s') {
      assert s'.ch1 + s'.input == s.ch1 + s.input;
    } else if Collect(s, s', keep) {
      CollectKeepsRest(s, s', keep, parse);
    } else if Drain(s, s') {
      assert s.ch1 + s.input == [];
      assert Waiting(s) + Groups(s.args, s.last, []) == Waiting(s') + Groups(s'.args, s'.last, []);
    } else if Send2(s, s') {
      assert Waiting(s') == Waiting(s);
    } else if ParseOne(s, s', parse) {
      ParseKeepsTotal(s, s', keep, parse);
    }
  }

  // ----- no deadlock, and every run ends -----

  function B(b: bool): nat { if b then 1 else 0 }

  function Measure<F>(s: State<F>): nat {
    6 * |s.input| + 5 * |s.ch1| + 3 * B(s.args != []) + 2 * B(s.pending.Some?) + |s.ch2|
    + B(!s.closed1) + B(!s.drained) + B(!s.closed2) + B(!s.done)
  }

  lemma CollectDecreases<F>(s: State<F>, s': State<F>, keep: Keep)
    requires Collect(s, s', keep)
    ensures Measure(s') < Measure(s)
  {
    CollectFields(s, s', keep);
    hide Collect;
    assert |s'.ch1| == |s.ch1| - 1;
  }

  lemma GrouperDecreases<F>(s: State<F>, s': State<F>)
    requires Drain(s, s') || Send2(s, s') || Close2(s, s')
    ensures Measure(s') < Measure(s)
  {
  }

  lemma OthersDecrease<F>(s: State<F>, s': State<F>, parse: Rows -> seq<F>)
    requires Send1(s, s') || Close1(s, s') || ParseOne(s, s', parse) || Finish(s, s')
    ensures Measure(s') < Measure(s)
  {
    if ParseOne(s, s', parse) { assert |s'.ch2| == |s.ch2| - 1; }
  }

  lemma NextDecreases<F>(s: State<F>, s': State<F>, keep: Keep, parse: Rows -> seq<F>)
    requires Next(s, s', keep, parse)
    ensures Measure(s') < Measure(s)
  {
    hide Collect;
    hide Drain;
    hide Send2;
    hide Close2;
    hide Send1;
    hide Close1;
    hide ParseOne;
    hide Finish;
    hide Measure;
    if Collect(s, s', keep) {
      CollectDecreases(s, s', keep);
    } else if Drain(s, s') || Send2(s, s') || Close2(s, s') {
      GrouperDecreases(s, s');
    } else {
      OthersDecrease(s, s', parse);
    }
  }

  /** Whatever state the processes are in, one of them can move until all have finished. */
  lemma NoDeadlock<F>(s: State<F>, rows: Rows, keep: Keep, parse: Rows -> seq<F>) returns (s': State<F>)
    requires Inv(s, rows, keep, parse) && !Final(s)
    ensures Next(s, s', keep, parse)
  {
    if s.ch2 != [] {
      s' := s.(ch2 := s.ch2[1..], functions := s.functions + parse(s.ch2[0]));
    } else if s.pending.Some? {
      s' := s.(pending := None, ch2 := s.ch2 + [s.pending.value]);
    } else if s.ch1 != [] {
      var (pending, args, last) := Collected(s.args, s.last, s.ch1[0], keep);
      s' := s.(ch1 := s.ch1[1..], pending := pending, args := args, last := last);
    } else if s.input != [] {
      s' := s.(input := s.input[1..], ch1 := s.ch1 + [s.input[0]]);
    } else if !s.closed1 {
      s' := s.(closed1 := true);
    } else if !s.drained {
      s' := s.(drained := true, pending := if s.args == [] then None else Some(s.args), args := []);
    } else if !s.closed2 {
      s' := s.(closed2 := true);
    } else {
      s' := s.(done := true);
    }
  }

  /** A run: consecutive states are steps of some process. */
  ghost predicate IsRun<F>(run: seq<State<F>>, rows: Rows, keep: Keep, parse: Rows -> seq<F>) {
    && run != [] && run[0] == Init(rows)
    && forall i :: 0 <= i < |run| - 1 ==> Next(run[i], run[i + 1], keep, parse)
  }

  lemma {:induction false} RunInv<F>(run: seq<State<F>>, n: nat, rows: Rows, keep: Keep, parse: Rows -> seq<F>)
    requires IsRun(run, rows, keep, parse) && n < |run|
    ensures Inv(run[n], rows, keep, parse)
    ensures Measure(run[n]) + n <= Measure<F>(Init(rows))
  {
    if n == 0 {
      InitInv(rows, keep, parse);
    } else {
      RunInv(run, n - 1, rows, keep, parse);
      assert Next(run[n - 1], run[n - 1 + 1], keep, parse);
      NextKeepsInv(run[n - 1], run[n], rows, keep, parse);
      NextDecreases(run[n - 1], run[n], keep, parse);
    }
  }

  /** Every interleaving is finite, can go on until all processes have finished, and then has
      produced the functions of the sequential composition. */
  lemma EveryRunIsSequential<F>(run: seq<State<F>>, rows: Rows, keep: Keep, parse: Rows -> seq<F>)
    requires IsRun(run, rows, keep, parse)
    ensures |run| <= 6 * |rows| + 5
    ensures var s := run[|run| - 1];
      && (Final(s) <==> !exists s' :: Next(s, s', keep, parse))
      && (Final(s) ==> s.functions == Sequential(rows, keep, parse))
  {
    var s := run[|run| - 1];
    RunInv(run, |run| - 1, rows, keep, parse);
    if Final(s) {
      assert s.ch1 + s.input == [] && Waiting(s) == [];
      assert Rest(s, keep, parse) == [] by {
        assert Waiting(s) + Groups([], s.last, []) == [];
      }
      assert s.functions + [] == s.functions;
      forall s' ensures !Next(s, s', keep, parse) {}
    } else {
      var s' := NoDeadlock(s, rows, keep, parse);
    }
  }
}
