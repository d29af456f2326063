/** Parsing the preorder rows of an argument forest restores the forest. */
module ParseTheorem {
  import opened Basics
  import opened Expand
  import opened ParseArgs

  // ----- below the top level -----

  function AttachAll(a: Argument, starts: seq<nat>): Argument
    decreases |starts|
  {
    if starts == [] then a else AttachAll(Attach(a, starts[0]), starts[1..])
  }

  lemma {:induction false} AttachedKids(a: Argument, starts: seq<nat>)
    requires a.tableOf == None && a.recordOf == [] && (FlavorOf(a.item.data).TableFlavor? ==> |starts| == 1)
    ensures AttachAll(a, starts).item == a.item && Kids(AttachAll(a, starts)) == starts
    ensures Keeps(AttachAll(a, starts), starts)
  {
    if FlavorOf(a.item.data).TableFlavor? {
      assert starts[1..] == [];
    } else {
      AttachedToRecord(a, starts);
    }
  }

  lemma {:induction false} AttachedToRecord(a: Argument, starts: seq<nat>)
    requires !FlavorOf(a.item.data).TableFlavor?
    ensures AttachAll(a, starts).item == a.item
    ensures AttachAll(a, starts).recordOf == a.recordOf + starts && AttachAll(a, starts).tableOf == a.tableOf
    decreases |starts|
  {
    if starts != [] {
      AttachedToRecord(Attach(a, starts[0]), starts[1..]);
      assert a.recordOf + starts == (a.recordOf + [starts[0]]) + starts[1..];
    }
  }

  /** From s to s' only argument p of the old ones changed: it was given new parts. */
  ghost predicate Grown(s: PState, s': PState, p: nat, starts: seq<nat>) {
    && p < |s.nodes| <= |s'.nodes| && s'.ret == s.ret
    && (forall i :: 0 <= i < |s.nodes| && i != p ==> s'.nodes[i] == s.nodes[i])
    && s'.nodes[p] == AttachAll(s.nodes[p], starts)
    && forall j :: 0 <= j < |starts| ==> |s.nodes| <= starts[j]
  }

  /** The last composites of the levels above `level` are still the same. */
  ghost predicate LastKept(s: PState, s': PState, level: int)
    requires 0 <= level <= 255
  {
    forall m {:trigger Int8(m)} :: 0 <= m < level ==>
      (Int8(m) in s'.last <==> Int8(m) in s.last) && (Int8(m) in s.last ==> s'.last[Int8(m)] == s.last[Int8(m)])
  }

  predicate Bare(a: Argument) {
    !FlavorOf(a.item.data).TableFlavor? && a.recordOf == []
  }

  /** The last composite at the root's level is kept, or a new one without parts took its place. */
  ghost predicate RootLast(s: PState, s': PState, replaced: bool) {
    && |s.nodes| <= |s'.nodes|
    && (-1 in s.last ==>
          && -1 in s'.last
          && (!replaced ==> s'.last[-1] == s.last[-1])
          && (replaced ==> |s.nodes| <= s'.last[-1] < |s'.nodes| && Bare(s'.nodes[s'.last[-1]])))
  }

  /** Argument h is i or below it. */
  ghost predicate Leads(nodes: seq<Argument>, i: nat, h: nat)
    decreases h - i
  {
    && i <= h < |nodes|
    && (i == h || exists j :: 0 <= j < |Kids(nodes[i])| && i < Kids(nodes[i])[j] && Leads(nodes, Kids(nodes[i])[j], h))
  }

  ghost predicate OneLeads(nodes: seq<Argument>, starts: seq<nat>, h: nat) {
    exists j :: 0 <= j < |starts| && Leads(nodes, starts[j], h)
  }

  lemma {:induction false} LeadsLater(nodes: seq<Argument>, first: nat, more: seq<nat>, h: nat)
    requires OneLeads(nodes, more, h)
    ensures OneLeads(nodes, [first] + more, h)
  {
    hide Leads;
    var j :| 0 <= j < |more| && Leads(nodes, more[j], h);
    assert ([first] + more)[j + 1] == more[j];
  }

  lemma {:induction false} LeadsKept(a: seq<Argument>, b: seq<Argument>, i: nat, h: nat)
    requires Leads(a, i, h) && |a| <= |b| && forall j :: i <= j < |a| ==> a[j] == b[j]
    ensures Leads(b, i, h)
    decreases h - i
  {
    if i != h {
      var j :| 0 <= j < |Kids(a[i])| && i < Kids(a[i])[j] && Leads(a, Kids(a[i])[j], h);
      LeadsKept(a, b, Kids(a[i])[j], h);
      assert Kids(b[i])[j] == Kids(a[i])[j];
    }
  }

  /** p is where a row of this level is attached. */
  ghost predicate ParentIs(s: PState, level: int, p: nat)
    requires 0 <= level <= 255
  {
    var k := if level == 0 then -1 else Int8(level - 1);
    k in s.last && s.last[k] == p && p < |s.nodes|
  }

  ghost predicate TreesAre(nodes: seq<Argument>, starts: seq<nat>, ts: seq<Tree>) {
    |starts| == |ts| && forall j :: 0 <= j < |ts| ==> TreeIs(nodes, starts[j], ts[j])
  }

  /** The root of a tree, argument n, was just created and is a new last composite. */
  ghost predicate Created(s: PState, s1: PState, t: Tree, level: int)
    requires 0 <= level <= 255
  {
    var n, composite := |s.nodes|, !FlavorOf(t.item.data).SimpleFlavor?;
    && |s1.nodes| == n + 1 && s1.nodes[n].item.data == t.item.data
    && s1.nodes[n].tableOf == None && s1.nodes[n].recordOf == []
    && (composite ==> Int8(level) in s1.last && s1.last[Int8(level)] == n)
    && LastKept(s, s1, level) && (-1 in s.last ==> -1 in s1.last)
    && (-1 in s.last ==> s1.last[-1] == if composite && level == 255 then n else s.last[-1])
  }

  lemma {:induction false} StepAttaches(s: PState, t: Tree, level: int, p: nat) returns (s1: PState)
    requires 0 <= level <= 255 && ParentIs(s, level, p) && !(level == 0 && s.ret.None? && t.item.name == "")
    ensures Step(s, Row(t.item, level)) == Some(s1)
    ensures Grown(s, s1, p, [|s.nodes|]) && Created(s, s1, t, level) && s1.nodes[|s.nodes|].item == t.item
  {
    var n := |s.nodes|;
    s1 := Step(s, Row(t.item, level)).value;
    assert [n][1..] == [] && Attach(s.nodes[p], n) == AttachAll(s.nodes[p], [n]);
  }

  lemma {:induction false} RunTree(s: PState, t: Tree, level: int)
    requires Fits(t, level)
    ensures RowsOk(Flatten(t, level)) && RowsOk(FlattenAll(t.kids, level + 1))
    ensures Run(s, Flatten(t, level)) ==
      match Step(s, Row(t.item, level))
      case None => None
      case Some(s1) => Run(s1, FlattenAll(t.kids, level + 1))
  {
    FlattenFits(t, level);
    FlattenAllFits(t.kids, level + 1);
    hide Step;
    assert Flatten(t, level)[0] == Row(t.item, level) && Flatten(t, level)[1..] == FlattenAll(t.kids, level + 1);
  }

  /** One tree: its root becomes a part of p. */
  lemma {:induction false} ParseTree(s: PState, t: Tree, level: int, p: nat) returns (s': PState)
    requires Shape(t) && Fits(t, level) && Indexless(t) && ParentIs(s, level, p)
    requires !(level == 0 && s.ret.None? && t.item.name == "")
    ensures RowsOk(Flatten(t, level)) && Run(s, Flatten(t, level)) == Some(s')
    ensures Grown(s, s', p, [|s.nodes|]) && LastKept(s, s', level) && RootLast(s, s', Wraps(t, level))
    ensures TreeIs(s'.nodes, |s.nodes|, t)
    ensures Wraps(t, level) && -1 in s.last ==> Leads(s'.nodes, |s.nodes|, s'.last[-1])
    decreases t, 1
  {
    RunTree(s, t, level);
    var s1 := StepAttaches(s, t, level, p);
    hide Step;
    hide Run;
    s' := ParseBelow(s, s1, t, level);
  }

  /** The parts of a tree whose root was just created. */
  lemma {:induction false} ParseBelow(s: PState, s1: PState, t: Tree, level: int) returns (s': PState)
    requires Shape(t) && Fits(t, level) && Indexless(t) && Created(s, s1, t, level)
    ensures RowsOk(FlattenAll(t.kids, level + 1)) && Run(s1, FlattenAll(t.kids, level + 1)) == Some(s')
    ensures s'.ret == s1.ret && LastKept(s, s', level) && RootLast(s, s', Wraps(t, level))
    ensures forall i :: 0 <= i < |s.nodes| ==> s'.nodes[i] == s1.nodes[i]
    ensures TreeIs(s'.nodes, |s.nodes|, t.(item := s1.nodes[|s.nodes|].item))
    ensures Wraps(t, level) && -1 in s.last ==> Leads(s'.nodes, |s.nodes|, s'.last[-1])
    decreases t, 0
  {
    hide Run;
    hide TreeIs;
    hide Leads;
    hide OneLeads;
    FlattenAllFits(t.kids, level + 1);
    if t.kids == [] {
      s' := s1;
      NothingBelow(s, s1, t, level);
    } else {
      assert Fits(t.kids[0], level + 1);
      var starts;
      s', starts := ParseKids(s1, t.kids, level + 1, |s.nodes|);
      FilledIn(s, s1, s', t, level, starts);
    }
  }

  lemma {:induction false} NothingBelow(s: PState, s1: PState, t: Tree, level: int)
    requires 0 <= level <= 255 && Created(s, s1, t, level) && t.kids == [] && Shape(t)
    ensures Run(s1, FlattenAll([], level + 1)) == Some(s1) && RootLast(s, s1, Wraps(t, level))
    ensures TreeIs(s1.nodes, |s.nodes|, t.(item := s1.nodes[|s.nodes|].item))
    ensures Wraps(t, level) && -1 in s.last ==> Leads(s1.nodes, |s.nodes|, s1.last[-1])
  {
  }

  lemma {:induction false} FilledIn(s: PState, s1: PState, s': PState, t: Tree, level: int, starts: seq<nat>)
    requires 0 <= level < 255 && Created(s, s1, t, level) && Shape(t) && |starts| == |t.kids|
    requires Grown(s1, s', |s.nodes|, starts) && RootLast(s1, s', AnyWraps(t.kids, level + 1))
    requires TreesAre(s'.nodes, starts, t.kids)
    requires AnyWraps(t.kids, level + 1) && -1 in s1.last ==> OneLeads(s'.nodes, starts, s'.last[-1])
    ensures RootLast(s, s', Wraps(t, level)) && TreeIs(s'.nodes, |s.nodes|, t.(item := s1.nodes[|s.nodes|].item))
    ensures Wraps(t, level) && -1 in s.last ==> Leads(s'.nodes, |s.nodes|, s'.last[-1])
  {
    hide Leads;
    hide OneLeads;
    assert Wraps(t, level) <==> AnyWraps(t.kids, level + 1);
    AttachedKids(s1.nodes[|s.nodes|], starts);
    if Wraps(t, level) && -1 in s.last { LeadsDown(s'.nodes, |s.nodes|, starts, s'.last[-1]); }
  }

  lemma {:induction false} LeadsDown(nodes: seq<Argument>, n: nat, starts: seq<nat>, h: nat)
    requires n < |nodes| && Kids(nodes[n]) == starts && OneLeads(nodes, starts, h)
    requires forall j :: 0 <= j < |starts| ==> n < starts[j]
    ensures Leads(nodes, n, h)
  {
  }

  /** A list of trees at one level below the top. */
  lemma {:induction false} ParseKids(s: PState, ts: seq<Tree>, level: int, p: nat)
    returns (s': PState, starts: seq<nat>)
    requires ShapesFit(ts, level) && AllIndexless(ts) && 1 <= level <= 255 && ParentIs(s, level, p)
    ensures RowsOk(FlattenAll(ts, level)) && Run(s, FlattenAll(ts, level)) == Some(s')
    ensures Grown(s, s', p, starts) && LastKept(s, s', level) && RootLast(s, s', AnyWraps(ts, level))
    ensures TreesAre(s'.nodes, starts, ts)
    ensures AnyWraps(ts, level) && -1 in s.last ==> OneLeads(s'.nodes, starts, s'.last[-1])
    decreases ts, 2
  {
    hide Grown;
    hide RootLast;
    hide Leads;
    hide OneLeads;
    hide Wraps;
    hide Run;
    hide TreeIs;
    hide TreesAre;
    hide Shape;
    hide Fits;
    hide Indexless;
    FlattenAllFits(ts, level);
    if ts == [] {
      s', starts := s, [];
      NoKids(s, level, p);
    } else {
      var s1 := ParseTree(s, ts[0], level, p);
      RestFits(ts, level);
      ParentStays(s, s1, level, p, [|s.nodes|]);
      var more;
      s', more := ParseKids(s1, ts[1..], level, p);
      starts := [|s.nodes|] + more;
      FlattenFits(ts[0], level);
      FlattenAllFits(ts[1..], level);
      RunAppend(s, Flatten(ts[0], level), FlattenAll(ts[1..], level));
      GrownTwice(s, s1, s', p, [|s.nodes|], more);
      JoinKids(s, s1, s', p, more, ts, level);
    }
  }

  lemma {:induction false} NoKids(s: PState, level: int, p: nat)
    requires 1 <= level <= 255 && ParentIs(s, level, p)
    ensures FlattenAll([], level) == [] && Run(s, []) == Some(s)
    ensures Grown(s, s, p, []) && RootLast(s, s, AnyWraps([], level)) && TreesAre(s.nodes, [], [])
  {
  }

  lemma {:induction false} ParentStays(s: PState, s1: PState, level: int, p: nat, starts: seq<nat>)
    requires 1 <= level <= 255 && ParentIs(s, level, p) && LastKept(s, s1, level) && Grown(s, s1, p, starts)
    ensures ParentIs(s1, level, p)
  {
    assert Int8(level - 1) in s1.last;
  }

  /** The first tree and the trees after it are the list. */
  lemma {:induction false} JoinKids(s: PState, s1: PState, s': PState, p: nat, more: seq<nat>, ts: seq<Tree>,
                                    level: int)
    requires ts != [] && Grown(s, s1, p, [|s.nodes|]) && Grown(s1, s', p, more)
    requires RootLast(s, s1, Wraps(ts[0], level)) && RootLast(s1, s', AnyWraps(ts[1..], level))
    requires TreeIs(s1.nodes, |s.nodes|, ts[0]) && TreesAre(s'.nodes, more, ts[1..])
    requires Wraps(ts[0], level) && -1 in s.last ==> Leads(s1.nodes, |s.nodes|, s1.last[-1])
    requires AnyWraps(ts[1..], level) && -1 in s1.last ==> OneLeads(s'.nodes, more, s'.last[-1])
    ensures TreesAre(s'.nodes, [|s.nodes|] + more, ts) && RootLast(s, s', AnyWraps(ts, level))
    ensures AnyWraps(ts, level) && -1 in s.last ==> OneLeads(s'.nodes, [|s.nodes|] + more, s'.last[-1])
  {
    hide Wraps;
    hide Leads;
    AnyWrapsFirst(ts, level);
    TreeIsKept(s1.nodes, s'.nodes, |s.nodes|, ts[0]);
    TreesJoin(s'.nodes, [|s.nodes|], more, [ts[0]], ts[1..]);
    assert [ts[0]] + ts[1..] == ts;
    if AnyWraps(ts, level) && -1 in s.last {
      if AnyWraps(ts[1..], level) {
        LeadsLater(s'.nodes, |s.nodes|, more, s'.last[-1]);
      } else {
        LeadsKept(s1.nodes, s'.nodes, |s.nodes|, s1.last[-1]);
        assert Leads(s'.nodes, ([|s.nodes|] + more)[0], s'.last[-1]);
      }
    }
  }

  lemma {:induction false} AnyWrapsFirst(ts: seq<Tree>, level: int)
    requires ts != []
    ensures AnyWraps(ts, level) <==> Wraps(ts[0], level) || AnyWraps(ts[1..], level)
  {
    if AnyWraps(ts, level) && !Wraps(ts[0], level) {
      var i :| 0 <= i < |ts| && Wraps(ts[i], level);
      assert ts[1..][i - 1] == ts[i];
    }
    if AnyWraps(ts[1..], level) {
      var i :| 0 <= i < |ts[1..]| && Wraps(ts[1..][i], level);
      assert ts[i + 1] == ts[1..][i];
    }
  }

  lemma GrownTwice(s: PState, s1: PState, s2: PState, p: nat, a: seq<nat>, b: seq<nat>)
    requires Grown(s, s1, p, a) && Grown(s1, s2, p, b)
    ensures Grown(s, s2, p, a + b)
  {
    AttachAllAppend(s.nodes[p], a, b);
  }

  lemma {:induction false} AttachAllAppend(x: Argument, a: seq<nat>, b: seq<nat>)
    ensures AttachAll(x, a + b) == AttachAll(AttachAll(x, a), b)
    decreases |a|
  {
    if a == [] {
      assert a + b == b;
    } else {
      assert (a + b)[1..] == a[1..] + b;
      AttachAllAppend(Attach(x, a[0]), a[1..], b);
    }
  }

  // ----- the top level -----

  /** The first unnamed top level argument is the return value. */
  function ReturnOf(ts: seq<Tree>): Option<Tree> {
    if ts == [] then None
    else if ts[0].item.name == "" then Some(ts[0].(item := ts[0].item.(name := "ret")))
    else ReturnOf(ts[1..])
  }

  /** All other top level arguments, in order. */
  function ArgsOf(ts: seq<Tree>, hasReturn: bool): seq<Tree> {
    if ts == [] then []
    else if !hasReturn && ts[0].item.name == "" then ArgsOf(ts[1..], true)
    else [ts[0]] + ArgsOf(ts[1..], hasReturn)
  }

  /** The arguments that are read: those after the last tree with a composite at level 255. */
  function Read(ts: seq<Tree>, hasReturn: bool): seq<Tree>
    decreases |ts|
  {
    if !AnyWraps(ts, 0) then ArgsOf(ts, hasReturn) else Read(ts[1..], hasReturn || ts[0].item.name == "")
  }

  ghost predicate ReturnIs(s: PState, r: Option<Tree>) {
    (r.Some? <==> s.ret.Some?) && (r.Some? ==> TreeIs(s.nodes, s.ret.value, r.value))
  }

  /** s' extends s: only p, which holds the root's level, gets new parts. */
  ghost predicate TopGrown(s: PState, s': PState, p: nat, starts: seq<nat>) {
    && p < |s.nodes| <= |s'.nodes|
    && (forall i :: 0 <= i < |s.nodes| && i != p ==> s'.nodes[i] == s.nodes[i])
    && s'.nodes[p] == AttachAll(s.nodes[p], starts)
    && (s.ret.Some? ==> s'.ret == s.ret)
    && forall j :: 0 <= j < |starts| ==> |s.nodes| <= starts[j]
  }

  predicate IsReturn(s: PState, t: Tree) {
    s.ret.None? && t.item.name == ""
  }

  lemma {:induction false} StepReturns(s: PState, t: Tree) returns (s1: PState)
    requires IsReturn(s, t)
    ensures Step(s, Row(t.item, 0)) == Some(s1) && Created(s, s1, t, 0)
    ensures |s1.nodes| == |s.nodes| + 1 && forall i :: 0 <= i < |s.nodes| ==> s1.nodes[i] == s.nodes[i]
    ensures s1.ret == Some(|s.nodes|) && s1.nodes[|s.nodes|].item == t.item.(name := "ret")
  {
    s1 := Step(s, Row(t.item, 0)).value;
  }

  lemma {:induction false} ParseReturn(s: PState, t: Tree) returns (s1: PState)
    requires Shape(t) && Fits(t, 0) && Indexless(t) && IsReturn(s, t)
    ensures RowsOk(Flatten(t, 0)) && Run(s, Flatten(t, 0)) == Some(s1)
    ensures |s.nodes| < |s1.nodes| && forall i :: 0 <= i < |s.nodes| ==> s1.nodes[i] == s.nodes[i]
    ensures RootLast(s, s1, Wraps(t, 0)) && (Wraps(t, 0) && -1 in s.last ==> Leads(s1.nodes, |s.nodes|, s1.last[-1]))
    ensures s1.ret == Some(|s.nodes|) && TreeIs(s1.nodes, |s.nodes|, t.(item := t.item.(name := "ret")))
  {
    hide Step;
    hide Run;
    hide Created;
    hide Wraps;
    hide Leads;
    hide RootLast;
    RunTree(s, t, 0);
    var s0 := StepReturns(s, t);
    s1 := ParseBelow(s, s0, t, 0);
  }

  lemma {:induction false} ParseFirst(s: PState, t: Tree, p: nat) returns (s1: PState, starts: seq<nat>)
    requires Shape(t) && Fits(t, 0) && Indexless(t) && ParentIs(s, 0, p)
    ensures RowsOk(Flatten(t, 0)) && Run(s, Flatten(t, 0)) == Some(s1)
    ensures TopGrown(s, s1, p, starts) && TreesAre(s1.nodes, starts, ArgsOf([t], s.ret.Some?))
    ensures RootLast(s, s1, Wraps(t, 0))
    ensures s.ret.None? ==> ReturnIs(s1, ReturnOf([t]))
    ensures s1.ret.Some? <==> s.ret.Some? || t.item.name == ""
    ensures s1.ret.Some? && s.ret.None? ==>
      s1.ret.value == |s.nodes| && (Wraps(t, 0) ==> Leads(s1.nodes, |s.nodes|, s1.last[-1]))
  {
    assert [t][1..] == [];
    if IsReturn(s, t) {
      s1 := ParseReturn(s, t);
      starts := [];
    } else {
      hide Leads;
      hide Wraps;
      hide Run;
      s1 := ParseTree(s, t, 0, p);
      starts := [|s.nodes|];
    }
  }

  /** Trees without a composite at level 255 become parts of p, or the return value. */
  lemma {:induction false} ParseCalm(s: PState, ts: seq<Tree>, p: nat) returns (s': PState, starts: seq<nat>)
    requires ShapesFit(ts, 0) && AllIndexless(ts) && !AnyWraps(ts, 0) && ParentIs(s, 0, p)
    ensures RowsOk(FlattenAll(ts, 0)) && Run(s, FlattenAll(ts, 0)) == Some(s')
    ensures TopGrown(s, s', p, starts) && TreesAre(s'.nodes, starts, ArgsOf(ts, s.ret.Some?))
    ensures ParentIs(s', 0, p)
    ensures s.ret.None? ==> ReturnIs(s', ReturnOf(ts))
    ensures s'.ret.Some? && s.ret.None? ==> |s.nodes| <= s'.ret.value
    decreases |ts|
  {
    FlattenAllFits(ts, 0);
    if ts == [] {
      s', starts := s, [];
    } else {
      SplitFirst(ts, s.ret.Some?);
      AnyWrapsFirst(ts, 0);
      var s1, first := ParseFirst(s, ts[0], p);
      RestFits(ts, 0);
      var more;
      s', more := ParseCalm(s1, ts[1..], p);
      starts := first + more;
      FlattenFits(ts[0], 0);
      FlattenAllFits(ts[1..], 0);
      RunAppend(s, Flatten(ts[0], 0), FlattenAll(ts[1..], 0));
      TopGrownTwice(s, s1, s', p, first, more);
      KeepsTrees(s1, s', p, more, first, ArgsOf([ts[0]], s.ret.Some?));
      TreesJoin(s'.nodes, first, more, ArgsOf([ts[0]], s.ret.Some?), ArgsOf(ts[1..], s1.ret.Some?));
      ReturnAfter(s, s1, s', p, ts, more);
    }
  }

  lemma {:induction false} RestFits(ts: seq<Tree>, level: int)
    requires ts != [] && ShapesFit(ts, level) && AllIndexless(ts)
    ensures ShapesFit(ts[1..], level) && AllIndexless(ts[1..])
  {
    assert forall i :: 0 <= i < |ts[1..]| ==> ts[1..][i] == ts[i + 1];
  }

  lemma {:induction false} TopGrownTwice(s: PState, s1: PState, s2: PState, p: nat, a: seq<nat>, b: seq<nat>)
    requires TopGrown(s, s1, p, a) && TopGrown(s1, s2, p, b)
    ensures TopGrown(s, s2, p, a + b)
  {
    AttachAllAppend(s.nodes[p], a, b);
  }

  lemma {:induction false} TreesJoin(nodes: seq<Argument>, a: seq<nat>, b: seq<nat>, x: seq<Tree>, y: seq<Tree>)
    requires TreesAre(nodes, a, x) && TreesAre(nodes, b, y)
    ensures TreesAre(nodes, a + b, x + y)
  {
  }

  lemma SplitFirst(ts: seq<Tree>, hasReturn: bool)
    requires ts != []
    ensures ArgsOf(ts, hasReturn) == ArgsOf([ts[0]], hasReturn) + ArgsOf(ts[1..], hasReturn || ts[0].item.name == "")
    ensures ReturnOf(ts) == if ReturnOf([ts[0]]).Some? then ReturnOf([ts[0]]) else ReturnOf(ts[1..])
    ensures ReturnOf([ts[0]]).Some? <==> ts[0].item.name == ""
  {
  }

  lemma {:induction false} ReturnAfter(s: PState, s1: PState, s': PState, p: nat, ts: seq<Tree>, more: seq<nat>)
    requires ts != [] && p < |s.nodes| <= |s1.nodes| && TopGrown(s1, s', p, more)
    requires s1.ret.Some? <==> s.ret.Some? || ts[0].item.name == ""
    requires s.ret.None? ==> ReturnIs(s1, ReturnOf([ts[0]]))
    requires s1.ret.None? ==> ReturnIs(s', ReturnOf(ts[1..]))
    requires s1.ret.Some? && s.ret.None? ==> |s.nodes| <= s1.ret.value
    ensures s.ret.None? ==> ReturnIs(s', ReturnOf(ts))
  {
    SplitFirst(ts, false);
    if s.ret.None? && s1.ret.Some? {
      TreeIsKept(s1.nodes, s'.nodes, s1.ret.value, ReturnOf([ts[0]]).value);
    }
  }

  /** Trees built after p are not touched by parsing further top level arguments. */
  lemma {:induction false} KeepsTrees(s: PState, s': PState, p: nat, more: seq<nat>, starts: seq<nat>, ts: seq<Tree>)
    requires TopGrown(s, s', p, more) && TreesAre(s.nodes, starts, ts)
    requires forall j :: 0 <= j < |starts| ==> p < starts[j]
    ensures TreesAre(s'.nodes, starts, ts)
  {
    forall j | 0 <= j < |ts| ensures TreeIs(s'.nodes, starts[j], ts[j]) {
      TreeIsKept(s.nodes, s'.nodes, starts[j], ts[j]);
    }
  }

  // ----- when the root is replaced -----

  /** What is read are the arguments after the last tree that takes the root's place. */
  lemma {:induction false} ReadRest(s: PState, ts: seq<Tree>, p: nat) returns (s': PState)
    requires ShapesFit(ts, 0) && AllIndexless(ts) && ParentIs(s, 0, p)
    requires !FlavorOf(s.nodes[p].item.data).TableFlavor? && (AnyWraps(ts, 0) || Bare(s.nodes[p]))
    ensures RowsOk(FlattenAll(ts, 0)) && Run(s, FlattenAll(ts, 0)) == Some(s')
    ensures TreesAre(s'.nodes, ArgumentsOf(s'), Read(ts, s.ret.Some?))
    decreases |ts|
  {
    if !AnyWraps(ts, 0) {
      var starts;
      s', starts := ParseCalm(s, ts, p);
      AttachedToRecord(s.nodes[p], starts);
      assert [] + starts == starts;
    } else {
      AnyWrapsFirst(ts, 0);
      var s1, first := ParseFirst(s, ts[0], p);
      AttachedToRecord(s.nodes[p], first);
      RestFits(ts, 0);
      s' := ReadRest(s1, ts[1..], s1.last[-1]);
      FlattenFits(ts[0], 0);
      FlattenAllFits(ts[1..], 0);
      RunAppend(s, Flatten(ts[0], 0), FlattenAll(ts[1..], 0));
    }
  }

  /** Arguments are missing, unless only the return value, in first place, took the root's place. */
  lemma {:induction false} FewerRead(ts: seq<Tree>, hasReturn: bool)
    ensures |Read(ts, hasReturn)| <= |ArgsOf(ts, hasReturn)|
    ensures AnyWraps(ts, 0) ==>
      || |Read(ts, hasReturn)| < |ArgsOf(ts, hasReturn)|
      || (!hasReturn && ts[0].item.name == "" && Wraps(ts[0], 0) && !AnyWraps(ts[1..], 0))
    decreases |ts|
  {
    hide Wraps;
    if AnyWraps(ts, 0) {
      AnyWrapsFirst(ts, 0);
      FewerRead(ts[1..], hasReturn || ts[0].item.name == "");
    }
  }

  /** A part given to an argument below i changes the tree of i. */
  lemma {:induction false} PartSpoilsTree(a: seq<Argument>, b: seq<Argument>, i: nat, h: nat, t: Tree)
    requires Leads(a, i, h) && TreeIs(a, i, t) && |a| <= |b| && forall j :: i <= j < |a| && j != h ==> a[j] == b[j]
    requires |Kids(a[h])| != |Kids(b[h])|
    ensures !TreeIs(b, i, t)
    decreases h - i
  {
    if i != h {
      var j :| 0 <= j < |Kids(a[i])| && i < Kids(a[i])[j] && Leads(a, Kids(a[i])[j], h);
      PartSpoilsTree(a, b, Kids(a[i])[j], h, t.kids[j]);
      assert Kids(b[i])[j] == Kids(a[i])[j];
    }
  }

  /** The arguments after such a return value become parts of it. */
  lemma {:induction false} ReturnIsSpoiled(ts: seq<Tree>)
    requires ShapesFit(ts, 0) && AllIndexless(ts) && ArgsOf(ts, false) != []
    requires ts[0].item.name == "" && Wraps(ts[0], 0) && !AnyWraps(ts[1..], 0)
    ensures RowsOk(FlattenAll(ts, 0)) && Run(INIT, FlattenAll(ts, 0)).Some?
    ensures !ReturnIs(Run(INIT, FlattenAll(ts, 0)).value, ReturnOf(ts))
  {
    hide Wraps;
    hide Shape;
    hide Fits;
    hide Indexless;
    hide Leads;
    SplitFirst(ts, false);
    var s1, first := ParseFirst(INIT, ts[0], 0);
    RestFits(ts, 0);
    var h := s1.last[-1];
    var s', starts := ParseCalm(s1, ts[1..], h);
    AttachedToRecord(s1.nodes[h], starts);
    FlattenFits(ts[0], 0);
    FlattenAllFits(ts[1..], 0);
    FlattenAllFits(ts, 0);
    RunAppend(INIT, Flatten(ts[0], 0), FlattenAll(ts[1..], 0));
    PartSpoilsTree(s1.nodes, s'.nodes, 1, h, ReturnOf([ts[0]]).value);
  }

  lemma {:induction false} OnlyReturn(ts: seq<Tree>)
    requires ts != []
    ensures ArgsOf(ts, false) == [] ==> ts == [ts[0]] && ts[0].item.name == ""
  {
    assert |ts| > 1 ==> ArgsOf(ts[1..], true) != [];
  }

  // ----- when an index table has a part -----

  /** Simple arguments, which index tables count as, have no parts and are never a last composite. */
  ghost predicate Childless(s: PState) {
    && (forall i :: 0 <= i < |s.nodes| && FlavorOf(s.nodes[i].item.data).SimpleFlavor? ==> Kids(s.nodes[i]) == [])
    && forall k :: k in s.last ==> s.last[k] < |s.nodes| && !FlavorOf(s.nodes[s.last[k]].item.data).SimpleFlavor?
  }

  lemma {:induction false} StepKeepsChildless(s: PState, row: Row)
    requires RowOk(row) && Childless(s) && Step(s, row).Some?
    ensures Childless(Step(s, row).value)
  {
  }

  lemma {:induction false} RunKeepsChildless(s: PState, rows: seq<Row>)
    requires RowsOk(rows) && Childless(s) && Run(s, rows).Some?
    ensures Childless(Run(s, rows).value)
    decreases |rows|
  {
    hide Childless;
    if rows != [] {
      StepKeepsChildless(s, rows[0]);
      RunKeepsChildless(Step(s, rows[0]).value, rows[1..]);
    }
  }

  lemma {:induction false} TreeIsIndexless(s: PState, i: nat, t: Tree)
    requires Childless(s) && TreeIs(s.nodes, i, t)
    ensures Indexless(t)
    decreases t
  {
    assert t.item.data.IndexTable? ==> |t.kids| == 0;
    forall j | 0 <= j < |t.kids| ensures Indexless(t.kids[j]) {
      TreeIsIndexless(s, Kids(s.nodes[i])[j], t.kids[j]);
    }
  }

  /** Every top level tree is an argument or the return value. */
  lemma {:induction false} SomewhereOf(ts: seq<Tree>, hasReturn: bool)
    requires AllIndexless(ArgsOf(ts, hasReturn)) && (!hasReturn && ReturnOf(ts).Some? ==> Indexless(ReturnOf(ts).value))
    ensures AllIndexless(ts)
    decreases |ts|
  {
    if ts != [] {
      var args, rest := ArgsOf(ts, hasReturn), ts[1..];
      if !hasReturn && ts[0].item.name == "" {
        SomewhereOf(rest, true);
      } else {
        assert args[0] == ts[0] && args[1..] == ArgsOf(rest, hasReturn);
        assert forall i :: 0 <= i < |args| - 1 ==> args[1..][i] == args[i + 1];
        SomewhereOf(rest, hasReturn);
      }
      assert forall i :: 1 <= i < |ts| ==> ts[i] == rest[i - 1];
    }
  }

  // ----- main results -----

  /** What a function is read as: the arguments copied and the return value. */
  ghost predicate Parsed(s: PState, ts: seq<Tree>) {
    && TreesAre(s.nodes, ArgumentsOf(s), ArgsOf(ts, false))
    && ReturnIs(s, ReturnOf(ts))
  }

  /** No argument shares a function with a composite at level 255. */
  predicate RootKept(ts: seq<Tree>) {
    ArgsOf(ts, false) == [] || !AnyWraps(ts, 0)
  }

  /** Without parts below index tables no parent is missing, although the last composites of
      deeper levels stay in the table. The arguments after the last composite at level 255 are
      read; that restores the forest and the return value if and only if there are no arguments
      or no such composite. */
  lemma {:induction false} IndexlessForest(ts: seq<Tree>)
    requires ShapesFit(ts, 0) && AllIndexless(ts)
    ensures RowsOk(FlattenAll(ts, 0)) && Run(INIT, FlattenAll(ts, 0)).Some?
    ensures var s := Run(INIT, FlattenAll(ts, 0)).value;
      && TreesAre(s.nodes, ArgumentsOf(s), Read(ts, false))
      && (Parsed(s, ts) <==> RootKept(ts))
      && (!RootKept(ts) ==>
            || |ArgumentsOf(s)| < |ArgsOf(ts, false)|
            || (ts[0].item.name == "" && Wraps(ts[0], 0) && !ReturnIs(s, ReturnOf(ts))))
  {
    var s := ReadRest(INIT, ts, 0);
    FewerRead(ts, false);
    if !AnyWraps(ts, 0) {
      var s', starts := ParseCalm(INIT, ts, 0);
    } else if ArgsOf(ts, false) == [] {
      OnlyReturn(ts);
      var s1, starts := ParseFirst(INIT, ts[0], 0);
      assert FlattenAll(ts, 0) == Flatten(ts[0], 0) + FlattenAll([], 0);
      assert FlattenAll(ts, 0) == Flatten(ts[0], 0);
    } else if |ArgumentsOf(s)| == |ArgsOf(ts, false)| {
      ReturnIsSpoiled(ts);
    }
  }

  /** Parsing the preorder rows of any forest restores the forest and the return value if and
      only if no index table has a part and no composite at level 255 stands beside arguments. */
  lemma {:induction false} ParsingRestoresForest(ts: seq<Tree>)
    requires ShapesFit(ts, 0)
    ensures RowsOk(FlattenAll(ts, 0))
    ensures var r := Run(INIT, FlattenAll(ts, 0));
      && (AllIndexless(ts) ==> r.Some?)
      && (r.Some? && Parsed(r.value, ts) <==> AllIndexless(ts) && RootKept(ts))
  {
    FlattenAllFits(ts, 0);
    var rows := FlattenAll(ts, 0);
    if AllIndexless(ts) {
      IndexlessForest(ts);
    } else if Run(INIT, rows).Some? && Parsed(Run(INIT, rows).value, ts) {
      var s := Run(INIT, rows).value;
      RunKeepsChildless(INIT, rows);
      var args := ArgsOf(ts, false);
      forall j | 0 <= j < |args| ensures Indexless(args[j]) {
        TreeIsIndexless(s, ArgumentsOf(s)[j], args[j]);
      }
      if ReturnOf(ts).Some? { TreeIsIndexless(s, s.ret.value, ReturnOf(ts).value); }
      SomewhereOf(ts, false);
      assert false;
    }
  }

  /** When the last argument has a composite at level 255 no argument is read at all. */
  lemma {:induction false} DeepLastLosesAll(ts: seq<Tree>)
    requires ShapesFit(ts, 0) && AllIndexless(ts) && ts != [] && Wraps(ts[|ts| - 1], 0)
    ensures RowsOk(FlattenAll(ts, 0)) && Run(INIT, FlattenAll(ts, 0)).Some?
    ensures ArgumentsOf(Run(INIT, FlattenAll(ts, 0)).value) == []
  {
    hide Wraps;
    IndexlessForest(ts);
    NothingRead(ts, false);
  }

  lemma {:induction false} NothingRead(ts: seq<Tree>, hasReturn: bool)
    requires ts != [] && Wraps(ts[|ts| - 1], 0)
    ensures Read(ts, hasReturn) == []
    decreases |ts|
  {
    hide Wraps;
    assert AnyWraps(ts, 0);
    if |ts| > 1 {
      assert ts[1..][|ts| - 2] == ts[|ts| - 1];
      NothingRead(ts[1..], hasReturn || ts[0].item.name == "");
    } else {
      assert !AnyWraps(ts[1..], 0);
    }
  }

  // ----- the trees of the dictionary -----

  /** Nothing below is an index table. */
  predicate NoneBelow(t: Tree) {
    forall i :: 0 <= i < |t.kids| ==> t.kids[i].item.data != IndexTable && NoneBelow(t.kids[i])
  }

  /** Below the top the expansion leaves no index table. */
  lemma {:induction false} UnfoldIndexless(r: Resolver, rank: Item -> nat, x: Item)
    requires Acyclic(r, rank) && Resolves(r, rank, x)
    ensures Indexless(Unfold(r, rank, x)) && NoneBelow(Unfold(r, rank, x))
    decreases rank(x)
  {
    var q := Parts(r, x).value;
    forall i | 0 <= i < |q|
      ensures Indexless(Unfold(r, rank, q[i])) && NoneBelow(Unfold(r, rank, q[i])) && q[i].data != IndexTable
    {
      UnfoldIndexless(r, rank, q[i]);
    }
  }

  ghost predicate SameItems(ts: seq<Tree>, us: seq<Tree>) {
    |ts| == |us| && forall i :: 0 <= i < |ts| ==> ts[i].item == us[i].item
  }

  /** Arguments and return value are told apart by names, and together they are all items. */
  lemma {:induction false} ItemsOfArgs(ts: seq<Tree>, us: seq<Tree>, hasReturn: bool)
    requires |ts| == |us| && forall i :: 0 <= i < |ts| ==> ts[i].item.name == us[i].item.name
    ensures |ArgsOf(ts, hasReturn)| == |ArgsOf(us, hasReturn)|
    ensures ReturnOf(ts).Some? <==> ReturnOf(us).Some?
    ensures SameItems(ArgsOf(ts, hasReturn), ArgsOf(us, hasReturn))
         && (!hasReturn && ReturnOf(ts).Some? ==> ReturnOf(ts).value.item == ReturnOf(us).value.item)
         ==> SameItems(ts, us)
    decreases |ts|
  {
    if ts != [] {
      var t, u, ts1, us1 := ts[0], us[0], ts[1..], us[1..];
      var returned := !hasReturn && t.item.name == "";
      ItemsOfArgs(ts1, us1, hasReturn || returned);
      var a, b := ArgsOf(ts, hasReturn), ArgsOf(us, hasReturn);
      if !returned && SameItems(a, b) {
        assert a[0] == t && b[0] == u && a[1..] == ArgsOf(ts1, hasReturn) && b[1..] == ArgsOf(us1, hasReturn);
        assert forall i :: 0 <= i < |a| - 1 ==> a[1..][i] == a[i + 1] && b[1..][i] == b[i + 1];
      }
      if returned && ReturnOf(ts).value.item == ReturnOf(us).value.item {
        assert t.item.(name := "ret").(name := "") == t.item && u.item.(name := "ret").(name := "") == u.item;
      }
      assert forall i :: 1 <= i < |ts| ==> ts[i] == ts1[i - 1] && us[i] == us1[i - 1];
    }
  }

  /** Two forests read from the same arena have the same items. */
  lemma {:induction false} ParsedItems(s: PState, ts: seq<Tree>, us: seq<Tree>)
    requires Parsed(s, ts) && Parsed(s, us)
    requires |ts| == |us| && forall i :: 0 <= i < |ts| ==> ts[i].item.name == us[i].item.name
    ensures SameItems(ts, us)
  {
    ItemsOfArgs(ts, us, false);
    var args := ArgumentsOf(s);
    forall j | 0 <= j < |args| ensures ArgsOf(ts, false)[j].item == ArgsOf(us, false)[j].item {
      assert TreeIs(s.nodes, args[j], ArgsOf(ts, false)[j]) && TreeIs(s.nodes, args[j], ArgsOf(us, false)[j]);
    }
  }

  lemma {:induction false} IndexTableIsLeaf(r: Resolver, rank: Item -> nat, x: Item)
    requires Acyclic(r, rank) && Resolves(r, rank, x)
    ensures x.data.IndexTable? ==> !Wraps(Unfold(r, rank, x), 0)
  {
  }

  /** Reading a function's arguments and parsing the rows rebuilds the type trees of the
      dictionary if and only if no argument is an index table and no composite at level 255 stands
      beside arguments. */
  lemma {:induction false} ReadArgumentsAreRestored(r: Resolver, rank: Item -> nat, xs: seq<Item>)
    requires Acyclic(r, rank) && ItemsResolve(r, rank, xs) && ItemsResolve(r, rank, NormalAll(xs))
    requires ShapesFit(Trees(r, rank, xs), 0)
    ensures var rows := FlattenAll(Trees(r, rank, xs), 0);
      && RowsOk(rows) && Run(INIT, rows).Some?
      && (Parsed(Run(INIT, rows).value, Trees(r, rank, NormalAll(xs)))
          <==> (forall i :: 0 <= i < |xs| ==> xs[i].data != IndexTable) && RootKept(Trees(r, rank, xs)))
  {
    hide RootKept;
    hide Run;
    hide Wraps;
    var ts, us := Trees(r, rank, xs), Trees(r, rank, NormalAll(xs));
    forall i | 0 <= i < |xs| ensures Indexless(ts[i]) { UnfoldIndexless(r, rank, xs[i]); }
    IndexlessForest(ts);
    var s := Run(INIT, FlattenAll(ts, 0)).value;
    assert forall i :: 0 <= i < |xs| ==> ts[i].item == xs[i] && us[i].item == Normal(xs[i]);
    ItemsOfArgs(ts, us, false);
    if ts != [] { IndexTableIsLeaf(r, rank, xs[0]); }
    assert ts != [] && ts[0].item.name == "" && us[0] == ts[0] ==> ReturnOf(us) == ReturnOf(ts);
    if Normalised(xs) {
      assert NormalAll(xs) == xs;
    } else if Parsed(s, us) && Parsed(s, ts) {
      ParsedItems(s, ts, us);
      assert false;
    }
  }

  // ----- forests that are not restored -----

  /** Records nested down to level 255, the last one without fields. */
  function Nest(depth: nat): Tree {
    Node(Item("r", PlsqlRecord, "T"), if depth == 0 then [] else [Nest(depth - 1)])
  }

  lemma {:induction false} NestWraps(depth: nat, level: nat)
    requires depth + level == 255
    ensures var t := Nest(depth); Shape(t) && Fits(t, level) && Indexless(t) && Wraps(t, level) && t.item.name != ""
    decreases depth
  {
    if depth > 0 {
      NestWraps(depth - 1, level + 1);
      assert Nest(depth).kids[0] == Nest(depth - 1);
    }
  }

  /** Such a forest: a record nested down to level 255 hides an argument before it, and itself. */
  lemma {:induction false} Level255LosesArguments(depth: nat, x: Item)
    requires depth == 255 && x.data.Scalar? && x.name != ""
    ensures var ts := [Node(x, []), Nest(depth)];
      && RowsOk(FlattenAll(ts, 0)) && Run(INIT, FlattenAll(ts, 0)).Some?
      && |ArgsOf(ts, false)| == 2 && ArgumentsOf(Run(INIT, FlattenAll(ts, 0)).value) == []
    ensures var ts := [Nest(depth), Node(x, [])];
      && RowsOk(FlattenAll(ts, 0)) && Run(INIT, FlattenAll(ts, 0)).Some?
      && |ArgsOf(ts, false)| == 2
      && var s := Run(INIT, FlattenAll(ts, 0)).value;
         TreesAre(s.nodes, ArgumentsOf(s), [Node(x, [])])
  {
    hide Nest;
    hide Run;
    hide Shape;
    hide Fits;
    hide Indexless;
    hide Wraps;
    hide FlattenAll;
    NestWraps(depth, 0);
    LeafFits(x);
    var t, u := Nest(depth), Node(x, []);
    TwoArguments(u, t);
    TwoArguments(t, u);
    DeepLastLosesAll([u, t]);
    IndexlessForest([t, u]);
    assert [t, u][1..] == [u] && [u][1..] == [];
    assert !AnyWraps([u], 0) && AnyWraps([t, u], 0) by { assert [t, u][0] == t; }
    assert Read([t, u], false) == Read([u], false) == ArgsOf([u], false) == [u];
  }

  lemma {:induction false} TwoArguments(t: Tree, u: Tree)
    requires t.item.name != "" && u.item.name != ""
    ensures ArgsOf([t, u], false) == [t, u]
  {
    assert [t, u][1..] == [u] && [u][1..] == [];
    assert ArgsOf([u], false) == [u] + ArgsOf([], false);
  }

  lemma {:induction false} LeafFits(x: Item)
    requires x.data.Scalar?
    ensures var t := Node(x, []); Shape(t) && Fits(t, 0) && Indexless(t) && !Wraps(t, 0)
  {
  }

  /** The part of an index table has no parent, or replaces the element of an earlier table. */
  lemma {:induction false} IndexTableLosesPart(t: Item, e: Item, x: Item, part: Item)
    requires x.data.IndexTable? && x.name != "" && part.data.Scalar?
    requires t.data.PlsqlTable? && t.name != "" && e.data.Scalar?
    ensures Run(INIT, [Row(x, 0), Row(part, 1)]) == None
    ensures var r := Run(INIT, [Row(t, 0), Row(e, 1), Row(x, 0), Row(part, 1)]);
      r.Some? && |r.value.nodes| == 5 && r.value.nodes[1].item == t && r.value.nodes[1].tableOf == Some(4)
      && r.value.nodes[4].item == part
  {
    hide Run;
    hide Step;
    var rows := [Row(t, 0), Row(e, 1), Row(x, 0), Row(part, 1)];
    assert rows[1..][1..][1..] == [Row(part, 1)] && [Row(part, 1)][1..] == [];
    var s1, s2 := FilledTable(t, e);
    var s3 := SkippedTable(s2, x);
    var s4 := PartAttached(s3, part);
    RunRows(INIT, rows);
    RunRows(s1, rows[1..]);
    RunRows(s2, rows[1..][1..]);
    RunRows(s3, rows[1..][1..][1..]);
    RunRows(s4, []);
    var alone := [Row(x, 0), Row(part, 1)];
    var s5 := SkippedTable(INIT, x);
    NoParent(s5, part);
    RunRows(INIT, alone);
    RunRows(s5, alone[1..]);
  }

  lemma PartAttached(s: PState, part: Item) returns (s': PState)
    requires part.data.Scalar? && 0 in s.last && 1 == s.last[0] < |s.nodes| && s.nodes[1].item.data.PlsqlTable?
    ensures Step(s, Row(part, 1)) == Some(s') && |s'.nodes| == |s.nodes| + 1
    ensures s'.nodes[1].item == s.nodes[1].item && s'.nodes[1].tableOf == Some(|s.nodes|)
    ensures s'.nodes[|s.nodes|].item == part
  {
    s' := Step(s, Row(part, 1)).value;
  }

  lemma NoParent(s: PState, part: Item)
    requires part.data.Scalar? && 0 !in s.last
    ensures Step(s, Row(part, 1)) == None
  {
  }

  lemma FilledTable(t: Item, e: Item) returns (s1: PState, s2: PState)
    requires t.data.PlsqlTable? && t.name != "" && e.data.Scalar?
    ensures Step(INIT, Row(t, 0)) == Some(s1) && Step(s1, Row(e, 1)) == Some(s2)
    ensures s2.last == map[-1 := 0, 0 := 1] && |s2.nodes| == 3 && s2.nodes[1].item == t
  {
    s1 := Step(INIT, Row(t, 0)).value;
    s2 := Step(s1, Row(e, 1)).value;
  }

  /** An index table becomes a part of the root, but not a last composite. */
  lemma SkippedTable(s: PState, x: Item) returns (s': PState)
    requires x.data.IndexTable? && x.name != "" && -1 in s.last && s.last[-1] == 0 && 0 < |s.nodes|
    ensures Step(s, Row(x, 0)) == Some(s') && s'.last == s.last && |s'.nodes| == |s.nodes| + 1
    ensures forall i :: 1 <= i < |s.nodes| ==> s'.nodes[i] == s.nodes[i]
  {
    s' := Step(s, Row(x, 0)).value;
  }

  lemma RunRows(s: PState, rows: seq<Row>)
    requires RowsOk(rows)
    ensures Run(s, rows) ==
      if rows == [] then Some(s) else match Step(s, rows[0]) case None => None case Some(s1) => Run(s1, rows[1..])
  {
    hide Step;
  }
}
