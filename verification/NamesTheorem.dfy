/** Which names can clash, over any sequence of allocations for one function. */
module NamesTheorem {
  import opened Names

  datatype Use = Use(path: string, prefix: string)

  predicate GoodUse(u: Use) {
    GoodPath(u.path) && GoodPrefix(u.prefix)
  }

  function RunAll(m: Table, uses: seq<Use>): Table
    decreases |uses|
  {
    if uses == [] then m else RunAll(Register(m, uses[0].path, uses[0].prefix).0, uses[1..])
  }

  /** When each path was first registered: paths registered by the same call share the number
      of entries the table had at that moment, paths of different calls do not. */
  type Births = map<string, nat>

  function BirthsAfter(m: Table, births: Births, u: Use): Births {
    map p | p in Register(m, u.path, u.prefix).0 :: if p in m && p in births then births[p] else |m|
  }

  function RunBirths(m: Table, births: Births, uses: seq<Use>): Births
    decreases |uses|
  {
    if uses == [] then births
    else RunBirths(Register(m, uses[0].path, uses[0].prefix).0, BirthsAfter(m, births, uses[0]), uses[1..])
  }

  /** The reason two paths share a name: one is an ancestor of the other and both were first
      registered by the same call, or the names were built from two such names. */
  predicate Explained(births: Births, p: string, q: string)
    decreases |p|
  {
    || (p in births && q in births && births[p] == births[q] && (Ancestor(p, q) || Ancestor(q, p)))
    || (HasParent(p) && HasParent(q) && Component(p) == Component(q)
        && Parent(p) != Parent(q) && Explained(births, Parent(p), Parent(q)))
  }

  /** Every parent is registered before its child. */
  predicate ParentsFirst(m: Table, uses: seq<Use>)
    decreases |uses|
  {
    uses == [] ||
    (var p := uses[0].path;
     (p in m || (HasParent(p) ==> Parent(p) in m))
     && ParentsFirst(Register(m, p, uses[0].prefix).0, uses[1..]))
  }

  // ----- the invariant -----

  predicate Numeric(x: string, n: nat) {
    x == "v" + Pad3(n) || x == "p" + Pad3(n)
  }

  predicate EntryOk(m: Table, births: Births, p: string)
    requires p in m && p in births
  {
    && births[p] < |m| && GoodPath(p)
    && (HasParent(p) ==> Parent(p) in m)
    && (Numeric(m[p], births[p] + 1) || (HasParent(p) && m[p] == m[Parent(p)] + "#" + Component(p)))
  }

  ghost predicate Inv(m: Table, births: Births) {
    && births.Keys == m.Keys
    && (forall p :: p in m ==> EntryOk(m, births, p))
    && (forall p, q :: p in m && q in m && births[p] == births[q] ==> p == q || Ancestor(p, q) || Ancestor(q, p))
  }

  lemma {:induction false} AncestorShorter(a: string, p: string)
    requires Ancestor(a, p)
    ensures |a| < |p|
    decreases |p|
  {
    if Parent(p) != a { AncestorShorter(a, Parent(p)); }
  }

  lemma {:induction false} AncestorsComparable(a: string, b: string, p: string)
    requires (a == p || Ancestor(a, p)) && (b == p || Ancestor(b, p))
    ensures a == b || Ancestor(a, b) || Ancestor(b, a)
    decreases |p|
  {
    if a != p && b != p {
      AncestorsComparable(a, b, Parent(p));
    }
  }

  /** What a call adds: the path and those of its ancestors that were missing. */
  lemma {:induction false} Added(m: Table, path: string, prefix: string)
    ensures var m' := Register(m, path, prefix).0;
      && (forall p :: p in m' && p !in m ==> p == path || Ancestor(p, path))
      && (HasParent(path) && path !in m ==> Parent(path) in m')
      && (path !in m ==> path !in Up(m, path, prefix))
      && |m'| >= |m| && (path !in m ==> |m'| > |m|)
    decreases |path|
  {
    if path !in m {
      RegisterNew(m, path, prefix);
      var up := Up(m, path, prefix);
      if HasParent(path) {
        Added(m, Parent(path), prefix);
      }
      if path in up {
        if Ancestor(path, Parent(path)) { AncestorShorter(path, Parent(path)); }
        assert false;
      }
    }
  }

  lemma {:induction false} NewEntries(m: Table, births: Births, path: string, prefix: string, p: string)
    requires Inv(m, births) && GoodPath(path) && GoodPrefix(prefix)
    requires p in Register(m, path, prefix).0 && p !in m
    ensures var m' := Register(m, path, prefix).0;
      && GoodPath(p) && (HasParent(p) ==> Parent(p) in m')
      && (Numeric(m'[p], |m| + 1) || (HasParent(p) && m'[p] == m'[Parent(p)] + "#" + Component(p)))
    decreases |path|
  {
    RegisterNew(m, path, prefix);
    Added(m, path, prefix);
    if p != path {
      var up := Up(m, path, prefix);
      assert p in up;
      NewEntries(m, births, Parent(path), prefix, p);
      assert HasParent(p) ==> Parent(p) in up && Parent(p) != path;
    }
  }

  lemma EntryAfter(m: Table, births: Births, u: Use, p: string)
    requires Inv(m, births) && GoodUse(u) && p in Register(m, u.path, u.prefix).0
    ensures EntryOk(Register(m, u.path, u.prefix).0, BirthsAfter(m, births, u), p)
  {
    hide Register;
    hide Numeric;
    hide GoodPath;
    Added(m, u.path, u.prefix);
    if p in m {
      assert EntryOk(m, births, p);
    } else {
      if u.path in m { RegisterKnown(m, u.path, u.prefix); }
      NewEntries(m, births, u.path, u.prefix, p);
    }
  }

  lemma RegisterKeepsInv(m: Table, births: Births, u: Use)
    requires Inv(m, births) && GoodUse(u)
    ensures Inv(Register(m, u.path, u.prefix).0, BirthsAfter(m, births, u))
  {
    hide Register;
    hide EntryOk;
    hide Ancestor;
    var m', b' := Register(m, u.path, u.prefix).0, BirthsAfter(m, births, u);
    forall p | p in m' ensures EntryOk(m', b', p) { EntryAfter(m, births, u, p); }
    forall p, q | p in m' && q in m' && b'[p] == b'[q] ensures p == q || Ancestor(p, q) || Ancestor(q, p) {
      BornTogether(m, births, u, p, q);
    }
  }

  lemma BornTogether(m: Table, births: Births, u: Use, p: string, q: string)
    requires Inv(m, births) && p in BirthsAfter(m, births, u) && q in BirthsAfter(m, births, u)
    requires BirthsAfter(m, births, u)[p] == BirthsAfter(m, births, u)[q]
    ensures p == q || Ancestor(p, q) || Ancestor(q, p)
    ensures p in m <==> q in m
  {
    hide Register;
    Added(m, u.path, u.prefix);
    assert p in m ==> EntryOk(m, births, p);
    assert q in m ==> EntryOk(m, births, q);
    if p !in m && q !in m {
      AncestorsComparable(p, q, u.path);
    }
  }

  lemma {:induction false} RunKeepsInv(m: Table, births: Births, uses: seq<Use>)
    requires Inv(m, births) && forall u :: u in uses ==> GoodUse(u)
    ensures Inv(RunAll(m, uses), RunBirths(m, births, uses))
    decreases |uses|
  {
    if uses != [] {
      RegisterKeepsInv(m, births, uses[0]);
      RunKeepsInv(Register(m, uses[0].path, uses[0].prefix).0, BirthsAfter(m, births, uses[0]), uses[1..]);
    }
  }

  lemma PathParts(p: string)
    requires HasParent(p)
    ensures p == Parent(p) + "." + Component(p)
  {
  }

  lemma NumericHasNoHash(x: string, n: nat, i: nat)
    requires Numeric(x, n) && i < |x|
    ensures x[i] != '#'
  {
  }

  lemma SameNumber(x: string, a: nat, b: nat)
    requires Numeric(x, a) && Numeric(x, b)
    ensures a == b
  {
    assert x[1..] == Pad3(a) == Pad3(b);
    Pad3Injective(a, b);
  }

  lemma NotJoined(x: string, n: nat, y: string, c: string)
    requires Numeric(x, n)
    ensures x != y + "#" + c
  {
    if x == y + "#" + c {
      assert x[|y|] == '#';
      NumericHasNoHash(x, n, |y|);
    }
  }

  /** An entry is numbered, or joined from its parent's name. */
  lemma EntryKinds(m: Table, births: Births, p: string)
    requires Inv(m, births) && p in m
    ensures p in births
    ensures !Numeric(m[p], births[p] + 1) ==>
      && HasParent(p) && Parent(p) in m && m[p] == m[Parent(p)] + "#" + Component(p) && GoodComponent(Component(p))
  {
    assert EntryOk(m, births, p);
  }

  lemma {:induction false} ClashExplained(m: Table, births: Births, p: string, q: string)
    requires Inv(m, births) && p in m && q in m && p != q && m[p] == m[q]
    ensures Explained(births, p, q)
    decreases |p|
  {
    hide Numeric;
    hide HasParent;
    hide Parent;
    hide Component;
    hide GoodComponent;
    hide EntryOk;
    EntryKinds(m, births, p);
    EntryKinds(m, births, q);
    var x := m[p];
    if Numeric(x, births[p] + 1) && Numeric(x, births[q] + 1) {
      SameNumber(x, births[p] + 1, births[q] + 1);
    } else if Numeric(x, births[p] + 1) {
      NotJoined(x, births[p] + 1, m[Parent(q)], Component(q));
    } else if Numeric(x, births[q] + 1) {
      NotJoined(x, births[q] + 1, m[Parent(p)], Component(p));
    } else {
      JoinInjective(m[Parent(p)], m[Parent(q)], Component(p), Component(q));
      PathParts(p);
      PathParts(q);
      ClashExplained(m, births, Parent(p), Parent(q));
    }
  }

  // ----- main results -----

  /** Over any sequence of calls, two paths share a name only for an explained reason. */
  lemma ClashesAreExplained(uses: seq<Use>, p: string, q: string)
    requires forall u :: u in uses ==> GoodUse(u)
    requires p != q && p in RunAll(map[], uses) && q in RunAll(map[], uses)
    requires RunAll(map[], uses)[p] == RunAll(map[], uses)[q]
    ensures Explained(RunBirths(map[], map[], uses), p, q)
  {
    RunKeepsInv(map[], map[], uses);
    ClashExplained(RunAll(map[], uses), RunBirths(map[], map[], uses), p, q);
  }

  ghost predicate AllBornApart(births: Births) {
    forall p, q :: p in births && q in births && births[p] == births[q] ==> p == q
  }

  lemma {:induction false} NoExplanation(births: Births, p: string, q: string)
    requires AllBornApart(births) && p != q
    ensures !Explained(births, p, q)
    decreases |p|
  {
    if HasParent(p) && HasParent(q) && Parent(p) != Parent(q) {
      NoExplanation(births, Parent(p), Parent(q));
    }
  }

  lemma OnlyPathAdded(m: Table, u: Use)
    requires u.path in m || (HasParent(u.path) ==> Parent(u.path) in m)
    ensures Register(m, u.path, u.prefix).0.Keys == m.Keys + {u.path}
  {
  }

  lemma {:induction false} ParentsFirstBornApart(m: Table, births: Births, uses: seq<Use>)
    requires Inv(m, births) && AllBornApart(births) && ParentsFirst(m, uses)
    requires forall u :: u in uses ==> GoodUse(u)
    ensures AllBornApart(RunBirths(m, births, uses))
    decreases |uses|
  {
    if uses != [] {
      var u := uses[0];
      RegisterKeepsInv(m, births, u);
      var m', b' := Register(m, u.path, u.prefix).0, BirthsAfter(m, births, u);
      OnlyPathAdded(m, u);
      forall p, q | p in b' && q in b' && b'[p] == b'[q] ensures p == q {
        BornTogether(m, births, u, p, q);
      }
      ParentsFirstBornApart(m', b', uses[1..]);
    }
  }

  /** When parents are registered before their children, distinct paths get distinct names. */
  lemma NamesAreDistinct(uses: seq<Use>, p: string, q: string)
    requires (forall u :: u in uses ==> GoodUse(u)) && ParentsFirst(map[], uses)
    requires p != q && p in RunAll(map[], uses) && q in RunAll(map[], uses)
    ensures RunAll(map[], uses)[p] != RunAll(map[], uses)[q]
  {
    RunKeepsInv(map[], map[], uses);
    ParentsFirstBornApart(map[], map[], uses);
    NoExplanation(RunBirths(map[], map[], uses), p, q);
    if RunAll(map[], uses)[p] == RunAll(map[], uses)[q] {
      ClashesAreExplained(uses, p, q);
    }
  }

  // ----- paths registered by one call -----

  /** The path gets a number: it has no parent, or the name built from its parent's would be
      longer than an identifier may be. */
  predicate Numbered(m: Table, path: string, prefix: string) {
    HasParent(path) ==> |Register(m, Parent(path), prefix).1| + 1 + |Component(path)| > 30
  }

  /** Both get the call's number, or both are built alike from two new paths that share a name. */
  predicate Shares(m: Table, p: string, q: string, prefix: string)
    decreases |p|
  {
    if Numbered(m, p, prefix) || Numbered(m, q, prefix) then Numbered(m, p, prefix) && Numbered(m, q, prefix)
    else
      && Component(p) == Component(q) && Parent(p) !in m && Parent(q) !in m
      && Shares(m, Parent(p), Parent(q), prefix)
  }

  lemma {:induction false} NewNameOf(m: Table, path: string, prefix: string)
    requires path !in m
    ensures var x := Register(m, path, prefix).1;
      x == if Numbered(m, path, prefix) then prefix + Pad3(|m| + 1)
           else Register(m, Parent(path), prefix).1 + "#" + Component(path)
  {
    RegisterNew(m, path, prefix);
  }

  /** A path registered on the way gets the name that it would get by itself. */
  lemma {:induction false} NamedOnTheWay(m: Table, path: string, prefix: string, p: string)
    requires p in Register(m, path, prefix).0 && p !in m
    ensures Register(m, path, prefix).0[p] == Register(m, p, prefix).1
    ensures p == path || Ancestor(p, path)
    decreases |path|
  {
    Added(m, path, prefix);
    RegisterNew(m, path, prefix);
    if p != path { NamedOnTheWay(m, Parent(path), prefix, p); }
  }

  /** The part of a name before the first hash mark. */
  function Root(x: string): string {
    if x == "" || x[0] == '#' then "" else [x[0]] + Root(x[1..])
  }

  lemma {:induction false} RootOfJoin(x: string, c: string)
    ensures Root(x + "#" + c) == Root(x)
    decreases |x|
  {
    if x == "" {
      assert (x + "#" + c)[0] == '#';
    } else {
      assert (x + "#" + c)[1..] == x[1..] + "#" + c && (x + "#" + c)[0] == x[0];
      RootOfJoin(x[1..], c);
    }
  }

  lemma {:induction false} RootOfPlain(x: string)
    requires forall i :: 0 <= i < |x| ==> x[i] != '#'
    ensures Root(x) == x
    decreases |x|
  {
    if x != "" { RootOfPlain(x[1..]); }
  }

  lemma {:induction false} RootOfNumber(x: string, n: nat)
    requires Numeric(x, n)
    ensures Root(x) == x
  {
    forall i | 0 <= i < |x| ensures x[i] != '#' { NumericHasNoHash(x, n, i); }
    RootOfPlain(x);
  }

  /** Earlier names go back to earlier numbers. */
  lemma {:induction false} OldRoot(m: Table, births: Births, r: string) returns (n: nat)
    requires Inv(m, births) && r in m
    ensures n <= |m| && Numeric(Root(m[r]), n)
    decreases |r|
  {
    assert EntryOk(m, births, r);
    if Numeric(m[r], births[r] + 1) {
      n := births[r] + 1;
      RootOfNumber(m[r], n);
    } else {
      n := OldRoot(m, births, Parent(r));
      RootOfJoin(m[Parent(r)], Component(r));
    }
  }

  lemma {:induction false} AncestorsInTable(m: Table, births: Births, r: string, a: string)
    requires Inv(m, births) && r in m && Ancestor(a, r)
    ensures a in m
    decreases |r|
  {
    assert EntryOk(m, births, r);
    if Parent(r) != a { AncestorsInTable(m, births, Parent(r), a); }
  }

  /** Names of new paths below q go back to the call's number, or are longer than the name of the
      known parent of q. */
  lemma {:induction false} RootOrLonger(m: Table, births: Births, u: string, q: string, prefix: string)
    requires Inv(m, births) && GoodPrefix(prefix) && u !in m && q !in m && (q == u || Ancestor(q, u))
    requires HasParent(q) && Parent(q) in m
    ensures var x := Register(m, u, prefix).1; Root(x) == prefix + Pad3(|m| + 1) || |x| > |m[Parent(q)]|
    decreases |u|
  {
    NewNameOf(m, u, prefix);
    if Numbered(m, u, prefix) {
      RootOfNumber(prefix + Pad3(|m| + 1), |m| + 1);
    } else {
      RootOfJoin(Register(m, Parent(u), prefix).1, Component(u));
      if u != q {
        if Parent(u) in m && Parent(u) != q { AncestorsInTable(m, births, Parent(u), q); }
        RootOrLonger(m, births, Parent(u), q, prefix);
      }
    }
  }

  lemma {:induction false} KnownParentDiffers(m: Table, births: Births, u: string, q: string, prefix: string)
    requires Inv(m, births) && GoodPrefix(prefix) && u !in m && q !in m && (q == u || Ancestor(q, u))
    requires HasParent(q) && Parent(q) in m
    ensures Register(m, u, prefix).1 != m[Parent(q)]
  {
    RootOrLonger(m, births, u, q, prefix);
    var n := OldRoot(m, births, Parent(q));
    if Root(m[Parent(q)]) == prefix + Pad3(|m| + 1) {
      assert Root(m[Parent(q)])[1..] == Pad3(n) == Pad3(|m| + 1);
      Pad3Injective(n, |m| + 1);
    }
  }

  lemma {:induction false} SameNames(m: Table, births: Births, p: string, q: string, prefix: string)
    requires Inv(m, births) && GoodPrefix(prefix) && GoodPath(p) && GoodPath(q)
    requires p !in m && q !in m && Ancestor(q, p)
    ensures Register(m, p, prefix).1 == Register(m, q, prefix).1 <==> Shares(m, p, q, prefix)
    decreases |p|
  {
    NewNameOf(m, p, prefix);
    NewNameOf(m, q, prefix);
    var number := prefix + Pad3(|m| + 1);
    if Numbered(m, p, prefix) || Numbered(m, q, prefix) {
      MixedNames(m, p, q, prefix);
    } else {
      var x, y := Register(m, Parent(p), prefix).1, Register(m, Parent(q), prefix).1;
      if x + "#" + Component(p) == y + "#" + Component(q) {
        JoinInjective(x, y, Component(p), Component(q));
      }
      if Parent(p) in m && Parent(p) != q { AncestorsInTable(m, births, Parent(p), q); }
      if Parent(q) in m {
        KnownParentDiffers(m, births, Parent(p), q, prefix);
      } else {
        ParentsAreAncestors(p, q);
        SameNames(m, births, Parent(p), Parent(q), prefix);
      }
    }
  }

  lemma {:induction false} ParentsAreAncestors(p: string, q: string)
    requires Ancestor(q, p) && HasParent(q)
    ensures Ancestor(Parent(q), Parent(p))
    decreases |p|
  {
    if Parent(p) != q { ParentsAreAncestors(Parent(p), q); }
  }

  lemma {:induction false} MixedNames(m: Table, p: string, q: string, prefix: string)
    requires GoodPrefix(prefix) && p !in m && q !in m
    requires Numbered(m, p, prefix) || Numbered(m, q, prefix)
    ensures Register(m, p, prefix).1 == Register(m, q, prefix).1
       <==> Numbered(m, p, prefix) && Numbered(m, q, prefix)
  {
    NewNameOf(m, p, prefix);
    NewNameOf(m, q, prefix);
    var x := prefix + Pad3(|m| + 1);
    forall i | 0 <= i < |x| ensures x[i] != '#' { NumericHasNoHash(x, |m| + 1, i); }
    hide Register;
    if !Numbered(m, p, prefix) {
      var y := Register(m, Parent(p), prefix).1;
      assert (y + "#" + Component(p))[|y|] == '#';
    } else if !Numbered(m, q, prefix) {
      var y := Register(m, Parent(q), prefix).1;
      assert (y + "#" + Component(q))[|y|] == '#';
    }
  }

  /** Two paths that one call registers get the same name if and only if both get its number, or
      both are built alike from two such paths. */
  lemma {:induction false} SharedInOneCall(m: Table, births: Births, u: Use, p: string, q: string)
    requires Inv(m, births) && GoodUse(u) && u.path !in m && p != q && p !in m && q !in m
    requires p in Register(m, u.path, u.prefix).0 && q in Register(m, u.path, u.prefix).0
    ensures var m' := Register(m, u.path, u.prefix).0; m'[p] == m'[q] <==> Shares(m, p, q, u.prefix)
  {
    NamedOnTheWay(m, u.path, u.prefix, p);
    NamedOnTheWay(m, u.path, u.prefix, q);
    AncestorsComparable(p, q, u.path);
    NewEntries(m, births, u.path, u.prefix, p);
    NewEntries(m, births, u.path, u.prefix, q);
    if Ancestor(q, p) {
      SameNames(m, births, p, q, u.prefix);
    } else {
      SameNames(m, births, q, p, u.prefix);
      SharesBothWays(m, p, q, u.prefix);
    }
  }

  lemma {:induction false} SharesBothWays(m: Table, p: string, q: string, prefix: string)
    ensures Shares(m, p, q, prefix) <==> Shares(m, q, p, prefix)
    decreases |p|
  {
    if HasParent(p) && HasParent(q) { SharesBothWays(m, Parent(p), Parent(q), prefix); }
  }

  /** In any table, a path registered together with its parent, and with any number of further
      ancestors, gets the parent's name if and only if both get the call's number. */
  lemma {:induction false} ChildTakesParentsName(m: Table, path: string, prefix: string)
    requires GoodPrefix(prefix) && path !in m && HasParent(path) && Parent(path) !in m
    ensures var m' := Register(m, path, prefix).0;
      && Parent(path) in m' && path in m'
      && (m'[path] == m'[Parent(path)] <==> Numbered(m, path, prefix) && Numbered(m, Parent(path), prefix))
  {
    Added(m, path, prefix);
    NamedOnTheWay(m, path, prefix, Parent(path));
    NewNameOf(m, path, prefix);
    if Numbered(m, path, prefix) { MixedNames(m, path, Parent(path), prefix); }
  }

  lemma TenTo29()
    ensures Pow10(29) == 100_000_000_000_000_000_000_000_000_000
  {
    assert Pow10(9) == 1_000_000_000;
    assert Pow10(19) == 10_000_000_000_000_000_000;
  }

  /** No generated name is longer than an Oracle identifier may be, as long as the number of
      names stays below a 29 digit bound. */
  lemma {:induction false} NamesAreShort(m: Table, uses: seq<Use>)
    requires forall u :: u in uses ==> GoodPrefix(u.prefix)
    requires |RunAll(m, uses)| < 100_000_000_000_000_000_000_000_000_000 && forall p :: p in m ==> |m[p]| <= 30
    ensures forall p :: p in RunAll(m, uses) ==> |RunAll(m, uses)[p]| <= 30
    decreases |uses|
  {
    hide Pow10;
    TenTo29();
    if uses != [] {
      var u := uses[0];
      var m' := Register(m, u.path, u.prefix).0;
      Added(m, u.path, u.prefix);
      TableGrows(m', uses[1..]);
      if u.path !in m {
        RegisterShort(m, u.path, u.prefix);
      }
      NamesAreShort(m', uses[1..]);
    }
  }

  lemma {:induction false} TableGrows(m: Table, uses: seq<Use>)
    ensures |RunAll(m, uses)| >= |m|
    decreases |uses|
  {
    if uses != [] {
      Added(m, uses[0].path, uses[0].prefix);
      TableGrows(Register(m, uses[0].path, uses[0].prefix).0, uses[1..]);
    }
  }

  lemma {:induction false} RegisterShort(m: Table, path: string, prefix: string)
    requires GoodPrefix(prefix) && |m| + 1 < Pow10(29) && forall p :: p in m ==> |m[p]| <= 30
    ensures var m' := Register(m, path, prefix).0; forall p :: p in m' ==> |m'[p]| <= 30
    decreases |path|
  {
    if path !in m {
      RegisterNew(m, path, prefix);
      if HasParent(path) {
        RegisterShort(m, Parent(path), prefix);
        assert Up(m, path, prefix) == Register(m, Parent(path), prefix).0;
      } else {
        assert Up(m, path, prefix) == m;
      }
      DigitsLength(|m| + 1, 29);
      PadLength(|m| + 1);
      assert |prefix + Pad3(|m| + 1)| == 1 + |Pad3(|m| + 1)|;
      assert |NewName(m, path, prefix)| <= 30;
      var up := Up(m, path, prefix);
      assert forall p :: p in up ==> |up[p]| <= 30;
      var m' := up[path := NewName(m, path, prefix)];
      assert forall p :: p in m' ==> p == path || (p in up && m'[p] == up[p]);
    }
  }

  lemma PadLength(n: nat)
    requires |Digits(n)| <= 29
    ensures |Pad3(n)| <= 29
  {
  }
}
