/** Bind renumbering: the block is sent with positional binds, so each use of a named parameter
    in the Go code is given a position, and positions left over are filled from the first. */
module Demap {
  import Marshal

  const HIDDEN := "_hidden"

  /** A key mentioned in Go code with the hidden suffix means the name with a hash mark. */
  function Norm(key: string): string {
    if |key| >= |HIDDEN| && key[|key| - |HIDDEN|..] == HIDDEN then key[..|key| - |HIDDEN|] + "#" else key
  }

  datatype Remap = Remap(name: string, new': nat, old': nat)

  // ----- occurrences and uses -----

  /** The positions of key k among the first n placeholders, in ascending order. */
  function PositionsOf(occ: seq<string>, n: nat, k: string): seq<nat>
    requires n <= |occ|
  {
    if n == 0 then [] else PositionsOf(occ, n - 1, k) + if occ[n - 1] == k then [n - 1] else []
  }

  function Positions(occ: seq<string>, k: string): seq<nat> { PositionsOf(occ, |occ|, k) }

  lemma {:induction false} PositionsAscend(occ: seq<string>, n: nat, k: string)
    requires n <= |occ|
    ensures forall t :: 0 <= t < |PositionsOf(occ, n, k)| ==>
      PositionsOf(occ, n, k)[t] < n && occ[PositionsOf(occ, n, k)[t]] == k
    ensures forall s, t :: 0 <= s < t < |PositionsOf(occ, n, k)| ==>
      PositionsOf(occ, n, k)[s] < PositionsOf(occ, n, k)[t]
  {
    if n > 0 { PositionsAscend(occ, n - 1, k); }
  }

  lemma {:induction false} PositionsComplete(occ: seq<string>, n: nat, k: string, p: nat)
    requires p < n <= |occ| && occ[p] == k
    ensures exists t :: 0 <= t < |PositionsOf(occ, n, k)| && PositionsOf(occ, n, k)[t] == p
  {
    var r := PositionsOf(occ, n, k);
    if p == n - 1 {
      assert r[|r| - 1] == p;
    } else {
      PositionsComplete(occ, n - 1, k, p);
      var t :| 0 <= t < |PositionsOf(occ, n - 1, k)| && PositionsOf(occ, n - 1, k)[t] == p;
      assert r[t] == p;
    }
  }

  /** The keys the uses stand for. */
  function Keys(uses: seq<string>): seq<string> {
    seq(|uses|, j requires 0 <= j < |uses| => Norm(uses[j]))
  }

  /** How often key k is among the first n uses, given by their normalised keys. */
  function Count(uses: seq<string>, n: nat, k: string): nat
    requires n <= |uses|
  {
    if n == 0 then 0 else Count(uses, n - 1, k) + if uses[n - 1] == k then 1 else 0
  }

  function Uses(uses: seq<string>, k: string): nat { Count(uses, |uses|, k) }

  lemma {:induction false} UseNumber(uses: seq<string>, n: nat, k: string, t: nat)
    requires n <= |uses| && t < Count(uses, n, k)
    ensures exists j :: 0 <= j < n && uses[j] == k && Count(uses, j, k) == t
  {
    if t < Count(uses, n - 1, k) {
      UseNumber(uses, n - 1, k, t);
    } else {
      assert uses[n - 1] == k && Count(uses, n - 1, k) == t;
    }
  }

  lemma {:induction false} CountGrows(uses: seq<string>, n: nat, k: string, j: nat)
    requires j < n <= |uses| && uses[j] == k
    ensures Count(uses, j, k) < Count(uses, n, k)
  {
    if j < n - 1 { CountGrows(uses, n - 1, k, j); }
  }

  function Min(a: nat, b: nat): nat { if a < b then a else b }

  /** The position handed out when k has been used t times before: the last one repeats. */
  function Served(r: seq<nat>, t: nat): nat {
    if r == [] then 0 else r[Min(t, |r| - 1)]
  }

  /** The positions still listed after t uses. */
  function Listed(r: seq<nat>, t: nat): seq<nat> {
    if r == [] then [] else r[Min(t, |r| - 1)..]
  }

  ghost predicate At(s: seq<nat>, x: nat) {
    exists t :: 0 <= t < |s| && s[t] == x
  }

  lemma AtAppend(s: seq<nat>, y: nat)
    ensures forall x :: At(s + [y], x) <==> At(s, x) || x == y
  {
    forall x ensures At(s + [y], x) <==> At(s, x) || x == y {
      if At(s, x) {
        var t :| 0 <= t < |s| && s[t] == x;
        assert (s + [y])[t] == x;
      }
      assert (s + [y])[|s|] == y;
    }
  }

  /** A position that is listed for its key, other than the first one. */
  ghost predicate Left(positions: map<string, seq<nat>>, first: map<string, nat>, r: Remap) {
    && r.name in positions && r.name in first && At(positions[r.name], r.new')
    && r.old' == first[r.name] && r.new' != r.old'
  }

  // ----- the tables -----

  type Table = map<string, seq<nat>>

  /** Appends a position to a key's list. */
  function Push(m: Table, k: string, i: nat): Table {
    m[k := (if k in m then m[k] else []) + [i]]
  }

  function Collect(occ: seq<string>, n: nat): Table
    requires n <= |occ|
  {
    if n == 0 then map[] else Push(Collect(occ, n - 1), occ[n - 1], n - 1)
  }

  function Firsts(occ: seq<string>, n: nat): map<string, nat>
    requires n <= |occ|
  {
    if n == 0 then map[] else
    var f := Firsts(occ, n - 1);
    if occ[n - 1] in f then f else f[occ[n - 1] := n - 1]
  }

  lemma {:induction false} CollectIsPositions(occ: seq<string>, n: nat, k: string)
    requires n <= |occ|
    ensures k in Collect(occ, n) <==> PositionsOf(occ, n, k) != []
    ensures k in Firsts(occ, n) <==> PositionsOf(occ, n, k) != []
    ensures k in Collect(occ, n) ==>
      Collect(occ, n)[k] == PositionsOf(occ, n, k) && Firsts(occ, n)[k] == PositionsOf(occ, n, k)[0]
  {
    if n > 0 { CollectIsPositions(occ, n - 1, k); }
  }

  /** One use consumes a position, unless it is the last one listed. */
  function Pop(m: Table, k: string): Table
    requires k in m
  {
    if |m[k]| > 1 then m[k := m[k][1..]] else m
  }

  /** The table after n uses; keys without an occurrence are skipped. */
  function Used(m: Table, uses: seq<string>, n: nat): Table
    requires n <= |uses|
  {
    if n == 0 then m else
    var u := Used(m, uses, n - 1);
    if uses[n - 1] in u then Pop(u, uses[n - 1]) else u
  }

  lemma {:induction false} UsedIsListed(m: Table, uses: seq<string>, n: nat, k: string)
    requires n <= |uses| && forall j :: j in m ==> m[j] != []
    ensures Used(m, uses, n).Keys == m.Keys
    ensures k in m ==> Used(m, uses, n)[k] == Listed(m[k], Count(uses, n, k))
  {
    if n > 0 {
      UsedIsListed(m, uses, n - 1, k);
      if k in m { ListedStep(m[k], Count(uses, n - 1, k)); }
    }
  }

  // ----- the algorithm -----

  class ParamsMap {
    var positions: map<string, seq<nat>>
    var first: map<string, nat>

    /** Lists the positions of every placeholder, in order of occurrence. */
    constructor (occ: seq<string>)
      ensures positions == Collect(occ, |occ|) && first == Firsts(occ, |occ|)
    {
      positions, first := map[], map[];
      new;
      for i := 0 to |occ|
        invariant positions == Collect(occ, i) && first == Firsts(occ, i)
      {
        var key := occ[i];
        positions := Push(positions, key, i);
        if key !in first {
          first := first[key := i];
        }
      }
    }

    /** One use of a key; a key without an occurrence would panic. */
    method ParamsIdx(key: string) returns (i: nat)
      requires Norm(key) in positions && positions[Norm(key)] != []
      modifies this`positions
      ensures i == old(positions)[Norm(key)][0]
      ensures positions == Pop(old(positions), Norm(key))
    {
      var k := Norm(key);
      var arr := positions[k];
      i := arr[0];
      if |arr| > 1 {
        positions := positions[k := arr[1..]];
      }
    }

    /** The positions that are still listed and are not their key's first. */
    method PlusIdxs() returns (plus: set<Remap>)
      requires positions.Keys == first.Keys
      ensures forall r :: r in plus <==> Left(positions, first, r)
    {
      plus := {};
      var keys := positions.Keys;
      while keys != {}
        invariant keys <= positions.Keys
        invariant forall r :: r in plus <==> Left(positions, first, r) && r.name !in keys
        decreases |keys|
      {
        var k :| k in keys;
        var vv := positions[k];
        for t := 0 to |vv|
          invariant forall r :: r in plus <==>
            Left(positions, first, r) && (r.name !in keys || (r.name == k && At(vv[..t], r.new')))
        {
          assert vv[..t + 1] == vv[..t] + [vv[t]];
          AtAppend(vv[..t], vv[t]);
          if vv[t] != first[k] {
            plus := plus + {Remap(k, vv[t], first[k])};
          }
        }
        assert vv[..|vv|] == vv;
        keys := keys - {k};
      }
    }
  }

  /** The result of the renumbering: one position for each use, and the remaps. */
  ghost predicate Renumbered(occ: seq<string>, uses: seq<string>, returned: seq<nat>, plus: set<Remap>) {
    && |returned| == |uses|
    && (forall j {:trigger returned[j]} :: 0 <= j < |uses| ==> ServedAt(occ, uses, j, returned[j]))
    && (forall r :: r in plus <==> IsRemap(occ, uses, r))
  }

  /** Use number j gets position p. */
  predicate ServedAt(occ: seq<string>, uses: seq<string>, j: nat, p: nat)
    requires j < |uses|
  {
    Positions(occ, uses[j]) != [] && p == Served(Positions(occ, uses[j]), Count(uses, j, uses[j]))
  }

  ghost predicate IsRemap(occ: seq<string>, uses: seq<string>, r: Remap) {
    var l := Positions(occ, r.name);
    l != [] && At(Listed(l, Uses(uses, r.name)), r.new') && r.old' == l[0] && r.new' != r.old'
  }

  lemma CollectNonempty(occ: seq<string>)
    ensures forall k :: k in Collect(occ, |occ|) ==> Collect(occ, |occ|)[k] != []
    ensures Firsts(occ, |occ|).Keys == Collect(occ, |occ|).Keys
  {
    forall k ensures (k in Collect(occ, |occ|) ==> Collect(occ, |occ|)[k] != [])
                     && (k in Firsts(occ, |occ|) <==> k in Collect(occ, |occ|)) {
      CollectIsPositions(occ, |occ|, k);
    }
  }

  lemma LeftIsRemap(occ: seq<string>, ks: seq<string>, r: Remap)
    ensures Left(Used(Collect(occ, |occ|), ks, |ks|), Firsts(occ, |occ|), r) <==> IsRemap(occ, ks, r)
  {
    CollectNonempty(occ);
    CollectIsPositions(occ, |occ|, r.name);
    UsedIsListed(Collect(occ, |occ|), ks, |ks|, r.name);
  }

  lemma UseStep(occ: seq<string>, ks: seq<string>, j: nat)
    requires j < |ks| && Positions(occ, ks[j]) != []
    ensures var m := Used(Collect(occ, |occ|), ks, j);
      && ks[j] in m && m[ks[j]] != [] && ServedAt(occ, ks, j, m[ks[j]][0])
      && Used(Collect(occ, |occ|), ks, j + 1) == Pop(m, ks[j])
  {
    CollectNonempty(occ);
    CollectIsPositions(occ, |occ|, ks[j]);
    UsedIsListed(Collect(occ, |occ|), ks, j, ks[j]);
    ListedStep(Positions(occ, ks[j]), Count(ks, j, ks[j]));
  }

  lemma NothingUsed(m: Table, uses: seq<string>)
    ensures Used(m, uses, 0) == m
  {
  }

  /** Every key that is used must occur among the placeholders. */
  method Renumber(occ: seq<string>, uses: seq<string>) returns (returned: seq<nat>, plus: set<Remap>)
    requires forall j :: 0 <= j < |uses| ==> Positions(occ, Keys(uses)[j]) != []
    ensures Renumbered(occ, Keys(uses), returned, plus)
  {
    hide ServedAt;
    hide Used;
    hide IsRemap;
    hide Left;
    hide Collect;
    var pm := new ParamsMap(occ);
    ghost var ks, all := Keys(uses), Collect(occ, |occ|);
    returned := [];
    NothingUsed(all, ks);
    for j := 0 to |uses|
      invariant |returned| == j && pm.positions == Used(all, ks, j) && pm.first == Firsts(occ, |occ|)
      invariant forall i {:trigger returned[i]} :: 0 <= i < j ==> ServedAt(occ, ks, i, returned[i])
    {
      UseStep(occ, ks, j);
      assert ks[j] == Norm(uses[j]);
      var i := pm.ParamsIdx(uses[j]);
      returned := returned + [i];
    }
    CollectNonempty(occ);
    UsedIsListed(all, ks, |ks|, "");
    plus := pm.PlusIdxs();
    forall r ensures Left(pm.positions, pm.first, r) <==> IsRemap(occ, ks, r) {
      LeftIsRemap(occ, ks, r);
    }
  }

  lemma ListedStep(r: seq<nat>, t: nat)
    requires r != []
    ensures Listed(r, t) != [] && Listed(r, t)[0] == Served(r, t)
    ensures Listed(r, t + 1) == if |Listed(r, t)| > 1 then Listed(r, t)[1..] else Listed(r, t)
  {
  }

  // ----- what the numbers mean -----

  /** Where a remapped position is among its key's positions. */
  lemma IndexOfRemap(occ: seq<string>, uses: seq<string>, r: Remap) returns (i: nat)
    requires IsRemap(occ, uses, r)
    ensures var l := Positions(occ, r.name);
      && 0 < i < |l| && Min(Uses(uses, r.name), |l| - 1) <= i && l[i] == r.new' && l[0] == r.old'
    ensures r.old' < r.new' < |occ| && occ[r.new'] == r.name && occ[r.old'] == r.name
  {
    var l := Positions(occ, r.name);
    var u := Uses(uses, r.name);
    var t :| 0 <= t < |Listed(l, u)| && Listed(l, u)[t] == r.new';
    i := Min(u, |l| - 1) + t;
    assert l[i] == Listed(l, u)[t];
    PositionsAscend(occ, |occ|, r.name);
  }

  /** Every use gets a position of its own key, every remap goes from the first position of a
      key to another position of that key. */
  lemma PositionsCarryTheirKey(occ: seq<string>, uses: seq<string>, returned: seq<nat>, plus: set<Remap>)
    requires Renumbered(occ, uses, returned, plus)
    ensures forall j :: 0 <= j < |uses| ==> returned[j] < |occ| && occ[returned[j]] == uses[j]
    ensures forall r :: r in plus ==>
      r.old' < r.new' < |occ| && occ[r.new'] == r.name && occ[r.old'] == r.name
  {
    forall j | 0 <= j < |uses| ensures returned[j] < |occ| && occ[returned[j]] == uses[j] {
      assert ServedAt(occ, uses, j, returned[j]);
      PositionsAscend(occ, |occ|, uses[j]);
    }
    forall r | r in plus ensures r.old' < r.new' < |occ| && occ[r.new'] == r.name && occ[r.old'] == r.name {
      var i := IndexOfRemap(occ, uses, r);
    }
  }

  ghost predicate Remaps(plus: set<Remap>, p: nat) {
    exists r :: r in plus && r.new' == p
  }

  /** Returned positions and remapped positions together cover every bind position, and the
      source of every remap was returned. */
  lemma EveryPositionIsSet(occ: seq<string>, uses: seq<string>, returned: seq<nat>, plus: set<Remap>)
    requires Renumbered(occ, uses, returned, plus)
    requires forall p :: 0 <= p < |occ| ==> Uses(uses, occ[p]) > 0
    ensures forall p: nat :: p < |occ| ==> At(returned, p) || Remaps(plus, p)
    ensures forall r :: r in plus ==> At(returned, r.old')
  {
    forall p: nat | p < |occ| ensures At(returned, p) || Remaps(plus, p) {
      PositionIsSet(occ, uses, returned, plus, p);
    }
    forall r | r in plus ensures At(returned, r.old') {
      var i := IndexOfRemap(occ, uses, r);
      UseNumber(uses, |uses|, r.name, 0);
      var j :| 0 <= j < |uses| && uses[j] == r.name && Count(uses, j, r.name) == 0;
      assert ServedAt(occ, uses, j, returned[j]);
    }
  }

  lemma PositionIsSet(occ: seq<string>, uses: seq<string>, returned: seq<nat>, plus: set<Remap>, p: nat)
    requires Renumbered(occ, uses, returned, plus) && p < |occ| && Uses(uses, occ[p]) > 0
    ensures At(returned, p) || Remaps(plus, p)
  {
    var k := occ[p];
    PositionsComplete(occ, |occ|, k, p);
    var l, u := Positions(occ, k), Uses(uses, k);
    var t :| 0 <= t < |l| && l[t] == p;
    if t < u {
      UseNumber(uses, |uses|, k, t);
      var j :| 0 <= j < |uses| && uses[j] == k && Count(uses, j, k) == t;
      assert ServedAt(occ, uses, j, returned[j]);
    } else {
      PositionsAscend(occ, |occ|, k);
      ListedLate(l, u, t);
      assert IsRemap(occ, uses, Remap(k, p, l[0]));
      assert Remap(k, p, l[0]) in plus;
    }
  }

  lemma ListedLate(l: seq<nat>, u: nat, t: nat)
    requires u <= t < |l|
    ensures At(Listed(l, u), l[t])
  {
  }

  /** A use with the hidden suffix is served a position of the name with a hash mark, and any other
      use a position of its own name. */
  lemma {:induction false} UsesServed(occ: seq<string>, uses: seq<string>, returned: seq<nat>, plus: set<Remap>,
                                      j: nat, x: string)
    requires Renumbered(occ, Keys(uses), returned, plus) && j < |uses|
    requires uses[j] == x + "_hidden" || (uses[j] == x && forall y: string :: x != y + "_hidden")
    ensures j < |returned| && returned[j] < |occ| && occ[returned[j]] == if uses[j] == x then x else x + "#"
  {
    PositionsCarryTheirKey(occ, Keys(uses), returned, plus);
    assert Keys(uses)[j] == Norm(uses[j]);
    HiddenKey(x);
    OtherKey(x);
  }

  lemma OtherKey(x: string)
    ensures Norm(x) != x ==> exists y: string :: x == y + "_hidden"
  {
    if Norm(x) != x { assert x == x[..|x| - 7] + "_hidden"; }
  }

  /** The generator spells out a trailing hash mark, and the key in the Go code leads back to the
      argument's own name, which is what the call in the block reads, unless that name itself ends
      in the suffix. */
  lemma {:induction false} HiddenRoundTrip(name: string)
    ensures Norm(Marshal.ReplHidden(name)) == name <==> !exists x: string :: name == x + "_hidden"
  {
    if name != "" && name[|name| - 1] == '#' {
      var x := name[..|name| - 1];
      HiddenKey(x);
      assert Marshal.ReplHidden(name) == x + "_hidden" && name == x + "#";
      forall y: string ensures name != y + "_hidden" {
        assert (y + "_hidden")[|y| + 6] == 'n';
      }
    } else {
      OtherKey(name);
      if x: string :| name == x + "_hidden" { HiddenKey(x); }
    }
  }

  lemma HiddenKey(x: string)
    ensures Norm(x + "_hidden") == x + "#"
  {
    var key := x + "_hidden";
    assert key[|key| - |HIDDEN|..] == HIDDEN && key[..|key| - |HIDDEN|] == x;
  }

  /** Key k occurs once, or is used less often than it occurs. */
  predicate SetOnce(occ: seq<string>, uses: seq<string>, k: string) {
    |Positions(occ, k)| == 1 || Uses(uses, k) < |Positions(occ, k)|
  }

  /** Remapped and returned positions are disjoint exactly when every key occurs once or is used
      less often than it occurs. */
  lemma SetOnceCondition(occ: seq<string>, uses: seq<string>, returned: seq<nat>, plus: set<Remap>)
    requires Renumbered(occ, uses, returned, plus)
    ensures (forall r :: r in plus ==> !At(returned, r.new')) <==>
            (forall p :: 0 <= p < |occ| ==> SetOnce(occ, uses, occ[p]))
  {
    if forall p :: 0 <= p < |occ| ==> SetOnce(occ, uses, occ[p]) {
      forall r | r in plus ensures !At(returned, r.new') {
        var i := IndexOfRemap(occ, uses, r);
        Apart(occ, uses, returned, plus, r);
      }
    } else {
      var p :| 0 <= p < |occ| && !SetOnce(occ, uses, occ[p]);
      var r := SetTwice(occ, uses, returned, plus, p);
    }
  }

  lemma SetTwice(occ: seq<string>, uses: seq<string>, returned: seq<nat>, plus: set<Remap>, p: nat)
    returns (r: Remap)
    requires Renumbered(occ, uses, returned, plus) && p < |occ| && !SetOnce(occ, uses, occ[p])
    ensures r in plus && At(returned, r.new')
  {
    var k := occ[p];
    PositionsComplete(occ, |occ|, k, p);
    var l := Positions(occ, k);
    PositionsAscend(occ, |occ|, k);
    r := Remap(k, l[|l| - 1], l[0]);
    assert Listed(l, Uses(uses, k))[0] == l[|l| - 1];
    assert IsRemap(occ, uses, r);
    UseNumber(uses, |uses|, k, |l| - 1);
    var j :| 0 <= j < |uses| && uses[j] == k && Count(uses, j, k) == |l| - 1;
    assert ServedAt(occ, uses, j, returned[j]);
  }

  lemma Apart(occ: seq<string>, uses: seq<string>, returned: seq<nat>, plus: set<Remap>, r: Remap)
    requires Renumbered(occ, uses, returned, plus) && r in plus && SetOnce(occ, uses, r.name)
    ensures !At(returned, r.new')
  {
    var k, l := r.name, Positions(occ, r.name);
    var i := IndexOfRemap(occ, uses, r);
    PositionsCarryTheirKey(occ, uses, returned, plus);
    PositionsAscend(occ, |occ|, k);
    forall j | 0 <= j < |returned| ensures returned[j] != r.new' {
      if uses[j] == k {
        CountGrows(uses, |uses|, k, j);
        assert ServedAt(occ, uses, j, returned[j]);
        assert returned[j] == l[Count(uses, j, k)];
        assert l[Count(uses, j, k)] < l[i];
      }
    }
  }

  /** Two uses get one position exactly when they are of one key whose positions but the last
      were given away before. */
  lemma {:induction false} SharedPosition(occ: seq<string>, uses: seq<string>, returned: seq<nat>, plus: set<Remap>,
                                          i: nat, j: nat)
    requires Renumbered(occ, uses, returned, plus) && i < j < |uses|
    ensures returned[i] == returned[j] <==>
            uses[i] == uses[j] && |Positions(occ, uses[i])| <= Count(uses, i, uses[i]) + 1
  {
    PositionsCarryTheirKey(occ, uses, returned, plus);
    assert ServedAt(occ, uses, i, returned[i]) && ServedAt(occ, uses, j, returned[j]);
    if uses[i] == uses[j] {
      var l := Positions(occ, uses[i]);
      CountGrows(uses, j, uses[i], i);
      PositionsAscend(occ, |occ|, uses[i]);
      assert returned[i] == l[Min(Count(uses, i, uses[i]), |l| - 1)];
      assert returned[j] == l[Min(Count(uses, j, uses[i]), |l| - 1)];
    }
  }

  /** All uses get positions of their own exactly when no key is used more often than it occurs. */
  lemma {:induction false} UsesApart(occ: seq<string>, uses: seq<string>, returned: seq<nat>, plus: set<Remap>)
    requires Renumbered(occ, uses, returned, plus)
    ensures (forall i, j :: 0 <= i < j < |uses| ==> returned[i] != returned[j]) <==>
            (forall j :: 0 <= j < |uses| ==> Uses(uses, uses[j]) <= |Positions(occ, uses[j])|)
  {
    forall i, j | 0 <= i < j < |uses| && Uses(uses, uses[j]) <= |Positions(occ, uses[j])|
      ensures returned[i] != returned[j]
    {
      SharedPosition(occ, uses, returned, plus, i, j);
      if uses[i] == uses[j] {
        CountGrows(uses, j, uses[i], i);
        CountGrows(uses, |uses|, uses[i], j);
      }
    }
    forall k | 0 <= k < |uses| && |Positions(occ, uses[k])| < Uses(uses, uses[k])
      ensures exists i, j :: 0 <= i < j < |uses| && returned[i] == returned[j]
    {
      SharedUses(occ, uses, returned, plus, uses[k]);
    }
  }

  lemma {:induction false} SharedUses(occ: seq<string>, uses: seq<string>, returned: seq<nat>, plus: set<Remap>,
                                      k: string)
    requires Renumbered(occ, uses, returned, plus) && |Positions(occ, k)| < Uses(uses, k)
    ensures exists i, j :: 0 <= i < j < |uses| && returned[i] == returned[j]
  {
    var n := |Positions(occ, k)|;
    UseNumber(uses, |uses|, k, n);
    var j :| 0 <= j < |uses| && uses[j] == k && Count(uses, j, k) == n;
    assert ServedAt(occ, uses, j, returned[j]);
    UseNumber(uses, j, k, n - 1);
    var i :| 0 <= i < j && uses[i] == k && Count(uses, i, k) == n - 1;
    SharedPosition(occ, uses, returned, plus, i, j);
  }
}
