/** The names that prepareCall allocates for its arguments satisfy what the theorem about the
    generated block asks of them, for any function whose own names are well formed and whatever
    was allocated before. */
module MarshalNames {
  import opened Basics
  import opened Names
  import opened NamesTheorem
  import M = Marshal
  import R = MarshalRun
  import P = MarshalProof

  /** An argument before names are allocated: elem is the name of the record in a table. */
  datatype Formal =
    | Scalar(name: string, dir: M.Direction)
    | Record(name: string, dir: M.Direction, fields: seq<string>)
    | Array(name: string, dir: M.Direction)
    | RecArray(name: string, dir: M.Direction, elem: string, fields: seq<string>)

  // ----- allocation -----

  function FieldPath(vn: string, field: string): string {
    vn + "." + field
  }

  /** The name under which an argument is registered. */
  function Key(f: Formal): string {
    M.ReplHidden(f.name)
  }

  /** The path of the local variable: for a table of records it goes through the record. */
  function VarPath(f: Formal): string {
    if f.RecArray? then Key(f) + "." + f.elem else Key(f)
  }

  function AllocFields(m: Table, vn: string, fields: seq<string>): (Table, seq<M.Col>)
    decreases |fields|
  {
    if fields == [] then (m, []) else
    var first := Register(m, FieldPath(vn, fields[0]), "p");
    var rest := AllocFields(first.0, vn, fields[1..]);
    (rest.0, [M.Col(fields[0], first.1)] + rest.1)
  }

  function AllocArg(m: Table, f: Formal): (Table, M.Arg) {
    if f.Scalar? then (m, M.Simple(f.name, f.dir)) else
    var v := Register(m, VarPath(f), "v");
    if f.Array? then (v.0, M.Table(f.name, f.dir, v.1)) else
    var c := AllocFields(v.0, v.1, f.fields);
    (c.0, if f.Record? then M.Record(f.name, f.dir, v.1, c.1) else M.RecTable(f.name, f.dir, v.1, c.1))
  }

  function AllocArgs(m: Table, formals: seq<Formal>): (r: (Table, seq<M.Arg>))
    ensures |r.1| == |formals|
    decreases |formals|
  {
    if formals == [] then (m, []) else
    var first := AllocArg(m, formals[0]);
    var rest := AllocArgs(first.0, formals[1..]);
    (rest.0, [first.1] + rest.1)
  }

  /** The allocations of prepareCall, in order, in the table of the function. */
  method Allocate(names: VarNames, fun: string, formals: seq<Formal>) returns (args: seq<M.Arg>)
    modifies names
    ensures args == AllocArgs(old(names.TableOf(fun)), formals).1
    ensures names.TableOf(fun) == AllocArgs(old(names.TableOf(fun)), formals).0
    ensures forall g :: g != fun ==> names.TableOf(g) == old(names.TableOf(g))
  {
    hide Register;
    args := [];
    ghost var m0 := names.TableOf(fun);
    assert formals[0..] == formals && [] + AllocArgs(m0, formals).1 == AllocArgs(m0, formals).1;
    for i := 0 to |formals|
      invariant forall g :: g != fun ==> names.TableOf(g) == old(names.TableOf(g))
      invariant AllocArgs(m0, formals) == After(args, AllocArgs(names.TableOf(fun), formals[i..]))
    {
      assert formals[i..][0] == formals[i] && formals[i..][1..] == formals[i + 1..];
      var a := AllocateArg(names, fun, formals[i]);
      AfterMore(args, a, AllocArgs(names.TableOf(fun), formals[i + 1..]));
      args := args + [a];
    }
    assert formals[|formals|..] == [] && args + [] == args;
  }

  method AllocateArg(names: VarNames, fun: string, f: Formal) returns (a: M.Arg)
    modifies names
    ensures (names.TableOf(fun), a) == AllocArg(old(names.TableOf(fun)), f)
    ensures forall g :: g != fun ==> names.TableOf(g) == old(names.TableOf(g))
  {
    hide Register;
    if f.Scalar? {
      return M.Simple(f.name, f.dir);
    }
    var vn := names.GetVarName(fun, VarPath(f), "v");
    if f.Array? {
      return M.Table(f.name, f.dir, vn);
    }
    var cols := AllocateFields(names, fun, vn, f.fields);
    a := if f.Record? then M.Record(f.name, f.dir, vn, cols) else M.RecTable(f.name, f.dir, vn, cols);
  }

  method AllocateFields(names: VarNames, fun: string, vn: string, fields: seq<string>) returns (cols: seq<M.Col>)
    modifies names
    ensures (names.TableOf(fun), cols) == AllocFields(old(names.TableOf(fun)), vn, fields)
    ensures forall g :: g != fun ==> names.TableOf(g) == old(names.TableOf(g))
  {
    hide Register;
    cols := [];
    ghost var m0 := names.TableOf(fun);
    assert fields[0..] == fields && [] + AllocFields(m0, vn, fields).1 == AllocFields(m0, vn, fields).1;
    for i := 0 to |fields|
      invariant forall g :: g != fun ==> names.TableOf(g) == old(names.TableOf(g))
      invariant AllocFields(m0, vn, fields) == After(cols, AllocFields(names.TableOf(fun), vn, fields[i..]))
    {
      assert fields[i..][0] == fields[i] && fields[i..][1..] == fields[i + 1..];
      var p := names.GetVarName(fun, FieldPath(vn, fields[i]), "p");
      AfterMore(cols, M.Col(fields[i], p), AllocFields(names.TableOf(fun), vn, fields[i + 1..]));
      cols := cols + [M.Col(fields[i], p)];
    }
    assert fields[|fields|..] == [] && cols + [] == cols;
  }

  function After<T>(done: seq<T>, rest: (Table, seq<T>)): (Table, seq<T>) {
    (rest.0, done + rest.1)
  }

  lemma {:induction false} AfterMore<T>(done: seq<T>, x: T, rest: (Table, seq<T>))
    ensures After(done, (rest.0, [x] + rest.1)) == After(done + [x], rest)
  {
    assert done + ([x] + rest.1) == (done + [x]) + rest.1;
  }

  // ----- paths and their names -----

  predicate Dotless(s: string) {
    forall i :: 0 <= i < |s| ==> s[i] != '.'
  }

  /** x is a numbered name, or one with a component appended. */
  predicate Starts(x: string, n: nat) {
    var l := 1 + |Pad3(n)|;
    l <= |x| && (x[0] == 'v' || x[0] == 'p') && x[1..l] == Pad3(n) && (l < |x| ==> x[l] == '#')
  }

  ghost predicate Generated(x: string) {
    exists n: nat :: Starts(x, n)
  }

  lemma {:induction false} LastDotOf(stem: string, c: string)
    requires Dotless(stem) && Dotless(c) && stem != ""
    ensures LastDot(stem + "." + c) == |stem| && LastDot(stem) == -1
    ensures HasParent(stem + "." + c) <==> c != ""
    ensures c != "" ==> Parent(stem + "." + c) == stem && Component(stem + "." + c) == c
    ensures !HasParent(stem)
  {
    var s := stem + "." + c;
    assert s[|stem|] == '.';
    forall i | |stem| < i < |s| ensures s[i] != '.' { assert s[i] == c[i - |stem| - 1]; }
  }

  lemma {:induction false} ComponentDotless(p: string)
    requires HasParent(p)
    ensures Dotless(Component(p))
  {
  }

  lemma {:induction false} NumericIsGenerated(x: string, n: nat)
    requires Numeric(x, n)
    ensures Generated(x) && Dotless(x)
  {
    hide Pad3;
    assert x[1..1 + |Pad3(n)|] == Pad3(n);
    assert Starts(x, n);
  }

  lemma {:induction false} NamesAreGenerated(m: Table, births: Births, p: string)
    requires Inv(m, births) && p in m
    ensures Generated(m[p]) && Dotless(m[p])
    decreases |p|
  {
    assert EntryOk(m, births, p);
    hide Generated;
    hide Numeric;
    hide Dotless;
    if Numeric(m[p], births[p] + 1) {
      NumericIsGenerated(m[p], births[p] + 1);
    } else {
      ComponentDotless(p);
      NamesAreGenerated(m, births, Parent(p));
      ChildIsGenerated(m[Parent(p)], Component(p));
    }
  }

  lemma {:induction false} ChildIsGenerated(y: string, c: string)
    requires Generated(y) && Dotless(y) && Dotless(c)
    ensures Generated(y + "#" + c) && Dotless(y + "#" + c)
  {
    var n: nat :| Starts(y, n);
    var x := y + "#" + c;
    hide Pad3;
    assert x[1..1 + |Pad3(n)|] == y[1..1 + |Pad3(n)|];
    assert Starts(x, n);
    forall i | 0 <= i < |x| ensures x[i] != '.' {
      if i > |y| { assert x[i] == c[i - |y| - 1]; }
    }
  }

  /** A path that is allocated directly: a stem, or a stem and a component. */
  predicate Over(stem: string, p: string) {
    p == stem || (|stem| < |p| && p[..|stem|] == stem && p[|stem|] == '.' && Dotless(p[|stem| + 1..]))
  }

  lemma {:induction false} OverParts(stem: string, p: string)
    requires Over(stem, p) && Dotless(stem) && stem != ""
    ensures HasParent(p) ==> Parent(p) == stem && p != stem
    ensures p != stem ==> LastDot(p) == |stem| && p == stem + "." + p[|stem| + 1..]
    ensures p == stem ==> Dotless(p)
  {
  }

  /** Two paths over different stems, or over one stem but neither the stem itself, get
      different names. */
  lemma {:induction false} PathsApart(m: Table, births: Births, s: string, p: string, t: string, q: string)
    requires Inv(m, births) && p in m && q in m && p != q
    requires Over(s, p) && Over(t, q) && Dotless(s) && Dotless(t) && s != "" && t != ""
    requires s == t ==> p != s && q != t
    ensures m[p] != m[q]
  {
    OverParts(s, p);
    OverParts(t, q);
    LastDotOf(s, "");
    LastDotOf(t, "");
    NotExplained(births, p, q, s, t);
    if m[p] == m[q] {
      ClashExplained(m, births, p, q);
      assert false;
    }
  }

  lemma {:induction false} NotExplained(births: Births, p: string, q: string, s: string, t: string)
    requires !HasParent(s) && !HasParent(t) && p != q
    requires HasParent(p) ==> Parent(p) == s && q != s
    requires HasParent(q) ==> Parent(q) == t && p != t
    ensures !Explained(births, p, q)
  {
    assert !Ancestor(p, q) && !Ancestor(q, p);
    assert !Explained(births, s, t);
  }

  // ----- well formed arguments -----

  /** The function's own names: not like a generated one, no dots, and hash marks only where
      they hide something. A record has fields. */
  ghost predicate GoodFormal(f: Formal) {
    && GoodName(f.name) && GoodName(Key(f))
    && (f.RecArray? ==> Dotless(f.elem) && (f.elem != "" ==> GoodComponent(f.elem)))
    && (f.Record? || f.RecArray? ==> f.fields != [] && GoodFields(f.fields))
  }

  ghost predicate GoodName(x: string) {
    x != "" && Dotless(x) && !Generated(x) && x != M.I1 && x != M.I2
  }

  ghost predicate GoodFields(fields: seq<string>) {
    && (forall i :: 0 <= i < |fields| ==> GoodComponent(fields[i]) && Dotless(fields[i]))
    && forall i, j :: 0 <= i < j < |fields| ==> fields[i] != fields[j]
  }

  ghost predicate GoodFormals(formals: seq<Formal>) {
    && (forall i :: 0 <= i < |formals| ==> GoodFormal(formals[i]))
    && forall i, j :: 0 <= i < j < |formals| ==> Key(formals[i]) != Key(formals[j])
  }

  // ----- the table after allocation -----

  ghost predicate Extends(m: Table, n: Table) {
    forall p :: p in m ==> p in n && n[p] == m[p]
  }

  lemma {:induction false} FieldsKeepInv(m: Table, births: Births, vn: string, fields: seq<string>) returns (b: Births)
    requires Inv(m, births) && GoodFields(fields) && Dotless(vn) && vn != ""
    ensures Inv(AllocFields(m, vn, fields).0, b)
    decreases |fields|
  {
    hide Register;
    hide Inv;
    hide GoodPath;
    b := births;
    if fields != [] {
      var path := FieldPath(vn, fields[0]);
      GoodFieldPath(vn, fields[0]);
      assert GoodFields(fields[1..]);
      RegisterKeepsInv(m, births, Use(path, "p"));
      b := FieldsKeepInv(Register(m, path, "p").0, BirthsAfter(m, births, Use(path, "p")), vn, fields[1..]);
    }
  }

  lemma {:induction false} GoodFieldPath(vn: string, field: string)
    requires GoodComponent(field) && Dotless(field) && Dotless(vn) && vn != ""
    ensures GoodPath(FieldPath(vn, field)) && Over(vn, FieldPath(vn, field)) && FieldPath(vn, field) != vn
  {
  }

  lemma {:induction false} GoodVarPath(f: Formal)
    requires GoodFormal(f) && !f.Scalar?
    ensures GoodPath(VarPath(f)) && Over(Key(f), VarPath(f))
  {
  }

  lemma {:induction false} ArgKeepsInv(m: Table, births: Births, f: Formal) returns (b: Births)
    requires Inv(m, births) && GoodFormal(f)
    ensures Inv(AllocArg(m, f).0, b) && Extends(m, AllocArg(m, f).0)
  {
    hide Register;
    hide Inv;
    hide GoodPath;
    b := births;
    if !f.Scalar? {
      GoodVarPath(f);
      var use := Use(VarPath(f), "v");
      RegisterKeepsInv(m, births, use);
      b := BirthsAfter(m, births, use);
      var v := Register(m, VarPath(f), "v");
      if f.Record? || f.RecArray? {
        NamesAreGenerated(v.0, b, VarPath(f));
        FieldsAreCarried(v.0, v.1, f.fields);
        b := FieldsKeepInv(v.0, b, v.1, f.fields);
      }
    }
  }

  /** a carries the names that the table has for f. */
  ghost predicate Carries(m: Table, f: Formal, a: M.Arg) {
    && a.formal == f.name && a.dir == f.dir
    && (f.Scalar? <==> a.Simple?) && (f.Record? <==> a.Record?) && (f.Array? <==> a.Table?)
    && (!f.Scalar? ==> VarPath(f) in m && m[VarPath(f)] == a.vn)
    && (f.Record? || f.RecArray? ==> CarriesFields(m, a.vn, f.fields, a.cols))
  }

  ghost predicate CarriesFields(m: Table, vn: string, fields: seq<string>, cols: seq<M.Col>) {
    && |cols| == |fields|
    && forall i :: 0 <= i < |fields| ==>
         && FieldPath(vn, fields[i]) in m && cols[i].field == fields[i] && cols[i].param == m[FieldPath(vn, fields[i])]
  }

  lemma {:induction false} FieldsAreCarried(m: Table, vn: string, fields: seq<string>)
    ensures var r := AllocFields(m, vn, fields);
      Extends(m, r.0) && CarriesFields(r.0, vn, fields, r.1)
    decreases |fields|
  {
    hide Register;
    if fields != [] {
      var first := Register(m, FieldPath(vn, fields[0]), "p");
      FieldsAreCarried(first.0, vn, fields[1..]);
    }
  }

  lemma {:induction false} ArgCarries(m: Table, f: Formal, n: Table)
    requires Extends(AllocArg(m, f).0, n)
    ensures Carries(n, f, AllocArg(m, f).1)
  {
    hide Register;
    if f.Record? || f.RecArray? {
      var v := Register(m, VarPath(f), "v");
      FieldsAreCarried(v.0, v.1, f.fields);
      assert VarPath(f) in v.0;
    }
  }

  lemma {:induction false} ArgsKeepInv(m: Table, births: Births, formals: seq<Formal>) returns (b: Births)
    requires Inv(m, births) && forall i :: 0 <= i < |formals| ==> GoodFormal(formals[i])
    ensures var r := AllocArgs(m, formals);
      && Inv(r.0, b) && Extends(m, r.0) && |r.1| == |formals|
      && forall i :: 0 <= i < |formals| ==> Carries(r.0, formals[i], r.1[i])
    decreases |formals|
  {
    hide AllocArg;
    hide Carries;
    b := births;
    if formals != [] {
      var first := AllocArg(m, formals[0]);
      b := ArgKeepsInv(m, births, formals[0]);
      b := ArgsKeepInv(first.0, b, formals[1..]);
      var rest := AllocArgs(first.0, formals[1..]);
      ArgCarries(m, formals[0], rest.0);
      forall i | 0 <= i < |formals| ensures Carries(rest.0, formals[i], ([first.1] + rest.1)[i]) {
        if i > 0 { assert formals[1..][i - 1] == formals[i]; }
      }
    }
  }

  // ----- no two names are the same -----

  /** x is the table's name for a path over stem. */
  ghost predicate NamedOver(m: Table, x: string, stem: string) {
    exists p :: p in m && m[p] == x && Over(stem, p)
  }

  lemma {:induction false} VarIsOver(m: Table, births: Births, f: Formal, a: M.Arg)
    requires Inv(m, births) && GoodFormal(f) && Carries(m, f, a) && !f.Scalar?
    ensures Generated(a.vn) && Dotless(a.vn) && a.vn != "" && a.vn != f.name && a.vn != Key(f)
    ensures NamedOver(m, a.vn, Key(f))
  {
    hide Inv;
    GoodVarPath(f);
    NamesAreGenerated(m, births, VarPath(f));
  }

  lemma {:induction false} ParamIsOver(m: Table, births: Births, f: Formal, a: M.Arg, i: nat)
    requires Inv(m, births) && GoodFormal(f) && Carries(m, f, a) && (f.Record? || f.RecArray?) && i < |a.cols|
    ensures var p := FieldPath(a.vn, f.fields[i]);
      p in m && m[p] == a.cols[i].param && Over(a.vn, p) && p != a.vn
    ensures Generated(a.cols[i].param) && a.cols[i].param != a.vn
  {
    hide Inv;
    var p := FieldPath(a.vn, f.fields[i]);
    GoodVarPath(f);
    VarIsOver(m, births, f, a);
    GoodFieldPath(a.vn, f.fields[i]);
    NamesAreGenerated(m, births, p);
    OverParts(Key(f), VarPath(f));
    OverParts(a.vn, p);
    PathsApart(m, births, Key(f), VarPath(f), a.vn, p);
  }

  lemma {:induction false} OneStem(s: string, t: string, p: string)
    requires Over(s, p) && Over(t, p) && Dotless(s) && Dotless(t) && s != "" && t != ""
    ensures s == t
  {
  }

  lemma {:induction false} OverApart(m: Table, births: Births, x: string, s: string, y: string, t: string)
    requires Inv(m, births) && NamedOver(m, x, s) && NamedOver(m, y, t)
    requires s != t && Dotless(s) && Dotless(t) && s != "" && t != ""
    ensures x != y
  {
    hide Inv;
    var p :| p in m && m[p] == x && Over(s, p);
    var q :| q in m && m[q] == y && Over(t, q);
    OverParts(s, p);
    OverParts(t, q);
    if p == q {
      OneStem(s, t, p);
      assert false;
    }
    PathsApart(m, births, s, p, t, q);
  }

  /** x is one of the argument's names, or a generated name of a path over them or its variable. */
  ghost predicate Own(m: Table, f: Formal, a: M.Arg, x: string) {
    || x == f.name || x == Key(f)
    || (Generated(x) && (NamedOver(m, x, Key(f)) || (!a.Simple? && NamedOver(m, x, a.vn))))
  }

  lemma {:induction false} AllAreOwn(m: Table, births: Births, f: Formal, a: M.Arg)
    requires Inv(m, births) && GoodFormal(f) && Carries(m, f, a)
    ensures forall x :: x in R.Locals(a) || x in R.BindsOf(a) ==> Own(m, f, a, x)
    ensures f.Record? || f.RecArray? ==> a.vn !in R.Params(a.cols)
  {
    hide Inv;
    hide Generated;
    hide GoodComponent;
    if !f.Scalar? { VarIsOver(m, births, f, a); }
    if f.Record? || f.RecArray? {
      forall c | c in a.cols ensures Own(m, f, a, c.param) && c.param != a.vn {
        var i :| 0 <= i < |a.cols| && a.cols[i] == c;
        ParamIsOver(m, births, f, a, i);
      }
    }
  }

  lemma KeysApart(f: Formal, g: Formal)
    requires Key(f) != Key(g)
    ensures f.name != g.name && f.name != Key(g) && g.name != Key(f)
  {
    P.ReplacedName(f.name);
    P.ReplacedName(g.name);
  }

  lemma {:induction false} OwnNamesApart(m: Table, births: Births, f: Formal, a: M.Arg, g: Formal, b: M.Arg)
    requires Inv(m, births) && GoodFormal(f) && Carries(m, f, a) && GoodFormal(g) && Carries(m, g, b)
    requires Key(f) != Key(g)
    ensures forall x :: Own(m, f, a, x) ==> !Own(m, g, b, x)
  {
    hide Inv;
    hide Register;
    hide Key;
    hide Dotless;
    KeysApart(f, g);
    if !f.Scalar? { VarIsOver(m, births, f, a); }
    if !g.Scalar? { VarIsOver(m, births, g, b); }
    hide Generated;
    hide Carries;
    hide NamedOver;
    if !f.Scalar? && !g.Scalar? { OverApart(m, births, a.vn, Key(f), b.vn, Key(g)); }
    forall x | Own(m, f, a, x) && Own(m, g, b, x) ensures false {
      if x == f.name || x == Key(f) || x == g.name || x == Key(g) {
        assert false;
      } else {
        var s := if NamedOver(m, x, Key(f)) then Key(f) else a.vn;
        var t := if NamedOver(m, x, Key(g)) then Key(g) else b.vn;
        OverApart(m, births, x, s, x, t);
      }
    }
  }

  lemma {:induction false} ColsAreDistinct(m: Table, births: Births, vn: string, fields: seq<string>, cols: seq<M.Col>)
    requires Inv(m, births) && GoodFields(fields) && CarriesFields(m, vn, fields, cols) && Dotless(vn) && vn != ""
    ensures R.ColsDistinct(cols)
    decreases |cols|
  {
    hide Inv;
    if cols != [] {
      forall c | c in cols[1..] ensures c.field != cols[0].field && c.param != cols[0].param {
        var i :| 0 <= i < |cols[1..]| && cols[1..][i] == c;
        var p, q := FieldPath(vn, fields[0]), FieldPath(vn, fields[i + 1]);
        GoodFieldPath(vn, fields[0]);
        GoodFieldPath(vn, fields[i + 1]);
        assert p[|vn| + 1..] == fields[0] && q[|vn| + 1..] == fields[i + 1];
        PathsApart(m, births, vn, p, vn, q);
      }
      assert GoodFields(fields[1..]) && CarriesFields(m, vn, fields[1..], cols[1..]);
      ColsAreDistinct(m, births, vn, fields[1..], cols[1..]);
    }
  }

  lemma {:induction false} NotGenerated()
    ensures !Generated(M.I1) && !Generated(M.I2) && !Generated(M.RET)
  {
  }

  lemma {:induction false} NotAParam(m: Table, births: Births, f: Formal, a: M.Arg, x: string)
    requires Inv(m, births) && GoodFormal(f) && Carries(m, f, a) && (f.Record? || f.RecArray?) && !Generated(x)
    ensures x !in R.Params(a.cols)
  {
    hide Inv;
    hide Generated;
    forall c | c in a.cols ensures c.param != x {
      var i :| 0 <= i < |a.cols| && a.cols[i] == c;
      ParamIsOver(m, births, f, a, i);
    }
  }

  lemma {:induction false} ArgIsOk(m: Table, births: Births, f: Formal, a: M.Arg)
    requires Inv(m, births) && GoodFormal(f) && Carries(m, f, a)
    ensures R.ArgOk(a)
  {
    hide Inv;
    AllAreOwn(m, births, f, a);
    NotGenerated();
    if !f.Scalar? { VarIsOver(m, births, f, a); }
    hide Generated;
    hide NamedOver;
    if f.Record? || f.RecArray? {
      NotAParam(m, births, f, a, f.name);
      ColsAreDistinct(m, births, a.vn, f.fields, a.cols);
    }
  }

  /** All arguments together. */
  lemma {:induction false} ArgsAreOk(m: Table, births: Births, formals: seq<Formal>, args: seq<M.Arg>)
    requires Inv(m, births) && GoodFormals(formals) && |args| == |formals|
    requires forall i :: 0 <= i < |formals| ==> Carries(m, formals[i], args[i])
    ensures R.ArgsOk(args)
    decreases |args|
  {
    hide Inv;
    hide Carries;
    hide GoodFormal;
    if args != [] {
      var f, a := formals[0], args[0];
      ArgIsOk(m, births, f, a);
      AllAreOwn(m, births, f, a);
      forall b | b in args[1..]
        ensures b.Name() != a.Name() && R.Locals(b) !! R.Locals(a) && R.BindsOf(b) !! R.BindsOf(a)
      {
        var i :| 0 <= i < |args[1..]| && args[1..][i] == b;
        TwoArgsAreOk(m, births, f, a, formals[i + 1], b);
      }
      forall i | 0 <= i < |formals[1..]|
        ensures Carries(m, formals[1..][i], args[1..][i]) && GoodFormal(formals[1..][i])
      {
        assert formals[1..][i] == formals[i + 1] && args[1..][i] == args[i + 1];
      }
      ArgsAreOk(m, births, formals[1..], args[1..]);
    }
  }

  lemma {:induction false} TwoArgsAreOk(m: Table, births: Births, f: Formal, a: M.Arg, g: Formal, b: M.Arg)
    requires Inv(m, births) && GoodFormal(f) && Carries(m, f, a) && GoodFormal(g) && Carries(m, g, b)
    requires Key(f) != Key(g)
    ensures b.Name() != a.Name() && R.Locals(b) !! R.Locals(a) && R.BindsOf(b) !! R.BindsOf(a)
  {
    hide Inv;
    hide GoodFormal;
    AllAreOwn(m, births, f, a);
    AllAreOwn(m, births, g, b);
    OwnNamesApart(m, births, f, a, g, b);
    hide Own;
  }

  // ----- the result -----

  /** Whatever was allocated before, the function that prepareCall makes from well formed
      arguments meets the precondition of the theorem about the block. */
  lemma {:induction false} AllocationMeetsBlock(m: Table, births: Births, formals: seq<Formal>, result: Option<Formal>,
                                                handles: bool)
    requires Inv(m, births)
    requires result.Some? ==> result.value.name == M.RET && result.value.dir == M.Out
    requires GoodFormals(formals + if result.Some? then [result.value] else [])
    requires forall i :: 0 <= i < |formals| ==> formals[i].name != M.RET && Key(formals[i]) != M.RET
    ensures var all := AllocArgs(m, formals + if result.Some? then [result.value] else []).1;
      && |all| >= |formals|
      && P.FunctionOk(M.Function(all[..|formals|], if result.Some? then Some(all[|formals|]) else None, handles))
      && (result.Some? && (result.value.Record? || result.value.RecArray?) ==> M.RET !in P.PostBinds(all))
  {
    hide Inv;
    var fs := formals + if result.Some? then [result.value] else [];
    var n := AllocArgs(m, fs);
    var b := ArgsKeepInv(m, births, fs);
    ArgsAreOk(n.0, b, fs, n.1);
    hide Carries;
    hide AllocArgs;
    assert n.1 == n.1[..|formals|] + if result.Some? then [n.1[|formals|]] else [];
    forall i | 0 <= i < |formals| ensures M.RET !in R.BindsOf(n.1[i]) {
      assert fs[i] == formals[i];
      RetIsNoBind(n.0, b, fs[i], n.1[i]);
    }
    if result.Some? {
      CarriedResult(n.0, b, fs[|formals|], n.1[|formals|]);
      if M.RET in P.PostBinds(n.1) { var a := PostedBy(n.1, M.RET); }
    }
  }

  lemma {:induction false} CarriedResult(m: Table, births: Births, f: Formal, a: M.Arg)
    requires Inv(m, births) && GoodFormal(f) && Carries(m, f, a)
    ensures a.formal == f.name && a.dir == f.dir
    ensures f.Record? || f.RecArray? ==> M.RET !in R.Carriers(a)
  {
    hide Inv;
    NotGenerated();
    if f.Record? || f.RecArray? { NotAParam(m, births, f, a, M.RET); }
  }

  lemma {:induction false} PostedBy(args: seq<M.Arg>, k: string) returns (a: M.Arg)
    requires k in P.PostBinds(args)
    ensures a in args && k in R.Carriers(a)
  {
    if args[0].dir.IsOutput() && k in R.Carriers(args[0]) {
      a := args[0];
    } else {
      a := PostedBy(args[1..], k);
    }
  }

  lemma {:induction false} RetIsNoBind(m: Table, births: Births, f: Formal, a: M.Arg)
    requires Inv(m, births) && GoodFormal(f) && Carries(m, f, a) && f.name != M.RET && Key(f) != M.RET
    ensures M.RET !in R.BindsOf(a)
  {
    hide Inv;
    CarriedResult(m, births, f, a);
  }
}
