/** Directives from source comments rewrite the table of functions: private, rename, replace,
    handle, tag and max-table-size. */
module Annotations {
  import opened Basics

  // ----- names -----

  function Lower(s: string): (r: string)
    ensures |r| == |s| && forall i :: 0 <= i < |s| ==> r[i] == LowerChar(s[i])
  {
    seq(|s|, i requires 0 <= i < |s| => LowerChar(s[i]))
  }

  function Upper(s: string): (r: string)
    ensures |r| == |s| && forall i :: 0 <= i < |s| ==> r[i] == UpperChar(s[i])
  {
    seq(|s|, i requires 0 <= i < |s| => UpperChar(s[i]))
  }

  /** The first underscore at i or later, or the length. */
  function Underscore(s: string, i: nat): (r: nat)
    requires i <= |s|
    ensures i <= r <= |s|
    decreases |s| - i
  {
    if i == |s| || s[i] == '_' then i else Underscore(s, i + 1)
  }

  function UnoCap(s: string): string {
    var i := Underscore(s, 0);
    if i == 0 || i == |s| then (if s == "" then "" else Upper(s[..1]) + Lower(s[1..]))
    else Upper(s[..i]) + s[i..i + 1] + Lower(s[i + 1..])
  }

  class Function {
    const package: string
    const name: string
    var alias: string
    var replacement: Function?
    var replacementIsJSON: bool
    var tags: seq<string>
    var handles: seq<string>
    var maxTableSize: int

    constructor (package: string, name: string)
      ensures this.package == package && this.name == name
      ensures alias == "" && replacement == null && !replacementIsJSON && tags == [] && handles == []
      ensures maxTableSize == 0
    {
      this.package, this.name := package, name;
      alias, replacement, replacementIsJSON, tags, handles, maxTableSize := "", null, false, [], [], 0;
    }

    /** The alias is not used: a renamed function keeps its name. */
    function Name(): string {
      if package == "" then Lower(name) else UnoCap(package) + "." + Lower(name)
    }

    function Key(): string {
      Lower(Name())
    }

    twostate predicate OnlyHandlesChanged()
      reads this
    {
      && alias == old(alias) && replacement == old(replacement) && replacementIsJSON == old(replacementIsJSON)
      && tags == old(tags) && maxTableSize == old(maxTableSize)
    }
  }

  lemma {:induction false} LowerConcat(a: string, b: string)
    ensures Lower(a + b) == Lower(a) + Lower(b)
  {
  }

  lemma {:induction false} LowerUnoCap(s: string)
    ensures Lower(UnoCap(s)) == Lower(s)
  {
    var u := UnoCap(s);
    assert |u| == |s|;
    forall k | 0 <= k < |s| ensures LowerChar(u[k]) == LowerChar(s[k]) {
      assert u[k] == s[k] || u[k] == UpperChar(s[k]) || u[k] == LowerChar(s[k]);
    }
  }

  /** Up to the first underscore the letters are capitals and after it small; without one, or when
      it comes first, only the first letter is a capital. */
  lemma {:induction false} UnoCapLetters(s: string, i: nat)
    requires i <= |s| && (i < |s| ==> s[i] == '_') && forall j :: 0 <= j < i ==> s[j] != '_'
    ensures |UnoCap(s)| == |s|
    ensures forall k :: 0 <= k < |s| ==>
      UnoCap(s)[k] == if k < (if 0 < i < |s| then i else 1) then UpperChar(s[k]) else LowerChar(s[k])
  {
    FirstUnderscore(s, 0, i);
  }

  lemma {:induction false} FirstUnderscore(s: string, k: nat, i: nat)
    requires k <= i <= |s| && (i < |s| ==> s[i] == '_') && forall j :: 0 <= j < i ==> s[j] != '_'
    ensures Underscore(s, k) == i
    decreases i - k
  {
    if k < i { FirstUnderscore(s, k + 1, i); }
  }

  // ----- directives -----

  datatype Annotation = Annotation(package: string, typ: string, name: string, other: string, size: int) {
    function FullName(): string {
      if package == "" || name == "" then name else package + "." + name
    }

    function FullOther(): string {
      if package == "" || other == "" then other else package + "." + other
    }

    predicate Ignored() {
      || name == "" || typ == ""
      || (other == "" && !(typ == "private" || typ == "handle" || typ == "max-table-size"))
      || (size <= 0 && typ == "max-table-size")
    }

    function Subject(): string {
      Lower(FullName())
    }

    function Object(): string {
      Lower(FullOther())
    }

    predicate IsReplace() {
      !Ignored() && (typ == "replace" || typ == "replace_json")
    }
  }

  /** A directive that names a function's package and name finds it, whatever the letter case. */
  lemma {:induction false} SubjectFindsFunction(f: Function, a: Annotation)
    requires Lower(a.package) == Lower(f.package) && Lower(a.name) == Lower(f.name) && a.name != ""
    ensures a.Subject() == f.Key()
  {
    if f.package == "" {
      assert |a.package| == 0;
      assert Lower(Lower(f.name)) == Lower(f.name);
    } else {
      LowerUnoCap(f.package);
      LowerConcat(UnoCap(f.package) + ".", Lower(f.name));
      LowerConcat(UnoCap(f.package), ".");
      LowerConcat(a.package + ".", a.name);
      LowerConcat(a.package, ".");
      assert Lower(Lower(f.name)) == Lower(f.name);
    }
  }

  /** The directive's second name stands for g. */
  lemma {:induction false} ObjectFindsFunction(g: Function, a: Annotation)
    requires Calls(a.package, a.other, g)
    ensures a.Object() == g.Key()
  {
    SubjectFindsFunction(g, a.(name := a.other));
  }

  /** The name, given with its package, is that of f in some letter case. */
  predicate Calls(package: string, name: string, f: Function) {
    name != "" && Lower(package) == Lower(f.package) && Lower(name) == Lower(f.name)
  }

  /** A name of the package in lower case. */
  function Qualified(package: string, name: string): string {
    if package == "" then Lower(name) else Lower(package) + "." + Lower(name)
  }

  lemma {:induction false} ObjectIsQualified(a: Annotation)
    requires a.other != ""
    ensures a.Object() == Qualified(a.package, a.other)
  {
    if a.package != "" {
      LowerConcat(a.package + ".", a.other);
      LowerConcat(a.package, ".");
    }
  }

  // ----- the table -----

  type Table = map<string, Function>

  predicate Injective(m: Table) {
    forall k, l :: k in m && l in m && m[k] == m[l] ==> k == l
  }

  /** The functions under their names; of two with the same name, the last. */
  function Initial(functions: seq<Function>): Table {
    if functions == [] then map[]
    else
      var last := functions[|functions| - 1];
      Initial(functions[..|functions| - 1])[last.Key() := last]
  }

  function Next(m: Table, a: Annotation): Table {
    var k, v := a.Subject(), a.Object();
    if a.Ignored() then m
    else if a.typ == "private" then m - {k}
    else if k !in m then m
    else if a.typ == "rename" then (m - {k})[v := m[k]]
    else if a.typ == "replace" || a.typ == "replace_json" then (m - {v})[m[k].Key() := m[k]]
    else m
  }

  function After(m: Table, annotations: seq<Annotation>, i: nat): Table
    requires i <= |annotations|
    decreases |annotations| - i
  {
    if i == |annotations| then m else After(Next(m, annotations[i]), annotations, i + 1)
  }

  /** The directive does not replace a renamed function, nor a function with itself. */
  predicate Sound(m: Table, a: Annotation) {
    a.IsReplace() && a.Subject() in m ==> a.Subject() == m[a.Subject()].Key() && a.Subject() != a.Object()
  }

  predicate Clean(m: Table, annotations: seq<Annotation>, i: nat)
    requires i <= |annotations|
    decreases |annotations| - i
  {
    i == |annotations| || (Sound(m, annotations[i]) && Clean(Next(m, annotations[i]), annotations, i + 1))
  }

  // ----- replacements -----

  /** The replacement of each function in gone is an earlier one. */
  ghost predicate Settled(gone: seq<Function>)
    reads gone
  {
    forall i :: 0 <= i < |gone| ==>
      gone[i].replacement == null || exists j :: 0 <= j < i && gone[j] == gone[i].replacement
  }

  /** Each function of the table is there once, and its replacement has left the table. */
  ghost predicate Good(m: Table, gone: seq<Function>)
    reads gone, m.Values
  {
    && Injective(m) && Settled(gone)
    && forall k :: k in m ==> m[k] !in gone && (m[k].replacement == null || m[k].replacement in gone)
  }

  predicate InPackage(f: Function, package: string) {
    Lower(f.package) == Lower(package)
  }

  /** The function is in the table under its own name. */
  predicate Listed(m: Table, f: Function) {
    f.Key() in m && m[f.Key()] == f
  }

  /** Where a directive that calls f leaves the table. */
  predicate Moves(m: Table, n: Table, a: Annotation, f: Function) {
    match a.typ
    case "private" => n == m - {f.Key()}
    case "rename" => a.other != "" ==> n == (m - {f.Key()})[Qualified(a.package, a.other) := f]
    case "replace" => forall g :: g in m.Values && Target(m, a, f, g) ==> n == m - {g.Key()}
    case "replace_json" => forall g :: g in m.Values && Target(m, a, f, g) ==> n == m - {g.Key()}
    case _ => n == m
  }

  /** What a directive that calls f does to the fields of f. */
  twostate predicate Sets(m: Table, a: Annotation, f: Function)
    reads f
  {
    && (a.typ == "rename" && a.other != "" ==> f.alias == a.other)
    && (a.typ == "replace" || a.typ == "replace_json" ==>
          forall g :: g in m.Values && Target(m, a, f, g) ==>
            f.replacement == g && f.replacementIsJSON == (a.typ == "replace_json"))
    && (a.typ == "tag" && a.other != "" ==> f.tags == old(f.tags) + [a.other])
    && (a.typ == "max-table-size" && a.size > 0 ==>
          f.maxTableSize == if old(f.maxTableSize) > a.size then old(f.maxTableSize) else a.size)
  }

  /** The directive's second name calls another function of the table. */
  predicate Target(m: Table, a: Annotation, f: Function, g: Function) {
    Listed(m, g) && Calls(a.package, a.other, g) && g != f
  }

  twostate predicate Effects(m: Table, n: Table, a: Annotation)
    reads m.Values
  {
    && (forall f :: f in m.Values && Listed(m, f) && Calls(a.package, a.name, f) ==> Moves(m, n, a, f) && Sets(m, a, f))
    && (a.typ == "handle" && a.name != "" ==> n == m && forall f :: f in m.Values ==>
          f.handles == old(f.handles) + if Lower(f.package) == Lower(a.package) then [Upper(a.name)] else [])
    && (Incomplete(a) ==> n == m && forall f :: f in m.Values ==> unchanged(f))
  }

  /** The directive lacks its name, its kind, its second name or its size. */
  predicate Incomplete(a: Annotation) {
    match a.typ
    case "" => true
    case "private" => a.name == ""
    case "handle" => a.name == ""
    case "max-table-size" => a.name == "" || a.size <= 0
    case _ => a.name == "" || a.other == ""
  }

  lemma HandleMovesNothing(m: Table, a: Annotation)
    ensures a.typ == "handle" ==> Next(m, a) == m && (a.name != "" ==> !a.Ignored())
    ensures Incomplete(a) ==> a.Ignored()
  {
  }

  lemma {:induction false} Moved(m: Table, a: Annotation, f: Function)
    requires Injective(m) && Listed(m, f) && Calls(a.package, a.name, f)
    ensures Moves(m, Next(m, a), a, f) && a.Subject() == f.Key()
    ensures a.other != "" && a.typ in {"rename", "replace", "replace_json", "tag"} ==> !a.Ignored()
    ensures a.typ == "max-table-size" && a.size > 0 ==> !a.Ignored()
    ensures forall g :: g in m.Values && Target(m, a, f, g) ==> a.Object() in m && m[a.Object()] == g
  {
    hide Lower;
    hide Function.Key;
    SubjectFindsFunction(f, a);
    forall g | g in m.Values && Target(m, a, f, g) ensures a.Object() == g.Key() {
      ObjectFindsFunction(g, a);
    }
    if a.other != "" { ObjectIsQualified(a); }
  }

  /** What a directive does to the functions of the table, field by field. */
  twostate predicate Did(m: Table, a: Annotation)
    reads m.Values
  {
    forall k :: k in m ==> DidTo(m, a, m[k], !a.Ignored() && k == a.Subject())
  }

  twostate predicate DidTo(m: Table, a: Annotation, f: Function, named: bool)
    reads f
  {
    && f.alias == (if named && a.typ == "rename" then a.other else old(f.alias))
    && f.replacement ==
         (if named && a.IsReplace() then (if a.Object() in m then m[a.Object()] else null) else old(f.replacement))
    && f.replacementIsJSON == (if named && a.IsReplace() then a.typ == "replace_json" else old(f.replacementIsJSON))
    && f.tags == old(f.tags) + (if named && a.typ == "tag" then [a.other] else [])
    && f.maxTableSize ==
         (if named && a.typ == "max-table-size" && a.size >= old(f.maxTableSize) then a.size else old(f.maxTableSize))
    && f.handles == old(f.handles) +
         (if !a.Ignored() && a.typ == "handle" && InPackage(f, a.package) then [Upper(a.name)] else [])
  }

  /** From a good table, the step is sound exactly when each function stays in the table once
      and the function does not replace itself. */
  method Replace(m: Table, f: Function, a: Annotation, ghost gone: seq<Function>)
    returns (n: Table, ghost left: seq<Function>)
    requires a.IsReplace() && a.Subject() in m && f == m[a.Subject()]
    modifies f`replacement, f`replacementIsJSON
    ensures n == Next(m, a) && DidTo(m, a, f, true)
    ensures old(Good(m, gone)) ==> (Sound(m, a) <==> Injective(n) && f.replacement != f)
    ensures old(Good(m, gone)) && Sound(m, a) ==> Good(n, left) && |left| <= |gone| + 1
  {
    hide Function.Key;
    hide Next;
    hide Sound;
    var k, v := a.Subject(), a.Object();
    f.replacement := if v in m then m[v] else null;
    f.replacementIsJSON := a.typ == "replace_json";
    n := (m - {v})[f.Key() := f];
    left := if v in m then gone + [m[v]] else gone;
    ReplaceDecides(m, f, a);
    if GoodBut(m, gone, f) && Sound(m, a) { ReplaceSettles(m, f, a, gone); }
  }

  lemma {:induction false} ReplaceDecides(m: Table, f: Function, a: Annotation)
    requires a.IsReplace() && a.Subject() in m && f == m[a.Subject()]
    ensures Next(m, a) == (m - {a.Object()})[f.Key() := f]
    ensures Injective(m) ==>
      (Sound(m, a) <==> Injective(Next(m, a)) && !(a.Object() in m && m[a.Object()] == f))
  {
    hide Lower;
    hide Function.Key;
    var k, v, n := a.Subject(), a.Object(), Next(m, a);
    assert n == (m - {v})[f.Key() := f];
    if Injective(m) && k != v && k != f.Key() {
      assert n[k] == n[f.Key()];
    }
  }

  /** Good, but for the replacement of f. */
  ghost predicate GoodBut(m: Table, gone: seq<Function>, f: Function)
    reads gone, m.Values
  {
    && Injective(m) && Settled(gone)
    && forall k :: k in m ==> m[k] !in gone && (m[k] == f || m[k].replacement == null || m[k].replacement in gone)
  }

  lemma {:induction false} ReplaceSettles(m: Table, f: Function, a: Annotation, gone: seq<Function>)
    requires a.IsReplace() && a.Subject() in m && f == m[a.Subject()] && Sound(m, a) && GoodBut(m, gone, f)
    requires f.replacement == if a.Object() in m then m[a.Object()] else null
    ensures Good(Next(m, a), if a.Object() in m then gone + [m[a.Object()]] else gone)
  {
    hide Lower;
    hide Function.Key;
    ReplaceDecides(m, f, a);
    var v, n := a.Object(), Next(m, a);
    hide Next;
    if v in m {
      var g, left := m[v], gone + [m[v]];
      if g.replacement != null {
        var j :| 0 <= j < |gone| && gone[j] == g.replacement;
        assert left[j] == g.replacement;
      }
      forall i | 0 <= i < |gone| && gone[i].replacement != null
        ensures exists j :: 0 <= j < i && left[j] == left[i].replacement
      {
        var j :| 0 <= j < i && gone[j] == gone[i].replacement;
        assert left[j] == left[i].replacement;
      }
      assert forall x :: x in left <==> x in gone || x == g;
    }
  }

  method Rename(m: Table, f: Function, a: Annotation, ghost gone: seq<Function>) returns (n: Table)
    requires !a.Ignored() && a.typ == "rename" && a.Subject() in m && f == m[a.Subject()]
    modifies f`alias
    ensures n == Next(m, a) && DidTo(m, a, f, true)
    ensures old(Good(m, gone)) ==> Good(n, gone)
  {
    n := (m - {a.Subject()})[a.Object() := f];
    f.alias := a.other;
  }

  /** The handler goes to all functions of the package. */
  method Handle(m: Table, a: Annotation, ghost gone: seq<Function>)
    requires !a.Ignored() && a.typ == "handle"
    modifies m.Values
    ensures old(Good(m, gone)) ==> Good(m, gone)
    ensures forall f :: f in m.Values ==> f.OnlyHandlesChanged()
    ensures Injective(m) ==> Did(m, a)
  {
    hide Good;
    hide InPackage;
    hide Injective;
    hide Upper;
    HandleEach(m, a.package, Upper(a.name), gone);
  }

  method HandleEach(m: Table, package: string, handler: string, ghost gone: seq<Function>)
    modifies m.Values
    ensures old(Good(m, gone)) ==> Good(m, gone)
    ensures forall f :: f in m.Values ==> f.OnlyHandlesChanged()
    ensures Injective(m) ==> forall k :: k in m ==>
      m[k].handles == old(m[k].handles) + if InPackage(m[k], package) then [handler] else []
  {
    hide Good;
    hide InPackage;
    var rest := m.Keys;
    while rest != {}
      invariant rest <= m.Keys
      invariant forall f :: f in m.Values ==> f.OnlyHandlesChanged()
      invariant Injective(m) ==> forall k :: k in m ==>
        m[k].handles == old(m[k].handles) + if k !in rest && InPackage(m[k], package) then [handler] else []
      invariant old(Good(m, gone)) ==> Good(m, gone)
    {
      var k :| k in rest;
      if InPackage(m[k], package) {
        assert Injective(m) ==> forall l :: l in m && l != k ==> m[l] != m[k];
        AddHandler(m, m[k], handler, gone);
      }
      rest := rest - {k};
    }
  }

  method AddHandler(m: Table, f: Function, handler: string, ghost gone: seq<Function>)
    modifies f`handles
    ensures f.handles == old(f.handles) + [handler]
    ensures old(Good(m, gone)) ==> Good(m, gone)
  {
    f.handles := f.handles + [handler];
  }

  method Mark(m: Table, f: Function, a: Annotation, ghost gone: seq<Function>)
    requires !a.Ignored() && !a.IsReplace() && a.typ != "rename" && a.typ != "handle"
    requires a.Subject() in m && f == m[a.Subject()]
    modifies f`tags, f`maxTableSize
    ensures DidTo(m, a, f, true)
    ensures old(Good(m, gone)) ==> Good(m, gone)
  {
    if a.typ == "max-table-size" && a.size >= f.maxTableSize {
      f.maxTableSize := a.size;
    } else if a.typ == "tag" {
      f.tags := f.tags + [a.other];
    }
  }

  lemma {:induction false} GoodWithout(m: Table, k: string, gone: seq<Function>)
    requires Good(m, gone)
    ensures Good(m - {k}, gone)
  {
  }

  /** One directive. */
  method Step(m: Table, a: Annotation, ghost gone: seq<Function>) returns (n: Table, ghost left: seq<Function>)
    modifies m.Values
    ensures n == Next(m, a) && (Injective(m) ==> Did(m, a))
    ensures Injective(m) ==> Effects(m, n, a)
    ensures old(Good(m, gone)) && Sound(m, a) ==> Good(n, left) && |left| <= |gone| + 1
  {
    hide Annotation.Ignored;
    hide Incomplete;
    hide Injective;
    hide Sound;
    hide Good;
    hide Lower;
    hide Upper;
    hide Next;
    hide Moves;
    hide Function.Key;
    n, left := DoStep(m, a, gone);
    HandleMovesNothing(m, a);
    if Injective(m) {
      forall f | f in m.Values && Listed(m, f) && Calls(a.package, a.name, f)
        ensures Moves(m, n, a, f) && Sets(m, a, f)
      {
        Moved(m, a, f);
      }
    }
  }

  method DoStep(m: Table, a: Annotation, ghost gone: seq<Function>) returns (n: Table, ghost left: seq<Function>)
    modifies m.Values
    ensures n == Next(m, a) && (Injective(m) ==> Did(m, a))
    ensures old(Good(m, gone)) && Sound(m, a) ==> Good(n, left) && |left| <= |gone| + 1
    ensures a.Ignored() ==> n == m && forall f :: f in m.Values ==> unchanged(f)
  {
    hide Sound;
    hide Good;
    n, left := m, gone;
    if a.Ignored() {
      return;
    }
    var k := a.Subject();
    if a.typ == "private" {
      n := m - {k};
      if Good(m, gone) { GoodWithout(m, k, gone); }
    } else if a.typ == "handle" {
      Handle(m, a, gone);
    } else if k in m {
      var f := m[k];
      if a.typ == "rename" {
        n := Rename(m, f, a, gone);
      } else if a.typ == "replace" || a.typ == "replace_json" {
        n, left := Replace(m, f, a, gone);
      } else {
        Mark(m, f, a, gone);
      }
    }
  }

  // ----- the whole pass -----

  ghost predicate Distinct(functions: seq<Function>) {
    forall i, j :: 0 <= i < j < |functions| ==> functions[i] != functions[j]
  }

  /** Each function of out is there once, its replacement is not there, and every chain of
      replacements goes through earlier and earlier members of gone. */
  ghost predicate Resolved(out: seq<Function>, gone: seq<Function>)
    reads out, gone
  {
    && Distinct(out) && Settled(gone)
    && forall f :: f in out ==> f !in gone && (f.replacement == null || f.replacement in gone)
  }

  method Collect(m: Table) returns (out: seq<Function>)
    ensures |out| == |m| && (set f | f in out) == m.Values
    ensures Injective(m) ==> Distinct(out)
  {
    out := [];
    var rest := m.Keys;
    while rest != {}
      invariant rest <= m.Keys && |out| + |rest| == |m|
      invariant forall k :: k in m.Keys - rest ==> m[k] in out
      invariant forall f :: f in out ==> f in m.Values && exists k :: k in m.Keys - rest && m[k] == f
      invariant Injective(m) ==> Distinct(out)
    {
      var k :| k in rest;
      out := out + [m[k]];
      rest := rest - {k};
    }
  }

  /** The result holds one entry for each name left in the table; without unsound directives
      it is resolved. */
  method ApplyAnnotations(functions: seq<Function>, annotations: seq<Annotation>)
    returns (out: seq<Function>, ghost gone: seq<Function>)
    requires Distinct(functions) && forall f :: f in functions ==> f.replacement == null
    modifies functions
    ensures annotations == [] ==> out == functions
    ensures annotations != [] ==>
      var m := After(Initial(functions), annotations, 0);
      && |out| == |m| && (set f | f in out) == m.Values
      && (Clean(Initial(functions), annotations, 0) ==> Resolved(out, gone) && |gone| <= |annotations|)
  {
    hide After;
    hide Clean;
    hide Resolved;
    hide Initial;
    if annotations == [] {
      return functions, [];
    }
    var funcs := Register(functions);
    InitialIsGood(functions);
    funcs, gone := Run(funcs, annotations);
    out := Collect(funcs);
    if Good(funcs, gone) && Distinct(out) { AllResolved(funcs, out, gone); }
  }

  lemma {:induction false} AllResolved(m: Table, out: seq<Function>, gone: seq<Function>)
    requires Good(m, gone) && Distinct(out) && (set f | f in out) == m.Values
    ensures Resolved(out, gone)
  {
    forall f | f in out ensures f !in gone && (f.replacement == null || f.replacement in gone) {
      assert f in (set g | g in out);
      assert f in m.Values;
      var k :| k in m && m[k] == f;
    }
  }

  method Register(functions: seq<Function>) returns (funcs: Table)
    ensures funcs == Initial(functions)
  {
    funcs := map[];
    for i := 0 to |functions|
      invariant funcs == Initial(functions[..i])
    {
      assert functions[..i + 1][..i] == functions[..i];
      funcs := funcs[functions[i].Key() := functions[i]];
    }
    assert functions[..|functions|] == functions;
  }

  method Run(initial: Table, annotations: seq<Annotation>) returns (funcs: Table, ghost gone: seq<Function>)
    modifies initial.Values
    ensures funcs == After(initial, annotations, 0)
    ensures old(Good(initial, [])) && Clean(initial, annotations, 0) ==> Good(funcs, gone) && |gone| <= |annotations|
  {
    hide Next;
    hide Sound;
    hide Good;
    funcs, gone := initial, [];
    for i := 0 to |annotations|
      invariant After(funcs, annotations, i) == After(initial, annotations, 0)
      invariant old(Good(initial, [])) && Clean(initial, annotations, 0) ==>
        Clean(funcs, annotations, i) && Good(funcs, gone) && |gone| <= i
      invariant funcs.Values <= initial.Values
    {
      NextShrinks(funcs, annotations[i]);
      funcs, gone := Step(funcs, annotations[i], gone);
    }
  }

  lemma {:induction false} NextShrinks(m: Table, a: Annotation)
    ensures Next(m, a).Values <= m.Values
  {
  }

  lemma {:induction false} InitialIsGood(functions: seq<Function>)
    ensures Injective(Initial(functions))
    ensures forall k :: k in Initial(functions) ==>
      Initial(functions)[k] in functions && Initial(functions)[k].Key() == k
  {
    if functions != [] { InitialIsGood(functions[..|functions| - 1]); }
  }

  /** At first every function in the table is listed, and any spelling of its name calls it. */
  lemma {:induction false} InitialIsListed(functions: seq<Function>, k: string, package: string, name: string)
    requires k in Initial(functions)
    ensures var f := Initial(functions)[k];
      Listed(Initial(functions), f)
      && (Lower(package) == Lower(f.package) && Lower(name) == Lower(f.name) && name != "" ==> Calls(package, name, f))
  {
    InitialIsGood(functions);
  }

  /** Directives of other kinds than replace are never unsound. */
  lemma {:induction false} OthersAreClean(m: Table, annotations: seq<Annotation>, i: nat)
    requires i <= |annotations|
    requires forall j :: i <= j < |annotations| ==> annotations[j].typ !in {"replace", "replace_json"}
    ensures Clean(m, annotations, i)
    decreases |annotations| - i
  {
    if i < |annotations| { OthersAreClean(Next(m, annotations[i]), annotations, i + 1); }
  }

  /** path leads from f along replacements to a function without one. */
  ghost predicate Chain(path: seq<Function>, f: Function)
    reads path
  {
    && path != [] && path[0] == f && path[|path| - 1].replacement == null
    && forall i :: 0 <= i < |path| - 1 ==> path[i].replacement == path[i + 1]
  }

  /** RealName ends: each call goes to an earlier member of gone. */
  method RealName(f: Function, ghost gone: seq<Function>) returns (name: string)
    requires Settled(gone) && (f.replacement == null || f.replacement in gone)
    ensures exists path: seq<Function> :: Chain(path, f) && |path| <= |gone| + 1 && name == path[|path| - 1].Name()
    decreases |gone|
  {
    if f.replacement != null {
      ghost var i :| 0 <= i < |gone| && gone[i] == f.replacement;
      EarlierSettled(gone, i);
      name := RealName(f.replacement, gone[..i]);
      ghost var more: seq<Function> :| Chain(more, f.replacement) && |more| <= i + 1 && name == more[|more| - 1].Name();
      ghost var path := [f] + more;
      assert Chain(path, f) && path[|path| - 1] == more[|more| - 1];
    } else {
      name := f.Name();
      assert Chain([f], f);
    }
  }

  lemma {:induction false} EarlierSettled(gone: seq<Function>, i: nat)
    requires Settled(gone) && i < |gone|
    ensures Settled(gone[..i]) && (gone[i].replacement == null || gone[i].replacement in gone[..i])
  {
  }

  // ----- who is left -----

  /** The directive makes f private, replaces it, or gives its name to another function. */
  predicate Removes(m: Table, a: Annotation, f: Function) {
    var k, v := a.Subject(), a.Object();
    && !a.Ignored() && k in m
    && ((a.typ == "private" && m[k] == f)
        || ((a.typ == "rename" || a.IsReplace()) && v in m && m[v] == f && m[k] != f))
  }

  predicate Removed(m: Table, annotations: seq<Annotation>, i: nat, f: Function)
    requires i <= |annotations|
    decreases |annotations| - i
  {
    i < |annotations| && (Removes(m, annotations[i], f) || Removed(Next(m, annotations[i]), annotations, i + 1, f))
  }

  lemma {:induction false} StepRemoves(m: Table, a: Annotation, f: Function)
    requires Injective(m) && Sound(m, a)
    ensures Injective(Next(m, a))
    ensures f in Next(m, a).Values <==> f in m.Values && !Removes(m, a, f)
  {
    hide Lower;
    hide Function.Key;
    var n := Next(m, a);
    if f in m.Values && !Removes(m, a, f) {
      var l :| l in m && m[l] == f;
      assert if !a.Ignored() && a.typ == "rename" && l == a.Subject()
        then a.Object() in n && n[a.Object()] == f
        else l in n && n[l] == f;
    }
  }

  /** Without unsound directives a function is left if and only if no directive removes it;
      one that was removed does not come back. */
  lemma {:induction false} LeftUnlessRemoved(m: Table, annotations: seq<Annotation>, i: nat, f: Function)
    requires i <= |annotations| && Injective(m) && Clean(m, annotations, i)
    ensures f in After(m, annotations, i).Values <==> f in m.Values && !Removed(m, annotations, i, f)
    decreases |annotations| - i
  {
    hide Next;
    hide Removes;
    hide Sound;
    hide Injective;
    if i < |annotations| {
      StepRemoves(m, annotations[i], f);
      LeftUnlessRemoved(Next(m, annotations[i]), annotations, i + 1, f);
    }
  }

  /** A replace that names a renamed function puts it back under its own name as well: the
      function comes out twice. */
  lemma {:induction false} RenamedThenReplaced(f: Function)
    requires f.package == "" && f.name != "" && Lower(f.name) != "x"
    ensures var annotations := [Annotation("", "rename", f.name, "x", 0), Annotation("", "replace", "x", "y", 0)];
      After(Initial([f]), annotations, 0) == map["x" := f, f.Key() := f] && f.Key() != "x"
  {
    var rename, replace := Annotation("", "rename", f.name, "x", 0), Annotation("", "replace", "x", "y", 0);
    SubjectFindsFunction(f, rename);
    assert Initial([]) == map[] && [f][..0] == [];
    assert Initial([f]) == map[f.Key() := f];
    assert Lower("x") == "x" && Lower("y") == "y";
    assert Lower(Lower(f.name)) == Lower(f.name);
    assert Next(Initial([f]), rename) == map["x" := f];
    assert Next(map["x" := f], replace) == map["x" := f, f.Key() := f];
    var annotations := [rename, replace];
    assert After(map["x" := f, f.Key() := f], annotations, 2) == map["x" := f, f.Key() := f];
    assert After(map["x" := f], annotations, 1) == map["x" := f, f.Key() := f];
  }
}
