/** Which type names a run of the schema writer loses, on the argument trees alone. */
module SchemaLost {
  import opened Basics
  import opened Schema
  import opened SchemaTheorem

  // ----- what a function reaches -----

  /** Without entering the types in known, an unknown simple type or a table without an element
      is reached. */
  predicate Broken(args: seq<Arg>, known: set<string>)
    decreases Sizes(args), 1, 0
  {
    MissingTable(args) || BrokenFrom(args, 0, known)
  }

  predicate BrokenFrom(args: seq<Arg>, i: nat, known: set<string>)
    requires i <= |args|
    decreases Sizes(args), 0, |args| - i
  {
    i < |args| && (GoTypeError(args[i]).Some? || BrokenAt(args, i, known) || BrokenFrom(args, i + 1, known))
  }

  /** The type of args[i] is entered, and broken. */
  predicate BrokenAt(args: seq<Arg>, i: nat, known: set<string>)
    requires i < |args|
    decreases Sizes(args), 0, |args| - i, 0
  {
    IsComposite(args[i]) && args[i].typ !in known
    && (SizeIn(args, i); Broken(SubArgs(args[i]), known))
  }

  /** The names of the types that are entered until something broken is reached. */
  function Entered(args: seq<Arg>, known: set<string>): set<string>
    decreases Sizes(args), 1, 0
  {
    if MissingTable(args) then {} else EnteredFrom(args, 0, known)
  }

  function EnteredFrom(args: seq<Arg>, i: nat, known: set<string>): set<string>
    requires i <= |args|
    decreases Sizes(args), 0, |args| - i
  {
    if i == |args| || GoTypeError(args[i]).Some? then {}
    else
      EnteredAt(args, i, known) + if BrokenAt(args, i, known) then {} else EnteredFrom(args, i + 1, known)
  }

  function EnteredAt(args: seq<Arg>, i: nat, known: set<string>): set<string>
    requires i < |args|
    decreases Sizes(args), 0, |args| - i, 0
  {
    if IsComposite(args[i]) && args[i].typ !in known then
      SizeIn(args, i);
      {args[i].typ} + Entered(SubArgs(args[i]), known)
    else {}
  }

  predicate FunctionBroken(f: Function, known: set<string>) {
    Broken(InputArgs(f), known) || Broken(OutputArgs(f), known)
  }

  function FunctionEntered(f: Function, known: set<string>): set<string> {
    Entered(InputArgs(f), known) + if Broken(InputArgs(f), known) then {} else Entered(OutputArgs(f), known)
  }

  /** The names that the first k functions reach, each from what those before it reached. */
  function Reached(functions: seq<Function>, k: nat): set<string>
    requires k <= |functions|
  {
    if k == 0 then {} else
    var before := Reached(functions, k - 1);
    before + FunctionEntered(functions[k - 1], before)
  }

  // ----- the writer enters the same types -----

  ghost predicate Within(args: seq<Arg>, functions: seq<Function>) {
    forall c :: Occurs(c, args) ==> InScope(c, functions)
  }

  lemma {:induction false} PartsWithin(args: seq<Arg>, i: nat, functions: seq<Function>)
    requires i < |args| && Within(args, functions)
    ensures InScope(args[i], functions) && (IsComposite(args[i]) ==> Within(SubArgs(args[i]), functions))
  {
    OccursAt(args[i], args, i);
    if IsComposite(args[i]) {
      forall c | Occurs(c, SubArgs(args[i])) ensures InScope(c, functions) { OccursAt(c, args, i); }
    }
  }

  /** The types seen but not known have been entered to the end: nothing in them is broken and what
      they enter was seen. Types of size n or more may be unfinished. */
  ghost predicate Finished(seen: set<string>, known: set<string>, n: nat, functions: seq<Function>) {
    && known <= seen
    && forall c :: InScope(c, functions) && IsComposite(c) && Sizes(SubArgs(c)) < n && c.typ in seen - known ==>
         !Broken(SubArgs(c), known) && Entered(SubArgs(c), known) <= seen
  }

  /** A name is entered with some type below, which is finished when nothing is broken. */
  lemma {:induction false} EnteredBelow(args: seq<Arg>, known: set<string>, typ: string) returns (a: Arg)
    requires typ in Entered(args, known) && !Broken(args, known)
    ensures Occurs(a, args) && IsComposite(a) && a.typ == typ
    ensures !Broken(SubArgs(a), known) && Entered(SubArgs(a), known) <= Entered(args, known)
    decreases Sizes(args), 1, 0
  {
    a := EnteredBelowFrom(args, 0, known, typ);
  }

  lemma {:induction false} EnteredBelowFrom(args: seq<Arg>, i: nat, known: set<string>, typ: string) returns (a: Arg)
    requires i <= |args| && typ in EnteredFrom(args, i, known) && !BrokenFrom(args, i, known)
    ensures Occurs(a, args) && IsComposite(a) && a.typ == typ
    ensures !Broken(SubArgs(a), known) && Entered(SubArgs(a), known) <= EnteredFrom(args, i, known)
    decreases Sizes(args), 0, |args| - i
  {
    hide Broken;
    hide Entered;
    if typ !in EnteredAt(args, i, known) {
      a := EnteredBelowFrom(args, i + 1, known, typ);
    } else if typ == args[i].typ {
      a := args[i];
      OccursAt(a, args, i);
    } else {
      SizeIn(args, i);
      a := EnteredBelow(SubArgs(args[i]), known, typ);
      OccursAt(a, args, i);
    }
  }

  lemma {:induction false} WriteEnters(name: string, args: seq<Arg>, seen: set<string>, known: set<string>,
                                       functions: seq<Function>)
    requires OneTypePerName(functions) && Within(args, functions) && Finished(seen, known, Sizes(args), functions)
    ensures var w := Write(name, args, seen);
      (w.error.Some? <==> Broken(args, known)) && w.seen == seen + Entered(args, known)
    decreases Sizes(args), 1, 0
  {
    hide OneTypePerName;
    hide Within;
    hide Finished;
    if !MissingTable(args) { NestedEnters(args, 0, seen, known, functions); }
  }

  lemma {:induction false} NestedEnters(args: seq<Arg>, i: nat, seen: set<string>, known: set<string>,
                                        functions: seq<Function>)
    requires i <= |args|
    requires OneTypePerName(functions) && Within(args, functions) && Finished(seen, known, Sizes(args), functions)
    ensures var w := WriteNested(args, i, seen);
      (w.error.Some? <==> BrokenFrom(args, i, known)) && w.seen == seen + EnteredFrom(args, i, known)
    decreases Sizes(args), 0, |args| - i
  {
    hide OneTypePerName;
    hide Within;
    hide Finished;
    hide Write;
    hide Broken;
    hide Entered;
    if i < |args| && GoTypeError(args[i]).None? {
      SizeIn(args, i);
      GoTypeKnown(args[i]);
      PartsWithin(args, i, functions);
      if IsScalar(args[i]) || args[i].typ in seen {
        NestedEnters(args, i + 1, seen, known, functions);
        if !IsScalar(args[i]) { SeenIsFinished(args, i, seen, known, functions); }
      } else {
        var sub, seen1 := SubArgs(args[i]), seen + {args[i].typ};
        UnfinishedIsLarger(args[i], seen, known, Sizes(args), functions);
        WriteEnters(args[i].typ, sub, seen1, known, functions);
        if !Broken(sub, known) {
          NowFinished(args[i], seen, known, Sizes(args), functions);
          NestedEnters(args, i + 1, seen1 + Entered(sub, known), known, functions);
        }
      }
    }
  }

  lemma {:induction false} SeenIsFinished(args: seq<Arg>, i: nat, seen: set<string>, known: set<string>,
                                          functions: seq<Function>)
    requires i < |args| && IsComposite(args[i]) && args[i].typ in seen && InScope(args[i], functions)
    requires Finished(seen, known, Sizes(args), functions)
    ensures !BrokenAt(args, i, known) && EnteredAt(args, i, known) <= seen
  {
    hide Broken;
    hide Entered;
    SizeIn(args, i);
  }

  /** A type that was just entered does not occur below itself. */
  lemma {:induction false} UnfinishedIsLarger(a: Arg, seen: set<string>, known: set<string>, n: nat,
                                              functions: seq<Function>)
    requires OneTypePerName(functions) && Finished(seen, known, n, functions)
    requires IsComposite(a) && InScope(a, functions) && Sizes(SubArgs(a)) < n
    ensures known <= seen && Finished(seen + {a.typ}, known, Sizes(SubArgs(a)), functions)
  {
    hide Broken;
    hide Entered;
    hide InScope;
  }

  lemma {:induction false} NowFinished(a: Arg, seen: set<string>, known: set<string>, n: nat, functions: seq<Function>)
    requires OneTypePerName(functions) && Finished(seen, known, n, functions)
    requires IsComposite(a) && InScope(a, functions) && Within(SubArgs(a), functions) && !Broken(SubArgs(a), known)
    ensures Finished(seen + {a.typ} + Entered(SubArgs(a), known), known, n, functions)
  {
    hide Broken;
    hide Entered;
    hide InScope;
    var sub := SubArgs(a);
    var after := seen + {a.typ} + Entered(sub, known);
    forall c | InScope(c, functions) && IsComposite(c) && Sizes(SubArgs(c)) < n && c.typ in after && c.typ !in known
      ensures !Broken(SubArgs(c), known) && Entered(SubArgs(c), known) <= after
    {
      if c.typ !in seen && c.typ != a.typ {
        var b := EnteredBelow(sub, known, c.typ);
        assert InScope(b, functions);
      }
    }
  }

  // ----- functions -----

  lemma {:induction false} FunctionEnters(functions: seq<Function>, k: nat, known: set<string>)
    requires k < |functions| && OneTypePerName(functions)
    ensures var w, f := WriteFunction(functions[k], known), functions[k];
      (w.error.Some? <==> FunctionBroken(f, known)) && w.seen == known + FunctionEntered(f, known)
  {
    hide OneTypePerName;
    hide Broken;
    hide Entered;
    hide Write;
    var f := functions[k];
    var inp, outp := InputArgs(f), OutputArgs(f);
    assert Within(inp, functions) && Within(outp, functions);
    WriteEnters(f.input, inp, known, known, functions);
    if !Broken(inp, known) {
      InputFinished(inp, known, Sizes(outp), functions);
      WriteEnters(f.output, outp, known + Entered(inp, known), known, functions);
    }
  }

  lemma {:induction false} InputFinished(args: seq<Arg>, known: set<string>, n: nat, functions: seq<Function>)
    requires OneTypePerName(functions) && Within(args, functions) && !Broken(args, known)
    ensures Finished(known + Entered(args, known), known, n, functions)
  {
    hide Broken;
    hide Entered;
    hide InScope;
    forall c | InScope(c, functions) && IsComposite(c) && c.typ in Entered(args, known)
      ensures !Broken(SubArgs(c), known) && Entered(SubArgs(c), known) <= Entered(args, known)
    {
      var b := EnteredBelow(args, known, c.typ);
      assert InScope(b, functions);
    }
  }

  // ----- main results -----

  /** Function k is the first that reaches the type, and it also reaches something broken. */
  predicate Takes(functions: seq<Function>, k: nat, typ: string)
    requires k < |functions|
  {
    var known := Reached(functions, k);
    typ !in known && typ in FunctionEntered(functions[k], known) && FunctionBroken(functions[k], known)
  }

  /** From function i on, a name is lost if and only if a function takes it. */
  lemma {:induction false} LostFrom(functions: seq<Function>, i: nat, typ: string)
    requires i <= |functions| && OneTypePerName(functions)
    ensures typ in Lost(functions, i, Reached(functions, i)) <==>
      exists k :: i <= k < |functions| && Takes(functions, k, typ)
    decreases |functions| - i
  {
    hide OneTypePerName;
    hide FunctionBroken;
    hide FunctionEntered;
    hide WriteFunction;
    if i < |functions| {
      var known := Reached(functions, i);
      FunctionEnters(functions, i, known);
      assert Reached(functions, i + 1) == WriteFunction(functions[i], known).seen;
      LostFrom(functions, i + 1, typ);
      var w := WriteFunction(functions[i], known);
      assert Takes(functions, i, typ) <==> w.error.Some? && typ in w.seen - known;
      assert typ in Lost(functions, i, known) <==> Takes(functions, i, typ) || typ in Lost(functions, i + 1, w.seen);
    }
  }

  /** With one type per name, a name is lost if and only if the first function that reaches the
      type also reaches an unknown simple type or a table without an element. */
  lemma {:induction false} NameIsLost(functions: seq<Function>, typ: string)
    requires OneTypePerName(functions)
    ensures typ in Lost(functions, 0, {}) <==> exists k :: 0 <= k < |functions| && Takes(functions, k, typ)
  {
    LostFrom(functions, 0, typ);
    assert Reached(functions, 0) == {};
  }

  /** So whether what a field refers to is defined is decided by the argument trees. */
  lemma {:induction false} ReferenceIsDefined(functions: seq<Function>, skip: bool, m: Message, typ: string)
    requires OneTypePerName(functions)
    requires var w := WriteAll(functions, 0, {}, skip);
      w.error.None? && NamesApart(functions, w) && m in w.text && RefersTo(m, typ)
    ensures typ in Names(WriteAll(functions, 0, {}, skip).text)
       <==> !exists k :: 0 <= k < |functions| && Takes(functions, k, typ)
  {
    hide OneTypePerName;
    hide WriteAll;
    hide NamesApart;
    hide Lost;
    hide Takes;
    NameIsLost(functions, typ);
    ReferencesAreDefinedOnce(functions, skip);
    assert typ in Names(WriteAll(functions, 0, {}, skip).text)
      <==> multiset(Names(WriteAll(functions, 0, {}, skip).text))[typ] > 0;
  }
}
