/** Every type a field refers to is defined exactly once, unless a skipped function took its name
    without writing it; and the messages mirror the argument trees. */
module SchemaTheorem {
  import opened Basics
  import opened Schema

  function Names(text: seq<Message>): (r: seq<string>)
    ensures |r| == |text| && forall i :: 0 <= i < |text| ==> r[i] == text[i].name
  {
    seq(|text|, i requires 0 <= i < |text| => text[i].name)
  }

  lemma {:induction false} NamesConcat(a: seq<Message>, b: seq<Message>)
    ensures multiset(Names(a + b)) == multiset(Names(a)) + multiset(Names(b))
  {
    assert Names(a + b) == Names(a) + Names(b);
  }

  ghost predicate RefersWithin(fields: seq<Field>, names: set<string>) {
    forall k :: 0 <= k < |fields| && fields[k].Ref? ==> fields[k].typ in names
  }

  /** Fields are numbered from 1 in order, and refer to names only. */
  ghost predicate WellFormed(text: seq<Message>, names: set<string>) {
    forall i :: 0 <= i < |text| ==> RefersWithin(text[i].fields, names) && Numbered(text[i].fields)
  }

  predicate Numbered(fields: seq<Field>) {
    forall k :: 0 <= k < |fields| ==> fields[k].number == k + 1
  }

  /** c is an argument of args, or lies below one. */
  predicate Occurs(c: Arg, args: seq<Arg>)
    decreases Sizes(args)
  {
    args != [] &&
    (args[0] == c || (IsComposite(args[0]) && Occurs(c, SubArgs(args[0]))) || Occurs(c, args[1..]))
  }

  lemma {:induction false} OccursAt(c: Arg, args: seq<Arg>, i: nat)
    requires i < |args| && (args[i] == c || (IsComposite(args[i]) && Occurs(c, SubArgs(args[i]))))
    ensures Occurs(c, args)
    decreases |args|
  {
    if i > 0 {
      assert args[i] == args[1..][i - 1];
      OccursAt(c, args[1..], i - 1);
    }
  }

  /** m is the message of some record or table that occurs in args. */
  ghost predicate Describes(m: Message, args: seq<Arg>) {
    exists c :: Occurs(c, args) && IsComposite(c) && c.typ == m.name && m.fields == FieldsOf(SubArgs(c))
  }

  ghost predicate AllDescribe(text: seq<Message>, args: seq<Arg>) {
    forall i :: 0 <= i < |text| ==> Describes(text[i], args)
  }

  lemma {:induction false} DescribesUp(m: Message, args: seq<Arg>, i: nat)
    requires i < |args| && IsComposite(args[i]) && Describes(m, SubArgs(args[i]))
    ensures Describes(m, args)
  {
    var c :| Occurs(c, SubArgs(args[i])) && IsComposite(c) && c.typ == m.name && m.fields == FieldsOf(SubArgs(c));
    OccursAt(c, args, i);
  }

  // ----- one message and what it pulls in -----

  /** Each name that became seen was written exactly once, after the message itself. */
  lemma {:induction false} WriteDefines(name: string, args: seq<Arg>, seen: set<string>)
    ensures var w := Write(name, args, seen);
      && seen <= w.seen
      && (w.error.None? ==>
            && w.text != [] && w.text[0] == Message(name, FieldsOf(args))
            && multiset(Names(w.text)) == multiset{name} + multiset(w.seen - seen)
            && WellFormed(w.text, w.seen)
            && AllDescribe(w.text[1..], args))
    decreases Sizes(args), 1, 0
  {
    hide WriteNested;
    if !MissingTable(args) {
      NestedDefines(args, 0, seen);
      var nested := WriteNested(args, 0, seen);
      if nested.error.None? {
        var top := [Message(name, FieldsOf(args))];
        NamesConcat(top, nested.text);
        assert Names(top) == [name];
        assert (top + nested.text)[1..] == nested.text;
        assert RefersWithin(FieldsOf(args), nested.seen);
        assert Numbered(FieldsOf(args));
      }
    }
  }

  lemma {:induction false} NestedDefines(args: seq<Arg>, i: nat, seen: set<string>)
    requires i <= |args|
    ensures var w := WriteNested(args, i, seen);
      && seen <= w.seen
      && (w.error.None? ==>
            && multiset(Names(w.text)) == multiset(w.seen - seen)
            && WellFormed(w.text, w.seen)
            && AllDescribe(w.text, args)
            && (forall j :: i <= j < |args| && !IsScalar(args[j]) ==>
                 FieldOf(args[j], 0).Ref? && args[j].typ in w.seen))
    decreases Sizes(args), 0, |args| - i
  {
    hide Write;
    hide WellFormed;
    hide AllDescribe;
    if i == |args| {
      NothingDefined(args);
    } else if GoTypeError(args[i]).None? {
      if IsScalar(args[i]) || args[i].typ in seen {
        NestedDefines(args, i + 1, seen);
      } else {
        SizeIn(args, i);
        GoTypeKnown(args[i]);
        NewTypeDefines(args, i, seen);
      }
    }
  }

  lemma {:induction false} NothingDefined(args: seq<Arg>)
    ensures Names([]) == []
    ensures forall seen :: WellFormed([], seen)
    ensures AllDescribe([], args)
  {
  }

  lemma {:induction false} BothDescribe(a: seq<Message>, b: seq<Message>, args: seq<Arg>)
    requires AllDescribe(a, args) && AllDescribe(b, args)
    ensures AllDescribe(a + b, args)
  {
    hide Describes;
  }

  lemma {:induction false} NewTypeDefines(args: seq<Arg>, i: nat, seen: set<string>)
    requires i < |args| && GoTypeError(args[i]).None? && IsComposite(args[i]) && args[i].typ !in seen
    requires Sizes(SubArgs(args[i])) < Sizes(args)
    ensures var sub := Write(args[i].typ, SubArgs(args[i]), seen + {args[i].typ});
      && seen <= sub.seen
      && (sub.error.None? ==>
            var rest := WriteNested(args, i + 1, sub.seen);
            && sub.seen <= rest.seen
            && (rest.error.None? ==>
                  && multiset(Names(sub.text + rest.text)) == multiset(rest.seen - seen)
                  && WellFormed(sub.text + rest.text, rest.seen)
                  && AllDescribe(sub.text + rest.text, args)
                  && args[i].typ in rest.seen
                  && forall j :: i < j < |args| && !IsScalar(args[j]) ==>
                       FieldOf(args[j], 0).Ref? && args[j].typ in rest.seen))
    decreases Sizes(args), 0, |args| - i, 0
  {
    hide Write;
    hide WriteNested;
    hide WellFormed;
    hide AllDescribe;
    hide Names;
    hide FieldsOf;
    var typ := args[i].typ;
    WriteDefines(typ, SubArgs(args[i]), seen + {typ});
    var sub := Write(typ, SubArgs(args[i]), seen + {typ});
    if sub.error.None? {
      NestedDefines(args, i + 1, sub.seen);
      var rest := WriteNested(args, i + 1, sub.seen);
      if rest.error.None? {
        NamesConcat(sub.text, rest.text);
        assert multiset(rest.seen - seen) == multiset{typ} + multiset(sub.seen - (seen + {typ}))
          + multiset(rest.seen - sub.seen);
        BothWellFormed(sub.text, sub.seen, rest.text, rest.seen);
        SubDescribes(sub.text, args, i);
        BothDescribe(sub.text, rest.text, args);
      }
    }
  }

  lemma {:induction false} SubDescribes(text: seq<Message>, args: seq<Arg>, i: nat)
    requires i < |args| && IsComposite(args[i]) && text != []
    requires text[0] == Message(args[i].typ, FieldsOf(SubArgs(args[i]))) && AllDescribe(text[1..], SubArgs(args[i]))
    ensures AllDescribe(text, args)
  {
    forall k | 0 <= k < |text| ensures Describes(text[k], args) {
      if k == 0 {
        OccursAt(args[i], args, i);
      } else {
        assert text[k] == text[1..][k - 1];
        DescribesUp(text[k], args, i);
      }
    }
  }

  // ----- a function and a run -----

  /** m is a message of f, or of a record or table that occurs in its arguments. */
  ghost predicate From(m: Message, f: Function) {
    || m == Message(f.input, FieldsOf(InputArgs(f))) || Describes(m, InputArgs(f))
    || m == Message(f.output, FieldsOf(OutputArgs(f))) || Describes(m, OutputArgs(f))
  }

  lemma {:induction false} BothWellFormed(a: seq<Message>, x: set<string>, b: seq<Message>, y: set<string>)
    requires WellFormed(a, x) && WellFormed(b, y) && x <= y
    ensures WellFormed(a + b, y)
  {
    hide Numbered;
  }

  lemma {:induction false} FunctionDefines(f: Function, seen: set<string>)
    ensures var w := WriteFunction(f, seen);
      && seen <= w.seen
      && (w.error.None? ==>
            && multiset(Names(w.text)) == multiset([f.input, f.output]) + multiset(w.seen - seen)
            && WellFormed(w.text, w.seen)
            && (forall i :: 0 <= i < |w.text| ==> From(w.text[i], f))
            && Message(f.input, FieldsOf(InputArgs(f))) in w.text
            && Message(f.output, FieldsOf(OutputArgs(f))) in w.text)
  {
    hide Write;
    hide FieldsOf;
    hide AllDescribe;
    hide From;
    hide WellFormed;
    hide Names;
    hide InputArgs;
    hide OutputArgs;
    WriteDefines(f.input, InputArgs(f), seen);
    var inp := Write(f.input, InputArgs(f), seen);
    if inp.error.None? {
      WriteDefines(f.output, OutputArgs(f), inp.seen);
      var outp := Write(f.output, OutputArgs(f), inp.seen);
      if outp.error.None? {
        NamesConcat(inp.text, outp.text);
        assert multiset(outp.seen - seen) == multiset(inp.seen - seen) + multiset(outp.seen - inp.seen);
        assert multiset([f.input, f.output]) == multiset{f.input} + multiset{f.output};
        BothWellFormed(inp.text, inp.seen, outp.text, outp.seen);
        FromConcat(inp.text, outp.text, f);
      }
    }
  }

  lemma {:induction false} FromConcat(a: seq<Message>, b: seq<Message>, f: Function)
    requires a != [] && a[0] == Message(f.input, FieldsOf(InputArgs(f))) && AllDescribe(a[1..], InputArgs(f))
    requires b != [] && b[0] == Message(f.output, FieldsOf(OutputArgs(f))) && AllDescribe(b[1..], OutputArgs(f))
    ensures forall i :: 0 <= i < |a + b| ==> From((a + b)[i], f)
    ensures a[0] in a + b && b[0] in a + b
  {
  }

  /** Names that functions skipped from i on made seen, with no message written for them. */
  function Lost(functions: seq<Function>, i: nat, seen: set<string>): set<string>
    requires i <= |functions|
    decreases |functions| - i
  {
    if i == |functions| then {}
    else
      var w := WriteFunction(functions[i], seen);
      (if w.error.Some? then w.seen - seen else {}) + Lost(functions, i + 1, w.seen)
  }

  /** The message names of the functions that are not skipped. */
  function FunctionNames(functions: seq<Function>, i: nat, seen: set<string>): seq<string>
    requires i <= |functions|
    decreases |functions| - i
  {
    if i == |functions| then []
    else
      var w := WriteFunction(functions[i], seen);
      (if w.error.Some? then [] else [functions[i].input, functions[i].output])
        + FunctionNames(functions, i + 1, w.seen)
  }

  ghost predicate FromSome(m: Message, functions: seq<Function>) {
    exists k :: 0 <= k < |functions| && From(m, functions[k])
  }

  /** The names of all messages of a run: the functions' own, and each type name that became
      seen once, except the lost ones. */
  lemma {:induction false} RunDefines(functions: seq<Function>, i: nat, seen: set<string>, skip: bool)
    requires i <= |functions|
    ensures var w := WriteAll(functions, i, seen, skip);
      && seen <= w.seen
      && (w.error.None? ==>
            && Lost(functions, i, seen) <= w.seen - seen
            && multiset(Names(w.text)) ==
               multiset(FunctionNames(functions, i, seen)) + multiset(w.seen - seen - Lost(functions, i, seen))
            && WellFormed(w.text, w.seen)
            && (forall j :: 0 <= j < |w.text| ==> FromSome(w.text[j], functions)))
    decreases |functions| - i
  {
    hide WriteFunction;
    if i < |functions| {
      var w := WriteFunction(functions[i], seen);
      FunctionDefines(functions[i], seen);
      RunDefines(functions, i + 1, w.seen, skip);
      var rest := WriteAll(functions, i + 1, w.seen, skip);
      if rest.error.None? && (w.error.None? || Skipped(w, skip)) {
        RunConcat(functions, i, seen, w, rest);
      }
    }
  }

  lemma {:induction false} RunConcat(functions: seq<Function>, i: nat, seen: set<string>, w: Written, rest: Written)
    requires i < |functions| && w == WriteFunction(functions[i], seen) && seen <= w.seen <= rest.seen
    requires rest.error.None? && WellFormed(rest.text, rest.seen)
    requires Lost(functions, i + 1, w.seen) <= rest.seen - w.seen
    requires multiset(Names(rest.text)) ==
             multiset(FunctionNames(functions, i + 1, w.seen))
               + multiset(rest.seen - w.seen - Lost(functions, i + 1, w.seen))
    requires forall j :: 0 <= j < |rest.text| ==> FromSome(rest.text[j], functions)
    ensures var text := (if w.error.Some? then [] else w.text) + rest.text;
      && Lost(functions, i, seen) <= rest.seen - seen
      && multiset(Names(text)) ==
         multiset(FunctionNames(functions, i, seen)) + multiset(rest.seen - seen - Lost(functions, i, seen))
      && WellFormed(text, rest.seen)
      && forall j :: 0 <= j < |text| ==> FromSome(text[j], functions)
  {
    hide WriteFunction;
    hide From;
    hide WellFormed;
    hide FromSome;
    var l := Lost(functions, i + 1, w.seen);
    var names := FunctionNames(functions, i + 1, w.seen);
    if w.error.Some? {
      assert [] + rest.text == rest.text && [] + names == names;
      assert rest.seen - seen - ((w.seen - seen) + l) == rest.seen - w.seen - l;
    } else {
      FunctionDefines(functions[i], seen);
      assert {} + l == l;
      WrittenConcat(functions, i, w, rest, names, seen, l);
    }
  }

  lemma {:induction false} WrittenConcat(functions: seq<Function>, i: nat, w: Written, rest: Written,
                                         names: seq<string>,
                                         seen: set<string>, l: set<string>)
    requires i < |functions| && seen <= w.seen <= rest.seen && l <= rest.seen - w.seen
    requires var f := functions[i];
      && multiset(Names(w.text)) == multiset([f.input, f.output]) + multiset(w.seen - seen)
      && WellFormed(w.text, w.seen) && forall j :: 0 <= j < |w.text| ==> From(w.text[j], f)
    requires WellFormed(rest.text, rest.seen) && forall j :: 0 <= j < |rest.text| ==> FromSome(rest.text[j], functions)
    requires multiset(Names(rest.text)) == multiset(names) + multiset(rest.seen - w.seen - l)
    ensures var f := functions[i];
      && multiset(Names(w.text + rest.text)) == multiset([f.input, f.output] + names) + multiset(rest.seen - seen - l)
      && WellFormed(w.text + rest.text, rest.seen)
      && forall j :: 0 <= j < |w.text + rest.text| ==> FromSome((w.text + rest.text)[j], functions)
  {
    hide From;
    NamesConcat(w.text, rest.text);
    NamesCount([functions[i].input, functions[i].output], names, seen, w.seen, rest.seen, l);
    forall j | 0 <= j < |w.text| ensures FromSome(w.text[j], functions) {
      assert From(w.text[j], functions[i]);
    }
  }

  lemma {:induction false} NamesCount(a: seq<string>, b: seq<string>, seen: set<string>, mid: set<string>,
                                      end: set<string>, lost: set<string>)
    requires seen <= mid <= end && lost <= end - mid
    ensures multiset(a + b) + multiset(end - seen - lost) ==
            (multiset(a) + multiset(mid - seen)) + (multiset(b) + multiset(end - mid - lost))
  {
  }

  // ----- the schema of a run -----

  /** No two function messages share a name, and none has the name of a type. */
  ghost predicate NamesApart(functions: seq<Function>, w: Written) {
    var names := FunctionNames(functions, 0, {});
    forall n :: n in names ==> multiset(names)[n] == 1 && n !in w.seen
  }

  ghost predicate RefersTo(m: Message, typ: string) {
    exists k :: 0 <= k < |m.fields| && m.fields[k].Ref? && m.fields[k].typ == typ
  }

  /** How often a type that some field refers to is defined: once, or never if its name is lost. */
  lemma {:induction false} ReferencesAreDefinedOnce(functions: seq<Function>, skip: bool)
    requires var w := WriteAll(functions, 0, {}, skip); w.error.None? && NamesApart(functions, w)
    ensures var w := WriteAll(functions, 0, {}, skip);
      && (forall n :: n in Names(w.text) ==> multiset(Names(w.text))[n] == 1)
      && (forall i :: 0 <= i < |w.text| ==> Numbered(w.text[i].fields))
      && (forall m, typ :: m in w.text && RefersTo(m, typ) ==>
            multiset(Names(w.text))[typ] == if typ in Lost(functions, 0, {}) then 0 else 1)
  {
    hide WriteAll;
    hide Lost;
    hide FunctionNames;
    hide From;
    RunDefines(functions, 0, {}, skip);
    var w := WriteAll(functions, 0, {}, skip);
    var count := multiset(Names(w.text));
    forall n | n in Names(w.text) ensures count[n] == 1 {
      assert n in count;
    }
    forall m, typ | m in w.text && RefersTo(m, typ)
      ensures count[typ] == if typ in Lost(functions, 0, {}) then 0 else 1
    {
      assert typ in w.seen;
      assert typ !in FunctionNames(functions, 0, {});
    }
  }

  // ----- when nothing is lost -----

  /** Every simple type below is known, and every table has an element. */
  predicate Known(a: Arg) {
    match a
    case Simple(known) => known
    case Record(_, fields) => AllKnown(fields)
    case Table(_, of) => of.Some? && Known(of.value)
  }

  predicate AllKnown(args: seq<Arg>) {
    forall i :: 0 <= i < |args| ==> Known(args[i])
  }

  lemma {:induction false} KnownType(a: Arg)
    requires Known(a)
    ensures GoTypeError(a).None? && (IsComposite(a) ==> AllKnown(SubArgs(a)))
  {
    if a.Table? { KnownType(a.of.value); }
  }

  lemma {:induction false} KnownIsWritten(name: string, args: seq<Arg>, seen: set<string>)
    requires AllKnown(args)
    ensures Write(name, args, seen).error.None?
    decreases Sizes(args), 1, 0
  {
    hide WriteNested;
    KnownIsNested(args, 0, seen);
  }

  lemma {:induction false} KnownIsNested(args: seq<Arg>, i: nat, seen: set<string>)
    requires i <= |args| && AllKnown(args)
    ensures WriteNested(args, i, seen).error.None?
    decreases Sizes(args), 0, |args| - i
  {
    hide Write;
    if i < |args| {
      KnownType(args[i]);
      if IsScalar(args[i]) || args[i].typ in seen {
        KnownIsNested(args, i + 1, seen);
      } else {
        SizeIn(args, i);
        GoTypeKnown(args[i]);
        KnownIsWritten(args[i].typ, SubArgs(args[i]), seen + {args[i].typ});
        KnownIsNested(args, i + 1, Write(args[i].typ, SubArgs(args[i]), seen + {args[i].typ}).seen);
      }
    }
  }

  ghost predicate AllTypesKnown(functions: seq<Function>) {
    forall k :: 0 <= k < |functions| ==> AllKnown(InputArgs(functions[k])) && AllKnown(OutputArgs(functions[k]))
  }

  lemma {:induction false} KnownFunction(f: Function, seen: set<string>)
    requires AllKnown(InputArgs(f)) && AllKnown(OutputArgs(f))
    ensures WriteFunction(f, seen).error.None?
  {
    hide Write;
    KnownIsWritten(f.input, InputArgs(f), seen);
    KnownIsWritten(f.output, OutputArgs(f), Write(f.input, InputArgs(f), seen).seen);
  }

  lemma {:induction false} NothingIsLost(functions: seq<Function>, i: nat, seen: set<string>, skip: bool)
    requires i <= |functions| && AllTypesKnown(functions)
    ensures WriteAll(functions, i, seen, skip).error.None? && Lost(functions, i, seen) == {}
    ensures FunctionNames(functions, i, seen) == MessageNames(functions, i)
    decreases |functions| - i
  {
    hide WriteFunction;
    if i < |functions| {
      var f := functions[i];
      KnownFunction(f, seen);
      NothingIsLost(functions, i + 1, WriteFunction(f, seen).seen, skip);
    }
  }

  function MessageNames(functions: seq<Function>, i: nat): seq<string>
    requires i <= |functions|
    decreases |functions| - i
  {
    if i == |functions| then [] else [functions[i].input, functions[i].output] + MessageNames(functions, i + 1)
  }

  // ----- messages mirror the argument trees -----

  ghost predicate InScope(c: Arg, functions: seq<Function>) {
    exists k :: 0 <= k < |functions| && (Occurs(c, InputArgs(functions[k])) || Occurs(c, OutputArgs(functions[k])))
  }

  /** A type name stands for one list of fields. */
  ghost predicate OneTypePerName(functions: seq<Function>) {
    forall c, d :: InScope(c, functions) && InScope(d, functions) && IsComposite(c) && IsComposite(d) ==>
      c.typ == d.typ ==> SubArgs(c) == SubArgs(d)
  }

  function MessageOf(c: Arg): Message
    requires IsComposite(c)
  {
    Message(c.typ, FieldsOf(SubArgs(c)))
  }

  /** The message that a field refers to is the message of the argument behind the field. */
  lemma {:induction false} ReferredIsMirror(functions: seq<Function>, text: seq<Message>, names: seq<string>, c: Arg)
    requires IsComposite(c) && InScope(c, functions) && OneTypePerName(functions)
    requires c.typ in Names(text) && c.typ !in names
    requires forall k :: 0 <= k < |functions| ==> functions[k].input in names && functions[k].output in names
    requires forall j :: 0 <= j < |text| ==> FromSome(text[j], functions)
    ensures MessageOf(c) in text
  {
  }

  ghost predicate HasFields(text: seq<Message>, args: seq<Arg>) {
    exists m :: m in text && m.fields == FieldsOf(args)
  }

  /** What the run guarantees of its text when nothing is lost. */
  ghost predicate Complete(functions: seq<Function>, text: seq<Message>, names: seq<string>) {
    && OneTypePerName(functions)
    && (forall m, typ :: m in text && RefersTo(m, typ) ==> typ in Names(text) && typ !in names)
    && (forall k :: 0 <= k < |functions| ==> functions[k].input in names && functions[k].output in names)
    && (forall j :: 0 <= j < |text| ==> FromSome(text[j], functions))
  }

  lemma {:induction false} MirrorsBelow(functions: seq<Function>, text: seq<Message>, names: seq<string>,
                                        args: seq<Arg>, c: Arg)
    requires Complete(functions, text, names) && HasFields(text, args)
    requires forall d :: Occurs(d, args) ==> InScope(d, functions)
    requires Occurs(c, args) && IsComposite(c)
    ensures MessageOf(c) in text
    decreases Sizes(args)
  {
    var j := OccursIndex(c, args);
    var a := args[j];
    OccursAt(a, args, j);
    var m :| m in text && m.fields == FieldsOf(args);
    assert m.fields[j] == FieldOf(a, j + 1);
    assert RefersTo(m, a.typ);
    ReferredIsMirror(functions, text, names, a);
    if a != c {
      assert MessageOf(a).fields == FieldsOf(SubArgs(a));
      forall d | Occurs(d, SubArgs(a)) ensures InScope(d, functions) {
        OccursAt(d, args, j);
      }
      SizeIn(args, j);
      MirrorsBelow(functions, text, names, SubArgs(a), c);
    }
  }

  lemma {:induction false} OccursIndex(c: Arg, args: seq<Arg>) returns (j: nat)
    requires Occurs(c, args) && IsComposite(c)
    ensures j < |args| && IsComposite(args[j]) && (args[j] == c || Occurs(c, SubArgs(args[j])))
    decreases |args|
  {
    if args[0] == c || (IsComposite(args[0]) && Occurs(c, SubArgs(args[0]))) {
      j := 0;
    } else {
      var k := OccursIndex(c, args[1..]);
      j := k + 1;
    }
  }

  /** With known types and one type per name, the schema holds, exactly once each, the messages
      of every function and of every record and table that occurs in its arguments. */
  lemma {:induction false} SchemaMirrorsTypes(functions: seq<Function>, skip: bool, k: nat, c: Arg)
    requires AllTypesKnown(functions) && OneTypePerName(functions)
    requires NamesApart(functions, WriteAll(functions, 0, {}, skip))
    requires k < |functions| && IsComposite(c)
    requires Occurs(c, InputArgs(functions[k])) || Occurs(c, OutputArgs(functions[k]))
    ensures var w := WriteAll(functions, 0, {}, skip);
      && w.error.None? && MessageOf(c) in w.text && multiset(Names(w.text))[c.typ] == 1
  {
    NothingIsLost(functions, 0, {}, skip);
    RunIsComplete(functions, skip);
    AllWritten(functions, 0, {}, skip);
    ReferencesAreDefinedOnce(functions, skip);
    hide WriteAll;
    hide FunctionNames;
    hide Occurs;
    hide FieldsOf;
    hide Complete;
    var w := WriteAll(functions, 0, {}, skip);
    var names := FunctionNames(functions, 0, {});
    var f := functions[k];
    if Occurs(c, InputArgs(f)) {
      HasAll(w.text, f.input, InputArgs(f));
      MirrorsBelow(functions, w.text, names, InputArgs(f), c);
    } else {
      HasAll(w.text, f.output, OutputArgs(f));
      MirrorsBelow(functions, w.text, names, OutputArgs(f), c);
    }
    var i :| 0 <= i < |w.text| && w.text[i] == MessageOf(c);
    assert Names(w.text)[i] == c.typ;
  }

  lemma {:induction false} HasAll(text: seq<Message>, name: string, args: seq<Arg>)
    requires Message(name, FieldsOf(args)) in text
    ensures HasFields(text, args)
  {
  }

  lemma {:induction false} RunIsComplete(functions: seq<Function>, skip: bool)
    requires AllTypesKnown(functions) && OneTypePerName(functions)
    requires NamesApart(functions, WriteAll(functions, 0, {}, skip))
    ensures Complete(functions, WriteAll(functions, 0, {}, skip).text, FunctionNames(functions, 0, {}))
  {
    hide WriteAll;
    hide AllTypesKnown;
    hide Lost;
    hide From;
    hide FromSome;
    hide Names;
    hide OneTypePerName;
    hide WellFormed;
    hide RefersTo;
    hide FunctionNames;
    hide MessageNames;
    NothingIsLost(functions, 0, {}, skip);
    RunDefines(functions, 0, {}, skip);
    var w := WriteAll(functions, 0, {}, skip);
    var names := FunctionNames(functions, 0, {});
    assert w.seen - {} - Lost(functions, 0, {}) == w.seen;
    forall i | 0 <= i < |functions| ensures functions[i].input in names && functions[i].output in names {
      NamesIn(functions, 0, i);
    }
    forall m, typ | m in w.text && RefersTo(m, typ) ensures typ in Names(w.text) && typ !in names {
      ReferenceHere(functions, w, names, m, typ);
    }
  }

  lemma {:induction false} ReferenceHere(functions: seq<Function>, w: Written, names: seq<string>, m: Message,
                                         typ: string)
    requires m in w.text && RefersTo(m, typ) && WellFormed(w.text, w.seen)
    requires multiset(Names(w.text)) == multiset(names) + multiset(w.seen)
    requires forall n :: n in names ==> n !in w.seen
    ensures typ in Names(w.text) && typ !in names
  {
    assert typ in w.seen;
    assert multiset(w.seen)[typ] == 1;
    assert typ in multiset(Names(w.text));
  }

  lemma {:induction false} NamesIn(functions: seq<Function>, i: nat, k: nat)
    requires i <= k < |functions|
    ensures functions[k].input in MessageNames(functions, i) && functions[k].output in MessageNames(functions, i)
    decreases k - i
  {
    if i < k { NamesIn(functions, i + 1, k); }
    var l := [functions[i].input, functions[i].output];
    assert l[0] in l && l[1] in l;
  }

  /** The messages of each function are in the text. */
  lemma {:induction false} AllWritten(functions: seq<Function>, i: nat, seen: set<string>, skip: bool)
    requires i <= |functions| && AllTypesKnown(functions)
    ensures var text := WriteAll(functions, i, seen, skip).text;
      forall k :: i <= k < |functions| ==>
        && Message(functions[k].input, FieldsOf(InputArgs(functions[k]))) in text
        && Message(functions[k].output, FieldsOf(OutputArgs(functions[k]))) in text
    decreases |functions| - i
  {
    hide WriteFunction;
    hide FieldsOf;
    if i < |functions| {
      KnownFunction(functions[i], seen);
      FunctionDefines(functions[i], seen);
      var w := WriteFunction(functions[i], seen);
      NothingIsLost(functions, i + 1, w.seen, skip);
      AllWritten(functions, i + 1, w.seen, skip);
      assert WriteAll(functions, i, seen, skip).text == w.text + WriteAll(functions, i + 1, w.seen, skip).text;
    }
  }

  // ----- and when something is -----

  /** The first function fails on its unknown field type after T became seen; the second refers
      to T and does not write it. */
  lemma {:induction false} SkippedFunctionTakesName()
    ensures var bad := Function("f__input", "f__output", [Param(true, false, Record("T", [Simple(false)]))], None);
      var good := Function("g__input", "g__output", [Param(true, false, Record("T", [Simple(true)]))], None);
      var w := WriteAll([bad, good], 0, {}, true);
      && w.error.None? && Lost([bad, good], 0, {}) == {"T"}
      && w.text == [Message("g__input", [Ref(1, false, "T")]), Message("g__output", [])]
  {
    var bad := Function("f__input", "f__output", [Param(true, false, Record("T", [Simple(false)]))], None);
    var good := Function("g__input", "g__output", [Param(true, false, Record("T", [Simple(true)]))], None);
    var functions := [bad, good];
    FailsInRecord(bad);
    RefersToSeen(good);
    hide WriteFunction;
    var w := WriteFunction(good, {"T"});
    assert WriteAll(functions, 2, {"T"}, true) == Written([], {"T"}, None);
    assert WriteAll(functions, 1, {"T"}, true).text == w.text + [];
    assert WriteAll(functions, 0, {}, true).text == [] + (w.text + []);
    assert Lost(functions, 2, {"T"}) == {} && Lost(functions, 1, {"T"}) == {};
  }

  lemma {:induction false} FailsInRecord(f: Function)
    requires f.params == [Param(true, false, Record("T", [Simple(false)]))] && f.returns_ == None
    ensures WriteFunction(f, {}) == Written([], {"T"}, Some(UnknownSimpleType))
  {
    OneInput(f);
    var none: set<string> := {};
    assert none + {"T"} == {"T"};
    assert Write("T", [Simple(false)], {"T"}) == Written([], {"T"}, Some(UnknownSimpleType));
    assert WriteNested([Record("T", [Simple(false)])], 0, none) == Written([], {"T"}, Some(UnknownSimpleType));
  }

  lemma {:induction false} RefersToSeen(f: Function)
    requires f.params == [Param(true, false, Record("T", [Simple(true)]))] && f.returns_ == None
    ensures WriteFunction(f, {"T"}) ==
            Written([Message(f.input, [Ref(1, false, "T")])] + [Message(f.output, [])], {"T"}, None)
  {
    OneInput(f);
    var args := [Record("T", [Simple(true)])];
    assert FieldsOf(args) == [Ref(1, false, "T")] && FieldsOf([]) == [];
    assert WriteNested(args, 1, {"T"}) == Written([], {"T"}, None);
    assert WriteNested([], 0, {"T"}) == Written([], {"T"}, None);
    assert WriteNested(args, 0, {"T"}) == Written([], {"T"}, None);
    assert [Message(f.input, FieldsOf(args))] + [] == [Message(f.input, FieldsOf(args))];
    assert [Message(f.output, FieldsOf([]))] + [] == [Message(f.output, FieldsOf([]))];
  }

  lemma {:induction false} OneInput(f: Function)
    requires |f.params| == 1 && f.params[0].input && !f.params[0].output && f.returns_.None?
    ensures InputArgs(f) == [f.params[0].arg] && OutputArgs(f) == []
  {
    assert f.params[1..] == [] && ArgsIn([], true) == [] && ArgsIn([], false) == [];
    assert ArgsIn(f.params, false) == [f.params[0].arg] + [];
    assert ArgsIn(f.params, true) == [] + [];
  }
}
