/** What the schema of a run says, in terms of parameters, records and tables alone. */
module SchemaMeaning {
  import opened Basics
  import opened Schema
  import opened SchemaTheorem

  // ----- fields -----

  /** A field is repeated exactly when its argument is a table; only simple arguments and tables
      of them are scalars. */
  function Shape(a: Arg, number: nat): Field {
    match a
    case Simple(_) => Scalar(number, false)
    case Record(typ, _) => Ref(number, false, typ)
    case Table(_, Some(Simple(_))) => Scalar(number, true)
    case Table(typ, _) => Ref(number, true, typ)
  }

  predicate Shapes(fields: seq<Field>, args: seq<Arg>) {
    |fields| == |args| && forall i :: 0 <= i < |args| ==> fields[i] == Shape(args[i], i + 1)
  }

  lemma FieldsHaveShape(args: seq<Arg>)
    ensures Shapes(FieldsOf(args), args)
  {
  }

  // ----- the two messages of a function -----

  predicate Goes(f: Function, out: bool, i: nat) {
    i < |f.params| && if out then f.params[i].output else f.params[i].input
  }

  lemma {:induction false} ArgsInLast(params: seq<Param>, p: Param, out: bool)
    ensures ArgsIn(params + [p], out) ==
            ArgsIn(params, out) + if (if out then p.output else p.input) then [p.arg] else []
    decreases |params|
  {
    if params == [] {
      assert params + [p] == [p] && [p][1..] == [];
    } else {
      assert (params + [p])[1..] == params[1..] + [p];
      ArgsInLast(params[1..], p, out);
    }
  }

  lemma {:induction false} ArgsArePicked(f: Function, out: bool, n: nat) returns (idx: seq<nat>)
    requires n <= |f.params|
    ensures Picks(idx, n, (i: nat) => Goes(f, out, i))
    ensures var args := ArgsIn(f.params[..n], out);
      |args| == |idx| && forall j :: 0 <= j < |idx| ==> idx[j] < |f.params| && args[j] == f.params[idx[j]].arg
    decreases n
  {
    if n == 0 {
      idx := [];
    } else {
      idx := ArgsArePicked(f, out, n - 1);
      PickNext(idx, n - 1, (i: nat) => Goes(f, out, i));
      ArgsInLast(f.params[..n - 1], f.params[n - 1], out);
      assert f.params[..n - 1] + [f.params[n - 1]] == f.params[..n];
      idx := idx + if Goes(f, out, n - 1) then [n - 1] else [];
    }
  }

  /** The fields are those of the parameters in that direction, in order, and then of the return
      value, if there is one. */
  ghost predicate FieldsFrom(fields: seq<Field>, f: Function, out: bool, idx: seq<nat>) {
    && Picks(idx, |f.params|, (i: nat) => Goes(f, out, i))
    && |fields| == |idx| + (if out && f.returns_.Some? then 1 else 0)
    && (forall j :: 0 <= j < |idx| ==> idx[j] < |f.params| && fields[j] == Shape(f.params[idx[j]].arg, j + 1))
    && (out && f.returns_.Some? ==> fields[|idx|] == Shape(f.returns_.value, |idx| + 1))
  }

  lemma {:induction false} DirFields(f: Function, out: bool) returns (idx: seq<nat>)
    ensures FieldsFrom(FieldsOf(if out then OutputArgs(f) else InputArgs(f)), f, out, idx)
  {
    hide FieldsOf;
    hide Shape;
    hide Picks;
    hide ArgsIn;
    idx := ArgsArePicked(f, out, |f.params|);
    assert f.params[..|f.params|] == f.params;
    var args := if out then OutputArgs(f) else InputArgs(f);
    FieldsHaveShape(args);
    var fields := FieldsOf(args);
    forall j | 0 <= j < |idx| ensures fields[j] == Shape(f.params[idx[j]].arg, j + 1) {
      assert args[j] == ArgsIn(f.params, out)[j];
    }
  }

  /** Every parameter in that direction is among the arguments. */
  lemma {:induction false} ParamIsArg(f: Function, out: bool, i: nat)
    requires Goes(f, out, i)
    ensures f.params[i].arg in if out then OutputArgs(f) else InputArgs(f)
  {
    var idx := ArgsArePicked(f, out, |f.params|);
    assert f.params[..|f.params|] == f.params;
    assert i in idx;
    var j :| 0 <= j < |idx| && idx[j] == i;
    assert ArgsIn(f.params, out)[j] == f.params[i].arg;
  }

  /** A function that is written has an input and an output message with the fields of its
      parameters; one that goes both ways is in both. */
  lemma {:induction false} FunctionMessages(f: Function, seen: set<string>) returns (ins: seq<nat>, outs: seq<nat>)
    requires WriteFunction(f, seen).error.None?
    ensures exists m :: m in WriteFunction(f, seen).text && m.name == f.input && FieldsFrom(m.fields, f, false, ins)
    ensures exists m :: m in WriteFunction(f, seen).text && m.name == f.output && FieldsFrom(m.fields, f, true, outs)
  {
    hide FieldsFrom;
    hide WriteFunction;
    FunctionDefines(f, seen);
    ins := DirFields(f, false);
    outs := DirFields(f, true);
    assert Message(f.input, FieldsOf(InputArgs(f))) in WriteFunction(f, seen).text;
    assert Message(f.output, FieldsOf(OutputArgs(f))) in WriteFunction(f, seen).text;
  }

  // ----- what is written for a type -----

  /** An unknown simple type, or a table of one, or a table without an element. */
  predicate Untyped(a: Arg) {
    match a
    case Simple(known) => !known
    case Record(_, _) => false
    case Table(_, None) => true
    case Table(_, Some(e)) => Untyped(e)
  }

  /** A message whose own fields are not all typed is an error. */
  lemma {:induction false} UntypedIsError(name: string, args: seq<Arg>, seen: set<string>)
    ensures (exists i :: 0 <= i < |args| && Untyped(args[i])) ==> Write(name, args, seen).error.Some?
  {
    hide Write;
    if i: nat :| i < |args| && Untyped(args[i]) {
      UntypedError(args[i]);
      FailsAt(args, 0, i, seen);
      WriteFails(name, args, seen);
    }
  }

  lemma UntypedError(a: Arg)
    ensures GoTypeError(a).Some? <==> Untyped(a)
    ensures GoTypeError(a) != Some(MissingTableOf) ==> !(a.Table? && a.of.None?)
  {
  }

  lemma WriteFails(name: string, args: seq<Arg>, seen: set<string>)
    requires WriteNested(args, 0, seen).error.Some?
    ensures Write(name, args, seen).error.Some?
  {
  }

  lemma {:induction false} FailsAt(args: seq<Arg>, i: nat, k: nat, seen: set<string>)
    requires i <= k < |args| && GoTypeError(args[k]).Some?
    ensures WriteNested(args, i, seen).error.Some?
    decreases k - i
  {
    hide Write;
    if i < k && GoTypeError(args[i]).None? {
      if IsScalar(args[i]) || args[i].typ in seen {
        FailsAt(args, i + 1, k, seen);
      } else {
        SizeIn(args, i);
        GoTypeKnown(args[i]);
        FailsAt(args, i + 1, k, Write(args[i].typ, SubArgs(args[i]), seen + {args[i].typ}).seen);
      }
    }
  }

  /** The messages for an argument: a record has its fields, a table of records the fields of the
      record, a table of tables one field for the inner table; and so on below. */
  ghost predicate Mirrored(text: seq<Message>, a: Arg)
    decreases a
  {
    match a
    case Simple(_) => true
    case Record(typ, fields) =>
      HasMessage(text, typ, fields) && forall i :: 0 <= i < |fields| ==> Mirrored(text, fields[i])
    case Table(_, None) => false
    case Table(typ, Some(Simple(_))) => true
    case Table(typ, Some(Record(_, fields))) =>
      HasMessage(text, typ, fields) && forall i :: 0 <= i < |fields| ==> Mirrored(text, fields[i])
    case Table(typ, Some(inner)) => HasMessage(text, typ, [inner]) && Mirrored(text, inner)
  }

  ghost predicate HasMessage(text: seq<Message>, typ: string, args: seq<Arg>) {
    exists m :: m in text && m.name == typ && Shapes(m.fields, args)
  }

  lemma {:induction false} MessageHas(text: seq<Message>, c: Arg)
    requires IsComposite(c) && MessageOf(c) in text
    ensures HasMessage(text, c.typ, SubArgs(c))
  {
    FieldsHaveShape(SubArgs(c));
    assert MessageOf(c).name == c.typ;
  }

  /** The arguments in scope, and what is below them, have their messages. */
  lemma {:induction false} AllMirrored(text: seq<Message>, args: seq<Arg>)
    requires forall c :: Occurs(c, args) && IsComposite(c) ==> MessageOf(c) in text
    requires AllKnown(args)
    ensures forall i :: 0 <= i < |args| ==> Mirrored(text, args[i])
    decreases Sizes(args), 1
  {
    forall i | 0 <= i < |args| ensures Mirrored(text, args[i]) {
      OneMirrored(text, args, i);
    }
  }

  lemma {:induction false} OneMirrored(text: seq<Message>, args: seq<Arg>, i: nat)
    requires i < |args| && forall c :: Occurs(c, args) && IsComposite(c) ==> MessageOf(c) in text
    requires AllKnown(args)
    ensures Mirrored(text, args[i])
    decreases Sizes(args), 0
  {
    hide HasMessage;
    hide MessageOf;
    var a := args[i];
    OccursAt(a, args, i);
    KnownType(a);
    SizeIn(args, i);
    if IsComposite(a) {
      MessageHas(text, a);
      forall c | Occurs(c, SubArgs(a)) && IsComposite(c) ensures MessageOf(c) in text { OccursAt(c, args, i); }
      AllMirrored(text, SubArgs(a));
      var sub := SubArgs(a);
      assert forall j :: 0 <= j < |sub| ==> Mirrored(text, sub[j]);
    }
  }

  /** a is the argument of a parameter that goes in or out, or the return value. */
  ghost predicate Visible(f: Function, a: Arg) {
    || f.returns_ == Some(a)
    || exists i :: 0 <= i < |f.params| && (f.params[i].input || f.params[i].output) && f.params[i].arg == a
  }

  lemma {:induction false} VisibleIsArg(f: Function, a: Arg)
    requires Visible(f, a)
    ensures a in InputArgs(f) || a in OutputArgs(f)
  {
    if f.returns_ == Some(a) {
      assert OutputArgs(f)[|OutputArgs(f)| - 1] == a;
    } else {
      var i :| 0 <= i < |f.params| && (f.params[i].input || f.params[i].output) && f.params[i].arg == a;
      ParamIsArg(f, !f.params[i].input, i);
    }
  }

  /** With known types and one type per name the schema of a run mirrors the types of all
      parameters and return values. */
  lemma {:induction false} SchemaIsMirror(functions: seq<Function>, skip: bool, k: nat, a: Arg)
    requires AllTypesKnown(functions) && OneTypePerName(functions)
    requires NamesApart(functions, WriteAll(functions, 0, {}, skip))
    requires k < |functions| && Visible(functions[k], a)
    ensures Mirrored(WriteAll(functions, 0, {}, skip).text, a)
  {
    hide Mirrored;
    hide WriteAll;
    hide NamesApart;
    hide OneTypePerName;
    hide Occurs;
    hide Visible;
    VisibleIsArg(functions[k], a);
    var args := if a in InputArgs(functions[k]) then InputArgs(functions[k]) else OutputArgs(functions[k]);
    var text := WriteAll(functions, 0, {}, skip).text;
    forall c | Occurs(c, args) && IsComposite(c) ensures MessageOf(c) in text {
      SchemaMirrorsTypes(functions, skip, k, c);
    }
    AllMirrored(text, args);
    var i :| 0 <= i < |args| && args[i] == a;
  }
}
