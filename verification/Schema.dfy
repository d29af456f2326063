/** The protobuf schema writer: messages written recursively with a shared set of names. */
module Schema {
  import opened Basics

  /** An argument as the writer sees it. typ is the message name that goType, protoType and
      CamelCase make for a record or a table. */
  datatype Arg =
    | Simple(known: bool)
    | Record(typ: string, fields: seq<Arg>)
    | Table(typ: string, of: Option<Arg>)

  datatype Field = Scalar(number: nat, repeated: bool) | Ref(number: nat, repeated: bool, typ: string)

  datatype Message = Message(name: string, fields: seq<Field>)

  datatype Error = UnknownSimpleType | MissingTableOf

  function Size(a: Arg): nat {
    match a
    case Simple(_) => 1
    case Record(_, fields) => 1 + Sizes(fields)
    case Table(_, of) => if of.Some? then 1 + Size(of.value) else 1
  }

  function Sizes(args: seq<Arg>): nat {
    if args == [] then 0 else 1 + Size(args[0]) + Sizes(args[1..])
  }

  /** A simple argument and a table of a simple one are written as a scalar field. */
  predicate IsScalar(a: Arg) {
    a.Simple? || (a.Table? && a.of.Some? && a.of.value.Simple?)
  }

  predicate IsComposite(a: Arg) {
    !IsScalar(a) && !(a.Table? && a.of.None?)
  }

  /** The fields of the message for a: a table stands for its record, and a table of tables for
      a message with one field. */
  function SubArgs(a: Arg): (r: seq<Arg>)
    requires IsComposite(a)
    ensures Sizes(r) <= Size(a)
  {
    if a.Record? then a.fields
    else if a.of.value.Record? then a.of.value.fields
    else
      assert Sizes([a.of.value]) == 1 + Size(a.of.value) by { assert [a.of.value][1..] == []; }
      [a.of.value]
  }

  /** goType: an unknown simple type is an error, a missing table element a nil dereference. */
  function GoTypeError(a: Arg): Option<Error> {
    match a
    case Simple(known) => if known then None else Some(UnknownSimpleType)
    case Record(_, _) => None
    case Table(_, of) => if of.None? then Some(MissingTableOf) else GoTypeError(of.value)
  }

  predicate MissingTable(args: seq<Arg>) {
    exists i :: 0 <= i < |args| && args[i].Table? && args[i].of.None?
  }

  function FieldOf(a: Arg, number: nat): Field {
    if IsScalar(a) || a.Simple? then Scalar(number, a.Table?) else Ref(number, a.Table?, a.typ)
  }

  /** The fields of a message, numbered from 1. */
  function FieldsOf(args: seq<Arg>): (r: seq<Field>)
    ensures |r| == |args| && forall i :: 0 <= i < |args| ==> r[i] == FieldOf(args[i], i + 1)
  {
    seq(|args|, i requires 0 <= i < |args| => FieldOf(args[i], i + 1))
  }

  // ----- what is written -----

  /** text is what was written, seen the names that count as written; after an error the text is
      thrown away but seen is not. */
  datatype Written = Written(text: seq<Message>, seen: set<string>, error: Option<Error>)

  function Prefix(text: seq<Message>, w: Written): Written {
    if w.error.Some? then w else w.(text := text + w.text)
  }

  function Write(name: string, args: seq<Arg>, seen: set<string>): Written
    decreases Sizes(args), 1, 0
  {
    if MissingTable(args) then Written([], seen, Some(MissingTableOf))
    else
      var nested := WriteNested(args, 0, seen);
      if nested.error.Some? then nested.(text := [])
      else nested.(text := [Message(name, FieldsOf(args))] + nested.text)
  }

  /** The messages for the types of args[i..] that were not seen before. */
  function WriteNested(args: seq<Arg>, i: nat, seen: set<string>): Written
    requires i <= |args|
    decreases Sizes(args), 0, |args| - i
  {
    if i == |args| then Written([], seen, None)
    else
      var e := GoTypeError(args[i]);
      if e.Some? then Written([], seen, e)
      else if IsScalar(args[i]) || args[i].typ in seen then WriteNested(args, i + 1, seen)
      else
        SizeIn(args, i);
        GoTypeKnown(args[i]);
        var sub := Write(args[i].typ, SubArgs(args[i]), seen + {args[i].typ});
        if sub.error.Some? then sub
        else
          var rest := WriteNested(args, i + 1, sub.seen);
          Prefix(sub.text, rest)
  }

  lemma {:induction false} SizeIn(args: seq<Arg>, i: nat)
    requires i < |args|
    ensures Size(args[i]) < Sizes(args)
    decreases |args|
  {
    if i > 0 {
      assert args[i] == args[1..][i - 1];
      SizeIn(args[1..], i - 1);
    }
  }

  lemma {:induction false} GoTypeKnown(a: Arg)
    ensures GoTypeError(a).None? && !IsScalar(a) ==> IsComposite(a)
  {
  }

  // ----- functions -----

  datatype Param = Param(input: bool, output: bool, arg: Arg)

  /** input and output are the names of the function's two messages. */
  datatype Function = Function(input: string, output: string, params: seq<Param>, returns_: Option<Arg>)

  function ArgsIn(params: seq<Param>, out: bool): seq<Arg> {
    if params == [] then []
    else
      var first := params[0];
      (if (if out then first.output else first.input) then [first.arg] else []) + ArgsIn(params[1..], out)
  }

  function InputArgs(f: Function): seq<Arg> {
    ArgsIn(f.params, false)
  }

  function OutputArgs(f: Function): seq<Arg> {
    ArgsIn(f.params, true) + if f.returns_.Some? then [f.returns_.value] else []
  }

  function WriteFunction(f: Function, seen: set<string>): Written {
    var inp := Write(f.input, InputArgs(f), seen);
    if inp.error.Some? then inp
    else
      var outp := Write(f.output, OutputArgs(f), inp.seen);
      if outp.error.Some? then outp.(text := []) else outp.(text := inp.text + outp.text)
  }

  /** skip is SkipMissingTableOf. It saves only from unknown simple types: a table without an
      element panics, so MissingTableOf always ends the run. */
  predicate Skipped(w: Written, skip: bool) {
    skip && w.error == Some(UnknownSimpleType)
  }

  function WriteAll(functions: seq<Function>, i: nat, seen: set<string>, skip: bool): Written
    requires i <= |functions|
    decreases |functions| - i
  {
    if i == |functions| then Written([], seen, None)
    else
      var w := WriteFunction(functions[i], seen);
      if w.error.Some? && !Skipped(w, skip) then w.(text := [])
      else
        var rest := WriteAll(functions, i + 1, w.seen, skip);
        Prefix(if w.error.Some? then [] else w.text, rest)
  }

  // ----- the writer -----

  class Writer {
    var seen: set<string>

    constructor ()
      ensures seen == {}
    {
      seen := {};
    }

    /** A message, then the messages of the types first met in it, from a buffer of its own. */
    method WriteMessage(name: string, args: seq<Arg>) returns (text: seq<Message>, error: Option<Error>)
      modifies this
      ensures Written(text, seen, error) == Write(name, args, old(seen))
      decreases Sizes(args), 1
    {
      hide Sizes;
      hide Size;
      hide GoTypeError;
      hide SubArgs;
      text, error := [], None;
      for i := 0 to |args|
        invariant forall j :: 0 <= j < i ==> !(args[j].Table? && args[j].of.None?)
        invariant seen == old(seen)
      {
        if args[i].Table? && args[i].of.None? {
          return [], Some(MissingTableOf);
        }
      }
      var fields: seq<Field>, buf: seq<Message> := [], [];
      PrefixNothing(WriteNested(args, 0, seen));
      for i := 0 to |args|
        invariant fields == FieldsOf(args)[..i]
        invariant WriteNested(args, 0, old(seen)) == Prefix(buf, WriteNested(args, i, seen))
      {
        var e := GoTypeError(args[i]);
        if e.Some? {
          return [], e;
        }
        if !IsScalar(args[i]) && args[i].typ !in seen {
          SizeIn(args, i);
          GoTypeKnown(args[i]);
          seen := seen + {args[i].typ};
          var sub, err := WriteMessage(args[i].typ, SubArgs(args[i]));
          if err.Some? {
            return [], err;
          }
          PrefixMore(buf, sub, WriteNested(args, i + 1, seen));
          buf := buf + sub;
        }
        fields := fields + [FieldOf(args[i], i + 1)];
      }
      assert buf + [] == buf && fields == FieldsOf(args);
      text := [Message(name, fields)] + buf;
    }

    /** The arguments that go in the message's direction, and the return value last. */
    method DirArgs(f: Function, out: bool) returns (args: seq<Arg>)
      ensures args == if out then OutputArgs(f) else InputArgs(f)
    {
      args := [];
      assert f.params[0..] == f.params && [] + ArgsIn(f.params, out) == ArgsIn(f.params, out);
      for i := 0 to |f.params|
        invariant args + ArgsIn(f.params[i..], out) == ArgsIn(f.params, out)
      {
        var p := f.params[i];
        assert f.params[i..][0] == p && f.params[i..][1..] == f.params[i + 1..];
        if if out then p.output else p.input {
          assert args + ([p.arg] + ArgsIn(f.params[i + 1..], out)) == (args + [p.arg]) + ArgsIn(f.params[i + 1..], out);
          args := args + [p.arg];
        } else {
          assert [] + ArgsIn(f.params[i + 1..], out) == ArgsIn(f.params[i + 1..], out);
        }
      }
      assert f.params[|f.params|..] == [] && args + [] == args;
      if out && f.returns_.Some? {
        args := args + [f.returns_.value];
      } else {
        assert args + [] == args;
      }
    }

    method WriteFunctionMessages(f: Function) returns (text: seq<Message>, error: Option<Error>)
      modifies this
      ensures Written(text, seen, error) == WriteFunction(f, old(seen))
    {
      var args := DirArgs(f, false);
      text, error := WriteMessage(f.input, args);
      if error.Some? {
        return;
      }
      args := DirArgs(f, true);
      var more;
      more, error := WriteMessage(f.output, args);
      text := if error.Some? then [] else text + more;
    }

    method Save(functions: seq<Function>, skip: bool) returns (text: seq<Message>, error: Option<Error>)
      modifies this
      ensures var w := WriteAll(functions, 0, old(seen), skip);
        seen == w.seen && error == w.error && (error.None? ==> text == w.text)
    {
      text, error := [], None;
      PrefixNothing(WriteAll(functions, 0, seen, skip));
      for i := 0 to |functions|
        invariant WriteAll(functions, 0, old(seen), skip) == Prefix(text, WriteAll(functions, i, seen, skip))
      {
        var more, err := WriteFunctionMessages(functions[i]);
        if err.Some? {
          if skip && err.value == UnknownSimpleType {
            PrefixMore(text, [], WriteAll(functions, i + 1, seen, skip));
            assert text + [] == text;
            continue;
          }
          return text, err;
        }
        PrefixMore(text, more, WriteAll(functions, i + 1, seen, skip));
        text := text + more;
      }
    }
  }

  lemma {:induction false} PrefixMore(a: seq<Message>, b: seq<Message>, w: Written)
    ensures Prefix(a, Prefix(b, w)) == Prefix(a + b, w)
  {
  }

  lemma {:induction false} PrefixNothing(w: Written)
    ensures Prefix([], w) == w
  {
  }
}
