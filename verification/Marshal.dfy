/** The call marshalling compiler: records and tables of records are split into one bind
    per column; the generated block gathers the columns, calls the procedure and scatters
    the results. Names of local variables and parameters are already allocated here
    (module Names does that). */
module Marshal {
  import opened Basics
  import opened Plsql

  datatype Direction = In | Out | InOut {
    predicate IsInput() { In? || InOut? }
    predicate IsOutput() { Out? || InOut? }
  }

  /** One field of a record: its name and the parameter that carries it. */
  datatype Col = Col(field: string, param: string)

  /** An argument, by flavour. REF CURSOR outputs are bound directly, like simple arguments. */
  datatype Arg =
    | Simple(formal: string, dir: Direction)
    | Record(formal: string, dir: Direction, vn: string, cols: seq<Col>)
    | Table(formal: string, dir: Direction, vn: string)
    | RecTable(formal: string, dir: Direction, vn: string, cols: seq<Col>)
  {
    function Name(): string { ReplHidden(formal) }

    /** A composite argument that the call looks up by another name than it is registered under. */
    predicate Hidden() { !Simple? && Name() != formal }

    /** The call passes a bind of the argument's own name. */
    predicate ByBind() { Simple? || Hidden() }
  }

  datatype Function = Function(args: seq<Arg>, result: Option<Arg>, handles: bool)

  const HIDDEN := "_hidden"
  const I1 := "i1"
  const I2 := "i2"
  const RET := "ret"

  function ReplHidden(text: string): string {
    if text != "" && text[|text| - 1] == '#' then text[..|text| - 1] + HIDDEN else text
  }

  // ----- the generated block -----

  datatype Init = NullIndex | NullRecord | EmptyArr | EmptyRecArr | FromBind(b: string)

  datatype Decl = Decl(v: string, init: Init)

  datatype Place = AtBind(b: string) | AtVar(v: string)

  datatype Actual = Actual(formal: string, dir: Direction, place: Place)

  datatype Block = Block(decls: seq<Decl>, pre: seq<Stmt>, actuals: seq<Actual>,
                         hasResult: bool, handles: bool, post: seq<Stmt>)

  datatype LineKind = LoadCol | ClearCol | GatherCell | ScatterCell | ReturnCol | FetchField | ReturnField

  function Line(kind: LineKind, vn: string, c: Col): Stmt {
    match kind
    case LoadCol => Assign(ToVar(c.param), BindRef(c.param))
    case ClearCol => Delete(c.param)
    case GatherCell => Assign(ToElemField(vn, I1, c.field), ElemOf(c.param, I1))
    case ScatterCell => Assign(ToElem(c.param, I2), ElemField(vn, I1, c.field))
    case ReturnCol => Assign(ToBind(c.param), VarRef(c.param))
    case FetchField => Assign(ToField(vn, c.field), BindRef(c.param))
    case ReturnField => Assign(ToBind(c.param), FieldOf(vn, c.field))
  }

  function Lines(kind: LineKind, vn: string, cols: seq<Col>): seq<Stmt> {
    if cols == [] then [] else [Line(kind, vn, cols[0])] + Lines(kind, vn, cols[1..])
  }

  /** i1 walks the indexes of `over`. */
  function Walk(over: string, body: seq<Stmt>): seq<Stmt> {
    [Assign(ToVar(I1), FirstOf(over)), WhileNotNull(I1, body + [Assign(ToVar(I1), NextOf(over, I1))])]
  }

  /** The scatter loop also counts the rows in i2. */
  function WalkCounting(over: string, body: seq<Stmt>): seq<Stmt> {
    [Assign(ToVar(I1), FirstOf(over)), Assign(ToVar(I2), IntLit(1)),
     WhileNotNull(I1, body + [Assign(ToVar(I1), NextOf(over, I1)), Assign(ToVar(I2), PlusOne(I2))])]
  }

  function CopyCell(dst: string, src: string): seq<Stmt> {
    [Assign(ToElem(dst, I1), ElemOf(src, I1))]
  }

  function ColDecls(cols: seq<Col>): seq<Decl> {
    if cols == [] then [] else [Decl(cols[0].param, EmptyArr)] + ColDecls(cols[1..])
  }

  function DeclsArg(a: Arg): seq<Decl> {
    match a
    case Simple(_, _) => []
    case Record(_, _, vn, _) => [Decl(vn, NullRecord)]
    case Table(_, dir, vn) =>
      [Decl(a.Name(), if dir.IsInput() then FromBind(a.Name()) else EmptyArr), Decl(vn, EmptyArr)]
    case RecTable(_, _, vn, cols) => [Decl(vn, EmptyRecArr)] + ColDecls(cols)
  }

  function PreArg(a: Arg): seq<Stmt> {
    match a
    case Simple(_, _) => []
    case Record(_, dir, vn, cols) => if dir.IsInput() then Lines(FetchField, vn, cols) else []
    case Table(_, dir, vn) =>
      if dir.IsInput() then [Delete(vn)] + Walk(a.Name(), CopyCell(vn, a.Name())) else []
    case RecTable(_, dir, vn, cols) =>
      if !dir.IsInput() then [Delete(vn)] + Lines(ClearCol, vn, cols)
      else if cols == [] then []
      else Lines(LoadCol, vn, cols) + Walk(cols[0].param, Lines(GatherCell, vn, cols))
  }

  function PostArg(a: Arg): seq<Stmt> {
    if !a.dir.IsOutput() then [] else
    match a
    case Simple(_, _) => []
    case Record(_, _, vn, cols) => Lines(ReturnField, vn, cols)
    case Table(_, _, vn) =>
      [Delete(a.Name())] + Walk(vn, CopyCell(a.Name(), vn)) + [Assign(ToBind(a.Name()), VarRef(a.Name()))]
    case RecTable(_, _, vn, cols) =>
      if cols == [] then []
      else WalkCounting(vn, Lines(ScatterCell, vn, cols)) + Lines(ReturnCol, vn, cols)
  }

  function Decls(args: seq<Arg>): seq<Decl> {
    if args == [] then [] else DeclsArg(args[0]) + Decls(args[1..])
  }

  function Pre(args: seq<Arg>): seq<Stmt> {
    if args == [] then [] else PreArg(args[0]) + Pre(args[1..])
  }

  function Post(args: seq<Arg>): seq<Stmt> {
    if args == [] then [] else PostArg(args[0]) + Post(args[1..])
  }

  /** Composite arguments are passed through a local variable, found by the replaced name. */
  function CallArgs(args: seq<Arg>, m: map<string, string>): map<string, string> {
    if args == [] then m
    else CallArgs(args[1..], if args[0].Simple? then m else m[args[0].Name() := args[0].vn])
  }

  function Actuals(args: seq<Arg>, callArgs: map<string, string>): seq<Actual> {
    if args == [] then [] else
    var a := args[0];
    [Actual(a.formal, a.dir, if a.formal in callArgs then AtVar(callArgs[a.formal]) else AtBind(a.formal))]
    + Actuals(args[1..], callArgs)
  }

  function AllArgs(f: Function): seq<Arg> {
    f.args + if f.result.Some? then [f.result.value] else []
  }

  function BlockOf(f: Function): Block {
    Block([Decl(I1, NullIndex), Decl(I2, NullIndex)] + Decls(AllArgs(f)),
          Pre(AllArgs(f)), Actuals(f.args, CallArgs(AllArgs(f), map[])),
          f.result.Some?, f.handles, Post(AllArgs(f)))
  }

  // ----- the generator -----

  lemma Assoc<T>(a: seq<T>, b: seq<T>, c: seq<T>)
    ensures (a + b) + c == a + (b + c)
  {
  }

  method EmitLines(ss: seq<Stmt>, kind: LineKind, vn: string, cols: seq<Col>) returns (r: seq<Stmt>)
    ensures r == ss + Lines(kind, vn, cols)
  {
    r := ss;
    assert cols[0..] == cols;
    for j := 0 to |cols|
      invariant r + Lines(kind, vn, cols[j..]) == ss + Lines(kind, vn, cols)
    {
      r := r + [Line(kind, vn, cols[j])];
      assert cols[j..][1..] == cols[j + 1..];
    }
    assert cols[|cols|..] == [];
  }

  /** The body of the loop over the arguments. */
  method EmitArg(a: Arg, decls0: seq<Decl>, pre0: seq<Stmt>, post0: seq<Stmt>)
    returns (decls: seq<Decl>, pre: seq<Stmt>, post: seq<Stmt>)
    ensures decls == decls0 + DeclsArg(a) && pre == pre0 + PreArg(a) && post == post0 + PostArg(a)
  {
    decls, pre, post := decls0, pre0, post0;
    match a {
      case Simple(_, _) =>
      case Record(_, dir, vn, cols) =>
        decls := decls + [Decl(vn, NullRecord)];
        if dir.IsInput() { pre := EmitLines(pre, FetchField, vn, cols); }
        if dir.IsOutput() { post := EmitLines(post, ReturnField, vn, cols); }
      case Table(_, dir, vn) =>
        decls := decls + [Decl(a.Name(), if dir.IsInput() then FromBind(a.Name()) else EmptyArr), Decl(vn, EmptyArr)];
        if dir.IsInput() { pre := pre + ([Delete(vn)] + Walk(a.Name(), CopyCell(vn, a.Name()))); }
        if dir.IsOutput() {
          post := post + ([Delete(a.Name())] + Walk(vn, CopyCell(a.Name(), vn))
                          + [Assign(ToBind(a.Name()), VarRef(a.Name()))]);
        }
      case RecTable(_, dir, vn, cols) =>
        decls := DeclareColumns(decls + [Decl(vn, EmptyRecArr)], cols);
        Assoc(decls0, [Decl(vn, EmptyRecArr)], ColDecls(cols));
        pre := EmitGather(a, pre);
        post := EmitScatter(a, post);
    }
  }

  method EmitGather(a: Arg, pre0: seq<Stmt>) returns (pre: seq<Stmt>)
    requires a.RecTable?
    ensures pre == pre0 + PreArg(a)
  {
    pre := pre0;
    if !a.dir.IsInput() {
      pre := pre + [Delete(a.vn)];
      pre := EmitLines(pre, ClearCol, a.vn, a.cols);
      Assoc(pre0, [Delete(a.vn)], Lines(ClearCol, a.vn, a.cols));
    } else if a.cols != [] {
      pre := EmitLines(pre, LoadCol, a.vn, a.cols);
      var body := EmitLines([], GatherCell, a.vn, a.cols);
      assert body == Lines(GatherCell, a.vn, a.cols);
      pre := pre + Walk(a.cols[0].param, body);
      Assoc(pre0, Lines(LoadCol, a.vn, a.cols), Walk(a.cols[0].param, body));
    }
  }

  method EmitScatter(a: Arg, post0: seq<Stmt>) returns (post: seq<Stmt>)
    requires a.RecTable?
    ensures post == post0 + PostArg(a)
  {
    post := post0;
    if a.dir.IsOutput() && a.cols != [] {
      var body := EmitLines([], ScatterCell, a.vn, a.cols);
      assert body == Lines(ScatterCell, a.vn, a.cols);
      post := post + WalkCounting(a.vn, body);
      post := EmitLines(post, ReturnCol, a.vn, a.cols);
      Assoc(post0, WalkCounting(a.vn, body), Lines(ReturnCol, a.vn, a.cols));
    }
  }

  method PrepareCall(f: Function) returns (b: Block)
    ensures b == BlockOf(f)
  {
    var index := [Decl(I1, NullIndex), Decl(I2, NullIndex)];
    var decls, pre, post := index, [], [];
    var callArgs: map<string, string> := map[];
    var args := f.args;
    if f.result.Some? {
      args := args + [f.result.value];
    }
    assert args == AllArgs(f) && args[0..] == args;
    for n := 0 to |args|
      invariant decls + Decls(args[n..]) == index + Decls(args)
      invariant pre + Pre(args[n..]) == Pre(args) && post + Post(args[n..]) == Post(args)
      invariant CallArgs(args[n..], callArgs) == CallArgs(args, map[])
    {
      var a := args[n];
      assert args[n..][0] == a && args[n..][1..] == args[n + 1..];
      var rest := args[n + 1..];
      Assoc(decls, DeclsArg(a), Decls(rest));
      Assoc(pre, PreArg(a), Pre(rest));
      Assoc(post, PostArg(a), Post(rest));
      decls, pre, post := EmitArg(a, decls, pre, post);
      if !a.Simple? {
        callArgs := callArgs[a.Name() := a.vn];
      }
    }
    assert args[|args|..] == [];
    var actuals := EmitActuals(f.args, callArgs);
    b := Block(decls, pre, actuals, f.result.Some?, f.handles, post);
  }

  method EmitActuals(args: seq<Arg>, callArgs: map<string, string>) returns (actuals: seq<Actual>)
    ensures actuals == Actuals(args, callArgs)
  {
    actuals := [];
    assert args[0..] == args;
    for n := 0 to |args|
      invariant actuals + Actuals(args[n..], callArgs) == Actuals(args, callArgs)
    {
      var a := args[n];
      var place := if a.formal in callArgs then AtVar(callArgs[a.formal]) else AtBind(a.formal);
      var actual := Actual(a.formal, a.dir, place);
      assert args[n..][0] == a && args[n..][1..] == args[n + 1..];
      assert Actuals(args[n..], callArgs) == [actual] + Actuals(args[n + 1..], callArgs);
      Assoc(actuals, [actual], Actuals(args[n + 1..], callArgs));
      actuals := actuals + [actual];
    }
    assert args[|args|..] == [] && actuals + [] == actuals;
  }

  method DeclareColumns(ds: seq<Decl>, cols: seq<Col>) returns (r: seq<Decl>)
    ensures r == ds + ColDecls(cols)
  {
    r := ds;
    assert cols[0..] == cols;
    for j := 0 to |cols|
      invariant r + ColDecls(cols[j..]) == ds + ColDecls(cols)
    {
      r := r + [Decl(cols[j].param, EmptyArr)];
      assert cols[j..][1..] == cols[j + 1..];
    }
    assert cols[|cols|..] == [];
  }
}
