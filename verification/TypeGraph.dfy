/** The type graph serialiser: a memoised postorder walk numbers the types, and the decoder
    rebuilds the pointer graph, sharing included. */
module TypeGraph {
  import opened Basics

  datatype Info = Info(owner: string, package: string, name: string,
                       typeCode: string, collType: string, indexBy: string,
                       length: Option<int>, precision: Option<int>, scale: Option<int>)

  datatype Argument = Argument(name: string, typ: Type?)

  /** A type is not changed any more once it is in the graph. */
  class Type {
    const info: Info
    const elem: Type?
    const arguments: seq<Argument>

    constructor (info: Info, elem: Type?, arguments: seq<Argument>)
      ensures this.info == info && this.elem == elem && this.arguments == arguments
    {
      this.info, this.elem, this.arguments := info, elem, arguments;
    }
  }

  datatype ArgumentM = ArgumentM(name: string, typeIdx: nat)

  datatype TypeM = TypeM(typeIdx: nat, elemIdx: nat, info: Info, arguments: seq<ArgumentM>)

  /** The document: all types, and for each name the index of its type. */
  datatype Doc = Doc(schema: string, all: seq<TypeM>, m: seq<(string, nat)>)

  // ----- acyclic graphs -----

  ghost predicate Child(t: Type, x: Type) {
    x == t.elem || exists i :: 0 <= i < |t.arguments| && t.arguments[i].typ == x
  }

  /** A set of types that is closed under children, which have a smaller rank. */
  ghost predicate Acyclic(all: set<Type>, rank: Type -> nat) {
    forall t, x :: t in all && x in all && Child(t, x) ==> rank(x) < rank(t)
  }

  ghost predicate Closed(all: set<Type>) {
    forall t :: t in all ==>
      (t.elem != null ==> t.elem in all)
      && forall i :: 0 <= i < |t.arguments| && t.arguments[i].typ != null ==> t.arguments[i].typ in all
  }

  ghost predicate Graph(all: set<Type>, rank: Type -> nat) {
    Closed(all) && Acyclic(all, rank)
  }

  // ----- the numbering -----

  type Numbering = map<Type, nat>

  /** 0 stands for nil. */
  function Idx(idxs: Numbering, t: Type?): nat {
    if t != null && t in idxs then idxs[t] else 0
  }

  function EncodeArgs(idxs: Numbering, args: seq<Argument>): seq<ArgumentM> {
    seq(|args|, i requires 0 <= i < |args| => ArgumentM(args[i].name, Idx(idxs, args[i].typ)))
  }

  /** A child is numbered, with a number below n. */
  predicate Below(idxs: Numbering, t: Type?, n: nat) {
    t != null ==> t in idxs && idxs[t] < n
  }

  /** Type number n is t, all its children have smaller numbers, and tm is its encoding. */
  predicate Encodes(idxs: Numbering, t: Type, n: nat, tm: TypeM) {
    && Below(idxs, t.elem, n)
    && (forall i :: 0 <= i < |t.arguments| ==> Below(idxs, t.arguments[i].typ, n))
    && tm == TypeM(n, Idx(idxs, t.elem), t.info, EncodeArgs(idxs, t.arguments))
  }

  /** order lists the numbered types: position i has number i + 1, and nothing is there twice. */
  ghost predicate Numbered(order: seq<Type>, all: seq<TypeM>, idxs: Numbering) {
    && |all| == |order|
    && (forall i :: 0 <= i < |order| ==> order[i] in idxs && idxs[order[i]] == i + 1)
    && (forall t :: t in idxs ==> 1 <= idxs[t] <= |order| && order[idxs[t] - 1] == t)
    && (forall i :: 0 <= i < |order| ==> Encodes(idxs, order[i], i + 1, all[i]))
  }

  /** x can be reached from t. */
  ghost predicate Reaches(all: set<Type>, rank: Type -> nat, t: Type, x: Type)
    requires Graph(all, rank) && t in all
    decreases rank(t)
  {
    || x == t
    || (t.elem != null && (assert Child(t, t.elem); Reaches(all, rank, t.elem, x)))
    || exists i :: 0 <= i < |t.arguments| && t.arguments[i].typ != null
         && (assert Child(t, t.arguments[i].typ); Reaches(all, rank, t.arguments[i].typ, x))
  }

  predicate Extends(a: Numbering, b: Numbering) {
    forall t :: t in a ==> t in b && b[t] == a[t]
  }

  lemma {:induction false} EncodesKept(a: Numbering, b: Numbering, t: Type, n: nat, tm: TypeM)
    requires Extends(a, b) && Encodes(a, t, n, tm)
    ensures Encodes(b, t, n, tm)
  {
  }

  lemma {:induction false} EncodesNew(order: seq<Type>, all: seq<TypeM>, idxs: Numbering, t: Type, tm: TypeM)
    requires Numbered(order, all, idxs)
    requires tm == TypeM(|all| + 1, Idx(idxs, t.elem), t.info, EncodeArgs(idxs, t.arguments))
    requires t.elem != null ==> t.elem in idxs
    requires forall i :: 0 <= i < |t.arguments| ==> t.arguments[i].typ != null ==> t.arguments[i].typ in idxs
    ensures Encodes(idxs, t, |all| + 1, tm)
  {
  }

  lemma {:induction false} NumberOneMore(order: seq<Type>, all: seq<TypeM>, idxs: Numbering, t: Type, tm: TypeM)
    requires Numbered(order, all, idxs) && t !in idxs
    requires tm == TypeM(|all| + 1, Idx(idxs, t.elem), t.info, EncodeArgs(idxs, t.arguments))
    requires t.elem != null ==> t.elem in idxs
    requires forall i :: 0 <= i < |t.arguments| ==> t.arguments[i].typ != null ==> t.arguments[i].typ in idxs
    ensures Numbered(order + [t], all + [tm], idxs[t := |all| + 1])
  {
    hide Encodes;
    hide EncodeArgs;
    var idxs' := idxs[t := |all| + 1];
    EncodesNew(order, all, idxs, t, tm);
    assert Extends(idxs, idxs');
    forall i | 0 <= i < |order + [t]| ensures Encodes(idxs', (order + [t])[i], i + 1, (all + [tm])[i]) {
      EncodesKept(idxs, idxs', (order + [t])[i], i + 1, (all + [tm])[i]);
    }
  }

  /** From a to b only types that can be reached from t were numbered. */
  ghost predicate OnlyReached(all: set<Type>, rank: Type -> nat, a: Numbering, b: Numbering, t: Type?)
    requires Graph(all, rank) && (t != null ==> t in all)
  {
    Extends(a, b) && forall x :: x in b && x !in a ==> t != null && Reaches(all, rank, t, x) && rank(x) <= rank(t)
  }

  /** From a to b only types below t were numbered. */
  ghost predicate OnlyBelow(all: set<Type>, rank: Type -> nat, a: Numbering, b: Numbering, t: Type)
    requires Graph(all, rank) && t in all
  {
    Extends(a, b) && forall x :: x in b && x !in a ==> Reaches(all, rank, t, x) && rank(x) < rank(t)
  }

  lemma {:induction false} BelowStep(all: set<Type>, rank: Type -> nat, a: Numbering, b: Numbering, c: Numbering,
                                     t: Type, child: Type?)
    requires Graph(all, rank) && t in all && (child != null ==> child in all && Child(t, child))
    requires OnlyBelow(all, rank, a, b, t) && OnlyReached(all, rank, b, c, child)
    ensures OnlyBelow(all, rank, a, c, t)
  {
  }

  lemma {:induction false} BelowSelf(all: set<Type>, rank: Type -> nat, a: Numbering, t: Type)
    requires Graph(all, rank) && t in all
    ensures OnlyBelow(all, rank, a, a, t)
  {
  }

  lemma {:induction false} ReachedSelf(all: set<Type>, rank: Type -> nat, a: Numbering, t: Type?)
    requires Graph(all, rank) && (t != null ==> t in all)
    ensures OnlyReached(all, rank, a, a, t)
  {
  }

  lemma {:induction false} ReachedAfter(all: set<Type>, rank: Type -> nat, a: Numbering, b: Numbering, t: Type, u: nat)
    requires Graph(all, rank) && t in all && t !in a && OnlyBelow(all, rank, a, b, t)
    ensures t !in b && OnlyReached(all, rank, a, b[t := u], t)
  {
  }

  /** The first n children are numbered. */
  predicate ArgsNumbered(idxs: Numbering, args: seq<Argument>, n: nat)
    requires n <= |args|
  {
    forall j :: 0 <= j < n && args[j].typ != null ==> args[j].typ in idxs
  }

  lemma {:induction false} ArgsEncoded(a: Numbering, b: Numbering, args: seq<Argument>, n: nat)
    requires n < |args| && ArgsNumbered(a, args[..n], n) && Extends(a, b)
    requires args[n].typ != null ==> args[n].typ in b
    ensures args[..n + 1] == args[..n] + [args[n]] && ArgsNumbered(b, args[..n + 1], n + 1)
    ensures EncodeArgs(b, args[..n + 1]) ==
            EncodeArgs(a, args[..n]) + [ArgumentM(args[n].name, Idx(b, args[n].typ))]
  {
  }

  class Encoder {
    var allTypes: seq<TypeM>
    var typeIdxs: Numbering
    ghost var order: seq<Type>

    ghost predicate Valid()
      reads this
    {
      Numbered(order, allTypes, typeIdxs)
    }

    constructor ()
      ensures Valid() && typeIdxs == map[] && order == []
    {
      allTypes, typeIdxs, order := [], map[], [];
    }

    /** Children first; a type that already has a number keeps it. */
    method Serialize(t: Type?, ghost all: set<Type>, ghost rank: Type -> nat) returns (u: nat)
      requires Valid() && Graph(all, rank) && (t != null ==> t in all)
      modifies this
      decreases if t == null then 0 else rank(t) + 1, 1
      ensures Valid() && OnlyReached(all, rank, old(typeIdxs), typeIdxs, t)
      ensures u == Idx(typeIdxs, t) && (t != null ==> t in typeIdxs)
    {
      hide Numbered;
      hide OnlyReached;
      hide OnlyBelow;
      hide Reaches;
      hide EncodeArgs;
      ReachedSelf(all, rank, typeIdxs, t);
      if t == null {
        return 0;
      }
      BelowSelf(all, rank, typeIdxs, t);
      if t in typeIdxs {
        return typeIdxs[t];
      }
      var tm := TypeM(0, 0, t.info, []);
      ghost var idxs0 := typeIdxs;
      if t.elem != null {
        assert Child(t, t.elem);
        var e := Serialize(t.elem, all, rank);
        tm := tm.(elemIdx := e);
        BelowStep(all, rank, idxs0, idxs0, typeIdxs, t, t.elem);
      }
      var margs := SerializeArguments(t, all, rank, idxs0);
      tm := tm.(arguments := margs);
      u := |allTypes| + 1;
      tm := tm.(typeIdx := u);
      ReachedAfter(all, rank, idxs0, typeIdxs, t, u);
      assert tm == TypeM(u, Idx(typeIdxs, t.elem), t.info, EncodeArgs(typeIdxs, t.arguments));
      NumberOneMore(order, allTypes, typeIdxs, t, tm);
      allTypes := allTypes + [tm];
      typeIdxs := typeIdxs[t := u];
      order := order + [t];
    }

    /** The types of the arguments, in order. */
    method SerializeArguments(t: Type, ghost all: set<Type>, ghost rank: Type -> nat, ghost idxs0: Numbering)
      returns (margs: seq<ArgumentM>)
      requires Valid() && Graph(all, rank) && t in all && OnlyBelow(all, rank, idxs0, typeIdxs, t)
      modifies this
      decreases rank(t) + 1, 0
      ensures Valid() && Extends(old(typeIdxs), typeIdxs) && OnlyBelow(all, rank, idxs0, typeIdxs, t)
      ensures ArgsNumbered(typeIdxs, t.arguments, |t.arguments|) && margs == EncodeArgs(typeIdxs, t.arguments)
    {
      margs := [];
      for i := 0 to |t.arguments|
        invariant Valid() && Extends(old(typeIdxs), typeIdxs) && OnlyBelow(all, rank, idxs0, typeIdxs, t)
        invariant ArgsNumbered(typeIdxs, t.arguments[..i], i) && margs == EncodeArgs(typeIdxs, t.arguments[..i])
      {
        var a := t.arguments[i];
        ghost var before := typeIdxs;
        assert a.typ != null ==> Child(t, a.typ);
        var u := Serialize(a.typ, all, rank);
        BelowStep(all, rank, idxs0, before, typeIdxs, t, a.typ);
        ArgsEncoded(before, typeIdxs, t.arguments, i);
        margs := margs + [ArgumentM(a.name, u)];
      }
      assert t.arguments[..|t.arguments|] == t.arguments;
    }
  }

  // ----- the document -----

  lemma {:induction false} ChildrenNumbered(order: seq<Type>, tms: seq<TypeM>, idxs: Numbering, t: Type)
    requires Numbered(order, tms, idxs) && t in idxs
    ensures t.elem != null ==> t.elem in idxs
    ensures forall i :: 0 <= i < |t.arguments| && t.arguments[i].typ != null ==> t.arguments[i].typ in idxs
  {
    var n := idxs[t] - 1;
    assert order[n] == t;
    assert Encodes(idxs, order[n], n + 1, tms[n]);
  }

  /** Children are numbered with their parents. */
  lemma {:induction false} ReachableIsNumbered(all: set<Type>, rank: Type -> nat, order: seq<Type>, tms: seq<TypeM>,
                                               idxs: Numbering, t: Type, x: Type)
    requires Graph(all, rank) && t in all && Numbered(order, tms, idxs) && t in idxs && Reaches(all, rank, t, x)
    ensures x in idxs
    decreases rank(t)
  {
    hide Numbered;
    ChildrenNumbered(order, tms, idxs, t);
    if x != t {
      assert t.elem != null ==> Child(t, t.elem);
      if t.elem != null && Reaches(all, rank, t.elem, x) {
        ReachableIsNumbered(all, rank, order, tms, idxs, t.elem, x);
      } else {
        var i :| 0 <= i < |t.arguments| && t.arguments[i].typ != null
          && (assert Child(t, t.arguments[i].typ); Reaches(all, rank, t.arguments[i].typ, x));
        ReachableIsNumbered(all, rank, order, tms, idxs, t.arguments[i].typ, x);
      }
    }
  }

  type Names = map<string, Type?>

  /** The types the names lead to. */
  ghost predicate Reachable(all: set<Type>, rank: Type -> nat, m: Names, x: Type)
    requires Graph(all, rank) && NamesIn(m, all)
  {
    exists k :: k in m && m[k] != null && Reaches(all, rank, m[k], x)
  }

  ghost predicate NamesIn(m: Names, all: set<Type>) {
    forall k :: k in m && m[k] != null ==> m[k] in all
  }

  /** The sorted keys of the map. */
  ghost predicate Enumerates(names: seq<string>, m: Names) {
    (forall k :: k in names <==> k in m) && forall i, j :: 0 <= i < j < |names| ==> names[i] != names[j]
  }

  ghost predicate EncodedNames(names: seq<string>, m: Names, idxs: Numbering, entries: seq<(string, nat)>) {
    |entries| == |names| && forall i :: 0 <= i < |names| ==>
      names[i] in m && entries[i] == (names[i], Idx(idxs, m[names[i]])) && (m[names[i]] != null ==> m[names[i]] in idxs)
  }

  predicate NoPercent(s: string) {
    forall i :: 0 <= i < |s| ==> s[i] != '%'
  }

  predicate GoodNames(args: seq<ArgumentM>) {
    forall j :: 0 <= j < |args| ==> NoPercent(args[j].name)
  }

  /** What the decoder accepts. */
  predicate DocOk(doc: Doc) {
    && (forall i :: 0 <= i < |doc.all| ==> doc.all[i].typeIdx == i + 1 && GoodNames(doc.all[i].arguments))
    && forall i :: 0 <= i < |doc.m| ==> 1 <= doc.m[i].1 <= |doc.all|
  }

  /** The decoded type with this number, if there is one already. */
  function Ref(objs: seq<Type>, u: nat): Type? {
    if 1 <= u <= |objs| then objs[u - 1] else null
  }

  /** o is what tm decodes to when objs are there. */
  predicate DecodesTo(objs: seq<Type>, tm: TypeM, o: Type) {
    && o.info == tm.info && o.elem == Ref(objs, tm.elemIdx)
    && |o.arguments| == |tm.arguments|
    && forall j :: 0 <= j < |tm.arguments| ==>
         o.arguments[j] == Argument(tm.arguments[j].name, Ref(objs, tm.arguments[j].typeIdx))
  }

  ghost predicate Decoded(objs: seq<Type>, tms: seq<TypeM>) {
    && |objs| == |tms|
    && (forall i :: 0 <= i < |objs| ==> DecodesTo(objs[..i], tms[i], objs[i]))
    && forall i, j :: 0 <= i < j < |objs| ==> objs[i] != objs[j]
  }

  lemma NothingDecoded()
    ensures Decoded([], [])
  {
  }

  lemma {:induction false} DecodedStep(objs: seq<Type>, tms: seq<TypeM>, n: nat, t: Type)
    requires n < |tms| && Decoded(objs, tms[..n]) && DecodesTo(objs, tms[n], t)
    requires forall j :: 0 <= j < |objs| ==> objs[j] != t
    ensures Decoded(objs + [t], tms[..n + 1])
  {
  }

  function Filled(m: Names, objs: seq<Type>, entries: seq<(string, nat)>, n: nat): Names
    requires n <= |entries|
  {
    if n == 0 then m
    else Filled(m, objs, entries, n - 1)[entries[n - 1].0 := Ref(objs, entries[n - 1].1)]
  }

  class Types {
    var m: Names
    var currentSchema: string

    constructor (schema: string, m: Names)
      ensures this.m == m && currentSchema == schema
    {
      this.m, currentSchema := m, schema;
    }

    method Marshal(names: seq<string>, ghost all: set<Type>, ghost rank: Type -> nat)
      returns (doc: Doc, ghost order: seq<Type>, ghost idxs: Numbering)
      requires Graph(all, rank) && NamesIn(m, all) && Enumerates(names, m)
      ensures doc.schema == currentSchema && Numbered(order, doc.all, idxs)
      ensures EncodedNames(names, m, idxs, doc.m)
      ensures forall x :: x in idxs ==> Reachable(all, rank, m, x)
    {
      hide Numbered;
      hide Reaches;
      var enc := new Encoder();
      var mm: seq<(string, nat)> := [];
      for i := 0 to |names|
        invariant fresh(enc) && enc.Valid()
        invariant EncodedNames(names[..i], m, enc.typeIdxs, mm)
        invariant forall x :: x in enc.typeIdxs ==> Reachable(all, rank, m, x)
      {
        var k := names[i];
        assert k in names;
        ghost var before := enc.typeIdxs;
        var u := enc.Serialize(m[k], all, rank);
        mm := mm + [(k, u)];
        forall x | x in enc.typeIdxs ensures Reachable(all, rank, m, x) {
          if x !in before { assert Reaches(all, rank, m[k], x); }
        }
        assert names[..i + 1] == names[..i] + [k];
      }
      assert names[..|names|] == names;
      order, idxs := enc.order, enc.typeIdxs;
      doc := Doc(currentSchema, enc.allTypes, mm);
    }

    /** ok is false where the decoder returns an error. */
    method Unmarshal(doc: Doc) returns (ok: bool, ghost objs: seq<Type>)
      modifies this
      ensures ok <==> DocOk(doc)
      ensures ok ==> Decoded(objs, doc.all) && currentSchema == doc.schema
      ensures ok ==> m == Filled(old(m), objs, doc.m, |doc.m|)
    {
      hide Decoded;
      hide GoodNames;
      currentSchema := doc.schema;
      var types;
      ok, types := DecodeTypes(doc.all);
      objs := types;
      if !ok {
        return;
      }
      for i := 0 to |doc.m|
        invariant m == Filled(old(m), types, doc.m, i) && currentSchema == doc.schema
        invariant forall j :: 0 <= j < i ==> 1 <= doc.m[j].1 <= |doc.all|
      {
        var (k, u) := doc.m[i];
        var t := Ref(types, u);
        if t == null {
          return false, objs;
        }
        m := m[k := t];
      }
    }

    method DecodeTypes(tms: seq<TypeM>) returns (ok: bool, types: seq<Type>)
      ensures ok <==> forall j :: 0 <= j < |tms| ==> tms[j].typeIdx == j + 1 && GoodNames(tms[j].arguments)
      ensures ok ==> |types| == |tms| && Decoded(types, tms)
    {
      hide DecodesTo;
      hide GoodNames;
      hide Decoded;
      types := [];
      NothingDecoded();
      assert tms[..0] == [];
      for i := 0 to |tms|
        invariant |types| == i && Decoded(types, tms[..i])
        invariant forall j :: 0 <= j < i ==> tms[j].typeIdx == j + 1 && GoodNames(tms[j].arguments)
      {
        var t := DecodeType(types, tms[i]);
        if t == null || i + 1 != tms[i].typeIdx {
          return false, [];
        }
        assert forall j :: 0 <= j < |types| ==> types[j] != t;
        DecodedStep(types, tms, i, t);
        types := types + [t];
      }
      assert tms[..|tms|] == tms;
      ok := true;
    }

    /** null stands for the error on a percent sign in an argument name. */
    method DecodeType(types: seq<Type>, tm: TypeM) returns (t: Type?)
      ensures t == null <==> !GoodNames(tm.arguments)
      ensures t != null ==> fresh(t) && DecodesTo(types, tm, t)
    {
      var args: seq<Argument> := [];
      for j := 0 to |tm.arguments|
        invariant |args| == j
        invariant forall i :: 0 <= i < j ==> NoPercent(tm.arguments[i].name)
        invariant forall i :: 0 <= i < j ==>
          args[i] == Argument(tm.arguments[i].name, Ref(types, tm.arguments[i].typeIdx))
      {
        var a := tm.arguments[j];
        if !NoPercent(a.name) {
          return null;
        }
        args := args + [Argument(a.name, Ref(types, a.typeIdx))];
      }
      t := new Type(tm.info, Ref(types, tm.elemIdx), args);
    }
  }

  // ----- main results -----

  /** The pointer o of the new graph stands for the pointer t of the old one. */
  predicate Stands(idxs: Numbering, objs: seq<Type>, t: Type?, o: Type?) {
    && (t == null <==> o == null)
    && (t != null ==> t in idxs && 1 <= idxs[t] <= |objs| && o == objs[idxs[t] - 1])
  }

  /** A one to one correspondence of the types that preserves their contents and all pointers,
      so that what was shared is shared and what was not is not. */
  ghost predicate Isomorphic(order: seq<Type>, idxs: Numbering, objs: seq<Type>) {
    && |objs| == |order|
    && (forall i, j :: 0 <= i < j < |order| ==> order[i] != order[j] && objs[i] != objs[j])
    && forall i :: 0 <= i < |order| ==>
         && order[i] in idxs && idxs[order[i]] == i + 1
         && objs[i].info == order[i].info && Stands(idxs, objs, order[i].elem, objs[i].elem)
         && |objs[i].arguments| == |order[i].arguments|
         && forall j :: 0 <= j < |order[i].arguments| ==>
              objs[i].arguments[j].name == order[i].arguments[j].name
              && Stands(idxs, objs, order[i].arguments[j].typ, objs[i].arguments[j].typ)
  }

  lemma {:induction false} BelowStands(order: seq<Type>, tms: seq<TypeM>, idxs: Numbering, objs: seq<Type>, t: Type?,
                                       n: nat)
    requires Numbered(order, tms, idxs) && |objs| == |order| && n < |objs| && Below(idxs, t, n + 1)
    ensures Stands(idxs, objs, t, Ref(objs[..n], Idx(idxs, t)))
  {
  }

  /** The decoder never meets an index that is not defined yet, and what it builds from an
      encoded graph is isomorphic to the graph. */
  lemma {:induction false} DecodingRestoresGraph(order: seq<Type>, tms: seq<TypeM>, idxs: Numbering, objs: seq<Type>)
    requires Numbered(order, tms, idxs) && Decoded(objs, tms)
    ensures Isomorphic(order, idxs, objs)
  {
    forall i | 0 <= i < |order|
      ensures objs[i].info == order[i].info && Stands(idxs, objs, order[i].elem, objs[i].elem)
      ensures |objs[i].arguments| == |order[i].arguments|
      ensures forall j :: 0 <= j < |order[i].arguments| ==>
        objs[i].arguments[j].name == order[i].arguments[j].name
        && Stands(idxs, objs, order[i].arguments[j].typ, objs[i].arguments[j].typ)
    {
      var t := order[i];
      assert Encodes(idxs, t, i + 1, tms[i]) && DecodesTo(objs[..i], tms[i], objs[i]);
      BelowStands(order, tms, idxs, objs, t.elem, i);
      forall j | 0 <= j < |t.arguments|
        ensures Stands(idxs, objs, t.arguments[j].typ, objs[i].arguments[j].typ)
      {
        BelowStands(order, tms, idxs, objs, t.arguments[j].typ, i);
      }
    }
    forall i, j | 0 <= i < j < |order| ensures order[i] != order[j] {
      assert idxs[order[i]] == i + 1 && idxs[order[j]] == j + 1;
    }
  }

  ghost predicate ArgumentNamesOk(order: seq<Type>) {
    forall i :: 0 <= i < |order| ==> forall j :: 0 <= j < |order[i].arguments| ==> '%' !in order[i].arguments[j].name
  }

  /** An encoded document is accepted exactly when no name leads to nil and no argument name of a
      reachable type has a percent sign. */
  lemma {:induction false} DecoderAccepts(order: seq<Type>, idxs: Numbering, names: seq<string>, m: Names, doc: Doc)
    requires Numbered(order, doc.all, idxs) && Enumerates(names, m) && EncodedNames(names, m, idxs, doc.m)
    ensures DocOk(doc) <==> (forall k :: k in m ==> m[k] != null) && ArgumentNamesOk(order)
  {
    forall i | 0 <= i < |order|
      ensures doc.all[i].typeIdx == i + 1
      ensures GoodNames(doc.all[i].arguments) <==>
              forall j :: 0 <= j < |order[i].arguments| ==> '%' !in order[i].arguments[j].name
    {
      assert Encodes(idxs, order[i], i + 1, doc.all[i]);
      var ms := EncodeArgs(idxs, order[i].arguments);
      assert forall j :: 0 <= j < |ms| ==> ms[j].name == order[i].arguments[j].name;
      assert forall j :: 0 <= j < |ms| ==> (NoPercent(ms[j].name) <==> '%' !in ms[j].name);
    }
    forall i | 0 <= i < |names| ensures 1 <= doc.m[i].1 <= |doc.all| <==> m[names[i]] != null {}
    if forall i :: 0 <= i < |doc.m| ==> 1 <= doc.m[i].1 <= |doc.all| {
      forall k | k in m ensures m[k] != null {
        var i :| 0 <= i < |names| && names[i] == k;
        assert 1 <= doc.m[i].1 <= |doc.all|;
      }
    } else {
      var i :| 0 <= i < |doc.m| && !(1 <= doc.m[i].1 <= |doc.all|);
      assert names[i] in m && m[names[i]] == null;
    }
  }

  /** Names are kept. */
  lemma {:induction false} FilledNames(names: seq<string>, m: Names, idxs: Numbering, entries: seq<(string, nat)>,
                                       objs: seq<Type>, n: nat)
    requires EncodedNames(names, m, idxs, entries) && n <= |names|
    requires forall i, j :: 0 <= i < j < |names| ==> names[i] != names[j]
    ensures forall k :: k in Filled(map[], objs, entries, n) <==> exists i :: 0 <= i < n && names[i] == k
    ensures forall i :: 0 <= i < n ==> names[i] in Filled(map[], objs, entries, n)
    ensures forall i :: 0 <= i < n ==> Filled(map[], objs, entries, n)[names[i]] == Ref(objs, Idx(idxs, m[names[i]]))
  {
    if n > 0 {
      FilledNames(names, m, idxs, entries, objs, n - 1);
    }
  }

  /** Encoding and decoding again: succeeds exactly on graphs without nil names and without
      percent signs, and restores names and graph. */
  method RoundTrip(src: Types, names: seq<string>, ghost all: set<Type>, ghost rank: Type -> nat)
    returns (ok: bool, dst: Types, ghost order: seq<Type>, ghost idxs: Numbering, ghost objs: seq<Type>)
    requires Graph(all, rank) && NamesIn(src.m, all) && Enumerates(names, src.m)
    ensures forall x :: x in idxs <==> Reachable(all, rank, src.m, x)
    ensures ok <==> (forall k :: k in src.m ==> src.m[k] != null) && ArgumentNamesOk(order)
    ensures ok ==> Isomorphic(order, idxs, objs) && dst.currentSchema == src.currentSchema
    ensures ok ==> dst.m.Keys == src.m.Keys && forall k :: k in src.m ==> Stands(idxs, objs, src.m[k], dst.m[k])
  {
    hide Numbered;
    hide Isomorphic;
    hide EncodedNames;
    hide Decoded;
    hide Filled;
    hide Stands;
    hide Reachable;
    hide DocOk;
    hide ArgumentNamesOk;
    hide NamesIn;
    var doc;
    doc, order, idxs := src.Marshal(names, all, rank);
    dst := new Types("", map[]);
    ok, objs := dst.Unmarshal(doc);
    DecoderAccepts(order, idxs, names, src.m, doc);
    forall x | Reachable(all, rank, src.m, x) ensures x in idxs {
      NamedIsNumbered(all, rank, order, doc, idxs, names, src.m, x);
    }
    if ok {
      DecodingRestoresGraph(order, doc.all, idxs, objs);
      NamesStand(names, src.m, idxs, doc.m, objs, order, doc.all);
    }
  }

  lemma {:induction false} NamedIsNumbered(all: set<Type>, rank: Type -> nat, order: seq<Type>, doc: Doc,
                                           idxs: Numbering, names: seq<string>, m: Names, x: Type)
    requires Graph(all, rank) && NamesIn(m, all) && Enumerates(names, m)
    requires Numbered(order, doc.all, idxs) && EncodedNames(names, m, idxs, doc.m)
    requires Reachable(all, rank, m, x)
    ensures x in idxs
  {
    var k :| k in m && m[k] != null && Reaches(all, rank, m[k], x);
    assert k in names;
    var i :| 0 <= i < |names| && names[i] == k;
    ReachableIsNumbered(all, rank, order, doc.all, idxs, m[k], x);
  }

  lemma {:induction false} NamesStand(names: seq<string>, m: Names, idxs: Numbering, entries: seq<(string, nat)>,
                                      objs: seq<Type>, order: seq<Type>, tms: seq<TypeM>)
    requires Enumerates(names, m) && EncodedNames(names, m, idxs, entries)
    requires Numbered(order, tms, idxs) && |objs| == |order| && forall k :: k in m ==> m[k] != null
    ensures var m' := Filled(map[], objs, entries, |entries|);
      m'.Keys == m.Keys && forall k :: k in m ==> Stands(idxs, objs, m[k], m'[k])
  {
    hide Numbered;
    hide Filled;
    hide Ref;
    var m' := Filled(map[], objs, entries, |entries|);
    FilledNames(names, m, idxs, entries, objs, |names|);
    forall k ensures k in m <==> k in m' {
      assert k in m <==> k in names;
    }
    forall k | k in m ensures Stands(idxs, objs, m[k], m'[k]) {
      assert k in names;
      var i :| 0 <= i < |names| && names[i] == k;
      NumberStands(order, tms, idxs, objs, m[k]);
    }
  }

  lemma {:induction false} NumberStands(order: seq<Type>, tms: seq<TypeM>, idxs: Numbering, objs: seq<Type>, t: Type)
    requires Numbered(order, tms, idxs) && |objs| == |order| && t in idxs
    ensures Stands(idxs, objs, t, Ref(objs, Idx(idxs, t)))
  {
  }
}
