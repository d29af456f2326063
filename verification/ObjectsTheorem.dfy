/** Scanning the object that was written from a message gives the message back, exactly when
    nothing in the message is of a kind that writing or scanning drops. */
module ObjectsTheorem {
  import opened Basics
  import opened Objects

  /** Attribute names, and the Go field names made from them, are distinct at every level. */
  ghost predicate WellNamed(t: Type) {
    && (forall i, j :: 0 <= i < j < |t.args| ==>
          t.args[i].name != t.args[j].name && GoName(t.args[i].name) != GoName(t.args[j].name))
    && (t.elem.Some? ==> WellNamed(t.elem.value))
    && forall i :: 0 <= i < |t.args| ==> WellNamed(t.args[i].typ)
  }

  /** The message has the fields of its type, each of the right kind. */
  ghost predicate Typed(t: Type, m: Message)
    decreases t, 0
  {
    && m.fields.Keys == New(t).fields.Keys
    && forall i :: 0 <= i < |t.args| ==> TypedValue(t.args[i].typ, Get(m, GoName(t.args[i].name)))
  }

  ghost predicate TypedValue(s: Type, v: Value)
    decreases s, 1
  {
    if s.IsColl() then
      v.Many? && (s.elem.Some? ==> forall k :: 0 <= k < |v.items| ==> TypedItem(s.elem.value, v.items[k]))
    else if s.IsSimple() then v.Plain?
    else v.One? && (v.msg.Some? ==> Typed(s, v.msg.value))
  }

  ghost predicate TypedItem(elem: Type, v: Value)
    decreases elem, 1
  {
    if elem.IsSimple() then v.Plain? else v.One? && (v.msg.Some? ==> Typed(elem, v.msg.value))
  }

  /** The database's type has the attributes and collections that the written code looks up. */
  ghost predicate Conforms(t: Type, ot: ObjectType)
    decreases t, 0
  {
    forall i :: 0 <= i < |t.args| ==> ConformsAttr(t.args[i].name, t.args[i].typ, ot)
  }

  ghost predicate ConformsAttr(name: string, s: Type, ot: ObjectType)
    decreases s, 1
  {
    if s.IsColl() then
      s.elem.Some? ==> name in ot.attributes && ConformsItem(s.elem.value, ot.attributes[name].collectionOf)
    else name in ot.attributes && (!s.IsSimple() ==> Conforms(s, ot.attributes[name]))
  }

  ghost predicate ConformsItem(elem: Type, ot: Option<ObjectType>)
    decreases elem, 1
  {
    !elem.IsSimple() ==> ot.Some? && Conforms(elem, ot.value)
  }

  predicate KeptText(s: Type, text: string, c: Codec) {
    c.get(s.proto, c.set_(s.proto, text)) == text
  }

  /** Each scalar survives its own set and get, no list has a nil element, and collections
      whose element type is unknown are empty. */
  ghost predicate Kept(t: Type, m: Message, c: Codec)
    decreases t, 0
  {
    forall i :: 0 <= i < |t.args| ==> KeptValue(t.args[i].typ, Get(m, GoName(t.args[i].name)), c)
  }

  ghost predicate KeptValue(s: Type, v: Value, c: Codec)
    decreases s, 1
  {
    if s.IsColl() then
      if s.elem.None? then Items(v) == []
      else forall k :: 0 <= k < |Items(v)| ==> KeptItem(s.elem.value, Items(v)[k], c)
    else if s.IsSimple() then KeptText(s, Text(v), c)
    else Sub(v).Some? ==> Kept(s, Sub(v).value, c)
  }

  ghost predicate KeptItem(elem: Type, v: Value, c: Codec)
    decreases elem, 1
  {
    if elem.IsSimple() then KeptText(elem, Text(v), c) else Sub(v).Some? && Kept(elem, Sub(v).value, c)
  }

  // ----- fields of new messages -----

  lemma {:induction false} FieldAt(args: seq<Attr>, i: nat)
    requires i < |args|
    requires forall j :: 0 <= j < i ==> GoName(args[j].name) != GoName(args[i].name)
    ensures GoName(args[i].name) in Fields(args) && Fields(args)[GoName(args[i].name)] == Zero(args[i].typ)
    decreases |args|
  {
    hide GoName;
    if i > 0 {
      assert forall j :: 0 <= j < i - 1 ==> args[1..][j] == args[j + 1];
      FieldAt(args[1..], i - 1);
    }
  }

  lemma {:induction false} FieldsOnly(args: seq<Attr>, go: string) returns (i: nat)
    requires go in Fields(args)
    ensures i < |args| && GoName(args[i].name) == go
    decreases |args|
  {
    hide GoName;
    if GoName(args[0].name) == go {
      i := 0;
    } else {
      i := FieldsOnly(args[1..], go);
      i := i + 1;
    }
  }

  // ----- attribute by attribute -----

  function Attribute(o: map<string, Data>, name: string): Data {
    if name in o then o[name] else Null
  }

  function Written(a: Act): Data {
    if a.Put? then a.data else Null
  }

  function ActAt(t: Type, ot: ObjectType, m: Message, j: nat, c: Codec): Act
    requires j < |t.args|
  {
    WriteAttr(t.args[j].name, t.args[j].typ, ot, Get(m, GoName(t.args[j].name)), c)
  }

  function ReadAt(t: Type, o: map<string, Data>, x: Message, j: nat, c: Codec): Option<Value>
    requires j < |t.args|
  {
    ScanAttr(t.args[j].name, t.args[j].typ, o, Get(x, GoName(t.args[j].name)), c)
  }

  ghost predicate NamesDiffer(t: Type) {
    forall i, j :: 0 <= i < j < |t.args| ==>
      t.args[i].name != t.args[j].name && GoName(t.args[i].name) != GoName(t.args[j].name)
  }

  /** After writing, an attribute holds what its own code put there. */
  lemma {:induction false} WriteAttrsAt(t: Type, ot: ObjectType, m: Message, o: map<string, Data>, i: nat, c: Codec)
    requires i <= |t.args| && NamesDiffer(t)
    requires forall j :: i <= j < |t.args| ==> ActAt(t, ot, m, j, c) != Fail && Attribute(o, t.args[j].name) == Null
    ensures var r := WriteAttrs(t, ot, m, o, i, c);
      && r.Some? && o.Keys <= r.value.Keys
      && (forall j :: 0 <= j < i ==> Attribute(r.value, t.args[j].name) == Attribute(o, t.args[j].name))
      && (forall j :: i <= j < |t.args| ==> Attribute(r.value, t.args[j].name) == Written(ActAt(t, ot, m, j, c)))
    decreases |t.args| - i
  {
    hide WriteAttr;
    hide GoName;
    if i < |t.args| {
      var act := ActAt(t, ot, m, i, c);
      WriteAttrsAt(t, ot, m, if act.Put? then o[t.args[i].name := act.data] else o, i + 1, c);
    }
  }

  /** Scanning sets each field from its own attribute. */
  lemma {:induction false} ScanAttrsAt(t: Type, o: map<string, Data>, x: Message, i: nat, c: Codec)
    requires i <= |t.args| && NamesDiffer(t)
    requires forall j :: 0 <= j < |t.args| ==> GoName(t.args[j].name) in x.fields
    ensures var r := ScanAttrs(t, o, x, i, c);
      && (r.Some? <==> forall j :: i <= j < |t.args| ==> ReadAt(t, o, x, j, c).Some?)
      && (r.Some? ==> r.value.fields.Keys == x.fields.Keys)
      && (r.Some? ==> forall j :: 0 <= j < i ==> Get(r.value, GoName(t.args[j].name)) == Get(x, GoName(t.args[j].name)))
      && (r.Some? ==> forall j :: i <= j < |t.args| ==>
           Some(Get(r.value, GoName(t.args[j].name))) == ReadAt(t, o, x, j, c))
    decreases |t.args| - i
  {
    hide ScanAttr;
    hide GoName;
    if i < |t.args| {
      var v := ReadAt(t, o, x, i, c);
      if v.Some? {
        var y := Message(x.fields[GoName(t.args[i].name) := v.value]);
        ScanAttrsAt(t, o, y, i + 1, c);
        assert forall j :: i < j < |t.args| ==> ReadAt(t, o, y, j, c) == ReadAt(t, o, x, j, c);
      }
    }
  }

  // ----- writing does not fail -----

  lemma {:induction false} ObjectIsWritten(t: Type, ot: ObjectType, m: Message, c: Codec)
    requires WellNamed(t) && Conforms(t, ot)
    ensures forall j :: 0 <= j < |t.args| ==> ActAt(t, ot, m, j, c) != Fail
    ensures WriteAttrs(t, ot, m, NewObject(ot), 0, c).Some?
    decreases t, 0
  {
    hide GoName;
    forall j | 0 <= j < |t.args| ensures ActAt(t, ot, m, j, c) != Fail {
      AttrIsWritten(t.args[j].name, t.args[j].typ, ot, Get(m, GoName(t.args[j].name)), c);
    }
    WriteAttrsAt(t, ot, m, NewObject(ot), 0, c);
  }

  lemma {:induction false} AttrIsWritten(name: string, s: Type, ot: ObjectType, v: Value, c: Codec)
    requires WellNamed(s) && ConformsAttr(name, s, ot)
    ensures WriteAttr(name, s, ot, v, c) != Fail
    decreases s, 2
  {
    hide Type.IsColl;
    hide Type.IsSimple;
    if s.IsColl() {
      if s.elem.Some? { ItemsAreWritten(s.elem.value, ot.attributes[name].collectionOf, Items(v), c); }
    } else if !s.IsSimple() && Sub(v).Some? {
      ObjectIsWritten(s, ot.attributes[name], Sub(v).value, c);
    }
  }

  lemma {:induction false} ItemsAreWritten(elem: Type, ot: Option<ObjectType>, items: seq<Value>, c: Codec)
    requires WellNamed(elem) && ConformsItem(elem, ot)
    ensures WriteItems(elem, ot, items, c).Some?
    decreases elem, 1, |items|
  {
    hide Type.IsSimple;
    if items != [] {
      if !elem.IsSimple() { ObjectIsWritten(elem, ot.value, Receiver(items[0]), c); }
      ItemsAreWritten(elem, ot, items[1..], c);
    }
  }

  // ----- and scanning gives the message back -----

  /** The object written from m is scanned without error, and a new message then becomes m
      exactly when m is Kept. */
  lemma {:induction false} ScanRestoresMessage(t: Type, ot: ObjectType, m: Message, c: Codec)
    requires WellNamed(t) && Conforms(t, ot)
    ensures var o := WriteAttrs(t, ot, m, NewObject(ot), 0, c);
      && o.Some?
      && ScanAttrs(t, o.value, New(t), 0, c).Some?
      && (Typed(t, m) ==> (ScanAttrs(t, o.value, New(t), 0, c) == Some(m) <==> Kept(t, m, c)))
    decreases t, 0
  {
    hide GoName;
    hide WriteAttr;
    hide ScanAttr;
    hide KeptValue;
    hide TypedValue;
    ObjectIsWritten(t, ot, m, c);
    WriteAttrsAt(t, ot, m, NewObject(ot), 0, c);
    var o := WriteAttrs(t, ot, m, NewObject(ot), 0, c).value;
    hide WriteAttrs;
    forall j | 0 <= j < |t.args|
      ensures GoName(t.args[j].name) in New(t).fields
      ensures Get(New(t), GoName(t.args[j].name)) == Zero(t.args[j].typ)
    {
      FieldAt(t.args, j);
    }
    ScanAttrsAt(t, o, New(t), 0, c);
    forall j | 0 <= j < |t.args|
      ensures ReadAt(t, o, New(t), j, c).Some?
      ensures TypedValue(t.args[j].typ, Get(m, GoName(t.args[j].name))) ==>
                (ReadAt(t, o, New(t), j, c) == Some(Get(m, GoName(t.args[j].name)))
                 <==> KeptValue(t.args[j].typ, Get(m, GoName(t.args[j].name)), c))
    {
      AttrIsRestored(t.args[j].name, t.args[j].typ, ot, Get(m, GoName(t.args[j].name)), o, c);
    }
    var r := ScanAttrs(t, o, New(t), 0, c).value;
    hide ScanAttrs;
    if Typed(t, m) { SameFields(t, r, m); }
  }

  lemma {:induction false} SameFields(t: Type, r: Message, m: Message)
    requires r.fields.Keys == m.fields.Keys == New(t).fields.Keys
    ensures r == m <==> forall j :: 0 <= j < |t.args| ==>
      Get(r, GoName(t.args[j].name)) == Get(m, GoName(t.args[j].name))
  {
    hide GoName;
    if forall j :: 0 <= j < |t.args| ==> Get(r, GoName(t.args[j].name)) == Get(m, GoName(t.args[j].name)) {
      forall go | go in m.fields ensures r.fields[go] == m.fields[go] {
        var j := FieldsOnly(t.args, go);
        assert Get(r, GoName(t.args[j].name)) == Get(m, GoName(t.args[j].name));
      }
      assert r.fields == m.fields;
    }
  }

  lemma {:induction false} AttrIsRestored(name: string, s: Type, ot: ObjectType, v: Value, o: map<string, Data>,
                                          c: Codec)
    requires WellNamed(s) && ConformsAttr(name, s, ot)
    requires ot.attributes.Keys <= o.Keys && Attribute(o, name) == Written(WriteAttr(name, s, ot, v, c))
    ensures var r := ScanAttr(name, s, o, Zero(s), c);
      r.Some? && (TypedValue(s, v) ==> (r.value == v <==> KeptValue(s, v, c)))
    decreases s, 2
  {
    hide WriteItems;
    hide ScanItems;
    hide WriteAttrs;
    hide ScanAttrs;
    hide Type.IsColl;
    hide Type.IsSimple;
    if s.IsColl() {
      if s.elem.Some? && Items(v) != [] {
        var of := ot.attributes[name].collectionOf;
        ItemsAreRestored(s.elem.value, of, Items(v), c);
        var scanned := ScanItems(s.elem.value, WriteItems(s.elem.value, of, Items(v), c).value, c).value;
        assert [] + scanned == scanned;
      }
    } else if !s.IsSimple() && Sub(v).Some? {
      ScanRestoresMessage(s, ot.attributes[name], Sub(v).value, c);
    }
  }

  lemma {:induction false} ItemsAreRestored(elem: Type, ot: Option<ObjectType>, items: seq<Value>, c: Codec)
    requires WellNamed(elem) && ConformsItem(elem, ot)
    ensures var written := WriteItems(elem, ot, items, c);
      && written.Some?
      && ScanItems(elem, written.value, c).Some?
      && |ScanItems(elem, written.value, c).value| == |items|
      && ((forall k :: 0 <= k < |items| ==> TypedItem(elem, items[k])) ==>
            (ScanItems(elem, written.value, c).value == items <==>
             forall k :: 0 <= k < |items| ==> KeptItem(elem, items[k], c)))
    decreases elem, 2, |items|
  {
    hide KeptItem;
    hide WriteItem;
    hide ScanItem;
    if items != [] {
      ItemIsRestored(elem, ot, items[0], c);
      ItemsAreRestored(elem, ot, items[1..], c);
      var d := WriteItem(elem, ot, items[0], c).value;
      var rest := WriteItems(elem, ot, items[1..], c).value;
      assert WriteItems(elem, ot, items, c) == Some([d] + rest);
      assert ([d] + rest)[1..] == rest;
      var first, more := ScanItem(elem, d, c).value, ScanItems(elem, rest, c).value;
      assert ScanItems(elem, [d] + rest, c) == Some(first + more);
      HeadAndTail(first, more, items);
      AllKept(elem, items, c);
    }
  }

  lemma {:induction false} AllKept(elem: Type, items: seq<Value>, c: Codec)
    requires items != []
    ensures (forall k :: 0 <= k < |items| ==> KeptItem(elem, items[k], c)) <==>
            KeptItem(elem, items[0], c) && forall k :: 0 <= k < |items[1..]| ==> KeptItem(elem, items[1..][k], c)
  {
    hide KeptItem;
    if forall k :: 0 <= k < |items[1..]| ==> KeptItem(elem, items[1..][k], c) {
      forall k | 1 <= k < |items| ensures KeptItem(elem, items[k], c) {
        assert items[1..][k - 1] == items[k];
      }
    }
  }

  lemma {:induction false} HeadAndTail(first: seq<Value>, more: seq<Value>, items: seq<Value>)
    requires |first| == 1 && items != [] && |more| == |items| - 1
    ensures first + more == items <==> first[0] == items[0] && more == items[1..]
  {
  }

  /** One item in, one item out: a nil element comes back as an empty message. */
  lemma {:induction false} ItemIsRestored(elem: Type, ot: Option<ObjectType>, item: Value, c: Codec)
    requires WellNamed(elem) && ConformsItem(elem, ot)
    ensures var d := WriteItem(elem, ot, item, c);
      && d.Some?
      && ScanItem(elem, d.value, c).Some?
      && |ScanItem(elem, d.value, c).value| == 1
      && (TypedItem(elem, item) ==> (ScanItem(elem, d.value, c).value[0] == item <==> KeptItem(elem, item, c)))
    decreases elem, 1
  {
    hide Type.IsSimple;
    if !elem.IsSimple() {
      ScanRestoresMessage(elem, ot.value, Receiver(item), c);
    }
  }
}
