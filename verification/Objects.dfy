/** What the generated WriteObject and Scan methods do between protobuf messages and database
    objects, over trees of object types. */
module Objects {
  import opened Basics

  /** proto is the protobuf type that protoType gives; it decides how a scalar is set and got. */
  datatype Type = Type(name: string, typeCode: string, collType: string, proto: string,
                       elem: Option<Type>, args: seq<Attr>) {
    predicate IsColl() {
      || typeCode == "COLLECTION" || typeCode == "TABLE" || typeCode == "VARYING ARRAY"
      || (collType != "" && collType != "TABLE")
    }

    predicate IsSimple() {
      name in [
        "XMLTYPE", "PUBLIC.XMLTYPE", "RAW", "LONG RAW", "BLOB", "VARCHAR2", "CHAR", "LONG", "CLOB", "PL/SQL ROWID",
        "BOOLEAN", "PL/SQL BOOLEAN", "DATE", "TIMESTAMP", "PL/SQL PLS INTEGER", "PL/SQL BINARY INTEGER",
        "BINARY_DOUBLE", "NUMBER", "INTEGER"]
    }
  }

  datatype Attr = Attr(name: string, typ: Type)

  /** A scalar, a repeated field, or a pointer to a message. */
  datatype Value = Plain(text: string) | Many(items: seq<Value>) | One(msg: Option<Message>)

  datatype Message = Message(fields: map<string, Value>)

  datatype Data = Null | Scalar(raw: string) | Object(attrs: map<string, Data>) | Collection(items: seq<Data>)

  /** The object type that the database reports. */
  datatype ObjectType = ObjectType(attributes: map<string, ObjectType>, collectionOf: Option<ObjectType>)

  /** data.Set and the getter that dataGetter chooses, by protobuf type. */
  datatype Codec = Codec(set_: (string, string) -> string, get: (string, string) -> string)

  // ----- names -----

  function ProtoFieldName(name: string): string {
    var hidden := if name != "" && name[|name| - 1] == '#' then name[..|name| - 1] + "_hidden" else name;
    seq(|hidden|, i requires 0 <= i < |hidden| => LowerChar(hidden[i]))
  }

  /** The length of s without its trailing underscores. */
  function Trimmed(s: string): (n: nat)
    ensures n <= |s| && (n > 0 ==> s[n - 1] != '_')
  {
    if s != "" && s[|s| - 1] == '_' then Trimmed(s[..|s| - 1]) else |s|
  }

  /** The letters of s without underscores; a letter that starts a part is put in upper case. */
  function Capitals(s: string, first: bool): string {
    if s == "" then ""
    else if s[0] == '_' then Capitals(s[1..], true)
    else [if first then UpperChar(s[0]) else s[0]] + Capitals(s[1..], false)
  }

  function ProtoGoName(field: string): string {
    var n := Trimmed(field);
    Capitals(field[..n], true) + field[n..]
  }

  function GoName(name: string): string {
    ProtoGoName(ProtoFieldName(name))
  }

  // ----- messages -----

  /** The getter of a field: absent fields and wrong kinds read as the zero value. */
  function Get(m: Message, field: string): Value {
    if field in m.fields then m.fields[field] else One(None)
  }

  function Items(v: Value): seq<Value> {
    if v.Many? then v.items else []
  }

  function Text(v: Value): string {
    if v.Plain? then v.text else ""
  }

  function Sub(v: Value): Option<Message> {
    if v.One? then v.msg else None
  }

  /** The receiver of WriteObject: the getters of a nil message give zero values. */
  function Receiver(v: Value): Message {
    if Sub(v).Some? then Sub(v).value else Message(map[])
  }

  function Zero(t: Type): Value {
    if t.IsColl() then Many([]) else if t.IsSimple() then Plain("") else One(None)
  }

  function Fields(args: seq<Attr>): map<string, Value> {
    if args == [] then map[] else Fields(args[1..])[GoName(args[0].name) := Zero(args[0].typ)]
  }

  /** A new message: all fields zero. */
  function New(t: Type): Message {
    Message(Fields(t.args))
  }

  /** A new object has all attributes of its type, with no values. */
  function NewObject(ot: ObjectType): map<string, Data> {
    map name | name in ot.attributes :: Null
  }

  // ----- WriteObject -----

  /** What the code for one attribute does to the object. */
  datatype Act = Keep | Put(data: Data) | Fail

  function WriteAttr(name: string, s: Type, ot: ObjectType, v: Value, c: Codec): Act
    decreases s, 2, 0
  {
    if s.IsColl() then
      if s.elem.None? || Items(v) == [] then Keep
      else if name !in ot.attributes then Fail
      else
        var items := WriteItems(s.elem.value, ot.attributes[name].collectionOf, Items(v), c);
        if items.None? then Fail else Put(Collection(items.value))
    else if s.IsSimple() then
      if name !in ot.attributes then Fail else Put(Scalar(c.set_(s.proto, Text(v))))
    else if Sub(v).None? then Keep
    else if name !in ot.attributes then Fail
    else
      var o := WriteAttrs(s, ot.attributes[name], Sub(v).value, NewObject(ot.attributes[name]), 0, c);
      if o.None? then Fail else Put(Object(o.value))
  }

  function WriteItems(elem: Type, ot: Option<ObjectType>, items: seq<Value>, c: Codec): Option<seq<Data>>
    decreases elem, 2, |items|
  {
    if items == [] then Some([])
    else
      var first := WriteItem(elem, ot, items[0], c);
      if first.None? then None else Joined([first.value], WriteItems(elem, ot, items[1..], c))
  }

  function WriteItem(elem: Type, ot: Option<ObjectType>, item: Value, c: Codec): Option<Data>
    decreases elem, 2, 0
  {
    if elem.IsSimple() then Some(Scalar(c.set_(elem.proto, Text(item))))
    else if ot.None? then None
    else
      var o := WriteAttrs(elem, ot.value, Receiver(item), NewObject(ot.value), 0, c);
      if o.None? then None else Some(Object(o.value))
  }

  function Joined(a: seq<Data>, b: Option<seq<Data>>): Option<seq<Data>> {
    if b.None? then None else Some(a + b.value)
  }

  /** The attributes from the i-th on are written to o; None is an error. */
  function WriteAttrs(t: Type, ot: ObjectType, m: Message, o: map<string, Data>, i: nat,
                      c: Codec): Option<map<string, Data>>
    requires i <= |t.args|
    decreases t, 1, |t.args| - i
  {
    if i == |t.args| then Some(o)
    else
      var a := t.args[i];
      match WriteAttr(a.name, a.typ, ot, Get(m, GoName(a.name)), c)
      case Keep => WriteAttrs(t, ot, m, o, i + 1, c)
      case Put(data) => WriteAttrs(t, ot, m, o[a.name := data], i + 1, c)
      case Fail => None
  }

  // ----- Scan -----

  function Raw(d: Data): string {
    if d.Scalar? then d.raw else ""
  }

  /** GetAttribute fails on an attribute that the object's type lacks. */
  function ScanAttr(name: string, s: Type, o: map<string, Data>, v: Value, c: Codec): Option<Value>
    decreases s, 2, 0
  {
    if s.IsColl() && s.elem.None? then Some(v)
    else if name !in o then None
    else if s.IsColl() then
      if !o[name].Collection? then Some(v)
      else
        var items := ScanItems(s.elem.value, o[name].items, c);
        if items.None? then None else Some(Many(Items(v) + items.value))
    else if s.IsSimple() then Some(Plain(c.get(s.proto, Raw(o[name]))))
    else if !o[name].Object? then Some(v)
    else
      var sub := ScanAttrs(s, o[name].attrs, New(s), 0, c);
      if sub.None? then None else Some(One(Some(sub.value)))
  }

  /** Items that are no objects are passed over. */
  function ScanItems(elem: Type, items: seq<Data>, c: Codec): Option<seq<Value>>
    decreases elem, 2, |items|
  {
    if items == [] then Some([])
    else
      var first := ScanItem(elem, items[0], c);
      if first.None? then None else After(first.value, ScanItems(elem, items[1..], c))
  }

  function ScanItem(elem: Type, d: Data, c: Codec): Option<seq<Value>>
    decreases elem, 2, 0
  {
    if elem.IsSimple() then Some([Plain(c.get(elem.proto, Raw(d)))])
    else if !d.Object? then Some([])
    else
      var sub := ScanAttrs(elem, d.attrs, New(elem), 0, c);
      if sub.None? then None else Some([One(Some(sub.value))])
  }

  function After(a: seq<Value>, b: Option<seq<Value>>): Option<seq<Value>> {
    if b.None? then None else Some(a + b.value)
  }

  /** The fields from the i-th attribute on are read into x; None is an error. */
  function ScanAttrs(t: Type, o: map<string, Data>, x: Message, i: nat, c: Codec): Option<Message>
    requires i <= |t.args|
    decreases t, 1, |t.args| - i
  {
    if i == |t.args| then Some(x)
    else
      var a := t.args[i];
      var go := GoName(a.name);
      var v := ScanAttr(a.name, a.typ, o, Get(x, go), c);
      if v.None? then None else ScanAttrs(t, o, Message(x.fields[go := v.value]), i + 1, c)
  }

  // ----- the generated methods -----

  method WriteObject(t: Type, ot: ObjectType, m: Message, o: map<string, Data>, c: Codec)
    returns (r: Option<map<string, Data>>)
    ensures r == WriteAttrs(t, ot, m, o, 0, c)
    decreases t, 1
  {
    hide Type.IsSimple;
    hide Type.IsColl;
    var attrs := o;
    for i := 0 to |t.args|
      invariant WriteAttrs(t, ot, m, o, 0, c) == WriteAttrs(t, ot, m, attrs, i, c)
    {
      var a := t.args[i];
      var s, v := a.typ, Get(m, GoName(a.name));
      if s.IsColl() {
        if s.elem.None? {
          continue;
        }
        if Items(v) != [] {
          if a.name !in ot.attributes {
            return None;
          }
          var items := WriteCollection(s.elem.value, ot.attributes[a.name].collectionOf, Items(v), c);
          if items.None? {
            return None;
          }
          attrs := attrs[a.name := Collection(items.value)];
        }
      } else if s.IsSimple() {
        if a.name !in ot.attributes {
          return None;
        }
        attrs := attrs[a.name := Scalar(c.set_(s.proto, Text(v)))];
      } else if Sub(v).Some? {
        if a.name !in ot.attributes {
          return None;
        }
        var sub := WriteObject(s, ot.attributes[a.name], Sub(v).value, NewObject(ot.attributes[a.name]), c);
        if sub.None? {
          return None;
        }
        attrs := attrs[a.name := Object(sub.value)];
      }
    }
    r := Some(attrs);
  }

  lemma {:induction false} JoinedMore(a: seq<Data>, d: Data, b: Option<seq<Data>>)
    ensures Joined(a, Joined([d], b)) == Joined(a + [d], b)
  {
    if b.Some? { assert a + ([d] + b.value) == (a + [d]) + b.value; }
  }

  lemma {:induction false} JoinedNothing(b: Option<seq<Data>>)
    ensures Joined([], b) == b
  {
    if b.Some? { assert [] + b.value == b.value; }
  }

  method WriteCollection(elem: Type, ot: Option<ObjectType>, items: seq<Value>, c: Codec) returns (r: Option<seq<Data>>)
    ensures r == WriteItems(elem, ot, items, c)
    decreases elem, 2
  {
    hide Type.IsSimple;
    hide Type.IsColl;
    var coll: seq<Data> := [];
    assert items[0..] == items;
    JoinedNothing(WriteItems(elem, ot, items, c));
    for k := 0 to |items|
      invariant WriteItems(elem, ot, items, c) == Joined(coll, WriteItems(elem, ot, items[k..], c))
    {
      assert items[k..][0] == items[k] && items[k..][1..] == items[k + 1..];
      ghost var rest := WriteItems(elem, ot, items[k + 1..], c);
      var d: Data;
      if elem.IsSimple() {
        d := Scalar(c.set_(elem.proto, Text(items[k])));
      } else {
        if ot.None? {
          return None;
        }
        var o := WriteObject(elem, ot.value, Receiver(items[k]), NewObject(ot.value), c);
        if o.None? {
          return None;
        }
        d := Object(o.value);
      }
      JoinedMore(coll, d, rest);
      coll := coll + [d];
    }
    assert coll + [] == coll;
    r := Some(coll);
  }

  method Scan(t: Type, o: map<string, Data>, x: Message, c: Codec) returns (r: Option<Message>)
    ensures r == ScanAttrs(t, o, x, 0, c)
    decreases t, 1
  {
    hide Type.IsSimple;
    hide Type.IsColl;
    hide GoName;
    var m := x;
    for i := 0 to |t.args|
      invariant ScanAttrs(t, o, x, 0, c) == ScanAttrs(t, o, m, i, c)
    {
      var a := t.args[i];
      var s, go := a.typ, GoName(a.name);
      var v0 := Get(m, go);
      var v := v0;
      if !(s.IsColl() && s.elem.None?) {
        if a.name !in o {
          return None;
        }
        var d := o[a.name];
        if s.IsColl() {
          if d.Collection? {
            var items := ScanCollection(s.elem.value, d.items, c);
            if items.None? {
              return None;
            }
            v := Many(Items(v0) + items.value);
          }
        } else if s.IsSimple() {
          v := Plain(c.get(s.proto, Raw(d)));
        } else if d.Object? {
          var sub := Scan(s, d.attrs, New(s), c);
          if sub.None? {
            return None;
          }
          v := One(Some(sub.value));
        }
      }
      assert ScanAttr(a.name, s, o, v0, c) == Some(v);
      m := Message(m.fields[go := v]);
    }
    r := Some(m);
  }

  lemma {:induction false} AfterNothing(b: Option<seq<Value>>)
    ensures After([], b) == b
  {
    if b.Some? { assert [] + b.value == b.value; }
  }

  lemma {:induction false} AfterMore(a: seq<Value>, x: seq<Value>, b: Option<seq<Value>>)
    ensures After(a, After(x, b)) == After(a + x, b)
  {
    if b.Some? { assert a + (x + b.value) == (a + x) + b.value; }
  }

  method ScanCollection(elem: Type, items: seq<Data>, c: Codec) returns (r: Option<seq<Value>>)
    ensures r == ScanItems(elem, items, c)
    decreases elem, 2
  {
    hide Type.IsSimple;
    var list: seq<Value> := [];
    assert items[0..] == items;
    AfterNothing(ScanItems(elem, items, c));
    for k := 0 to |items|
      invariant ScanItems(elem, items, c) == After(list, ScanItems(elem, items[k..], c))
    {
      assert items[k..][0] == items[k] && items[k..][1..] == items[k + 1..];
      var more := [];
      if elem.IsSimple() {
        more := [Plain(c.get(elem.proto, Raw(items[k])))];
      } else if items[k].Object? {
        var sub := Scan(elem, items[k].attrs, New(elem), c);
        if sub.None? {
          return None;
        }
        more := [One(Some(sub.value))];
      }
      AfterMore(list, more, ScanItems(elem, items[k + 1..], c));
      list := list + more;
    }
    assert items[|items|..] == [] && list + [] == list;
    r := Some(list);
  }
}
