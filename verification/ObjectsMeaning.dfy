/** What is written for an attribute, by its type code and the name of its type; and how field
    names are made from attribute names. */
module ObjectsMeaning {
  import opened Basics
  import opened Objects
  import opened ObjectsTheorem

  // ----- kinds of attributes -----

  /** The kinds of collections: three type codes, and any collection type but TABLE. */
  predicate ListCode(typeCode: string, collType: string) {
    match typeCode
    case "COLLECTION" => true
    case "VARYING ARRAY" => true
    case "TABLE" => true
    case _ => collType !in {"", "TABLE"}
  }

  lemma {:induction false} NoFailure(t: Type, ot: ObjectType, m: Message, o: map<string, Data>,
                                     i: nat, j: nat, c: Codec)
    requires i <= j < |t.args| && WriteAttrs(t, ot, m, o, i, c).Some?
    ensures ActAt(t, ot, m, j, c) != Fail
    decreases |t.args| - i
  {
    hide WriteAttr;
    hide GoName;
    if i < j {
      var act := ActAt(t, ot, m, i, c);
      NoFailure(t, ot, m, if act.Put? then o[t.args[i].name := act.data] else o, i + 1, j, c);
    }
  }

  /** What was written for attribute j. */
  lemma {:induction false} AttributeIsWritten(t: Type, ot: ObjectType, m: Message, j: nat, c: Codec)
    requires j < |t.args| && NamesDiffer(t) && WriteAttrs(t, ot, m, NewObject(ot), 0, c).Some?
    ensures Attribute(WriteAttrs(t, ot, m, NewObject(ot), 0, c).value, t.args[j].name) == Written(ActAt(t, ot, m, j, c))
    ensures ActAt(t, ot, m, j, c) != Fail
  {
    hide ActAt;
    forall k | 0 <= k < |t.args| ensures ActAt(t, ot, m, k, c) != Fail { NoFailure(t, ot, m, NewObject(ot), 0, k, c); }
    WriteAttrsAt(t, ot, m, NewObject(ot), 0, c);
  }

  /** The data for a list item: a scalar or an object. */
  predicate ItemIs(elem: Type, item: Value, d: Data, c: Codec) {
    if elem.IsSimple() then d == Scalar(c.set_(elem.proto, PlainText(item))) else d.Object?
  }

  /** Anything but a scalar reads as the empty text. */
  function PlainText(v: Value): string {
    match v
    case Plain(text) => text
    case _ => ""
  }

  lemma {:induction false} ItemsOneByOne(elem: Type, ot: Option<ObjectType>, items: seq<Value>, c: Codec)
    requires WriteItems(elem, ot, items, c).Some?
    ensures var data := WriteItems(elem, ot, items, c).value;
      |data| == |items| && forall k :: 0 <= k < |items| ==> ItemIs(elem, items[k], data[k], c)
    decreases |items|
  {
    hide Type.IsSimple;
    if items != [] { ItemsOneByOne(elem, ot, items[1..], c); }
  }

  /** A list of any kind of collection is written item by item, and what is no collection as a
      scalar if its type is simple and else as an object; empty lists, lists of unknown elements
      and nil messages are left out. */
  lemma {:induction false} WrittenByKind(t: Type, ot: ObjectType, m: Message, j: nat, c: Codec)
    requires j < |t.args| && NamesDiffer(t) && WriteAttrs(t, ot, m, NewObject(ot), 0, c).Some?
    ensures var s, v := t.args[j].typ, Get(m, GoName(t.args[j].name));
      var d := Attribute(WriteAttrs(t, ot, m, NewObject(ot), 0, c).value, t.args[j].name);
      if ListCode(s.typeCode, s.collType) then
        if s.elem.Some? && v.Many? && v.items != [] then
          d.Collection? && |d.items| == |v.items|
          && forall k :: 0 <= k < |v.items| ==> ItemIs(s.elem.value, v.items[k], d.items[k], c)
        else d == Null
      else if ProtoTypeName(s.name, None, 0) != "" then d == Scalar(c.set_(s.proto, PlainText(v)))
      else if v.One? && v.msg.Some? then d.Object?
      else d == Null
  {
    hide GoName;
    hide WriteAttrs;
    hide WriteItems;
    hide ItemIs;
    hide Type.IsSimple;
    AttributeIsWritten(t, ot, m, j, c);
    var s, v := t.args[j].typ, Get(m, GoName(t.args[j].name));
    SimpleTypes(s, None, 0);
    if s.IsColl() && s.elem.Some? && Items(v) != [] {
      ItemsOneByOne(s.elem.value, ot.attributes[t.args[j].name].collectionOf, Items(v), c);
    }
  }

  /** In a new message lists are empty, texts are empty and messages are nil. */
  lemma {:induction false} NewIsZero(t: Type, j: nat)
    requires j < |t.args| && NamesDiffer(t)
    ensures var s := t.args[j].typ;
      Get(New(t), GoName(t.args[j].name)) ==
        if ListCode(s.typeCode, s.collType) then Many([])
        else if ProtoTypeName(s.name, None, 0) != "" then Plain("")
        else One(None)
  {
    hide GoName;
    hide Type.IsSimple;
    FieldAt(t.args, j);
    SimpleTypes(t.args[j].typ, None, 0);
  }

  /** What a NULL attribute, and one with a value, does to its field when it is read. */
  lemma ReadByKind(name: string, s: Type, o: map<string, Data>, v: Value, c: Codec)
    requires name in o && !(ListCode(s.typeCode, s.collType) && s.elem.None?)
    ensures !ListCode(s.typeCode, s.collType) && ProtoTypeName(s.name, None, 0) != "" ==>
      ScanAttr(name, s, o, v, c) ==
        Some(Plain(c.get(s.proto, match o[name] case Scalar(raw) => raw case _ => "")))
    ensures o[name].Null? && (ListCode(s.typeCode, s.collType) || ProtoTypeName(s.name, None, 0) == "") ==>
      ScanAttr(name, s, o, v, c) == Some(v)
  {
    hide Type.IsSimple;
    SimpleTypes(s, None, 0);
  }

  // ----- simple types -----

  function ProtoTypeName(name: string, precision: Option<int>, scale: int): string {
    match name
    case "RAW" => "bytes"
    case "LONG RAW" => "bytes"
    case "BLOB" => "bytes"
    case "VARCHAR2" => "string"
    case "CHAR" => "string"
    case "LONG" => "string"
    case "CLOB" => "string"
    case "PL/SQL ROWID" => "string"
    case "XMLTYPE" => "string"
    case "PUBLIC.XMLTYPE" => "string"
    case "BOOLEAN" => "bool"
    case "PL/SQL BOOLEAN" => "bool"
    case "DATE" => "google.protobuf.Timestamp"
    case "TIMESTAMP" => "google.protobuf.Timestamp"
    case "PL/SQL PLS INTEGER" => "int32"
    case "PL/SQL BINARY INTEGER" => "int32"
    case "BINARY_DOUBLE" => "double"
    case "NUMBER" => NumberType(precision, scale)
    case "INTEGER" => NumberType(precision, scale)
    case _ => ""
  }

  function NumberType(precision: Option<int>, scale: int): string {
    if precision.None? || scale != 0 || precision.value >= 19 then "string"
    else if precision.value < 10 then "int32" else "int64"
  }

  /** The getters of dataGetter for scalars; any other protobuf type panics there. */
  predicate HasGetter(proto: string) {
    proto in {"bool", "google.protobuf.Timestamp", "string", "bytes", "int32", "int64", "double"}
  }

  /** The types treated as scalars are exactly those with a protobuf type of their own, and for
      each of them there is a getter. */
  lemma SimpleTypes(t: Type, precision: Option<int>, scale: int)
    ensures t.IsSimple() <==> ProtoTypeName(t.name, precision, scale) != ""
    ensures t.IsSimple() ==> HasGetter(ProtoTypeName(t.name, precision, scale))
  {
  }

  // ----- field names -----

  predicate Letter(s: string, i: nat) {
    i < |s| && s[i] != '_'
  }

  /** A letter is a capital where a part starts, and kept elsewhere. */
  function Cased(s: string, i: nat): char
    requires i < |s|
  {
    if i == 0 || s[i - 1] == '_' then UpperChar(s[i]) else s[i]
  }

  lemma {:induction false} CapitalsLast(s: string, first: bool, c: char)
    ensures Capitals(s + [c], first) == Capitals(s, first) +
      if c == '_' then [] else [if (if s == "" then first else s[|s| - 1] == '_') then UpperChar(c) else c]
    decreases |s|
  {
    if s == "" {
      assert s + [c] == [c] && [c][1..] == "";
    } else {
      assert (s + [c])[1..] == s[1..] + [c];
      CapitalsLast(s[1..], s[0] == '_', c);
    }
  }

  lemma {:induction false} CapitalsOfLetters(s: string, n: nat) returns (idx: seq<nat>)
    requires n <= |s|
    ensures Picks(idx, n, (i: nat) => Letter(s, i))
    ensures var r := Capitals(s[..n], true);
      |r| == |idx| && forall j :: 0 <= j < |idx| ==> idx[j] < |s| && r[j] == Cased(s, idx[j])
    decreases n
  {
    if n == 0 {
      idx := [];
    } else {
      idx := CapitalsOfLetters(s, n - 1);
      PickNext(idx, n - 1, (i: nat) => Letter(s, i));
      CapitalsLast(s[..n - 1], true, s[n - 1]);
      assert s[..n - 1] + [s[n - 1]] == s[..n];
      idx := idx + if s[n - 1] != '_' then [n - 1] else [];
    }
  }

  /** The protobuf field of an attribute: small letters, and a trailing hash mark spelled out. */
  lemma FieldName(name: string)
    ensures var r := ProtoFieldName(name);
      if name != "" && name[|name| - 1] == '#' then
        |r| == |name| + 6 && r[|name| - 1..] == "_hidden"
        && forall i :: 0 <= i < |name| - 1 ==> r[i] == LowerChar(name[i])
      else |r| == |name| && forall i :: 0 <= i < |name| ==> r[i] == LowerChar(name[i])
  {
    var r := ProtoFieldName(name);
    if name != "" && name[|name| - 1] == '#' {
      var h := "_hidden";
      assert h[0] == '_' && h[1] == 'h' && h[2] == 'i' && h[3] == 'd' && h[4] == 'd' && h[5] == 'e' && h[6] == 'n';
      forall i | 0 <= i < 7 ensures r[|name| - 1 + i] == h[i] {
        assert r[|name| - 1 + i] == LowerChar(h[i]);
      }
      assert r[|name| - 1..] == h;
    }
  }

  /** The Go field has the letters of the protobuf field in order, with capitals where a part
      starts; all its underscores but the trailing ones are left out. */
  lemma {:induction false} GoFieldLetters(name: string) returns (field: string, n: nat, idx: seq<nat>)
    ensures field == ProtoFieldName(name)
    ensures n <= |field| && (forall i :: n <= i < |field| ==> field[i] == '_') && (n > 0 ==> field[n - 1] != '_')
    ensures Picks(idx, n, (i: nat) => Letter(field, i))
    ensures var r := GoName(name);
      && |r| == |idx| + |field| - n && r[|idx|..] == field[n..]
      && forall j :: 0 <= j < |idx| ==> idx[j] < |field| && r[j] == Cased(field, idx[j])
  {
    field := ProtoFieldName(name);
    n := Trimmed(field);
    TrimmedUnderscores(field);
    idx := CapitalsOfLetters(field, n);
  }

  lemma {:induction false} TrimmedUnderscores(s: string)
    ensures forall i :: Trimmed(s) <= i < |s| ==> s[i] == '_'
    decreases |s|
  {
    if s != "" && s[|s| - 1] == '_' {
      TrimmedUnderscores(s[..|s| - 1]);
      assert forall i :: 0 <= i < |s| - 1 ==> s[..|s| - 1][i] == s[i];
    }
  }
}
