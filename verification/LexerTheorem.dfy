/** What the lexer's items say about the input: their values give back the consumed bytes, and
    they classify each byte as a byte-by-byte reading of PL/SQL does exactly when literals and
    block comments have the shape that the jumping state functions expect. */
module LexerTheorem {
  import opened Basics
  import opened Lexer

  // ----- items read as classified bytes -----

  datatype Class = Text | Sep | Literal | Comment | Newline | Tail

  datatype Byte = Byte(c: char, kind: Class)

  function ClassOf(t: ItemType): Class {
    match t
    case ItemText => Text
    case ItemComment => Comment
    case ItemSep => Sep
    case ItemString => Literal
    case ItemEOF => Tail
    case ItemError => Tail
  }

  function Tag(s: string, kind: Class): (r: seq<Byte>)
    ensures |r| == |s| && forall i :: 0 <= i < |s| ==> r[i] == Byte(s[i], kind)
  {
    seq(|s|, i requires 0 <= i < |s| => Byte(s[i], kind))
  }

  /** The bytes of the items in order; after "--" (line) the newline that ends the comment,
      which no item holds, is put back. */
  function Bytes(items: seq<Item>, line: bool): seq<Byte>
    decreases |items|, line
  {
    if items == [] then []
    else if line then
      if items[0].typ.ItemComment? then Tag(items[0].val, Comment) + (Tag("\n", Newline) + Bytes(items[1..], false))
      else Tag("\n", Newline) + Bytes(items, false)
    else Tag(items[0].val, ClassOf(items[0].typ)) + Bytes(items[1..], items[0] == Item(ItemSep, LINE))
  }

  function Run(s: string, fn: StateFn, start: nat, pos: nat): Option<seq<Byte>>
    requires Ready(s, fn, start, pos)
  {
    match RunItems(s, fn, start, pos)
    case None => None
    case Some(items) => Some(Bytes(items, fn == LexLineComment))
  }

  function Then(a: seq<Byte>, b: Option<seq<Byte>>): Option<seq<Byte>> {
    if b.None? then None else Some(a + b.value)
  }

  lemma {:induction false} BytesCons(it: Item, rest: seq<Item>)
    ensures Bytes([it] + rest, false) == Tag(it.val, ClassOf(it.typ)) + Bytes(rest, it == Item(ItemSep, LINE))
  {
  }

  lemma {:induction false} BytesEnd()
    ensures Bytes([END], false) == []
  {
  }

  function Lead(t: ItemType, val: string): seq<Item> {
    if val == "" then [] else [Item(t, val)]
  }

  /** Most turns send an optional item, a separator, and then what the rest of the run sends. */
  lemma {:induction false} BytesLead(t: ItemType, val: string, sep: Item, rest: seq<Item>)
    requires t != ItemSep
    ensures Bytes(Lead(t, val) + ([sep] + rest), false) ==
            Tag(val, ClassOf(t)) + Tag(sep.val, ClassOf(sep.typ)) + Bytes(rest, sep == Item(ItemSep, LINE))
  {
    var more := [sep] + rest;
    BytesCons(sep, rest);
    if val != "" {
      BytesCons(Item(t, val), more);
    } else {
      assert Lead(t, val) + more == more;
      assert Tag(val, ClassOf(t)) == [];
    }
  }

  function Sent(t: ItemType, val: string, sep: string, rest: Option<seq<Item>>): Option<seq<Item>> {
    if rest.None? then None else Some(Lead(t, val) + ([Item(ItemSep, sep)] + rest.value))
  }

  /** What follows a separator that ends at e. */
  function Rest(s: string, fn: StateFn, e: nat, pos: nat): Option<seq<Item>>
    requires e <= pos && e <= |s| && (e < |s| && fn != LexText ==> e == pos)
  {
    if e == |s| then Some([END]) else RunItems(s, fn, e, pos)
  }

  function RestBytes(s: string, fn: StateFn, e: nat, pos: nat): Option<seq<Byte>>
    requires e <= pos && e <= |s| && (e < |s| && fn != LexText ==> e == pos)
  {
    if e == |s| then Some([]) else Run(s, fn, e, pos)
  }

  lemma {:induction false} BytesSent(t: ItemType, val: string, sep: string, s: string, fn: StateFn, e: nat, pos: nat)
    requires e <= pos && e <= |s| && (e < |s| && fn != LexText ==> e == pos)
    requires t != ItemSep && (fn == LexLineComment <==> sep == LINE) && (sep == LINE ==> e < |s|)
    ensures var items := Sent(t, val, sep, Rest(s, fn, e, pos));
      (if items.None? then None else Some(Bytes(items.value, false))) ==
        Then(Tag(val, ClassOf(t)) + Tag(sep, Sep), RestBytes(s, fn, e, pos))
  {
    var rest := Rest(s, fn, e, pos);
    if rest.Some? {
      BytesLead(t, val, Item(ItemSep, sep), rest.value);
      if e == |s| { BytesEnd(); }
    }
  }

  // ----- one call of each state function -----

  lemma {:induction false} TextFirst(s: string, start: nat, pos: nat)
    requires Ready(s, LexText, start, pos)
    ensures RunItems(s, LexText, start, pos).Some? ==>
      var items := RunItems(s, LexText, start, pos).value;
      items != [] && !items[0].typ.ItemComment?
  {
  }

  lemma {:induction false} TextTurn(s: string, start: nat, pos: nat)
    requires start <= pos < |s| && FirstMarker(s, pos) < |s|
    ensures var m := FirstMarker(s, pos);
      var what := MarkerOf(s, m);
      TurnText(s, start, pos) ==
        Turn(Emit(s, Chan(m, m + |what|, Lead(ItemText, s[start..m]), false), ItemSep), Some(NextOf(what)))
  {
  }

  /** How a run goes on after a turn. */
  lemma {:induction false} RunAfter(s: string, fn: StateFn, start: nat, pos: nat, c: Chan, next: StateFn)
    requires Ready(s, fn, start, pos) && TurnOf(s, fn, start, pos) == Turn(c, Some(next))
    ensures !c.closed ==> Ready(s, next, c.start, c.pos)
    ensures RunItems(s, fn, start, pos) ==
            if c.closed then Some(c.items) else Prepend(c.items, RunItems(s, next, c.start, c.pos))
  {
  }

  /** A separator is sent after the items of lead, and then the run goes on or ends. */
  lemma {:induction false} SepThen(s: string, lead: seq<Item>, sep: string, fn: StateFn, m: nat, e: nat, pos: nat)
    requires m < e <= |s| && s[m..e] == sep && e <= pos && (e < |s| && fn != LexText ==> e == pos)
    ensures var c := Emit(s, Chan(m, e, lead, false), ItemSep);
      var rest := Rest(s, fn, e, pos);
      && c.closed == (e == |s|) && c.start == c.pos == e
      && (if c.closed then Some(c.items) else Prepend(c.items, RunItems(s, fn, e, pos)))
        == (if rest.None? then None else Some(lead + ([Item(ItemSep, sep)] + rest.value)))
  {
    var it := Item(ItemSep, sep);
    assert (lead + [it]) + [END] == lead + ([it] + [END]);
    var rest := Rest(s, fn, e, pos);
    if rest.Some? {
      assert (lead + [it]) + rest.value == lead + ([it] + rest.value);
    }
  }

  /** A turn that ends with a separator up to e, after which the lexer reads on at to. */
  lemma {:induction false} RunSent(s: string, fn: StateFn, start: nat, pos: nat, t: ItemType, val: string, sep: string,
                                   next: StateFn, m: nat, e: nat, p: nat)
    requires Ready(s, fn, start, pos) && fn != LexLineComment
    requires t != ItemSep && (next == LexLineComment <==> sep == LINE) && (sep == LINE ==> e < |s|)
    requires m < e <= |s| && s[m..e] == sep && e <= p && (next != LexText ==> e == p)
    requires var c := Emit(s, Chan(m, e, Lead(t, val), false), ItemSep);
      TurnOf(s, fn, start, pos) == Turn(c.(pos := p), Some(next))
    ensures Run(s, fn, start, pos) == Then(Tag(val, ClassOf(t)) + Tag(sep, Sep), RestBytes(s, next, e, p))
  {
    var c := Emit(s, Chan(m, e, Lead(t, val), false), ItemSep);
    RunAfter(s, fn, start, pos, c.(pos := p), next);
    SepThen(s, Lead(t, val), sep, next, m, e, p);
    BytesSent(t, val, sep, s, next, e, p);
  }

  lemma {:induction false} TextStep(s: string, start: nat, pos: nat)
    requires start <= pos < |s| && FirstMarker(s, pos) < |s|
    requires s[|s| - 1] == '\n'
    ensures var m := FirstMarker(s, pos);
      var what := MarkerOf(s, m);
      var e := m + |what|;
      Run(s, LexText, start, pos) == Then(Tag(s[start..m], Text) + Tag(what, Sep), RestBytes(s, NextOf(what), e, e))
  {
    hide Run;
    hide RunItems;
    hide RestBytes;
    hide Tag;
    TextTurn(s, start, pos);
    var m := FirstMarker(s, pos);
    var what := MarkerOf(s, m);
    var e := m + |what|;
    assert s[m..e] == what;
    assert s[m..e][|what| - 1] == s[e - 1];
    RunSent(s, LexText, start, pos, ItemText, s[start..m], what, NextOf(what), m, e, e);
  }

  lemma {:induction false} TailTurn(s: string, start: nat, pos: nat)
    requires start <= pos <= |s| && FirstMarker(s, pos) == |s|
    ensures var t := if pos == |s| then ItemEOF else ItemText;
      TurnText(s, start, pos) == Turn(Chan(|s|, |s|, Lead(t, s[start..]) + [END], true), None)
  {
    var t := if pos == |s| then ItemEOF else ItemText;
    assert s[start..|s|] == s[start..];
    if start < |s| {
      assert [] + [Item(t, s[start..])] == Lead(t, s[start..]);
    } else {
      assert Lead(t, s[start..]) == [] && [] + [END] == [END];
    }
  }

  lemma {:induction false} TailStep(s: string, start: nat, pos: nat)
    requires start <= pos <= |s| && FirstMarker(s, pos) == |s|
    ensures Run(s, LexText, start, pos) == Some(Tag(s[start..], if pos == |s| then Tail else Text))
  {
    var t := if pos == |s| then ItemEOF else ItemText;
    TailTurn(s, start, pos);
    RunLast(s, start, pos, t, s[start..]);
  }

  lemma {:induction false} RunLast(s: string, start: nat, pos: nat, t: ItemType, val: string)
    requires Ready(s, LexText, start, pos) && t != ItemSep
    requires TurnText(s, start, pos) == Turn(Chan(|s|, |s|, Lead(t, val) + [END], true), None)
    ensures Run(s, LexText, start, pos) == Some(Tag(val, ClassOf(t)))
  {
    TurnAdvances(s, LexText, start, pos);
    BytesLast(t, val);
  }

  lemma {:induction false} BytesLast(t: ItemType, val: string)
    requires t != ItemSep
    ensures Bytes(Lead(t, val) + [END], false) == Tag(val, ClassOf(t))
  {
    BytesEnd();
    if val != "" {
      BytesCons(Item(t, val), [END]);
    } else {
      assert Lead(t, val) + [END] == [END];
      assert Tag(val, ClassOf(t)) == [];
    }
  }

  function LiteralEnd(s: string, pos: nat): (e: nat)
    requires pos < |s|
    ensures pos <= e < |s|
  {
    var q := Index(s, pos, |s|, QUOTE);
    if q.None? then pos else LastQuote(s, q.value)
  }

  lemma {:induction false} StringTurn(s: string, pos: nat)
    requires pos < |s|
    ensures var e := LiteralEnd(s, pos);
      TurnString(s, pos) == Turn(Emit(s, Chan(e, e + 1, Lead(ItemString, s[pos..e]), false), ItemSep), Some(LexText))
  {
  }

  lemma {:induction false} StringStep(s: string, pos: nat)
    requires pos < |s|
    ensures var e := LiteralEnd(s, pos);
      Run(s, LexString, pos, pos) ==
      Then(Tag(s[pos..e], Literal) + Tag([s[e]], Sep), RestBytes(s, LexText, e + 1, e + 1))
  {
    StringTurn(s, pos);
    var e := LiteralEnd(s, pos);
    assert s[e..e + 1] == [s[e]];
    RunSent(s, LexString, pos, pos, ItemString, s[pos..e], [s[e]], LexText, e, e + 1, e + 1);
  }

  lemma {:induction false} BlockTurn(s: string, pos: nat)
    requires pos < |s| && Index(s, pos, |s|, BLOCK_END).Some?
    ensures var e := Index(s, pos, |s|, BLOCK_END).value;
      var c := Emit(s, Chan(e, e + 2, Lead(ItemComment, s[pos..e]), false), ItemSep);
      TurnBlock(s, pos) == Turn(c.(pos := e + 4), Some(LexText))
  {
  }

  lemma {:induction false} BlockStep(s: string, pos: nat)
    requires pos < |s|
    ensures var i := Index(s, pos, |s|, BLOCK_END);
      Run(s, LexBlockComment, pos, pos) ==
        if i.None? then Some([])
        else Then(Tag(s[pos..i.value], Comment) + Tag(BLOCK_END, Sep), RestBytes(s, LexText, i.value + 2, i.value + 4))
  {
    var i := Index(s, pos, |s|, BLOCK_END);
    if i.Some? {
      BlockTurn(s, pos);
      assert BLOCK_END[0] != LINE[0];
      RunSent(s, LexBlockComment, pos, pos, ItemComment, s[pos..i.value], BLOCK_END, LexText,
              i.value, i.value + 2, i.value + 4);
    }
  }

  lemma {:induction false} LineTurn(s: string, pos: nat)
    requires pos < |s|
    ensures var e := Index(s, pos, |s|, "\n");
      TurnLine(s, pos) ==
        if e.None? then Turn(Chan(pos, pos, [], false), None)
        else Turn(Chan(e.value + 1, e.value + 1, Lead(ItemComment, s[pos..e.value]), false), Some(LexText))
  {
  }

  lemma {:induction false} LineStep(s: string, pos: nat)
    requires pos < |s| && Index(s, pos, |s|, "\n").Some?
    ensures var e := Index(s, pos, |s|, "\n").value;
      Run(s, LexLineComment, pos, pos) ==
      Then(Tag(s[pos..e], Comment) + Tag("\n", Newline), Run(s, LexText, e + 1, e + 1))
  {
    LineTurn(s, pos);
    var e := Index(s, pos, |s|, "\n").value;
    RunLine(s, pos, s[pos..e], e + 1);
  }

  lemma {:induction false} RunLine(s: string, pos: nat, val: string, e: nat)
    requires pos < |s| && e <= |s| && TurnLine(s, pos) == Turn(Chan(e, e, Lead(ItemComment, val), false), Some(LexText))
    ensures Run(s, LexLineComment, pos, pos) == Then(Tag(val, Comment) + Tag("\n", Newline), Run(s, LexText, e, e))
  {
    RunAfter(s, LexLineComment, pos, pos, Chan(e, e, Lead(ItemComment, val), false), LexText);
    BytesLine(val, s, e);
  }

  lemma {:induction false} BytesLine(val: string, s: string, e: nat)
    requires e <= |s|
    ensures var rest := RunItems(s, LexText, e, e);
      rest.Some? ==>
        Bytes(Lead(ItemComment, val) + rest.value, true) ==
        Tag(val, Comment) + Tag("\n", Newline) + Bytes(rest.value, false)
  {
    TextFirst(s, e, e);
    var rest := RunItems(s, LexText, e, e);
    if rest.Some? {
      var lead := Lead(ItemComment, val);
      if val != "" {
        assert (lead + rest.value)[1..] == rest.value;
      } else {
        assert lead + rest.value == rest.value;
        assert Tag(val, Comment) == [];
      }
    }
  }
}
