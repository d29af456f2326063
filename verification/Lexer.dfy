/** The PL/SQL lexer: state functions over start and pos, sending items on a channel of
    capacity 3 that the same goroutine drains. */
module Lexer {
  import opened Basics

  datatype ItemType = ItemError | ItemEOF | ItemText | ItemComment | ItemSep | ItemString

  datatype Item = Item(typ: ItemType, val: string)

  datatype StateFn = LexText | LexString | LexLineComment | LexBlockComment

  const CAPACITY := 3
  const END := Item(ItemEOF, "")

  // ----- searching -----

  predicate Matches(s: string, i: nat, needle: string) {
    i + |needle| <= |s| && s[i..i + |needle|] == needle
  }

  /** strings.Index in s[lo..hi]: the first match that lies inside, as a position in s. */
  function Index(s: string, lo: nat, hi: nat, needle: string): (r: Option<nat>)
    requires lo <= hi <= |s|
    decreases hi - lo
    ensures r.Some? ==> lo <= r.value && r.value + |needle| <= hi && Matches(s, r.value, needle)
    ensures r.Some? ==> forall i :: lo <= i < r.value ==> !Matches(s, i, needle)
    ensures r.None? ==> forall i :: lo <= i <= hi - |needle| ==> !Matches(s, i, needle)
  {
    if Matches(s, lo, needle) && lo + |needle| <= hi then Some(lo)
    else if lo == hi then None
    else Index(s, lo + 1, hi, needle)
  }

  const QUOTE := "'"
  const LINE := "--"
  const BLOCK := "/*"
  const BLOCK_END := "*/"

  predicate IsMarker(what: string) {
    what == QUOTE || what == LINE || what == BLOCK
  }

  predicate MarkerAt(s: string, i: nat) {
    Matches(s, i, QUOTE) || Matches(s, i, LINE) || Matches(s, i, BLOCK)
  }

  /** Each needle is only looked for before the place where the last one was found. */
  method FindFirst(s: string, from: nat, needles: seq<string>) returns (what: string, pos: nat)
    requires from <= |s| && needles == [QUOTE, LINE, BLOCK]
    ensures what == "" ==> forall i :: from <= i < |s| ==> !MarkerAt(s, i)
    ensures what != "" ==> IsMarker(what) && from <= pos && Matches(s, pos, what)
    ensures what != "" ==> forall i :: from <= i < pos ==> !MarkerAt(s, i)
  {
    what, pos := "", 0;
    var end := |s|;
    for n := 0 to 3
      invariant from <= end <= |s|
      invariant if what == "" then end == |s| else IsMarker(what) && pos == end && Matches(s, pos, what)
      invariant n <= 1 ==> what != LINE
      invariant n <= 2 ==> what != BLOCK
      invariant forall k, i :: 0 <= k < n && from <= i < end ==> !Matches(s, i, needles[k])
    {
      ghost var end0, what0 := end, what;
      var r := Index(s, from, end, needles[n]);
      if r.Some? {
        what, pos, end := needles[n], r.value, r.value;
      }
      assert needles[n] == if n == 0 then QUOTE else if n == 1 then LINE else BLOCK;
      forall i | from <= i < end ensures !Matches(s, i, needles[n]) {
        if i + |needles[n]| > end0 {
          if what0 != "" && n > 0 { NoOverlap(s, end0, what0, needles[n]); }
        }
      }
    }
    assert needles[0] == QUOTE && needles[1] == LINE && needles[2] == BLOCK;
  }

  /** A marker cannot reach into another one: why the shrinking window finds the first. */
  lemma {:induction false} NoOverlap(s: string, p: nat, what: string, needle: string)
    requires 0 < p && IsMarker(what) && Matches(s, p, what)
    requires needle == LINE || needle == BLOCK
    ensures Matches(s, p - 1, needle) ==> what == needle == LINE
  {
    if Matches(s, p - 1, needle) {
      assert s[p - 1..p + 1][1] == needle[1] == s[p];
      assert s[p..p + |what|][0] == what[0] == s[p];
    }
  }

  /** The first position from i on where a marker starts, or the end. */
  function FirstMarker(s: string, i: nat): (m: nat)
    requires i <= |s|
    ensures i <= m <= |s| && (m < |s| ==> MarkerAt(s, m))
    ensures forall j :: i <= j < m ==> !MarkerAt(s, j)
    decreases |s| - i
  {
    if i == |s| || MarkerAt(s, i) then i else FirstMarker(s, i + 1)
  }

  function MarkerOf(s: string, i: nat): string
    requires MarkerAt(s, i)
  {
    if Matches(s, i, QUOTE) then QUOTE else if Matches(s, i, LINE) then LINE else BLOCK
  }

  function NextOf(what: string): StateFn
    requires IsMarker(what)
  {
    if what == LINE then LexLineComment else if what == BLOCK then LexBlockComment else LexString
  }

  /** The last quote of the run of quotes that starts at q. */
  function LastQuote(s: string, q: nat): (r: nat)
    requires q < |s| && s[q] == '\''
    ensures q <= r < |s| && s[r] == '\'' && (r + 1 < |s| ==> s[r + 1] != '\'')
    ensures forall i :: q <= i <= r ==> s[i] == '\''
    decreases |s| - q
  {
    if q + 1 < |s| && s[q + 1] == '\'' then LastQuote(s, q + 1) else q
  }

  // ----- what one call of a state function does -----

  /** Positions, what is in the channel, and whether the channel was closed. */
  datatype Chan = Chan(start: nat, pos: nat, items: seq<Item>, closed: bool)

  /** Sends the input between start and pos, and the end marker at the end of the input; after
      closing nothing is sent. */
  function Emit(s: string, c: Chan, t: ItemType): Chan
    requires c.closed || c.start <= c.pos <= |s|
  {
    if c.closed then c else
    var d := if c.start == c.pos then c
             else c.(items := c.items + [Item(t, s[c.start..c.pos])], start := if t.ItemEOF? then |s| else c.pos);
    if d.start == |s| then d.(items := d.items + [END], closed := true) else d
  }

  /** The state after the call; Panicked is an index out of range. */
  datatype Turn = Turn(c: Chan, next: Option<StateFn>) | Panicked

  function TurnText(s: string, start: nat, pos: nat): Turn
    requires start <= pos
  {
    if pos > |s| then Panicked else
    var c := Chan(start, pos, [], false);
    var m := FirstMarker(s, pos);
    if pos == |s| then Turn(Emit(s, c, ItemEOF), None)
    else if m == |s| then Turn(Emit(s, c.(pos := |s|), ItemText), None)
    else
      var what := MarkerOf(s, m);
      var c1 := if m == start then c.(pos := m) else Emit(s, c.(pos := m), ItemText);
      Turn(Emit(s, c1.(pos := m + |what|), ItemSep), Some(NextOf(what)))
  }

  function TurnString(s: string, pos: nat): Turn
    requires pos < |s|
  {
    var q := Index(s, pos, |s|, QUOTE);
    var e := if q.None? then pos else LastQuote(s, q.value);
    var c1 := Emit(s, Chan(pos, e, [], false), ItemString);
    Turn(Emit(s, c1.(pos := e + 1), ItemSep), Some(LexText))
  }

  function TurnLine(s: string, pos: nat): Turn
    requires pos < |s|
  {
    var e := Index(s, pos, |s|, "\n");
    if e.None? then Turn(Chan(pos, pos, [], false), None)
    else
      var c1 := Emit(s, Chan(pos, e.value, [], false), ItemComment);
      Turn(c1.(start := c1.start + 1, pos := e.value + 1), Some(LexText))
  }

  function TurnBlock(s: string, pos: nat): Turn
    requires pos < |s|
  {
    var e := Index(s, pos, |s|, BLOCK_END);
    if e.None? then Turn(Chan(pos, pos, [], false), None)
    else
      var c1 := Emit(s, Chan(pos, e.value, [], false), ItemComment);
      var c2 := Emit(s, c1.(pos := e.value + 2), ItemSep);
      Turn(c2.(pos := c2.pos + 2), Some(LexText))
  }

  function TurnOf(s: string, fn: StateFn, start: nat, pos: nat): Turn
    requires start <= pos && (fn != LexText ==> start == pos < |s|)
  {
    match fn
    case LexText => TurnText(s, start, pos)
    case LexString => TurnString(s, pos)
    case LexLineComment => TurnLine(s, pos)
    case LexBlockComment => TurnBlock(s, pos)
  }

  /** What a turn leaves behind: at most three items; and unless the run is over, start is not
      past pos, pos has advanced, and only text may have a gap between the two. */
  predicate Advances(s: string, r: Turn, pos: nat) {
    r.Turn? ==>
      && |r.c.items| <= 3
      && (!r.c.closed && r.next.Some? ==>
            pos < r.c.pos && r.c.start <= r.c.pos && r.c.start <= |s|
            && (r.next.value != LexText ==> r.c.start == r.c.pos < |s|))
  }

  lemma {:induction false} TextAdvances(s: string, start: nat, pos: nat)
    requires start <= pos
    ensures Advances(s, TurnText(s, start, pos), pos)
  {
  }

  lemma {:induction false} CommentAdvances(s: string, pos: nat)
    requires pos < |s|
    ensures Advances(s, TurnLine(s, pos), pos) && Advances(s, TurnBlock(s, pos), pos)
  {
  }

  lemma {:induction false} TurnAdvances(s: string, fn: StateFn, start: nat, pos: nat)
    requires start <= pos && (fn != LexText ==> start == pos < |s|)
    ensures Advances(s, TurnOf(s, fn, start, pos), pos)
  {
    hide TurnText;
    hide TurnLine;
    hide TurnBlock;
    match fn
    case LexText => TextAdvances(s, start, pos);
    case LexString =>
    case _ => CommentAdvances(s, pos);
  }

  // ----- the lexer -----

  class Lexer {
    const input: string
    var items: seq<Item>
    var closed: bool
    var state: Option<StateFn>
    var start: nat
    var pos: nat

    constructor (input: string)
      ensures this.input == input && items == [] && !closed && state == Some(LexText) && start == pos == 0
    {
      this.input := input;
      items, closed, state, start, pos := [], false, Some(LexText), 0, 0;
    }

    ghost function Now(): Chan
      reads this
    {
      Chan(start, pos, items, closed)
    }

    /** A send needs room in the open channel: its only reader is the goroutine that sends. */
    method Send(it: Item)
      requires !closed && |items| < CAPACITY
      modifies this`items
      ensures items == old(items) + [it]
    {
      items := items + [it];
    }

    method EmitItem(t: ItemType)
      requires state.Some? <==> !closed
      requires closed || start <= pos <= |input|
      requires |Emit(input, Now(), t).items| <= CAPACITY
      modifies this`items, this`start, this`closed, this`state
      ensures Now() == Emit(input, old(Now()), t)
      ensures state == if closed then None else old(state)
    {
      if state.None? {
        return;
      }
      if start != pos {
        Send(Item(t, input[start..pos]));
        start := pos;
        if t == ItemEOF {
          start := |input|;
        }
      }
      if start == |input| {
        Send(END);
        closed := true;
        state := None;
      }
    }

    /** Runs a state function; panics is an index out of range. */
    method RunState(fn: StateFn) returns (next: Option<StateFn>, panics: bool)
      requires items == [] && !closed && state.Some?
      requires start <= pos && (fn != LexText ==> start == pos < |input|)
      modifies this
      ensures panics <==> TurnOf(input, fn, old(start), old(pos)).Panicked?
      ensures !panics ==> TurnOf(input, fn, old(start), old(pos)) == Turn(Now(), next)
    {
      TurnAdvances(input, fn, start, pos);
      panics := false;
      match fn {
        case LexText => next, panics := Text();
        case LexString => next := Str();
        case LexLineComment => next := LineComment();
        case LexBlockComment => next := BlockComment();
      }
    }

    method Text() returns (next: Option<StateFn>, panics: bool)
      requires items == [] && !closed && state.Some? && start <= pos
      requires TurnText(input, start, pos).Turn? ==> |TurnText(input, start, pos).c.items| <= CAPACITY
      modifies this
      ensures panics <==> TurnText(input, old(start), old(pos)).Panicked?
      ensures !panics ==> TurnText(input, old(start), old(pos)) == Turn(Now(), next)
    {
      next, panics := None, false;
      if pos == |input| {
        EmitItem(ItemEOF);
        return;
      }
      if pos > |input| {
        return None, true;
      }
      var what, at := FindFirst(input, pos, [QUOTE, LINE, BLOCK]);
      FoundIsFirst(input, pos, what, at);
      if what != "" {
        pos := at;
        if pos != start {
          EmitItem(ItemText);
        }
        pos := pos + |what|;
        EmitItem(ItemSep);
        start := pos;
        next := Some(NextOf(what));
        return;
      }
      pos := |input|;
      EmitItem(ItemText);
    }

    lemma {:induction false} FoundIsFirst(s: string, i: nat, what: string, at: nat)
      requires i <= |s|
      requires what == "" ==> forall j :: i <= j < |s| ==> !MarkerAt(s, j)
      requires what != "" ==>
        IsMarker(what) && i <= at && Matches(s, at, what) && forall j :: i <= j < at ==> !MarkerAt(s, j)
      ensures what == "" ==> FirstMarker(s, i) == |s|
      ensures what != "" ==> FirstMarker(s, i) == at && at + |what| <= |s| && MarkerOf(s, at) == what
    {
      if what != "" {
        assert MarkerAt(s, at) && at < |s|;
        OneMarker(s, at, what);
      }
    }

    method Str() returns (next: Option<StateFn>)
      requires items == [] && !closed && state.Some? && start == pos < |input|
      requires |TurnString(input, pos).c.items| <= CAPACITY
      modifies this
      ensures TurnString(input, old(pos)) == Turn(Now(), next)
    {
      SeekQuote();
      EmitItem(ItemString);
      pos := pos + 1;
      EmitItem(ItemSep);
      next := Some(LexText);
    }

    /** Moves pos to the last quote of the first run of quotes, if there is one. */
    method SeekQuote()
      requires pos < |input|
      modifies this`pos
      ensures var q := Index(input, old(pos), |input|, QUOTE);
        pos == if q.None? then old(pos) else LastQuote(input, q.value)
    {
      ghost var p0, q := pos, Index(input, pos, |input|, QUOTE);
      while true
        invariant p0 <= pos < |input|
        invariant pos == p0 || (q.Some? && input[pos] == '\'' && LastQuote(input, pos) == LastQuote(input, q.value))
        decreases |input| - pos
      {
        var i := Index(input, pos, |input|, QUOTE);
        if i.None? {
          break;
        }
        assert input[i.value..i.value + 1][0] == '\'';
        if pos != p0 { HereIsQuote(input, pos); }
        pos := i.value;
        if |input| - pos > 1 && input[pos + 1] == '\'' {
          pos := pos + 1;
        } else {
          break;
        }
      }
    }

    lemma {:induction false} HereIsQuote(s: string, i: nat)
      requires i < |s| && s[i] == '\''
      ensures Index(s, i, |s|, QUOTE) == Some(i)
    {
    }

    method LineComment() returns (next: Option<StateFn>)
      requires items == [] && !closed && state.Some? && start == pos < |input|
      requires |TurnLine(input, pos).c.items| <= CAPACITY
      modifies this
      ensures TurnLine(input, old(pos)) == Turn(Now(), next)
    {
      var end := Index(input, pos, |input|, "\n");
      if end.None? {
        EmitItem(ItemError);
        return None;
      }
      pos := end.value;
      EmitItem(ItemComment);
      start := start + 1;
      pos := pos + 1;
      next := Some(LexText);
    }

    method BlockComment() returns (next: Option<StateFn>)
      requires items == [] && !closed && state.Some? && start == pos < |input|
      requires |TurnBlock(input, pos).c.items| <= CAPACITY
      modifies this
      ensures TurnBlock(input, old(pos)) == Turn(Now(), next)
    {
      var end := Index(input, pos, |input|, BLOCK_END);
      if end.None? {
        EmitItem(ItemError);
        return None;
      }
      pos := end.value;
      EmitItem(ItemComment);
      pos := pos + |BLOCK_END|;
      EmitItem(ItemSep);
      pos := pos + |BLOCK_END|;
      next := Some(LexText);
    }

    /** What further calls of state functions will send. */
    ghost function Later(): Option<seq<Item>>
      reads this
      requires !closed && state.Some? ==> Ready(input, state.value, start, pos)
    {
      if closed || state.None? then Some([]) else RunItems(input, state.value, start, pos)
    }

    /** Drains the channel, and runs the state only when the channel is empty and open. The
        state is overwritten by the function's result even after the end was sent. */
    method Iter() returns (out: seq<Item>, panics: bool)
      requires items == [] && !closed && state == Some(LexText) && start == pos == 0
      modifies this
      ensures panics <==> RunItems(input, LexText, 0, 0).None?
      ensures !panics ==> out == RunItems(input, LexText, 0, 0).value + [END]
    {
      out := [];
      ghost var all := Later();
      PrependNothing(all);
      assert out + items == [];
      while true
        invariant !closed && state.Some? ==> Ready(input, state.value, start, pos)
        invariant Prepend(out + items, Later()) == all
        decreases if closed || state.None? || pos > |input| then 0 else |input| - pos + 1, |items|
      {
        if items != [] {
          assert (out + [items[0]]) + items[1..] == out + items;
          out := out + [items[0]];
          items := items[1..];
        } else if closed || state.None? {
          out := out + [END];
          return out, false;
        } else {
          panics := Refill(out);
          if panics {
            return;
          }
        }
      }
    }

    /** The channel is empty and open: runs the state. */
    method Refill(ghost out: seq<Item>) returns (panics: bool)
      requires items == [] && !closed && state.Some? && Ready(input, state.value, start, pos)
      modifies this
      ensures panics <==> TurnOf(input, old(state.value), old(start), old(pos)).Panicked?
      ensures panics ==> old(Later()).None?
      ensures !panics && !closed && state.Some? ==>
        Ready(input, state.value, start, pos) && old(pos) < pos && old(pos) <= |input|
      ensures !panics ==> Prepend(out + items, Later()) == Prepend(out + old(items), old(Later()))
    {
      ghost var fn := state.value;
      TurnAdvances(input, fn, start, pos);
      var next;
      next, panics := RunState(state.value);
      state := next;
      if !panics {
        PrependTwice(out, items, Later());
        assert items + [] == items && out + [] == out;
        assert Prepend(items, Later()) == old(Later());
      }
    }
  }

  lemma {:induction false} PrependNothing(rest: Option<seq<Item>>)
    ensures Prepend([], rest) == rest
  {
    if rest.Some? { assert [] + rest.value == rest.value; }
  }

  lemma {:induction false} PrependTwice(a: seq<Item>, b: seq<Item>, rest: Option<seq<Item>>)
    ensures Prepend(a, Prepend(b, rest)) == Prepend(a + b, rest)
  {
    if rest.Some? { assert a + (b + rest.value) == (a + b) + rest.value; }
  }

  const CUTSET := " \t\U{000B}"

  predicate Blank(c: char) {
    c == ' ' || c == '\t' || c == '\U{000B}'
  }

  /** The input is the source without its trailing blanks, and with a newline if it lacks one. */
  predicate TrimmedTo(source: string, n: nat, input: string)
    requires n <= |source|
  {
    && (n == 0 || !Blank(source[n - 1]))
    && (forall i :: n <= i < |source| ==> Blank(source[i]))
    && input == source[..n] + if n == 0 || source[n - 1] != '\n' then "\n" else ""
  }

  /** Trailing blanks go, and the last byte becomes a newline if it is not one. */
  method Lex(source: string) returns (l: Lexer)
    ensures fresh(l) && l.items == [] && !l.closed && l.state == Some(LexText) && l.start == l.pos == 0
    ensures l.input != "" && l.input[|l.input| - 1] == '\n'
    ensures exists n :: 0 <= n <= |source| && TrimmedTo(source, n, l.input)
  {
    var n := |source|;
    while n > 0 && source[n - 1] in CUTSET
      invariant 0 <= n <= |source| && forall i :: n <= i < |source| ==> Blank(source[i])
    {
      n := n - 1;
    }
    var input := source[..n];
    if n == 0 || source[n - 1] != '\n' {
      input := input + "\n";
    } else {
      assert input == source[..n] + "";
    }
    assert TrimmedTo(source, n, input);
    l := new Lexer(input);
  }

  predicate Ready(s: string, fn: StateFn, start: nat, pos: nat) {
    start <= pos && start <= |s| && (fn != LexText ==> start == pos < |s|)
  }

  function Prepend(a: seq<Item>, b: Option<seq<Item>>): Option<seq<Item>> {
    if b.None? then None else Some(a + b.value)
  }

  /** All items of a run; None when it panics. */
  function RunItems(s: string, fn: StateFn, start: nat, pos: nat): Option<seq<Item>>
    requires Ready(s, fn, start, pos)
    decreases if pos <= |s| then |s| - pos + 1 else 0
  {
    TurnAdvances(s, fn, start, pos);
    var r := TurnOf(s, fn, start, pos);
    if r.Panicked? then None
    else if r.c.closed || r.next.None? then Some(r.c.items)
    else Prepend(r.c.items, RunItems(s, r.next.value, r.c.start, r.c.pos))
  }

  lemma {:induction false} OneMarker(s: string, i: nat, what: string)
    requires IsMarker(what) && Matches(s, i, what)
    ensures MarkerAt(s, i) && MarkerOf(s, i) == what
  {
    assert s[i..i + |what|][0] == s[i] == what[0];
    if Matches(s, i, QUOTE) { assert s[i..i + 1][0] == '\''; }
    if Matches(s, i, LINE) { assert s[i..i + 2][0] == '-'; }
    if Matches(s, i, BLOCK) { assert s[i..i + 2][0] == '/'; }
  }
}
