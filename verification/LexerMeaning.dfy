/** The two results about whole lexer runs: nothing is lost or invented, and every byte is
    classified as a byte-by-byte reading classifies it exactly when the input is WellShaped. */
module LexerMeaning {
  import opened Basics
  import opened Lexer
  import opened LexerTheorem

  /** Lex appends a newline to an input that does not end with one. */
  predicate Terminated(s: string) {
    s != "" && s[|s| - 1] == '\n'
  }

  // ----- values concatenate to the consumed input -----

  /** Where a run can stand: text may be two bytes ahead after a block comment. */
  predicate Reached(s: string, fn: StateFn, start: nat, pos: nat) {
    && Ready(s, fn, start, pos)
    && (fn == LexBlockComment ==> start >= 2 && Matches(s, start - 2, BLOCK))
    && (pos == start || (fn == LexText && pos == start + 2 && start >= 2 && Matches(s, start - 2, BLOCK_END)))
  }

  predicate UnclosedBlock(s: string, i: nat) {
    2 <= i <= |s| && Matches(s, i - 2, BLOCK) && Index(s, i, |s|, BLOCK_END).None?
  }

  /** b spells the input from start on, to its end or to an unclosed block comment. */
  predicate Spells(s: string, start: nat, b: seq<Byte>) {
    && start + |b| <= |s|
    && (forall k :: 0 <= k < |b| ==> b[k].c == s[start + k])
    && (start + |b| < |s| ==> UnclosedBlock(s, start + |b|))
  }

  /** A run panics only on an input that ends with a block comment and one more byte. */
  predicate CommentLast(s: string) {
    |s| >= 3 && Matches(s, |s| - 3, BLOCK_END)
  }

  ghost predicate RunIsSpelled(s: string, fn: StateFn, start: nat, pos: nat)
    requires Ready(s, fn, start, pos)
  {
    var r := Run(s, fn, start, pos);
    if r.None? then CommentLast(s) else Spells(s, start, r.value)
  }

  lemma {:induction false} RunSpells(s: string, fn: StateFn, start: nat, pos: nat)
    requires Terminated(s) && Reached(s, fn, start, pos)
    ensures RunIsSpelled(s, fn, start, pos)
    decreases |s| + 2 - pos, 2
  {
    match fn {
      case LexText => TextSpells(s, start, pos);
      case LexString => LiteralSpells(s, pos);
      case LexLineComment => LineSpells(s, pos);
      case LexBlockComment => BlockSpells(s, pos);
    }
  }

  lemma {:induction false} TextSpells(s: string, start: nat, pos: nat)
    requires Terminated(s) && Reached(s, LexText, start, pos)
    ensures RunIsSpelled(s, LexText, start, pos)
    decreases |s| + 2 - pos, 1
  {
    hide RunItems;
    hide FirstMarker;
    if pos > |s| {
      Overrun(s, start, pos);
    } else if FirstMarker(s, pos) == |s| {
      TailStep(s, start, pos);
    } else {
      MarkerSpells(s, start, pos, FirstMarker(s, pos));
    }
  }

  lemma {:induction false} MarkerSpells(s: string, start: nat, pos: nat, m: nat)
    requires Terminated(s) && start <= pos < |s| && FirstMarker(s, pos) == m < |s|
    ensures RunIsSpelled(s, LexText, start, pos)
    decreases |s| + 2 - pos, 0
  {
    hide RunItems;
    hide FirstMarker;
    hide Spells;
    TextStep(s, start, pos);
    var what := MarkerOf(s, m);
    var e := m + |what|;
    if e < |s| { RunSpells(s, NextOf(what), e, e); } else { NothingSpelled(s); }
    Spelled(s, start, m, e, Text, what, RestBytes(s, NextOf(what), e, e));
  }

  lemma {:induction false} NothingSpelled(s: string)
    ensures Spells(s, |s|, [])
  {
  }

  lemma {:induction false} Overrun(s: string, start: nat, pos: nat)
    requires Terminated(s) && Reached(s, LexText, start, pos) && pos > |s|
    ensures Run(s, LexText, start, pos).None? && CommentLast(s)
  {
    PastTheEnd(s, start, pos);
    hide RunItems;
    SlashAt(s, start - 2);
  }

  lemma {:induction false} SlashAt(s: string, i: nat)
    requires Matches(s, i, BLOCK_END)
    ensures s[i] == '*' && s[i + 1] == '/'
  {
  }

  lemma {:induction false} PastTheEnd(s: string, start: nat, pos: nat)
    requires start <= |s| < pos
    ensures RunItems(s, LexText, start, pos) == None
  {
  }

  lemma {:induction false} LiteralSpells(s: string, pos: nat)
    requires Terminated(s) && pos < |s|
    ensures RunIsSpelled(s, LexString, pos, pos)
    decreases |s| + 2 - pos, 0
  {
    hide RunItems;
    hide LiteralEnd;
    hide Spells;
    StringStep(s, pos);
    var e := LiteralEnd(s, pos);
    if e + 1 < |s| { RunSpells(s, LexText, e + 1, e + 1); }
    assert s[e..e + 1] == [s[e]];
    Spelled(s, pos, e, e + 1, Literal, [s[e]], RestBytes(s, LexText, e + 1, e + 1));
  }

  lemma {:induction false} LineSpells(s: string, pos: nat)
    requires Terminated(s) && pos < |s|
    ensures RunIsSpelled(s, LexLineComment, pos, pos)
    decreases |s| + 2 - pos, 0
  {
    hide RunItems;
    NewlineAhead(s, pos);
    LineStep(s, pos);
    var e := Index(s, pos, |s|, "\n").value;
    RunSpells(s, LexText, e + 1, e + 1);
    var rest := Run(s, LexText, e + 1, e + 1);
    if rest.Some? { LineSpelled(s, pos, e, rest.value); }
  }

  lemma {:induction false} BlockSpells(s: string, pos: nat)
    requires Terminated(s) && 2 <= pos < |s| && Matches(s, pos - 2, BLOCK)
    ensures RunIsSpelled(s, LexBlockComment, pos, pos)
    decreases |s| + 2 - pos, 0
  {
    hide RunItems;
    hide Index;
    BlockStep(s, pos);
    var i := Index(s, pos, |s|, BLOCK_END);
    if i.Some? {
      hide Spells;
      var e := i.value;
      SlashAt(s, e);
      RunSpells(s, LexText, e + 2, e + 4);
      Spelled(s, pos, e, e + 2, Comment, BLOCK_END, RestBytes(s, LexText, e + 2, e + 4));
    } else {
      assert Run(s, LexBlockComment, pos, pos) == Some([]);
      assert UnclosedBlock(s, pos);
    }
  }

  lemma {:induction false} Spelled(s: string, start: nat, m: nat, e: nat, kind: Class, sep: string,
                                   rest: Option<seq<Byte>>)
    requires start <= m <= e <= |s| && s[m..e] == sep
    requires rest.Some? ==> Spells(s, e, rest.value)
    ensures rest.Some? ==> Spells(s, start, Tag(s[start..m], kind) + Tag(sep, Sep) + rest.value)
  {
  }

  lemma {:induction false} LineSpelled(s: string, pos: nat, e: nat, rest: seq<Byte>)
    requires pos <= e < |s| && Matches(s, e, "\n") && Spells(s, e + 1, rest)
    ensures Spells(s, pos, Tag(s[pos..e], Comment) + Tag("\n", Newline) + rest)
  {
  }

  lemma {:induction false} NewlineAhead(s: string, pos: nat)
    requires Terminated(s) && pos < |s|
    ensures Index(s, pos, |s|, "\n").Some?
  {
    assert s[|s| - 1..|s|] == "\n";
    assert Matches(s, |s| - 1, "\n");
  }

  /** The values of all items of a run, with the newline put back after each line comment,
      concatenate to the input, or to its part up to an unclosed block comment. */
  lemma {:induction false} ValuesSpellTheInput(s: string)
    requires Terminated(s)
    ensures var r := RunItems(s, LexText, 0, 0);
      if r.None? then CommentLast(s) else Spells(s, 0, Bytes(r.value, false))
  {
    hide RunItems;
    RunSpells(s, LexText, 0, 0);
    var r := RunItems(s, LexText, 0, 0);
    assert RunIsSpelled(s, LexText, 0, 0);
    if r.None? {
      assert Run(s, LexText, 0, 0) == None;
      assert CommentLast(s);
    } else {
      assert Run(s, LexText, 0, 0) == Some(Bytes(r.value, false));
      assert Spells(s, 0, Bytes(r.value, false));
    }
  }

  /** The comment need not be followed by code: one newline after it is enough to panic. */
  lemma {:induction false} ClosingCommentPanics()
    ensures Terminated("/**/\n") && RunItems("/**/\n", LexText, 0, 0).None?
  {
    var s := "/**/\n";
    assert s[0..2] == BLOCK && s[2..4] == BLOCK_END;
    assert Matches(s, 0, BLOCK) && FirstMarker(s, 0) == 0;
    OneMarker(s, 0, BLOCK);
    TextStep(s, 0, 0);
    BlockStep(s, 2);
    assert Index(s, 2, 5, BLOCK_END) == Some(2);
    assert Run(s, LexText, 4, 6).None?;
  }

  // ----- when a run panics -----

  /** Read from fn at pos on, the lexer meets a block comment whose end starts at e: it goes from
      marker to marker, past literals and comments, and two bytes past the end of a block comment. */
  predicate ClosesAt(s: string, fn: StateFn, pos: nat, e: nat)
    requires pos <= |s|
    decreases |s| - pos
  {
    pos < |s| &&
    match fn
    case LexText =>
      var m := FirstMarker(s, pos);
      m < |s| && ClosesAt(s, NextOf(MarkerOf(s, m)), m + |MarkerOf(s, m)|, e)
    case LexString => ClosesAt(s, LexText, LiteralEnd(s, pos) + 1, e)
    case LexLineComment =>
      var n := Index(s, pos, |s|, "\n");
      n.Some? && ClosesAt(s, LexText, n.value + 1, e)
    case LexBlockComment =>
      var c := Index(s, pos, |s|, BLOCK_END);
      c.Some? && (c.value == e || (c.value + 4 <= |s| && ClosesAt(s, LexText, c.value + 4, e)))
  }

  /** The lexer meets a block comment with one byte after it. */
  predicate LastByteAfterComment(s: string, fn: StateFn, pos: nat)
    requires pos <= |s|
  {
    |s| >= 3 && ClosesAt(s, fn, pos, |s| - 3)
  }

  ghost predicate PanicDecided(s: string, fn: StateFn, start: nat, pos: nat)
    requires Ready(s, fn, start, pos) && pos <= |s|
  {
    Run(s, fn, start, pos).None? <==> LastByteAfterComment(s, fn, pos)
  }

  lemma {:induction false} RunPanics(s: string, fn: StateFn, start: nat, pos: nat)
    requires Terminated(s) && Ready(s, fn, start, pos) && pos <= |s|
    ensures PanicDecided(s, fn, start, pos)
    decreases |s| - pos, 1
  {
    if pos == |s| {
      TailStep(s, start, pos);
    } else {
      match fn {
        case LexText => TextPanics(s, start, pos);
        case LexString => LiteralPanics(s, pos);
        case LexLineComment => LinePanics(s, pos);
        case LexBlockComment => BlockPanics(s, pos);
      }
    }
  }

  lemma {:induction false} TextPanics(s: string, start: nat, pos: nat)
    requires Terminated(s) && Ready(s, LexText, start, pos) && pos < |s|
    ensures PanicDecided(s, LexText, start, pos)
    decreases |s| - pos, 0
  {
    hide RunItems;
    hide FirstMarker;
    var m := FirstMarker(s, pos);
    if m == |s| {
      TailStep(s, start, pos);
    } else {
      TextStep(s, start, pos);
      var what := MarkerOf(s, m);
      var e := m + |what|;
      if e < |s| { RunPanics(s, NextOf(what), e, e); }
    }
  }

  lemma {:induction false} LiteralPanics(s: string, pos: nat)
    requires Terminated(s) && pos < |s|
    ensures PanicDecided(s, LexString, pos, pos)
    decreases |s| - pos, 0
  {
    hide RunItems;
    hide LiteralEnd;
    StringStep(s, pos);
    var e := LiteralEnd(s, pos);
    if e + 1 < |s| {
      RunPanics(s, LexText, e + 1, e + 1);
    } else {
      assert !LastByteAfterComment(s, LexText, e + 1);
    }
    assert LastByteAfterComment(s, LexString, pos) <==> LastByteAfterComment(s, LexText, e + 1);
  }

  lemma {:induction false} LinePanics(s: string, pos: nat)
    requires Terminated(s) && pos < |s|
    ensures PanicDecided(s, LexLineComment, pos, pos)
    decreases |s| - pos, 0
  {
    hide RunItems;
    hide Index;
    NewlineAhead(s, pos);
    LineStep(s, pos);
    var e := Index(s, pos, |s|, "\n").value;
    RunPanics(s, LexText, e + 1, e + 1);
  }

  lemma {:induction false} BlockPanics(s: string, pos: nat)
    requires Terminated(s) && pos < |s|
    ensures PanicDecided(s, LexBlockComment, pos, pos)
    decreases |s| - pos, 0
  {
    hide RunItems;
    hide Index;
    BlockStep(s, pos);
    var i := Index(s, pos, |s|, BLOCK_END);
    if i.Some? {
      SlashAt(s, i.value);
      assert s[i.value + 1] != s[|s| - 1] && i.value + 2 < |s|;
      if i.value + 4 <= |s| {
        RunPanics(s, LexText, i.value + 2, i.value + 4);
      } else {
        PastTheEnd(s, i.value + 2, i.value + 4);
      }
    }
  }

  /** The lexer panics if and only if it meets a block comment with one byte after it. */
  lemma {:induction false} PanicsAfterComment(s: string)
    requires Terminated(s)
    ensures RunItems(s, LexText, 0, 0).None? <==> LastByteAfterComment(s, LexText, 0)
  {
    RunPanics(s, LexText, 0, 0);
    hide RunItems;
    assert PanicDecided(s, LexText, 0, 0);
  }

  // ----- the reading byte by byte -----

  datatype Mode = Code | InLiteral | InLine | InBlock

  /** PL/SQL read one byte at a time: in a literal a doubled quote stands for a quote. */
  function Reading(s: string, i: nat, mode: Mode): (r: seq<Byte>)
    requires i <= |s|
    ensures |r| == |s| - i
    decreases |s| - i
  {
    if i == |s| then []
    else match mode
      case Code =>
        if MarkerAt(s, i) then
          var what := MarkerOf(s, i);
          Tag(what, Sep) + Reading(s, i + |what|, ModeOf(NextOf(what)))
        else Tag(s[i..i + 1], Text) + Reading(s, i + 1, Code)
      case InLiteral =>
        if s[i] != '\'' then Tag(s[i..i + 1], Literal) + Reading(s, i + 1, InLiteral)
        else if i + 1 < |s| && s[i + 1] == '\'' then Tag(s[i..i + 2], Literal) + Reading(s, i + 2, InLiteral)
        else Tag([s[i]], Sep) + Reading(s, i + 1, Code)
      case InLine =>
        if s[i] == '\n' then Tag("\n", Newline) + Reading(s, i + 1, Code)
        else Tag(s[i..i + 1], Comment) + Reading(s, i + 1, InLine)
      case InBlock =>
        if Matches(s, i, BLOCK_END) then Tag(BLOCK_END, Sep) + Reading(s, i + 2, Code)
        else Tag(s[i..i + 1], Comment) + Reading(s, i + 1, InBlock)
  }

  function ModeOf(fn: StateFn): Mode {
    match fn
    case LexText => Code
    case LexString => InLiteral
    case LexLineComment => InLine
    case LexBlockComment => InBlock
  }

  /** Every literal is closed by the first run of quotes in it, which is odd; every block comment
      is closed, with at least three more bytes, and no marker starts in the first two of them. */
  predicate WellShaped(s: string, i: nat, mode: Mode)
    requires i <= |s|
    decreases |s| - i
  {
    i == |s| ||
    match mode
    case Code =>
      var m := FirstMarker(s, i);
      m == |s| || WellShaped(s, m + |MarkerOf(s, m)|, ModeOf(NextOf(MarkerOf(s, m))))
    case InLiteral =>
      var q := Index(s, i, |s|, QUOTE);
      q.Some? && (LastQuote(s, q.value) - q.value) % 2 == 0 && WellShaped(s, LastQuote(s, q.value) + 1, Code)
    case InLine =>
      var e := Index(s, i, |s|, "\n");
      e.None? || WellShaped(s, e.value + 1, Code)
    case InBlock =>
      var e := Index(s, i, |s|, BLOCK_END);
      e.Some? && e.value + 5 <= |s| && e.value + 4 <= FirstMarker(s, e.value + 2) && WellShaped(s, e.value + 2, Code)
  }

  lemma {:induction false} JoinTags(s: string, i: nat, j: nat, k: nat, kind: Class, rest: seq<Byte>)
    requires i <= j <= k <= |s|
    ensures Tag(s[i..j], kind) + (Tag(s[j..k], kind) + rest) == Tag(s[i..k], kind) + rest
  {
  }

  lemma {:induction false} NoTags(s: string, i: nat, kind: Class, rest: seq<Byte>)
    requires i <= |s|
    ensures Tag(s[i..i], kind) + rest == rest
  {
  }

  lemma {:induction false} Assoc(a: seq<Byte>, b: seq<Byte>, c: seq<Byte>)
    ensures a + (b + c) == (a + b) + c
  {
  }

  lemma {:induction false} ReadingText(s: string, i: nat, m: nat)
    requires i <= m <= |s| && forall j :: i <= j < m ==> !MarkerAt(s, j)
    ensures Reading(s, i, Code) == Tag(s[i..m], Text) + Reading(s, m, Code)
    decreases m - i
  {
    var rest := Reading(s, m, Code);
    if i == m {
      NoTags(s, i, Text, rest);
    } else {
      ReadingText(s, i + 1, m);
      JoinTags(s, i, i + 1, m, Text, rest);
    }
  }

  lemma {:induction false} ReadingLine(s: string, i: nat, e: nat)
    requires i <= e <= |s| && forall j :: i <= j < e ==> s[j] != '\n'
    ensures Reading(s, i, InLine) == Tag(s[i..e], Comment) + Reading(s, e, InLine)
    decreases e - i
  {
    var rest := Reading(s, e, InLine);
    if i == e {
      NoTags(s, i, Comment, rest);
    } else {
      ReadingLine(s, i + 1, e);
      JoinTags(s, i, i + 1, e, Comment, rest);
    }
  }

  lemma {:induction false} ReadingBlock(s: string, i: nat, e: nat)
    requires i <= e <= |s| && forall j :: i <= j < e ==> !Matches(s, j, BLOCK_END)
    ensures Reading(s, i, InBlock) == Tag(s[i..e], Comment) + Reading(s, e, InBlock)
    decreases e - i
  {
    var rest := Reading(s, e, InBlock);
    if i == e {
      NoTags(s, i, Comment, rest);
    } else {
      ReadingBlock(s, i + 1, e);
      JoinTags(s, i, i + 1, e, Comment, rest);
    }
  }

  lemma {:induction false} ReadingLiteral(s: string, i: nat, q: nat)
    requires i <= q <= |s| && forall j :: i <= j < q ==> s[j] != '\''
    ensures Reading(s, i, InLiteral) == Tag(s[i..q], Literal) + Reading(s, q, InLiteral)
    decreases q - i
  {
    var rest := Reading(s, q, InLiteral);
    if i == q {
      NoTags(s, i, Literal, rest);
    } else {
      ReadingLiteral(s, i + 1, q);
      JoinTags(s, i, i + 1, q, Literal, rest);
    }
  }

  /** Pairs of quotes belong to the literal. */
  lemma {:induction false} ReadingQuotes(s: string, q: nat, e: nat)
    requires q <= e <= |s| && (e - q) % 2 == 0 && forall j :: q <= j < e ==> s[j] == '\''
    ensures Reading(s, q, InLiteral) == Tag(s[q..e], Literal) + Reading(s, e, InLiteral)
    decreases e - q
  {
    if q == e {
      NoTags(s, q, Literal, Reading(s, e, InLiteral));
    } else {
      QuotePair(s, q);
      hide Reading;
      ReadingQuotes(s, q + 2, e);
      JoinTags(s, q, q + 2, e, Literal, Reading(s, e, InLiteral));
    }
  }

  lemma {:induction false} QuotePair(s: string, q: nat)
    requires q + 2 <= |s| && s[q] == s[q + 1] == '\''
    ensures Reading(s, q, InLiteral) == Tag(s[q..q + 2], Literal) + Reading(s, q + 2, InLiteral)
  {
  }

  /** After the same bytes, equal results mean equal rests. */
  lemma {:induction false} SameAfter(run: Option<seq<Byte>>, read: seq<Byte>, a: seq<Byte>, b: seq<Byte>,
                                     restRun: Option<seq<Byte>>, restRead: seq<Byte>)
    requires run == Then(a + b, restRun) && read == a + (b + restRead)
    ensures run == Some(read) <==> restRun == Some(restRead)
  {
    Assoc(a, b, restRead);
    if restRun.Some? && a + b + restRun.value == a + b + restRead {
      assert restRun.value == (a + b + restRun.value)[|a + b|..] == restRead;
    }
  }

  // ----- the lexer against the reading -----

  /** The run from fn gives the reading; None is a panic. */
  ghost predicate Agrees(s: string, fn: StateFn, pos: nat)
    requires pos <= |s| && (fn != LexText ==> pos < |s|)
  {
    Run(s, fn, pos, pos) == Some(Reading(s, pos, ModeOf(fn)))
  }

  ghost predicate ShapeDecides(s: string, fn: StateFn, pos: nat)
    requires pos <= |s| && (fn != LexText ==> pos < |s|)
  {
    Agrees(s, fn, pos) <==> WellShaped(s, pos, ModeOf(fn))
  }

  lemma {:induction false} RunDecided(s: string, fn: StateFn, pos: nat)
    requires Terminated(s) && pos <= |s| && (fn != LexText ==> pos < |s|)
    ensures ShapeDecides(s, fn, pos)
    decreases |s| - pos, 2
  {
    match fn {
      case LexText => TextDecided(s, pos);
      case LexString => LiteralDecided(s, pos);
      case LexLineComment => LineDecided(s, pos);
      case LexBlockComment => BlockDecided(s, pos);
    }
  }

  /** After a separator the run and the reading go on from the same place. */
  lemma {:induction false} RestDecided(s: string, fn: StateFn, e: nat)
    requires e <= |s| && (e < |s| ==> ShapeDecides(s, fn, e))
    ensures RestBytes(s, fn, e, e) == Some(Reading(s, e, ModeOf(fn))) <==> WellShaped(s, e, ModeOf(fn))
  {
  }

  lemma {:induction false} TextDecided(s: string, pos: nat)
    requires Terminated(s) && pos <= |s|
    ensures ShapeDecides(s, LexText, pos)
    decreases |s| - pos, 0
  {
    hide RunItems;
    hide Reading;
    hide FirstMarker;
    var m := FirstMarker(s, pos);
    ReadingText(s, pos, m);
    if m == |s| {
      TailStep(s, pos, pos);
      TextAtEnd(s, pos);
    } else {
      var what := MarkerOf(s, m);
      var e := m + |what|;
      TextStep(s, pos, pos);
      MarkerRead(s, m);
      if e < |s| { RunDecided(s, NextOf(what), e); }
      RestDecided(s, NextOf(what), e);
      SameAfter(Run(s, LexText, pos, pos), Reading(s, pos, Code), Tag(s[pos..m], Text), Tag(what, Sep),
                RestBytes(s, NextOf(what), e, e), Reading(s, e, ModeOf(NextOf(what))));
    }
  }

  lemma {:induction false} MarkerRead(s: string, m: nat)
    requires m < |s| && MarkerAt(s, m)
    ensures var what := MarkerOf(s, m);
      Reading(s, m, Code) == Tag(what, Sep) + Reading(s, m + |what|, ModeOf(NextOf(what)))
  {
  }

  lemma {:induction false} TextAtEnd(s: string, pos: nat)
    requires pos <= |s| && FirstMarker(s, pos) == |s|
    ensures Reading(s, pos, Code) == Tag(s[pos..], if pos == |s| then Tail else Text)
  {
    ReadingText(s, pos, |s|);
    assert s[pos..|s|] == s[pos..];
  }

  lemma {:induction false} LineDecided(s: string, pos: nat)
    requires Terminated(s) && pos < |s|
    ensures ShapeDecides(s, LexLineComment, pos)
    decreases |s| - pos, 0
  {
    hide RunItems;
    hide Reading;
    hide Index;
    NewlineAhead(s, pos);
    LineStep(s, pos);
    LineRead(s, pos);
    var e := Index(s, pos, |s|, "\n").value;
    RunDecided(s, LexText, e + 1);
    SameAfter(Run(s, LexLineComment, pos, pos), Reading(s, pos, InLine), Tag(s[pos..e], Comment), Tag("\n", Newline),
              Run(s, LexText, e + 1, e + 1), Reading(s, e + 1, Code));
  }

  lemma {:induction false} LineRead(s: string, pos: nat)
    requires pos < |s| && Index(s, pos, |s|, "\n").Some?
    ensures var e := Index(s, pos, |s|, "\n").value;
      Reading(s, pos, InLine) == Tag(s[pos..e], Comment) + (Tag("\n", Newline) + Reading(s, e + 1, Code))
  {
    NewlineFirst(s, pos);
    ReadingLine(s, pos, Index(s, pos, |s|, "\n").value);
  }

  lemma {:induction false} NewlineFirst(s: string, pos: nat)
    requires pos < |s| && Index(s, pos, |s|, "\n").Some?
    ensures var e := Index(s, pos, |s|, "\n").value;
      s[e] == '\n' && forall j :: pos <= j < e ==> s[j] != '\n'
  {
    var e := Index(s, pos, |s|, "\n").value;
    assert s[e..e + 1][0] == s[e];
    forall j | pos <= j < e ensures s[j] != '\n' {
      if s[j] == '\n' { assert s[j..j + 1] == "\n" && Matches(s, j, "\n"); }
    }
  }

  lemma {:induction false} QuoteFirst(s: string, pos: nat)
    requires pos < |s|
    ensures var q := Index(s, pos, |s|, QUOTE);
      && (q.Some? ==> s[q.value] == '\'')
      && forall j :: pos <= j < (if q.Some? then q.value else |s|) ==> s[j] != '\''
  {
    var q := Index(s, pos, |s|, QUOTE);
    if q.Some? { assert s[q.value..q.value + 1][0] == s[q.value]; }
    forall j | pos <= j < (if q.Some? then q.value else |s|) ensures s[j] != '\'' {
      if s[j] == '\'' { assert s[j..j + 1] == QUOTE && Matches(s, j, QUOTE); }
    }
  }

  lemma {:induction false} LiteralShape(s: string, pos: nat)
    requires pos < |s|
    ensures var q := Index(s, pos, |s|, QUOTE);
      WellShaped(s, pos, InLiteral) <==>
      q.Some? && (LastQuote(s, q.value) - q.value) % 2 == 0 && WellShaped(s, LastQuote(s, q.value) + 1, Code)
  {
    hide LastQuote;
    hide Index;
  }

  lemma {:induction false} LiteralDecided(s: string, pos: nat)
    requires Terminated(s) && pos < |s|
    ensures ShapeDecides(s, LexString, pos)
    decreases |s| - pos, 1
  {
    hide Agrees;
    hide Reading;
    hide LastQuote;
    hide Index;
    hide WellShaped;
    LiteralShape(s, pos);
    QuoteFirst(s, pos);
    var q := Index(s, pos, |s|, QUOTE);
    if q.Some? && (LastQuote(s, q.value) - q.value) % 2 == 0 {
      LiteralAgrees(s, pos, q.value);
    } else {
      if q.None? { OpenLiteral(s, pos); } else { EvenRun(s, pos, q.value); }
      LiteralDiffers(s, pos);
    }
  }

  lemma {:induction false} LiteralAgrees(s: string, pos: nat, q: nat)
    requires Terminated(s) && pos <= q < |s| && Index(s, pos, |s|, QUOTE) == Some(q)
    requires s[q] == '\'' && forall j :: pos <= j < q ==> s[j] != '\''
    requires (LastQuote(s, q) - q) % 2 == 0
    ensures Agrees(s, LexString, pos) <==> WellShaped(s, LastQuote(s, q) + 1, Code)
    decreases |s| - pos, 0
  {
    hide RunItems;
    hide Reading;
    hide WellShaped;
    hide LastQuote;
    var e := LastQuote(s, q);
    StringStep(s, pos);
    OddRun(s, pos, q);
    RunDecided(s, LexText, e + 1);
    RestDecided(s, LexText, e + 1);
    SameAfter(Run(s, LexString, pos, pos), Reading(s, pos, InLiteral), Tag(s[pos..e], Literal), Tag([s[e]], Sep),
              RestBytes(s, LexText, e + 1, e + 1), Reading(s, e + 1, Code));
  }

  lemma {:induction false} LiteralDiffers(s: string, pos: nat)
    requires pos < |s| && Reading(s, pos, InLiteral)[LiteralEnd(s, pos) - pos].kind == Literal
    ensures !Agrees(s, LexString, pos)
  {
    hide RunItems;
    hide Reading;
    StringStep(s, pos);
    var e := LiteralEnd(s, pos);
    assert (Tag(s[pos..e], Literal) + Tag([s[e]], Sep))[e - pos].kind == Sep;
  }

  lemma {:induction false} OpenLiteral(s: string, pos: nat)
    requires pos < |s| && s[pos] != '\''
    ensures Reading(s, pos, InLiteral)[0].kind == Literal
  {
  }

  lemma {:induction false} OddRun(s: string, pos: nat, q: nat)
    requires pos <= q < |s| && s[q] == '\'' && forall j :: pos <= j < q ==> s[j] != '\''
    requires (LastQuote(s, q) - q) % 2 == 0
    ensures var e := LastQuote(s, q);
      Reading(s, pos, InLiteral) == Tag(s[pos..e], Literal) + (Tag([s[e]], Sep) + Reading(s, e + 1, Code))
  {
    hide Reading;
    hide LastQuote;
    var e := LastQuote(s, q);
    ClosingQuote(s, e);
    ReadingLiteral(s, pos, q);
    ReadingQuotes(s, q, e);
    JoinTags(s, pos, q, e, Literal, Reading(s, e, InLiteral));
  }

  lemma {:induction false} ClosingQuote(s: string, e: nat)
    requires e < |s| && s[e] == '\'' && (e + 1 < |s| ==> s[e + 1] != '\'')
    ensures Reading(s, e, InLiteral) == Tag([s[e]], Sep) + Reading(s, e + 1, Code)
  {
  }

  /** In an even run the reading takes the last quote for a part of the literal. */
  lemma {:induction false} EvenRun(s: string, pos: nat, q: nat)
    requires pos <= q < |s| && s[q] == '\'' && forall j :: pos <= j < q ==> s[j] != '\''
    requires (LastQuote(s, q) - q) % 2 == 1
    ensures Reading(s, pos, InLiteral)[LastQuote(s, q) - pos].kind == Literal
  {
    hide Reading;
    hide LastQuote;
    var e := LastQuote(s, q);
    ReadingLiteral(s, pos, q);
    ReadingQuotes(s, q, e + 1);
    JoinTags(s, pos, q, e + 1, Literal, Reading(s, e + 1, InLiteral));
  }

  lemma {:induction false} BlockDecided(s: string, pos: nat)
    requires Terminated(s) && pos < |s|
    ensures ShapeDecides(s, LexBlockComment, pos)
    decreases |s| - pos, 1
  {
    hide RunItems;
    hide Reading;
    var i := Index(s, pos, |s|, BLOCK_END);
    if i.None? {
      BlockStep(s, pos);
      assert Run(s, LexBlockComment, pos, pos) == Some([]);
    } else {
      SlashAt(s, i.value);
      BlockAgrees(s, pos, i.value);
    }
  }

  lemma {:induction false} BlockAgrees(s: string, pos: nat, e: nat)
    requires Terminated(s) && pos <= e && e + 2 < |s| && Index(s, pos, |s|, BLOCK_END) == Some(e)
    ensures Agrees(s, LexBlockComment, pos) <==>
            e + 5 <= |s| && e + 4 <= FirstMarker(s, e + 2) && WellShaped(s, e + 2, Code)
    decreases |s| - pos, 0
  {
    hide RunItems;
    hide Reading;
    hide WellShaped;
    hide FirstMarker;
    BlockStep(s, pos);
    BlockRead(s, pos, e);
    RunDecided(s, LexText, e + 2);
    GapDecided(s, e + 2);
    SameAfter(Run(s, LexBlockComment, pos, pos), Reading(s, pos, InBlock), Tag(s[pos..e], Comment), Tag(BLOCK_END, Sep),
              Run(s, LexText, e + 2, e + 4), Reading(s, e + 2, Code));
  }

  lemma {:induction false} BlockRead(s: string, pos: nat, e: nat)
    requires pos <= e && Matches(s, e, BLOCK_END) && forall j :: pos <= j < e ==> !Matches(s, j, BLOCK_END)
    ensures Reading(s, pos, InBlock) == Tag(s[pos..e], Comment) + (Tag(BLOCK_END, Sep) + Reading(s, e + 2, Code))
  {
    ReadingBlock(s, pos, e);
  }

  /** Text read on two bytes late: right exactly when three bytes are left and no marker starts
      in the first two. */
  lemma {:induction false} GapDecided(s: string, start: nat)
    requires Terminated(s) && 2 <= start < |s| && Matches(s, start - 2, BLOCK_END) && ShapeDecides(s, LexText, start)
    ensures Run(s, LexText, start, start + 2) == Some(Reading(s, start, Code))
       <==> start + 3 <= |s| && start + 2 <= FirstMarker(s, start) && WellShaped(s, start, Code)
  {
    hide RunItems;
    hide Reading;
    hide FirstMarker;
    var m := FirstMarker(s, start);
    if start + 2 > |s| {
      Overrun(s, start, start + 2);
    } else if start + 2 == |s| {
      NothingLate(s, start);
    } else if m < start + 2 {
      LateText(s, start);
      ReadingText(s, start, m);
      MarkerRead(s, m);
      assert Reading(s, start, Code)[m - start] == Reading(s, m, Code)[0];
    } else {
      SameMarker(s, start, start + 2);
      LateIsSame(s, start);
    }
  }

  lemma {:induction false} NothingLate(s: string, start: nat)
    requires start + 2 == |s|
    ensures Run(s, LexText, start, start + 2) != Some(Reading(s, start, Code))
  {
    TailStep(s, start, start + 2);
    hide RunItems;
    assert Tag(s[start..], Tail)[0].kind == Tail;
    assert Reading(s, start, Code)[0].kind != Tail;
  }

  lemma {:induction false} SameMarker(s: string, i: nat, j: nat)
    requires i <= j <= |s| && j <= FirstMarker(s, i)
    ensures FirstMarker(s, j) == FirstMarker(s, i)
    decreases j - i
  {
  }

  /** The two bytes that were passed over come out as text. */
  lemma {:induction false} LateText(s: string, start: nat)
    requires Terminated(s) && start + 2 < |s|
    ensures var r := Run(s, LexText, start, start + 2);
      r.Some? ==> |r.value| >= 2 && r.value[0].kind == r.value[1].kind == Text
  {
  }

  lemma {:induction false} LateIsSame(s: string, start: nat)
    requires Terminated(s) && start + 2 < |s| && FirstMarker(s, start + 2) == FirstMarker(s, start)
    ensures Run(s, LexText, start, start + 2) == Run(s, LexText, start, start)
  {
    hide Run;
    hide RestBytes;
    hide Tag;
    if FirstMarker(s, start) == |s| {
      TailStep(s, start, start + 2);
      TailStep(s, start, start);
    } else {
      TextStep(s, start, start + 2);
      TextStep(s, start, start);
    }
  }

  /** The lexer does not panic and classifies every byte as the reading does, if and only if
      the input is well shaped. */
  lemma {:induction false} LexerReadsWellShaped(s: string)
    requires Terminated(s)
    ensures var r := RunItems(s, LexText, 0, 0);
      (r.Some? && Bytes(r.value, false) == Reading(s, 0, Code)) <==> WellShaped(s, 0, Code)
  {
    hide RunItems;
    RunDecided(s, LexText, 0);
    assert ShapeDecides(s, LexText, 0);
    var r := RunItems(s, LexText, 0, 0);
    if r.Some? {
      assert Run(s, LexText, 0, 0) == Some(Bytes(r.value, false));
    }
  }
}
