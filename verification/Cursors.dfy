/** The streaming loop of a function with cursor outputs: each open result set is read in
    batches, every batch is sent in the cursor's field of the output message, and the
    transaction is committed when all result sets are exhausted. */
module Cursors {

  type Row = string

  const BATCH := 1024

  /** A cursor output: a result set with its rows, where reading fails after them instead of
      ending, or no result set at all. */
  datatype Cursor = Closed | Open(rows: seq<Row>, fails: bool)

  datatype Error = Nil | Eof | ReadFailed | SendFailed

  /** One message: the cursor fields at the moment of sending, whether the send succeeded, and
      whether it carried the end of a result set. */
  datatype Message = Message(fields: seq<seq<Row>>, sent: bool, last: bool)

  function Rows(cur: Cursor): seq<Row> {
    if cur.Open? then cur.rows else []
  }

  predicate Fails(cur: Cursor) {
    cur.Open? && cur.fails
  }

  /** The rows of cursor c in the first n messages, in order. */
  function RowsSent(log: seq<Message>, n: nat, c: nat): seq<Row>
    requires n <= |log| && forall m :: 0 <= m < n ==> c < |log[m].fields|
  {
    if n == 0 then [] else RowsSent(log, n - 1, c) + log[n - 1].fields[c]
  }

  lemma {:induction false} RowsSentAppend(log: seq<Message>, m: Message, n: nat, c: nat)
    requires n <= |log| && forall i :: 0 <= i < n ==> c < |log[i].fields|
    ensures RowsSent(log + [m], n, c) == RowsSent(log, n, c)
  {
    if n > 0 { RowsSentAppend(log, m, n - 1, c); }
  }

  // ----- the schedule -----

  /** The k-th batch of cursor c. */
  datatype Turn = Turn(c: nat, k: nat)

  /** The number of full batches; the turn after them meets the end. */
  function Full(cur: Cursor): nat {
    |Rows(cur)| / BATCH
  }

  /** The rows that are left when k batches were read. */
  function Left(cur: Cursor, k: nat): seq<Row> {
    if k <= Full(cur) then Rows(cur)[k * BATCH..] else []
  }

  function Batch(cur: Cursor, k: nat): seq<Row> {
    var l := Left(cur, k);
    if |l| < BATCH then l else l[..BATCH]
  }

  predicate HasTurn(cur: Cursor, k: nat) {
    cur.Open? && k <= Full(cur)
  }

  /** The cursors from the c-th on that have a k-th turn, in order. */
  function Active(cursors: seq<Cursor>, k: nat, c: nat): seq<nat>
    requires c <= |cursors|
    decreases |cursors| - c
  {
    if c == |cursors| then [] else (if HasTurn(cursors[c], k) then [c] else []) + Active(cursors, k, c + 1)
  }

  function Turns(its: seq<nat>, k: nat): (r: seq<Turn>)
    ensures |r| == |its| && forall i :: 0 <= i < |its| ==> r[i] == Turn(its[i], k)
  {
    seq(|its|, i requires 0 <= i < |its| => Turn(its[i], k))
  }

  /** No cursor has a turn in this pass or later. */
  function Passes(cursors: seq<Cursor>): nat {
    if cursors == [] then 0
    else var n := Passes(cursors[1..]); if Full(cursors[0]) < n then n else Full(cursors[0]) + 1
  }

  /** All turns from pass k on when nothing fails: in each pass the cursors that are left. */
  function Plan(cursors: seq<Cursor>, k: nat): seq<Turn>
    decreases Passes(cursors) - k
  {
    if k >= Passes(cursors) then [] else Turns(Active(cursors, k, 0), k) + Plan(cursors, k + 1)
  }

  lemma {:induction false} PassesBound(cursors: seq<Cursor>, c: nat)
    requires c < |cursors|
    ensures Full(cursors[c]) < Passes(cursors)
    decreases |cursors|
  {
    hide Full;
    if c > 0 { PassesBound(cursors[1..], c - 1); }
  }

  /** Ascending cursors that all have a k-th turn. */
  ghost predicate InTurn(cursors: seq<Cursor>, its: seq<nat>, k: nat, from: nat) {
    && (forall i :: 0 <= i < |its| ==> from <= its[i] < |cursors| && HasTurn(cursors[its[i]], k))
    && (forall i, j :: 0 <= i < j < |its| ==> its[i] < its[j])
  }

  lemma {:induction false} ActiveInTurn(cursors: seq<Cursor>, k: nat, c: nat)
    requires c <= |cursors|
    ensures InTurn(cursors, Active(cursors, k, c), k, c)
    decreases |cursors| - c
  {
    hide HasTurn;
    hide InTurn;
    if c == |cursors| {
      NoneInTurn(cursors, k, c);
    } else {
      InTurnLater(cursors, Active(cursors, k, c + 1), k, c);
      ActiveInTurn(cursors, k, c + 1);
      if HasTurn(cursors[c], k) {
        InTurnCons(cursors, Active(cursors, k, c + 1), k, c);
      } else {
        assert [] + Active(cursors, k, c + 1) == Active(cursors, k, c + 1);
      }
    }
  }

  lemma {:induction false} NoneInTurn(cursors: seq<Cursor>, k: nat, c: nat)
    ensures InTurn(cursors, [], k, c)
  {
  }

  lemma {:induction false} InTurnLater(cursors: seq<Cursor>, its: seq<nat>, k: nat, c: nat)
    ensures InTurn(cursors, its, k, c + 1) ==> InTurn(cursors, its, k, c)
  {
  }

  lemma {:induction false} InTurnCons(cursors: seq<Cursor>, its: seq<nat>, k: nat, c: nat)
    requires InTurn(cursors, its, k, c + 1) && c < |cursors| && HasTurn(cursors[c], k)
    ensures InTurn(cursors, [c] + its, k, c)
  {
    var a := [c] + its;
    assert forall i :: 1 <= i < |a| ==> a[i] == its[i - 1];
  }

  lemma {:induction false} ActiveHas(cursors: seq<Cursor>, k: nat, c: nat, d: nat) returns (i: nat)
    requires c <= d < |cursors| && HasTurn(cursors[d], k)
    ensures i < |Active(cursors, k, c)| && Active(cursors, k, c)[i] == d
    decreases d - c
  {
    hide HasTurn;
    i := 0;
    if c < d {
      i := ActiveHas(cursors, k, c + 1, d);
      var rest := Active(cursors, k, c + 1);
      assert ([c] + rest)[i + 1] == rest[i] && ([] + rest)[i] == rest[i];
      if HasTurn(cursors[c], k) { i := i + 1; }
    }
  }

  /** Those of its that have a k-th turn. */
  function Keep(cursors: seq<Cursor>, its: seq<nat>, k: nat): seq<nat>
    requires forall i :: 0 <= i < |its| ==> its[i] < |cursors|
  {
    if its == [] then []
    else
      var last := its[|its| - 1];
      Keep(cursors, its[..|its| - 1], k) + if HasTurn(cursors[last], k) then [last] else []
  }

  lemma {:induction false} KeepNothing(cursors: seq<Cursor>, its: seq<nat>, k: nat)
    ensures Keep(cursors, its[..0], k) == []
  {
  }

  lemma {:induction false} KeepNext(cursors: seq<Cursor>, its: seq<nat>, k: nat, j: nat)
    requires j < |its| && forall i :: 0 <= i < |its| ==> its[i] < |cursors|
    ensures Keep(cursors, its[..j + 1], k) ==
            Keep(cursors, its[..j], k) + if HasTurn(cursors[its[j]], k) then [its[j]] else []
  {
    assert its[..j + 1][..j] == its[..j];
  }

  lemma {:induction false} KeepCons(cursors: seq<Cursor>, c: nat, its: seq<nat>, k: nat)
    requires c < |cursors| && forall i :: 0 <= i < |its| ==> its[i] < |cursors|
    ensures Keep(cursors, [c] + its, k) == (if HasTurn(cursors[c], k) then [c] else []) + Keep(cursors, its, k)
    decreases |its|
  {
    hide HasTurn;
    var all := [c] + its;
    if its == [] {
      assert all[..0] == [];
    } else {
      assert all[..|all| - 1] == [c] + its[..|its| - 1];
      KeepCons(cursors, c, its[..|its| - 1], k);
    }
  }

  /** The cursors left after pass k are those of pass k + 1. */
  lemma {:induction false} KeepActive(cursors: seq<Cursor>, k: nat, c: nat)
    requires c <= |cursors|
    ensures InTurn(cursors, Active(cursors, k, c), k, c)
    ensures Keep(cursors, Active(cursors, k, c), k + 1) == Active(cursors, k + 1, c)
    decreases |cursors| - c
  {
    hide HasTurn;
    ActiveInTurn(cursors, k, c);
    if c < |cursors| {
      KeepActive(cursors, k, c + 1);
      var rest, next := Active(cursors, k, c + 1), Active(cursors, k + 1, c + 1);
      assert [] + rest == rest && [] + next == next;
      if HasTurn(cursors[c], k) {
        KeepCons(cursors, c, rest, k + 1);
      } else {
        FewerTurns(cursors[c], k);
      }
    }
  }

  lemma {:induction false} FewerTurns(cur: Cursor, k: nat)
    ensures HasTurn(cur, k + 1) ==> HasTurn(cur, k)
  {
  }

  /** The message of turn t when it is the m-th. */
  function MessageOf(cursors: seq<Cursor>, network: nat -> bool, t: Turn, m: nat): Message
    requires t.c < |cursors|
  {
    var cur := cursors[t.c];
    Message(seq(|cursors|, d => if d == t.c then Batch(cur, t.k) else []), network(m), t.k == Full(cur) && !Fails(cur))
  }

  /** The log is that of the first turns of the plan. */
  ghost predicate Follows(cursors: seq<Cursor>, network: nat -> bool, log: seq<Message>, plan: seq<Turn>) {
    && |log| <= |plan|
    && forall m :: 0 <= m < |log| ==> plan[m].c < |cursors| && log[m] == MessageOf(cursors, network, plan[m], m)
  }

  /** The turn ends the run with an error: reading failed, or a batch that is not the last was
      not sent. */
  predicate Stops(cursors: seq<Cursor>, network: nat -> bool, t: Turn, m: nat)
    requires t.c < |cursors|
  {
    if t.k < Full(cursors[t.c]) then !network(m) else Fails(cursors[t.c])
  }

  // ----- the loop -----

  class Stream {
    const cursors: seq<Cursor>
    const network: nat -> bool
    var rest: seq<seq<Row>>
    var output: seq<seq<Row>>
    var log: seq<Message>
    var commits: nat

    constructor (cursors: seq<Cursor>, network: nat -> bool)
      ensures this.cursors == cursors && this.network == network
      ensures Valid() && Clear() && log == [] && commits == 0
      ensures forall c :: 0 <= c < |cursors| ==> rest[c] == Rows(cursors[c])
    {
      this.cursors, this.network := cursors, network;
      rest := seq(|cursors|, c requires 0 <= c < |cursors| => Rows(cursors[c]));
      output := seq(|cursors|, _ => []);
      log, commits := [], 0;
    }

    /** Rows are neither lost nor repeated: what was put in messages, in order, followed by what
        was not read yet is the result set; and a message was delivered if the network took it. */
    ghost predicate Valid()
      reads this`rest, this`output, this`log
    {
      |rest| == |output| == |cursors| && Conserves(rest, log)
    }

    ghost predicate Conserves(rest: seq<seq<Row>>, log: seq<Message>)
      requires |rest| == |cursors|
    {
      && (forall m :: 0 <= m < |log| ==> MessageOk(log[m]) && log[m].sent == network(m))
      && (forall c :: 0 <= c < |cursors| ==> RowsSent(log, |log|, c) + rest[c] == Rows(cursors[c]))
    }

    /** No message carries rows of two cursors, or more than a batch. */
    ghost predicate MessageOk(m: Message) {
      && |m.fields| == |cursors|
      && (forall c :: 0 <= c < |cursors| ==> |m.fields[c]| <= BATCH)
      && (forall c, d :: 0 <= c < d < |cursors| ==> m.fields[c] == [] || m.fields[d] == [])
    }

    ghost predicate Clear()
      reads this`output
      requires |output| == |cursors|
    {
      forall c :: 0 <= c < |cursors| ==> output[c] == []
    }

    /** Reads up to one batch of cursor c into its output field. */
    method Iterate(c: nat) returns (err: Error)
      requires |rest| == |output| == |cursors| && c < |cursors|
      modifies this`rest, this`output
      ensures |rest| == |output| == |cursors|
      ensures var n := if |old(rest)[c]| < BATCH then |old(rest)[c]| else BATCH;
        && output == old(output)[c := old(rest)[c][..n]]
        && rest == old(rest)[c := old(rest)[c][n..]]
        && err == if |old(rest)[c]| >= BATCH then Nil else if Fails(cursors[c]) then ReadFailed else Eof
    {
      var a := [];
      err := Nil;
      var i := 0;
      assert rest[c][0..] == rest[c];
      while i < BATCH && err == Nil
        invariant 0 <= i <= BATCH && i <= |old(rest)[c]|
        invariant output == old(output) && |rest| == |cursors|
        invariant a == old(rest)[c][..i] && rest == old(rest)[c := old(rest)[c][i..]]
        invariant err != Nil ==> i == |old(rest)[c]| < BATCH
        invariant err == Nil || err == if Fails(cursors[c]) then ReadFailed else Eof
        decreases BATCH - i, err == Nil
      {
        if rest[c] == [] {
          err := if Fails(cursors[c]) then ReadFailed else Eof;
        } else {
          a := a + [rest[c][0]];
          rest := rest[c := rest[c][1..]];
          i := i + 1;
        }
      }
      output := output[c := a];
    }

    method Send(last: bool) returns (err: Error)
      modifies this`log
      ensures log == old(log) + [Message(output, network(|old(log)|), last)]
      ensures err == if network(|old(log)|) then Nil else SendFailed
    {
      err := if network(|log|) then Nil else SendFailed;
      log := log + [Message(output, network(|log|), last)];
    }

    /** Cursor c is read, its batch is sent, its field is reset. A failed send counts only if
        reading went well. */
    method TakeTurn(c: nat, ghost k: nat) returns (err: Error)
      requires Valid() && Clear() && c < |cursors| && HasTurn(cursors[c], k) && rest[c] == Left(cursors[c], k)
      modifies this`rest, this`output, this`log
      ensures Valid() && Clear()
      ensures rest == old(rest)[c := Left(cursors[c], k + 1)]
      ensures log == old(log) + [MessageOf(cursors, network, Turn(c, k), |old(log)|)]
      ensures err == if k == Full(cursors[c]) then (if Fails(cursors[c]) then ReadFailed else Eof)
                     else if network(|old(log)|) then Nil else SendFailed
    {
      hide Left;
      hide Batch;
      hide Full;
      hide Conserves;
      hide Rows;
      hide Fails;
      NextLeft(cursors[c], k);
      ghost var before, empty, batch := log, output, Batch(cursors[c], k);
      err := Iterate(c);
      OneField(empty, c, batch);
      var sendErr := Send(err == Eof);
      if sendErr != Nil && err == Nil {
        err := sendErr;
      }
      output := output[c := []];
      ghost var m := MessageOf(cursors, network, Turn(c, k), |before|);
      assert log == before + [m];
      Conserved(before, m, old(rest), rest, c, batch);
    }

    lemma {:induction false} Conserved(before: seq<Message>, m: Message, r: seq<seq<Row>>, r': seq<seq<Row>>, c: nat,
                                       batch: seq<Row>)
      requires |r| == |cursors| && c < |cursors| && Conserves(r, before)
      requires m.fields == seq(|cursors|, d => if d == c then batch else []) && m.sent == network(|before|)
      requires |batch| <= BATCH && |batch| <= |r[c]| && batch == r[c][..|batch|] && r' == r[c := r[c][|batch|..]]
      ensures Conserves(r', before + [m])
    {
      hide RowsSent;
      hide Rows;
      assert forall i :: 0 <= i < |before| ==> |before[i].fields| == |cursors|;
      OneFieldOk(m, c, batch);
      hide MessageOk;
      var log := before + [m];
      forall d | 0 <= d < |cursors| ensures RowsSent(log, |log|, d) + r'[d] == Rows(cursors[d]) {
        assert m.fields[d] + r'[d] == r[d];
        RowConserved(before, m, r[d], r'[d], d);
      }
    }

    lemma {:induction false} OneFieldOk(m: Message, c: nat, batch: seq<Row>)
      requires c < |cursors| && |batch| <= BATCH && m.fields == seq(|cursors|, d => if d == c then batch else [])
      ensures MessageOk(m)
    {
    }

    lemma {:induction false} RowConserved(before: seq<Message>, m: Message, r: seq<Row>, r': seq<Row>, d: nat)
      requires d < |m.fields| && forall i :: 0 <= i < |before| ==> d < |before[i].fields|
      requires m.fields[d] + r' == r
      ensures RowsSent(before + [m], |before| + 1, d) + r' == RowsSent(before, |before|, d) + r
    {
      RowsSentAppend(before, m, |before|, d);
    }

    /** The iterators of the open result sets. */
    method Iterators() returns (its: seq<nat>)
      ensures its == Active(cursors, 0, 0)
    {
      its := [];
      for c := 0 to |cursors|
        invariant its + Active(cursors, 0, c) == Active(cursors, 0, 0)
      {
        if cursors[c].Open? {
          its := its + [c];
        }
      }
    }

    /** The run is in pass k, which goes over its, at cursor number j of them; nothing stopped it. */
    ghost predicate At(its: seq<nat>, k: nat, j: nat)
      reads this`rest, this`output, this`log, this`commits
    {
      && Valid() && Clear() && commits == 0 && its == Active(cursors, k, 0) && j <= |its|
      && RestAt(cursors, rest, its, k, j) && LogAt(cursors, network, log, its, k, j)
    }

    /** One turn of pass k. */
    method Step(its: seq<nat>, ghost k: nat, j: nat) returns (err: Error)
      requires At(its, k, j) && j < |its|
      modifies this`rest, this`output, this`log
      ensures Valid() && Clear()
      ensures err == Nil || err == Eof ==> At(its, k, j + 1) && its[j] < |cursors|
      ensures err == Nil || err == Eof ==> (err == Nil <==> HasTurn(cursors[its[j]], k + 1))
      ensures err != Nil && err != Eof ==> StoppedBy(cursors, network, log, err)
    {
      hide RestAt;
      hide LogAt;
      hide Follows;
      hide Left;
      hide MessageOf;
      hide Conserves;
      hide Plan;
      hide Full;
      hide Active;
      var c := its[j];
      ghost var rest0, log0 := rest, log;
      ActiveInTurn(cursors, k, 0);
      RestStep(cursors, rest0, its, k, j);
      LogStep(cursors, network, log0, its, k, j);
      hide InTurn;
      err := TakeTurn(c, k);
      assert RestAt(cursors, rest, its, k, j + 1);
      assert Stops(cursors, network, Turn(c, k), |log0|) <==> err != Nil && err != Eof;
    }

    /** One pass over the iterators; its2 are those that still have a turn. */
    method Pass(its: seq<nat>, ghost k: nat) returns (its2: seq<nat>, err: Error)
      requires At(its, k, 0)
      modifies this`rest, this`output, this`log
      ensures Valid() && Clear()
      ensures if err == Nil then At(its2, k + 1, 0) else StoppedBy(cursors, network, log, err)
    {
      ActiveInTurn(cursors, k, 0);
      assert forall i :: 0 <= i < |its| ==> its[i] < |cursors|;
      hide InTurn;
      hide Keep;
      hide Clear;
      hide RestAt;
      hide LogAt;
      hide Conserves;
      hide Plan;
      hide Follows;
      hide HasTurn;
      hide Active;
      hide StoppedBy;
      hide Left;
      its2, err := [], Nil;
      KeepNothing(cursors, its, k + 1);
      for j := 0 to |its|
        invariant At(its, k, j) && its2 == Keep(cursors, its[..j], k + 1)
      {
        err := Step(its, k, j);
        KeepNext(cursors, its, k + 1, j);
        if err == Nil {
          its2 := its2 + [its[j]];
        } else if err != Eof {
          return;
        }
      }
      err := Nil;
      assert its[..|its|] == its;
      KeepActive(cursors, k, 0);
      NextPass(cursors, network, rest, log, its, k);
    }

    /** Without result sets the output is sent once. */
    method SendAlone() returns (err: Error)
      requires Valid() && Clear() && log == [] && commits == 0
      modifies this`log, this`commits
      ensures Valid() && Clear() && log == [Message(output, network(0), false)]
      ensures err == (if network(0) then Nil else SendFailed) && commits == if err == Nil then 1 else 0
    {
      ghost var m := Message(output, network(0), false);
      err := Send(false);
      if err == Nil {
        commits := commits + 1;
      }
      forall d | 0 <= d < |cursors| ensures RowsSent(log, |log|, d) + rest[d] == Rows(cursors[d]) {
        assert RowsSent(log, 1, d) == RowsSent(log, 0, d) + output[d];
      }
    }

    /** The run ends. It commits, once, if no turn of the plan stops it, and then its messages
        are those of the whole plan. */
    method Run() returns (err: Error)
      requires Valid() && Clear() && log == [] && commits == 0
      modifies this`rest, this`output, this`log, this`commits
      ensures Valid() && Clear() && commits == if err == Nil then 1 else 0
      ensures Active(cursors, 0, 0) == [] ==>
        log == [Message(output, network(0), false)] && err == if network(0) then Nil else SendFailed
      ensures Active(cursors, 0, 0) != [] ==>
        if err == Nil then Finished(cursors, network, log) else StoppedBy(cursors, network, log, err)
      ensures err == Nil ==> forall c :: 0 <= c < |cursors| ==> rest[c] == []
    {
      hide RestAt;
      hide LogAt;
      hide Plan;
      hide Follows;
      hide HasTurn;
      hide Active;
      hide StoppedBy;
      hide Left;
      hide Finished;
      var its := Iterators();
      forall c | 0 <= c < |cursors| ensures rest[c] == Rows(cursors[c]) {
        assert RowsSent(log, 0, c) + rest[c] == rest[c];
      }
      if |its| == 0 {
        forall c | 0 <= c < |cursors| ensures rest[c] == [] { NothingOpen(cursors, c); }
        err := SendAlone();
        return;
      }
      FirstPass(cursors, network, rest, its);
      ghost var k := 0;
      while true
        invariant At(its, k, 0) && its != []
        decreases Passes(cursors) - k
      {
        var its2;
        its2, err := Pass(its, k);
        if err != Nil {
          return;
        }
        FewerPasses(cursors, its, k);
        if |its2| == 0 {
          AllPassed(cursors, network, rest, log, k + 1);
          commits := commits + 1;
          return;
        }
        its, k := its2, k + 1;
      }
    }
  }

  /** The last message is that of a turn of the plan that stopped the run. */
  ghost predicate StoppedBy(cursors: seq<Cursor>, network: nat -> bool, log: seq<Message>, err: Error) {
    && 0 < |log| && Follows(cursors, network, log, Plan(cursors, 0))
    && var t := Plan(cursors, 0)[|log| - 1];
       && Stops(cursors, network, t, |log| - 1)
       && err == if t.k < Full(cursors[t.c]) then SendFailed else ReadFailed
  }

  /** The log is that of the whole plan, and no turn of it stops the run. */
  ghost predicate Finished(cursors: seq<Cursor>, network: nat -> bool, log: seq<Message>) {
    && |log| == |Plan(cursors, 0)| && Follows(cursors, network, log, Plan(cursors, 0))
    && forall m :: 0 <= m < |log| ==> !Stops(cursors, network, Plan(cursors, 0)[m], m)
  }

  lemma {:induction false} PlanPass(cursors: seq<Cursor>, k: nat)
    ensures Plan(cursors, k) == Turns(Active(cursors, k, 0), k) + Plan(cursors, k + 1)
  {
    if k >= Passes(cursors) {
      var its := Active(cursors, k, 0);
      ActiveInTurn(cursors, k, 0);
      if its != [] { PassesBound(cursors, its[0]); }
      assert [] + Plan(cursors, k + 1) == [];
    }
  }

  lemma {:induction false} PlanEnds(cursors: seq<Cursor>, k: nat)
    requires Active(cursors, k, 0) == []
    ensures Plan(cursors, k) == []
    decreases Passes(cursors) - k
  {
    if k < Passes(cursors) {
      KeepActive(cursors, k, 0);
      PlanEnds(cursors, k + 1);
    }
  }

  lemma {:induction false} FewerPasses(cursors: seq<Cursor>, its: seq<nat>, k: nat)
    requires its == Active(cursors, k, 0) && its != []
    ensures k < Passes(cursors)
  {
    ActiveInTurn(cursors, k, 0);
    PassesBound(cursors, its[0]);
  }

  lemma {:induction false} NothingOpen(cursors: seq<Cursor>, c: nat)
    requires Active(cursors, 0, 0) == [] && c < |cursors|
    ensures Rows(cursors[c]) == []
  {
    if cursors[c].Open? {
      var i := ActiveHas(cursors, 0, 0, c);
      assert false;
    }
  }

  lemma {:induction false} AllPassed(cursors: seq<Cursor>, network: nat -> bool, rest: seq<seq<Row>>,
                                     log: seq<Message>, k: nat)
    requires Active(cursors, k, 0) == [] && k > 0
    requires RestAt(cursors, rest, [], k, 0) && LogAt(cursors, network, log, [], k, 0)
    ensures Finished(cursors, network, log) && forall c :: 0 <= c < |cursors| ==> rest[c] == []
  {
    forall c | 0 <= c < |cursors| ensures rest[c] == [] {
      NoTurnLeft(cursors, k, c);
    }
    PlanEnds(cursors, k);
    PlanPass(cursors, k);
    var plan := Plan(cursors, 0);
    assert plan[|log|..] == [];
  }

  lemma {:induction false} FirstPass(cursors: seq<Cursor>, network: nat -> bool, rest: seq<seq<Row>>, its: seq<nat>)
    requires |rest| == |cursors| && forall c :: 0 <= c < |cursors| ==> rest[c] == Rows(cursors[c])
    requires its == Active(cursors, 0, 0)
    ensures RestAt(cursors, rest, its, 0, 0) && LogAt(cursors, network, [], its, 0, 0)
  {
    PlanPass(cursors, 0);
    assert its[0..] == its;
    assert Plan(cursors, 0)[0..] == Plan(cursors, 0);
  }

  lemma {:induction false} NextPass(cursors: seq<Cursor>, network: nat -> bool, rest: seq<seq<Row>>, log: seq<Message>,
                                    its: seq<nat>, k: nat)
    requires its == Active(cursors, k, 0)
    requires RestAt(cursors, rest, its, k, |its|) && LogAt(cursors, network, log, its, k, |its|)
    ensures RestAt(cursors, rest, Active(cursors, k + 1, 0), k + 1, 0)
    ensures LogAt(cursors, network, log, Active(cursors, k + 1, 0), k + 1, 0)
  {
    forall c | 0 <= c < |cursors| ensures rest[c] == Left(cursors[c], k + 1) {
      if |its| > 0 && c > its[|its| - 1] { NoTurnAfter(cursors, its, k, c); }
      if |its| == 0 { NoTurnAfter(cursors, its, k, c); }
    }
    var next := Active(cursors, k + 1, 0);
    PlanPass(cursors, k + 1);
    assert its[|its|..] == [] && next[0..] == next;
    assert Turns([], k) + Plan(cursors, k + 1) == Plan(cursors, k + 1);
  }

  lemma {:induction false} NoTurnLeft(cursors: seq<Cursor>, k: nat, c: nat)
    requires Active(cursors, k, 0) == [] && c < |cursors| && k > 0
    ensures Left(cursors[c], k) == []
  {
    if HasTurn(cursors[c], k) {
      var i := ActiveHas(cursors, k, 0, c);
      assert false;
    }
  }

  lemma {:induction false} NoTurnAfter(cursors: seq<Cursor>, its: seq<nat>, k: nat, c: nat)
    requires its == Active(cursors, k, 0) && c < |cursors| && (its != [] ==> its[|its| - 1] < c)
    ensures Left(cursors[c], k) == Left(cursors[c], k + 1)
  {
    ActiveInTurn(cursors, k, 0);
    if HasTurn(cursors[c], k) {
      var i := ActiveHas(cursors, k, 0, c);
      assert false;
    }
  }

  /** In pass k the cursors up to its[j - 1] have been read once more. */
  ghost predicate RestAt(cursors: seq<Cursor>, rest: seq<seq<Row>>, its: seq<nat>, k: nat, j: nat)
    requires j <= |its|
  {
    && |rest| == |cursors|
    && forall c :: 0 <= c < |cursors| ==> rest[c] == Left(cursors[c], if j > 0 && c <= its[j - 1] then k + 1 else k)
  }

  ghost predicate LogAt(cursors: seq<Cursor>, network: nat -> bool, log: seq<Message>, its: seq<nat>, k: nat, j: nat)
    requires j <= |its|
  {
    && Follows(cursors, network, log, Plan(cursors, 0))
    && Plan(cursors, 0)[|log|..] == Turns(its[j..], k) + Plan(cursors, k + 1)
    && forall m :: 0 <= m < |log| ==> !Stops(cursors, network, Plan(cursors, 0)[m], m)
  }

  lemma {:induction false} RestStep(cursors: seq<Cursor>, rest: seq<seq<Row>>, its: seq<nat>, k: nat, j: nat)
    requires its == Active(cursors, k, 0) && InTurn(cursors, its, k, 0) && j < |its| && RestAt(cursors, rest, its, k, j)
    ensures rest[its[j]] == Left(cursors[its[j]], k)
    ensures RestAt(cursors, rest[its[j] := Left(cursors[its[j]], k + 1)], its, k, j + 1)
  {
    hide Left;
    hide HasTurn;
    hide Active;
    forall c | 0 <= c < |cursors| && c < its[j] && (j > 0 ==> its[j - 1] < c)
      ensures Left(cursors[c], k) == Left(cursors[c], k + 1)
    {
      NoTurnBetween(cursors, its, k, j, c);
    }
  }

  lemma {:induction false} NoTurnBetween(cursors: seq<Cursor>, its: seq<nat>, k: nat, j: nat, c: nat)
    requires its == Active(cursors, k, 0) && InTurn(cursors, its, k, 0) && j < |its|
    requires c < |cursors| && c < its[j] && (j > 0 ==> its[j - 1] < c)
    ensures Left(cursors[c], k) == Left(cursors[c], k + 1)
  {
    if HasTurn(cursors[c], k) {
      var i := ActiveHas(cursors, k, 0, c);
      NotBetween(its, j, c, i);
      assert false;
    }
  }

  lemma {:induction false} NotBetween(its: seq<nat>, j: nat, c: nat, i: nat)
    requires forall x, y :: 0 <= x < y < |its| ==> its[x] < its[y]
    requires j < |its| && i < |its| && c < its[j] && (j > 0 ==> its[j - 1] < c)
    ensures its[i] != c
  {
    if i < j { assert i < j - 1 ==> its[i] < its[j - 1]; }
  }

  lemma {:induction false} LogStep(cursors: seq<Cursor>, network: nat -> bool, log: seq<Message>, its: seq<nat>,
                                   k: nat, j: nat)
    requires j < |its| && its[j] < |cursors| && LogAt(cursors, network, log, its, k, j)
    ensures var plan, t := Plan(cursors, 0), Turn(its[j], k);
      var more := log + [MessageOf(cursors, network, t, |log|)];
      && |log| < |plan| && plan[|log|] == t && Follows(cursors, network, more, plan)
      && (!Stops(cursors, network, t, |log|) ==> LogAt(cursors, network, more, its, k, j + 1))
  {
    hide Plan;
    hide Stops;
    hide MessageOf;
    var plan, later := Plan(cursors, 0), Turns(its[j..], k);
    assert plan[|log|..][0] == later[0] == Turn(its[j], k);
    assert plan[|log| + 1..] == plan[|log|..][1..];
    assert later[1..] == Turns(its[j + 1..], k);
    assert (later + Plan(cursors, k + 1))[1..] == later[1..] + Plan(cursors, k + 1);
  }

  lemma {:induction false} OneField(empty: seq<seq<Row>>, c: nat, batch: seq<Row>)
    requires c < |empty| && forall d :: 0 <= d < |empty| ==> empty[d] == []
    ensures empty[c := batch] == seq(|empty|, d => if d == c then batch else [])
  {
  }

  lemma {:induction false} NextLeft(cur: Cursor, k: nat)
    requires k <= Full(cur)
    ensures |Left(cur, k)| >= BATCH <==> k < Full(cur)
    ensures |Batch(cur, k)| <= BATCH && |Batch(cur, k)| <= |Left(cur, k)|
    ensures Batch(cur, k) == Left(cur, k)[..|Batch(cur, k)|]
    ensures |Batch(cur, k)| == if |Left(cur, k)| < BATCH then |Left(cur, k)| else BATCH
    ensures Left(cur, k + 1) == Left(cur, k)[|Batch(cur, k)|..]
  {
    var n := |Rows(cur)|;
    assert n == Full(cur) * BATCH + n % BATCH;
    assert |Left(cur, k)| == n - k * BATCH;
    if k < Full(cur) {
      assert Rows(cur)[k * BATCH..][BATCH..] == Rows(cur)[(k + 1) * BATCH..];
    }
  }

  // ----- what a run delivers -----

  /** The rows of cursor c in the messages whose send succeeded. */
  function RowsDelivered(log: seq<Message>, n: nat, c: nat): seq<Row>
    requires n <= |log| && forall m :: 0 <= m < n ==> c < |log[m].fields|
  {
    if n == 0 then [] else RowsDelivered(log, n - 1, c) + if log[n - 1].sent then log[n - 1].fields[c] else []
  }

  lemma {:induction false} DeliveredIsSent(log: seq<Message>, n: nat, c: nat)
    requires n <= |log| && forall m :: 0 <= m < n ==> c < |log[m].fields|
    ensures |RowsDelivered(log, n, c)| <= |RowsSent(log, n, c)|
    ensures |RowsDelivered(log, n, c)| == |RowsSent(log, n, c)| ==> RowsDelivered(log, n, c) == RowsSent(log, n, c)
    ensures RowsDelivered(log, n, c) == RowsSent(log, n, c)
            <==> forall m :: 0 <= m < n ==> log[m].sent || log[m].fields[c] == []
  {
    if n > 0 { DeliveredIsSent(log, n - 1, c); }
  }

  /** The place of a turn, the number of sends before it; the length of the plan if it is not there. */
  function IndexOf(plan: seq<Turn>, t: Turn): (m: nat)
    ensures m <= |plan| && (m < |plan| ==> plan[m] == t)
  {
    if plan == [] || plan[0] == t then 0 else 1 + IndexOf(plan[1..], t)
  }

  /** The number of the send that carries the end of cursor c. */
  function LastSend(cursors: seq<Cursor>, c: nat): nat
    requires c < |cursors|
  {
    IndexOf(Plan(cursors, 0), Turn(c, Full(cursors[c])))
  }

  lemma {:induction false} PlannedFrom(cursors: seq<Cursor>, k: nat, m: nat)
    requires m < |Plan(cursors, k)|
    ensures var t := Plan(cursors, k)[m]; k <= t.k && t.c < |cursors| && HasTurn(cursors[t.c], t.k)
    decreases Passes(cursors) - k
  {
    hide HasTurn;
    var its := Active(cursors, k, 0);
    ActiveInTurn(cursors, k, 0);
    if m >= |its| { PlannedFrom(cursors, k + 1, m - |its|); }
  }

  /** No turn is planned twice. */
  lemma {:induction false} PlannedOnce(cursors: seq<Cursor>, k: nat, m: nat, n: nat)
    requires m < n < |Plan(cursors, k)|
    ensures Plan(cursors, k)[m] != Plan(cursors, k)[n]
    decreases Passes(cursors) - k
  {
    hide HasTurn;
    var its := Active(cursors, k, 0);
    ActiveInTurn(cursors, k, 0);
    if m >= |its| {
      PlannedOnce(cursors, k + 1, m - |its|, n - |its|);
    } else if n >= |its| {
      PlannedFrom(cursors, k + 1, n - |its|);
    }
  }

  /** Every turn that a cursor has is planned. */
  lemma {:induction false} IsPlanned(cursors: seq<Cursor>, k: nat, t: Turn) returns (m: nat)
    requires k <= t.k && t.c < |cursors| && HasTurn(cursors[t.c], t.k)
    ensures m < |Plan(cursors, k)| && Plan(cursors, k)[m] == t
    decreases t.k - k
  {
    PassesBound(cursors, t.c);
    PlanPass(cursors, k);
    var its := Active(cursors, k, 0);
    if t.k == k {
      m := ActiveHas(cursors, k, 0, t.c);
    } else {
      m := IsPlanned(cursors, k + 1, t);
      m := m + |its|;
    }
  }

  lemma {:induction false} IndexIsOnly(plan: seq<Turn>, m: nat)
    requires m < |plan| && forall i :: 0 <= i < m ==> plan[i] != plan[m]
    ensures IndexOf(plan, plan[m]) == m
    decreases m
  {
    if m > 0 {
      assert plan[1..][m - 1] == plan[m];
      assert forall i :: 0 <= i < m - 1 ==> plan[1..][i] == plan[i + 1];
      IndexIsOnly(plan[1..], m - 1);
    }
  }

  lemma {:induction false} LastIsPlanned(cursors: seq<Cursor>, c: nat, m: nat)
    requires c < |cursors| && cursors[c].Open?
    ensures var plan, t := Plan(cursors, 0), Turn(c, Full(cursors[c]));
      && LastSend(cursors, c) < |plan| && plan[LastSend(cursors, c)] == t
      && (m < |plan| && plan[m] == t ==> m == LastSend(cursors, c))
  {
    hide Plan;
    var t := Turn(c, Full(cursors[c]));
    var p := IsPlanned(cursors, 0, t);
    var plan := Plan(cursors, 0);
    forall i | 0 <= i < p ensures plan[i] != plan[p] { PlannedOnce(cursors, 0, i, p); }
    IndexIsOnly(plan, p);
    forall i | p < i < |plan| ensures plan[i] != plan[p] { PlannedOnce(cursors, 0, p, i); }
  }

  /** A committed run delivers cursor c completely, each row once and in order, if and only if
      no rows are left for its last send, or that send succeeds. */
  lemma {:induction false} CommittedDelivery(cursors: seq<Cursor>, network: nat -> bool, log: seq<Message>, c: nat)
    requires Finished(cursors, network, log) && c < |cursors|
    requires forall m :: 0 <= m < |log| ==> |log[m].fields| == |cursors|
    requires RowsSent(log, |log|, c) == Rows(cursors[c])
    ensures RowsDelivered(log, |log|, c) == Rows(cursors[c])
       <==> |Rows(cursors[c])| % BATCH == 0 || network(LastSend(cursors, c))
  {
    hide Plan;
    var plan, cur := Plan(cursors, 0), cursors[c];
    DeliveredIsSent(log, |log|, c);
    forall m | 0 <= m < |log|
      ensures log[m].sent || log[m].fields[c] == [] ||
              (cur.Open? && plan[m] == Turn(c, Full(cur)) && |Rows(cur)| % BATCH != 0)
    {
      PlannedFrom(cursors, 0, m);
      LastBatch(cur);
    }
    if cur.Open? {
      var p := LastSend(cursors, c);
      LastIsPlanned(cursors, c, p);
      LastBatch(cur);
      forall m | 0 <= m < |log| && plan[m] == Turn(c, Full(cur)) ensures m == p {
        LastIsPlanned(cursors, c, m);
      }
      assert log[p] == MessageOf(cursors, network, Turn(c, Full(cur)), p);
    }
  }

  lemma {:induction false} LastBatch(cur: Cursor)
    ensures Batch(cur, Full(cur)) == [] <==> |Rows(cur)| % BATCH == 0
  {
    var n := |Rows(cur)|;
    assert n == Full(cur) * BATCH + n % BATCH;
  }

  /** The condition for a commit, on the result sets and the network alone: no result set fails,
      and the network takes every batch that is not the last of its result set. */
  ghost predicate Commits(cursors: seq<Cursor>, network: nat -> bool) {
    if Active(cursors, 0, 0) == [] then network(0)
    else forall m :: 0 <= m < |Plan(cursors, 0)| && Plan(cursors, 0)[m].c < |cursors| ==>
      !Stops(cursors, network, Plan(cursors, 0)[m], m)
  }

  predicate Complete(s: seq<Message>, c: nat, cur: Cursor)
    requires forall m :: 0 <= m < |s| ==> c < |s[m].fields|
  {
    match cur
    case Closed => RowsDelivered(s, |s|, c) == []
    case Open(rows, _) => RowsDelivered(s, |s|, c) == rows
  }

  /** A whole run, from the opened result sets. */
  method StreamAll(cursors: seq<Cursor>, network: nat -> bool) returns (s: Stream, err: Error)
    ensures s.cursors == cursors && forall m :: 0 <= m < |s.log| ==> |s.log[m].fields| == |cursors|
    ensures (err == Nil <==> Commits(cursors, network)) && s.commits == if err == Nil then 1 else 0
    ensures err == Nil ==> forall c :: 0 <= c < |cursors| ==>
      (Complete(s.log, c, cursors[c]) <==> |Rows(cursors[c])| % 1024 == 0 || network(LastSend(cursors, c)))
    ensures (exists c :: 0 <= c < |cursors| && cursors[c].Open? && cursors[c].fails) ==> err != Nil
  {
    hide Plan;
    hide Active;
    hide Commits;
    hide Complete;
    hide LastSend;
    hide StoppedBy;
    hide Finished;
    s := new Stream(cursors, network);
    err := s.Run();
    FailingStops(cursors, network);
    assert forall m :: 0 <= m < |s.log| ==> s.MessageOk(s.log[m]);
    if Active(cursors, 0, 0) == [] {
      NothingSent(cursors, network, s.log);
    } else if err == Nil {
      FinishedCommits(cursors, network, s.log);
      forall c | 0 <= c < |cursors|
        ensures Complete(s.log, c, cursors[c]) <==> |Rows(cursors[c])| % BATCH == 0 || network(LastSend(cursors, c))
      {
        assert RowsSent(s.log, |s.log|, c) + [] == RowsSent(s.log, |s.log|, c);
        IsComplete(cursors, network, s.log, c);
      }
    } else {
      StoppedDoesNotCommit(cursors, network, s.log, err);
    }
  }

  lemma {:induction false} FailingStops(cursors: seq<Cursor>, network: nat -> bool)
    ensures (exists c :: 0 <= c < |cursors| && cursors[c].Open? && cursors[c].fails) ==> !Commits(cursors, network)
  {
    hide Plan;
    if c: nat :| c < |cursors| && cursors[c].Open? && cursors[c].fails {
      var t := Turn(c, Full(cursors[c]));
      var m := IsPlanned(cursors, 0, t);
      assert Stops(cursors, network, t, m);
      var i := ActiveHas(cursors, 0, 0, c);
    }
  }

  lemma {:induction false} NothingSent(cursors: seq<Cursor>, network: nat -> bool, log: seq<Message>)
    requires Active(cursors, 0, 0) == [] && |log| == 1 && |log[0].fields| == |cursors|
    requires forall c :: 0 <= c < |cursors| ==> log[0].fields[c] == []
    ensures Commits(cursors, network) <==> network(0)
    ensures forall c :: 0 <= c < |cursors| ==> Complete(log, c, cursors[c]) && |Rows(cursors[c])| % BATCH == 0
  {
    forall c | 0 <= c < |cursors| ensures Complete(log, c, cursors[c]) && |Rows(cursors[c])| % BATCH == 0 {
      NothingOpen(cursors, c);
      assert RowsDelivered(log, 0, c) == [] && log[0].fields[c] == [];
    }
  }

  lemma {:induction false} FinishedCommits(cursors: seq<Cursor>, network: nat -> bool, log: seq<Message>)
    requires Active(cursors, 0, 0) != [] && Finished(cursors, network, log)
    ensures Commits(cursors, network)
  {
  }

  lemma {:induction false} StoppedDoesNotCommit(cursors: seq<Cursor>, network: nat -> bool, log: seq<Message>,
                                                err: Error)
    requires Active(cursors, 0, 0) != [] && StoppedBy(cursors, network, log, err)
    ensures !Commits(cursors, network)
  {
  }

  lemma {:induction false} IsComplete(cursors: seq<Cursor>, network: nat -> bool, log: seq<Message>, c: nat)
    requires Finished(cursors, network, log) && c < |cursors|
    requires forall m :: 0 <= m < |log| ==> |log[m].fields| == |cursors|
    requires RowsSent(log, |log|, c) == Rows(cursors[c])
    ensures Complete(log, c, cursors[c]) <==> |Rows(cursors[c])| % BATCH == 0 || network(LastSend(cursors, c))
  {
    CommittedDelivery(cursors, network, log, c);
  }

  /** When all sends succeed and no result set fails there is one commit, and every cursor is
      delivered completely. */
  method StreamOverGoodNetwork(cursors: seq<Cursor>, network: nat -> bool) returns (s: Stream, err: Error)
    requires (forall m :: network(m)) && forall c :: 0 <= c < |cursors| && cursors[c].Open? ==> !cursors[c].fails
    ensures s.cursors == cursors && forall m :: 0 <= m < |s.log| ==> |s.log[m].fields| == |cursors|
    ensures err == Nil && s.commits == 1 && forall c :: 0 <= c < |cursors| ==> Complete(s.log, c, cursors[c])
  {
    s, err := StreamAll(cursors, network);
  }

  /** One row, and a network that takes nothing: the run commits and delivers nothing. */
  method LostRow() returns (s: Stream, err: Error)
    ensures s.cursors == [Open(["row"], false)] && |s.log| == 1 && |s.log[0].fields| == 1
    ensures err == Nil && s.commits == 1 && s.log[0].fields[0] == ["row"] && RowsDelivered(s.log, 1, 0) == []
  {
    s := new Stream([Open(["row"], false)], _ => false);
    err := s.Run();
    assert s.rest[0] == [] && RowsSent(s.log, 0, 0) == [];
    assert RowsSent(s.log, 1, 0) == s.log[0].fields[0] && s.log[0].fields[0] + [] == s.log[0].fields[0];
  }
}
