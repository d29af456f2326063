/** What several modules share: a value that may be missing, ASCII letter case, and choosing from
    a list. */
module Basics {

  datatype Option<+T> = None | Some(value: T)

  function LowerChar(c: char): char {
    if 'A' <= c <= 'Z' then ((c as int) + 32) as char else c
  }

  function UpperChar(c: char): char {
    if 'a' <= c <= 'z' then ((c as int) - 32) as char else c
  }

  /** The two cases of a letter are each other's, and nothing else changes. */
  lemma LetterCase(i: nat, c: char)
    requires i < 26
    ensures LowerChar('A' + i as char) == 'a' + i as char && UpperChar('a' + i as char) == 'A' + i as char
    ensures c < 'A' || 'Z' < c ==> LowerChar(c) == c
    ensures c < 'a' || 'z' < c ==> UpperChar(c) == c
  {
  }

  /** idx lists, in ascending order, exactly the chosen ones of the first n indexes. */
  ghost predicate Picks(idx: seq<nat>, n: nat, chosen: nat -> bool) {
    && (forall j :: 0 <= j < |idx| ==> idx[j] < n && chosen(idx[j]))
    && (forall j, k :: 0 <= j < k < |idx| ==> idx[j] < idx[k])
    && (forall i :: 0 <= i < n && chosen(i) ==> i in idx)
  }

  lemma PickNext(idx: seq<nat>, n: nat, chosen: nat -> bool)
    requires Picks(idx, n, chosen)
    ensures Picks(idx + if chosen(n) then [n] else [], n + 1, chosen)
  {
    var more := idx + if chosen(n) then [n] else [];
    forall i | 0 <= i < n + 1 && chosen(i) ensures i in more {
      if i == n { assert more[|idx|] == n; } else { assert i in idx; }
    }
  }
}
