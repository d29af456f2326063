/** Name allocation: a dotted path gets a short PL/SQL identifier, at most 30 bytes long. */
module Names {

  const MAX_NAME := 30

  // ----- %03d -----

  function Digit(d: nat): char
    requires d < 10
  {
    '0' + d as char
  }

  function Digits(n: nat): (s: string)
    ensures s != "" && forall i :: 0 <= i < |s| ==> '0' <= s[i] <= '9'
  {
    if n < 10 then [Digit(n)] else Digits(n / 10) + [Digit(n % 10)]
  }

  function Pad3(n: nat): (s: string)
    ensures s != "" && forall i :: 0 <= i < |s| ==> '0' <= s[i] <= '9'
  {
    if n < 10 then "00" + Digits(n) else if n < 100 then "0" + Digits(n) else Digits(n)
  }

  function ValueOf(s: string): int {
    if s == "" then 0 else 10 * ValueOf(s[..|s| - 1]) + (s[|s| - 1] as int - '0' as int)
  }

  lemma {:induction false} ValueOfDigits(n: nat)
    ensures ValueOf(Digits(n)) == n
  {
    if n < 10 {
      assert Digits(n)[..0] == "";
    } else {
      ValueOfDigits(n / 10);
      assert Digits(n)[..|Digits(n)| - 1] == Digits(n / 10);
    }
  }

  lemma {:induction false} ValueOfZero(s: string)
    ensures ValueOf("0" + s) == ValueOf(s)
  {
    var t := "0" + s;
    if s == "" {
      assert t[..0] == "";
    } else {
      assert t[..|t| - 1] == "0" + s[..|s| - 1];
      ValueOfZero(s[..|s| - 1]);
    }
  }

  /** The decimal digits of the number, with zeros in front up to three places and no more. */
  lemma Pad3Shape(n: nat)
    ensures ValueOf(Pad3(n)) == n && |Pad3(n)| >= 3 && (|Pad3(n)| > 3 ==> Pad3(n)[0] != '0')
    ensures forall i :: 0 <= i < |Pad3(n)| ==> '0' <= Pad3(n)[i] <= '9'
  {
    ValueOfDigits(n);
    ValueOfZero(Digits(n));
    ValueOfZero("0" + Digits(n));
    assert "0" + ("0" + Digits(n)) == "00" + Digits(n);
    NoLeadingZero(n);
    if n >= 10 { assert |Digits(n / 10)| >= 1; }
    if n >= 100 { assert |Digits(n / 10 / 10)| >= 1; }
  }

  lemma {:induction false} NoLeadingZero(n: nat)
    ensures n > 0 ==> Digits(n)[0] != '0'
    ensures n < 10 ==> |Digits(n)| == 1
    ensures 10 <= n < 100 ==> |Digits(n)| == 2
  {
    if n >= 10 { NoLeadingZero(n / 10); }
  }

  lemma Pad3Injective(a: nat, b: nat)
    requires Pad3(a) == Pad3(b)
    ensures a == b
  {
    forall n: nat ensures ValueOf(Pad3(n)) == n {
      ValueOfDigits(n);
      ValueOfZero(Digits(n));
      ValueOfZero("0" + Digits(n));
      assert "0" + ("0" + Digits(n)) == "00" + Digits(n);
    }
  }

  function Pow10(k: nat): nat {
    if k == 0 then 1 else 10 * Pow10(k - 1)
  }

  lemma {:induction false} DigitsLength(n: nat, k: nat)
    requires k >= 1 && n < Pow10(k)
    ensures |Digits(n)| <= k
  {
    assert Pow10(1) == 10;
    if n >= 10 {
      DigitsLength(n / 10, k - 1);
    }
  }

  // ----- dotted paths -----

  /** The index of the last dot, or -1. */
  function LastDot(s: string): (i: int)
    ensures -1 <= i < |s|
    ensures i >= 0 ==> s[i] == '.'
    ensures forall j :: i < j < |s| ==> s[j] != '.'
  {
    if s == "" then -1 else if s[|s| - 1] == '.' then |s| - 1 else LastDot(s[..|s| - 1])
  }

  predicate HasParent(path: string) {
    0 < LastDot(path) < |path| - 1
  }

  function Parent(path: string): string
    requires HasParent(path)
  {
    path[..LastDot(path)]
  }

  function Component(path: string): string
    requires HasParent(path)
  {
    path[LastDot(path) + 1..]
  }

  predicate Ancestor(a: string, path: string)
    decreases |path|
  {
    HasParent(path) && (Parent(path) == a || Ancestor(a, Parent(path)))
  }

  /** A component may end in a hash mark, as hidden fields do, but have none elsewhere. */
  predicate GoodComponent(c: string) {
    c != "" && forall i :: 0 <= i < |c| - 1 ==> c[i] != '#'
  }

  predicate GoodPath(path: string)
    decreases |path|
  {
    HasParent(path) ==> GoodComponent(Component(path)) && GoodPath(Parent(path))
  }

  /** Without hash marks every component and path is good; one at the end does no harm. */
  lemma {:induction false} PlainIsGood(p: string)
    requires '#' !in p
    ensures GoodPath(p) && (p != "" ==> GoodComponent(p) && GoodComponent(p + "#"))
    decreases |p|
  {
    if HasParent(p) { PlainIsGood(Parent(p)); }
  }

  lemma NoHashInside(b: string, d: string, i: int)
    requires GoodComponent(d) && |b| < i < |b| + |d|
    ensures (b + "#" + d)[i] != '#'
  {
  }

  lemma JoinInjective(a: string, b: string, c: string, d: string)
    requires GoodComponent(c) && GoodComponent(d) && a + "#" + c == b + "#" + d
    ensures a == b && c == d
  {
    var s := a + "#" + c;
    assert s[|a|] == '#' && s[|b|] == '#';
    if |b| < |a| {
      NoHashInside(b, d, |a|);
    } else if |a| < |b| {
      NoHashInside(a, c, |b|);
    } else {
      assert s[..|a|] == a && s[..|b|] == b;
      assert s[|a| + 1..] == c && s[|b| + 1..] == d;
    }
  }

  // ----- allocation -----

  type Table = map<string, string>

  predicate GoodPrefix(prefix: string) {
    prefix == "v" || prefix == "p"
  }

  /** The parent, when there is one, is registered first; the number is taken before that. */
  function Register(m: Table, path: string, prefix: string): (r: (Table, string))
    ensures path in r.0 && r.0[path] == r.1
    ensures m.Keys <= r.0.Keys && forall p :: p in m ==> r.0[p] == m[p]
    decreases |path|
  {
    if path in m then (m, m[path]) else
    var up := if HasParent(path) then Register(m, Parent(path), prefix) else (m, "");
    var long := if HasParent(path) then up.1 + "#" + Component(path) else "";
    var x := if long == "" || |long| > MAX_NAME then prefix + Pad3(|m| + 1) else long;
    (up.0[path := x], x)
  }

  /** Where the parent's registration leaves the table, and the name a new path gets. */
  function Up(m: Table, path: string, prefix: string): Table {
    if HasParent(path) then Register(m, Parent(path), prefix).0 else m
  }

  function NewName(m: Table, path: string, prefix: string): string {
    var long := if HasParent(path) then Register(m, Parent(path), prefix).1 + "#" + Component(path) else "";
    if long == "" || |long| > MAX_NAME then prefix + Pad3(|m| + 1) else long
  }

  lemma RegisterNew(m: Table, path: string, prefix: string)
    requires path !in m
    ensures Register(m, path, prefix) ==
            (Up(m, path, prefix)[path := NewName(m, path, prefix)], NewName(m, path, prefix))
  {
  }

  lemma RegisterKnown(m: Table, path: string, prefix: string)
    requires path in m
    ensures Register(m, path, prefix) == (m, m[path])
  {
  }

  lemma SetTwice<K, V>(m: map<K, V>, k: K, v: V, w: V)
    ensures m[k := v][k := w] == m[k := w]
  {
  }

  /** The tables of all functions. */
  class VarNames {
    var names: map<string, Table>

    constructor ()
      ensures names == map[]
    {
      names := map[];
    }

    ghost function TableOf(fun: string): Table
      reads this
    {
      if fun in names then names[fun] else map[]
    }

    method GetVarName(fun: string, path: string, prefix: string) returns (x: string)
      modifies this
      ensures x == Register(old(TableOf(fun)), path, prefix).1
      ensures names == old(names)[fun := Register(old(TableOf(fun)), path, prefix).0]
      decreases |path|
    {
      hide Register;
      hide Pad3;
      hide LastDot;
      if fun !in names {
        names := names[fun := map[]];
      }
      var m := names[fun];
      assert m == old(TableOf(fun)) && names == old(names)[fun := m];
      if path in m {
        RegisterKnown(m, path, prefix);
        return m[path];
      }
      var length := |m|;
      x := "";
      ghost var up := m;
      var i := LastIndexOfDot(path);
      if i > 0 && i < |path| - 1 {
        assert HasParent(path) && Parent(path) == path[..i];
        up := Register(m, path[..i], prefix).0;
        x := GetVarName(fun, path[..i], prefix);
        x := x + "#" + path[i + 1..];
      }
      SetTwice(old(names), fun, m, up);
      assert names == old(names)[fun := up];
      if x == "" || |x| > MAX_NAME {
        x := prefix + Pad3(length + 1);
      }
      RegisterNew(m, path, prefix);
      names := names[fun := names[fun][path := x]];
      SetTwice(old(names), fun, up, up[path := x]);
    }

    method LastIndexOfDot(s: string) returns (i: int)
      ensures i == LastDot(s)
    {
      i := |s| - 1;
      assert s[..|s|] == s;
      while i >= 0 && s[i] != '.'
        invariant -1 <= i < |s|
        invariant LastDot(s[..i + 1]) == LastDot(s)
      {
        assert s[..i + 1][..i] == s[..i];
        i := i - 1;
      }
    }
  }
}
