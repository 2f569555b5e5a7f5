/** Facts about sequences of names (tag names, addresses) used by the query model. */
module Seqs {

  /** No element occurs twice. */
  predicate NoDup(s: seq<string>) {
    forall i, j :: 0 <= i < j < |s| ==> s[i] != s[j]
  }

  /** The elements of `s` as a set. */
  function Elements(s: seq<string>): set<string> {
    set x | x in s
  }

  /** How many positions of `s` hold an element of `among`. */
  function CountIn(s: seq<string>, among: seq<string>): nat
    decreases |s|
  {
    if s == [] then 0 else (if s[0] in among then 1 else 0) + CountIn(s[1..], among)
  }

  /** The first `n` elements (all of them when there are fewer), as `LIMIT n` keeps them. */
  function Take(s: seq<string>, n: nat): (r: seq<string>)
    ensures |r| == if n < |s| then n else |s|
    ensures r == s[..|r|]
  {
    if n < |s| then s[..n] else s
  }

  /** The distinct elements of `s`, each at its first occurrence. */
  function Dedup(s: seq<string>): (r: seq<string>)
    ensures NoDup(r)
    ensures forall x :: x in r <==> x in s
    decreases |s|
  {
    if s == [] then []
    else
      var d := Dedup(s[..|s| - 1]);
      assert forall x :: x in s <==> x in s[..|s| - 1] || x == s[|s| - 1];
      if s[|s| - 1] in d then d else d + [s[|s| - 1]]
  }

  lemma {:induction false} ElementsOfNoDup(s: seq<string>)
    requires NoDup(s)
    ensures |Elements(s)| == |s|
    decreases |s|
  {
    if s != [] {
      var t := s[1..];
      assert NoDup(t);
      ElementsOfNoDup(t);
      assert Elements(s) == {s[0]} + Elements(t);
      assert s[0] !in Elements(t);
    }
  }

  /** In a duplicate-free sequence the head is not among the elements of the tail. */
  lemma ElementsOfTail(s: seq<string>)
    requires NoDup(s) && s != []
    ensures NoDup(s[1..])
    ensures Elements(s) == {s[0]} + Elements(s[1..]) && s[0] !in Elements(s[1..])
  {
    assert forall x :: x in s <==> x == s[0] || x in s[1..];
  }

  /** Adding an element outside `a` to `a` adds one common element with `b` exactly when it is in `b`. */
  lemma InsertedIntersection(x: string, a: set<string>, b: set<string>)
    requires x !in a
    ensures |({x} + a) * b| == (if x in b then 1 else 0) + |a * b|
  {
    if x in b {
      assert ({x} + a) * b == {x} + a * b;
    } else {
      assert ({x} + a) * b == a * b;
    }
  }

  /** In a duplicate-free sequence, counting positions is counting distinct common elements. */
  lemma {:induction false} CountInNoDup(s: seq<string>, among: seq<string>)
    requires NoDup(s)
    ensures CountIn(s, among) == |Elements(s) * Elements(among)|
    decreases |s|
  {
    if s == [] {
      assert Elements(s) == {};
    } else {
      ElementsOfTail(s);
      CountInNoDup(s[1..], among);
      InsertedIntersection(s[0], Elements(s[1..]), Elements(among));
    }
  }

  /**
    For duplicate-free `s` and `among`: the positions of `s` holding an element of
    `among` number |among| exactly when every element of `among` occurs in `s`.
   */
  lemma CountInAllIff(s: seq<string>, among: seq<string>)
    requires NoDup(s) && NoDup(among)
    ensures CountIn(s, among) == |among| <==> forall x :: x in among ==> x in s
  {
    CountInNoDup(s, among);
    ElementsOfNoDup(among);
    var common := Elements(s) * Elements(among);
    if forall x :: x in among ==> x in s {
      assert common == Elements(among);
    } else {
      var x :| x in among && x !in s;
      ProperSubsetSmaller(common, Elements(among), x);
    }
  }

  lemma ProperSubsetSmaller(part: set<string>, whole: set<string>, x: string)
    requires part <= whole && x in whole && x !in part
    ensures |part| < |whole|
  {
    var missing := whole - part;
    assert whole == part + missing;
    assert part * missing == {};
    assert x in missing;
  }
}
