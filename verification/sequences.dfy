/**
 The two array primitives the client code leans on: `findIndex` (and its
 special case `indexOf`) and removal of one position (`splice(i, 1)`).
 */
module Sequences {

  /** Position of the first element satisfying `matches`, or -1 when none does. */
  function FirstIndex<T>(s: seq<T>, matches: T -> bool): (i: int)
    ensures -1 <= i < |s|
    ensures i == -1 <==> forall j :: 0 <= j < |s| ==> !matches(s[j])
    ensures 0 <= i ==> matches(s[i])
    ensures 0 <= i ==> forall j :: 0 <= j < i ==> !matches(s[j])
  {
    if |s| == 0 then -1
    else if matches(s[0]) then 0
    else
      var i := FirstIndex(s[1..], matches);
      if i == -1 then -1 else i + 1
  }

  /** Position of the first element equal to `x`, or -1 (`Array.prototype.indexOf`). */
  function IndexOf<T(==)>(s: seq<T>, x: T): (i: int)
    ensures -1 <= i < |s|
    ensures i == -1 <==> x !in s
    ensures 0 <= i ==> s[i] == x
    ensures forall j :: 0 <= j < i ==> s[j] != x
  {
    FirstIndex(s, y => y == x)
  }

  /** The sequence without position `i`; the rest keep their order. */
  function RemoveAt<T>(s: seq<T>, i: nat): (r: seq<T>)
    requires i < |s|
    ensures |r| == |s| - 1
    ensures forall j :: 0 <= j < i ==> r[j] == s[j]
    ensures forall j :: i <= j < |r| ==> r[j] == s[j + 1]
    ensures multiset(r) + multiset{s[i]} == multiset(s)
  {
    assert s == s[..i] + [s[i]] + s[i + 1..];
    s[..i] + s[i + 1..]
  }
}
