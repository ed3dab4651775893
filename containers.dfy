/**
 * The sequence container policy (a `std::list` chosen as `EdgeContainer` or
 * `NodeContainer`): insertion appends at the back, removal erases the first
 * matching element and leaves the survivors in their order.
 */
module Containers {

  /** Position of the first occurrence of `x` in `s`. */
  function IndexOf<T(==)>(s: seq<T>, x: T): (i: nat)
    requires x in s
    ensures i < |s| && s[i] == x
    ensures x !in s[..i]
  {
    if s[0] == x then 0
    else
      var j := IndexOf(s[1..], x);
      assert s[..j + 1] == [s[0]] + s[1..][..j];
      j + 1
  }

  /** `s` without its first occurrence of `x`; `s` itself when `x` is absent. */
  function RemoveFirst<T(==)>(s: seq<T>, x: T): (r: seq<T>)
    ensures x !in s ==> r == s
    ensures x in s ==> |r| == |s| - 1
    ensures x in s ==> multiset(r) == multiset(s) - multiset{x}
  {
    if x in s then
      var i := IndexOf(s, x);
      assert s == s[..i] + [x] + s[i + 1..];
      s[..i] + s[i + 1..]
    else s
  }

  /** Removing what was just appended gives back the same elements, and the
      same sequence when the element was not there before. */
  lemma {:induction false} RemoveFirstUndoesAppend<T>(s: seq<T>, x: T)
    ensures multiset(RemoveFirst(s + [x], x)) == multiset(s)
    ensures x !in s ==> RemoveFirst(s + [x], x) == s
  {
    assert x in s + [x];
    if x !in s {
      var i := IndexOf(s + [x], x);
      assert (s + [x])[..i] == s;
    }
  }
}
