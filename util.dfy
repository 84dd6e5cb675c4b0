/** The usual optional-value wrapper; `None` stands for a Java `null` result. */
module Wrappers {
  datatype Option<+T> = None | Some(value: T)
}

/** Small facts about sequences used by the document and snapshot models. */
module Sequences {

  /** Position of the first occurrence of `x` in `s`, or `|s|` when `x` does not occur:
      the result of a left-to-right scan that stops at the first match. */
  function IndexOf<T(==)>(s: seq<T>, x: T): (i: nat)
    ensures i <= |s|
    ensures i < |s| <==> x in s
    ensures i < |s| ==> s[i] == x
    ensures forall j :: 0 <= j < i ==> s[j] != x
  {
    if s == [] then 0
    else if s[0] == x then 0
    else 1 + IndexOf(s[1..], x)
  }

  /** No element occurs twice. */
  predicate Distinct<T(==)>(s: seq<T>) {
    forall i, j :: 0 <= i < j < |s| ==> s[i] != s[j]
  }

  /** Extending a sequence does not move the first occurrence of an element already in it. */
  lemma IndexOfPrefix<T>(s: seq<T>, t: seq<T>, x: T)
    requires x in s
    ensures IndexOf(s + t, x) == IndexOf(s, x)
  {
    var i, j := IndexOf(s + t, x), IndexOf(s, x);
    assert (s + t)[j] == x;
    if i < j {
      assert s[i] == (s + t)[i];
    }
  }
}
