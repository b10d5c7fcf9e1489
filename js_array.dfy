/** The two Array.prototype primitives the reducer relies on, with the exact
    semantics of JavaScript, including the -1 "not found" sentinel and the
    negative start index of splice. */
module JsArray {

  /** Array.prototype.indexOf: the first index holding x, or -1 when x is absent. */
  function IndexOf<T(==)>(s: seq<T>, x: T): (i: int)
    ensures -1 <= i < |s|
    ensures i == -1 <==> x !in s
    ensures 0 <= i ==> s[i] == x && x !in s[..i]
  {
    if s == [] then -1
    else if s[0] == x then 0
    else
      var k := IndexOf(s[1..], x);
      if k == -1 then -1
      else
        assert s[..k + 1] == [s[0]] + s[1..][..k];
        k + 1
  }

  /** The array left behind by Array.prototype.splice(start) with no delete
      count: everything from the resolved start index onwards is removed.
      A negative start counts from the end and is clamped at 0; a start past
      the end is clamped at the length. */
  function Splice<T>(s: seq<T>, start: int): (r: seq<T>)
    ensures 0 <= start ==> r == s[..if start <= |s| then start else |s|]
    ensures start < 0 ==> r == s[..if 0 <= |s| + start then |s| + start else 0]
  {
    var k := if start < 0 then (if |s| + start < 0 then 0 else |s| + start)
             else if start > |s| then |s| else start;
    s[..k]
  }

  /** Splicing at the not-found sentinel -1 drops the last element of a
      non-empty array and leaves an empty one empty. */
  lemma SpliceNotFound<T>(s: seq<T>)
    ensures s == [] ==> Splice(s, -1) == []
    ensures s != [] ==> Splice(s, -1) == s[..|s| - 1] && |Splice(s, -1)| == |s| - 1
  {
  }
}
