/** The path state machine of src/react-headless-nested-menu.tsx: a pure
    transition from a state snapshot and an action to the next snapshot. */
module Reducer {
  import opened MenuTypes
  import JsArray

  datatype Action = Toggle | OpenPath(id: string) | ClosePath(id: string)

  datatype State = State(items: seq<MenuItem>, isOpen: bool, currentPath: seq<string>, placement: Placement)

  /** No identifier occurs twice in the path. */
  predicate NoDup(path: seq<string>) {
    forall i, j :: 0 <= i < j < |path| ==> path[i] != path[j]
  }

  /** `closed` is what is left of `path` once the first occurrence of `id`
      and everything after it are removed. */
  predicate ClosedAt(path: seq<string>, id: string, closed: seq<string>) {
    |closed| < |path| && closed == path[..|closed|] && path[|closed|] == id && id !in closed
  }

  /** The reducer: `toggle` flips isOpen and clears the path, `open-path`
      pushes the id, `close-path` runs `splice(indexOf(id))`. */
  function Step(s: State, a: Action): (r: State)
    ensures r.items == s.items && r.placement == s.placement
    ensures a.Toggle? ==> r.isOpen == !s.isOpen && r.currentPath == []
    ensures !a.Toggle? ==> r.isOpen == s.isOpen
    ensures a.OpenPath? ==> r.currentPath == s.currentPath + [a.id]
    ensures a.ClosePath? && a.id in s.currentPath ==> ClosedAt(s.currentPath, a.id, r.currentPath)
    ensures a.ClosePath? && a.id !in s.currentPath && s.currentPath != [] ==>
              r.currentPath == s.currentPath[..|s.currentPath| - 1]
    ensures a.ClosePath? && s.currentPath == [] ==> r.currentPath == []
  {
    match a
    case Toggle => s.(isOpen := !s.isOpen, currentPath := [])
    case OpenPath(id) => s.(currentPath := s.currentPath + [id])
    case ClosePath(id) =>
      var index := JsArray.IndexOf(s.currentPath, id);
      s.(currentPath := JsArray.Splice(s.currentPath, index))
  }

  /** Closing the first occurrence of an id keeps exactly the part of the
      path before it: closing an ancestor closes all its descendants. */
  lemma {:induction false} CloseAncestorDropsDescendants(s: State, pre: seq<string>, id: string, post: seq<string>)
    requires s.currentPath == pre + [id] + post
    requires id !in pre
    ensures Step(s, ClosePath(id)).currentPath == pre
  {
    var q := Step(s, ClosePath(id)).currentPath;
    assert s.currentPath[|pre|] == id;
    if |q| != |pre| {
      assert false;
    }
    assert s.currentPath[..|pre|] == pre;
  }

  /** The three-level example: closing `b` in [a, b, c] gives [a],
      closing `a` gives []. */
  lemma CloseExample(s: State)
    requires s.currentPath == ["a", "b", "c"]
    ensures Step(s, ClosePath("b")).currentPath == ["a"]
    ensures Step(s, ClosePath("a")).currentPath == []
  {
    CloseAncestorDropsDescendants(s, ["a"], "b", ["c"]);
    CloseAncestorDropsDescendants(s, [], "a", ["b", "c"]);
  }

  /** Opening an id that is not yet on the path and closing it again
      restores the previous state exactly. */
  lemma {:induction false} OpenCloseRoundTrip(s: State, id: string)
    requires id !in s.currentPath
    ensures Step(Step(s, OpenPath(id)), ClosePath(id)) == s
  {
    var s1 := Step(s, OpenPath(id));
    assert s1.currentPath == s.currentPath + [id] + [];
    CloseAncestorDropsDescendants(s1, s.currentPath, id, []);
  }

  /** After an open the id is on the path; after the following close it is
      not, whatever the path held before. */
  lemma OpenedThenClosed(s: State, id: string)
    ensures id in Step(s, OpenPath(id)).currentPath
    ensures id !in Step(Step(s, OpenPath(id)), ClosePath(id)).currentPath
  {
  }

  /** Toggling twice restores isOpen but never the path. */
  lemma ToggleTwice(s: State)
    ensures Step(Step(s, Toggle), Toggle) == s.(currentPath := [])
  {
  }

  /** Closing an absent id removes the last entry, so two such closes on a
      path of length two or more remove two entries: closing an absent id
      is not a no-op. */
  lemma CloseAbsentNotIdempotent(s: State, id: string)
    requires id !in s.currentPath && |s.currentPath| >= 2
    ensures |Step(Step(s, ClosePath(id)), ClosePath(id)).currentPath| == |s.currentPath| - 2
    ensures Step(Step(s, ClosePath(id)), ClosePath(id)) != Step(s, ClosePath(id))
  {
    var s1 := Step(s, ClosePath(id));
    assert id !in s1.currentPath by {
      assert s1.currentPath == s.currentPath[..|s.currentPath| - 1];
    }
  }

  /** A prefix of a duplicate-free path is duplicate-free. */
  lemma PrefixNoDup(path: seq<string>, n: nat)
    requires NoDup(path) && n <= |path|
    ensures NoDup(path[..n])
  {
  }

  /** A duplicate-free path stays duplicate-free under toggle, close and an
      open of an id that is not on the path. */
  lemma {:induction false} StepPreservesNoDup(s: State, a: Action)
    requires NoDup(s.currentPath)
    requires a.OpenPath? ==> a.id !in s.currentPath
    ensures NoDup(Step(s, a).currentPath)
  {
    var p := s.currentPath;
    var q := Step(s, a).currentPath;
    match a
    case Toggle =>
    case OpenPath(id) =>
      forall i, j | 0 <= i < j < |q| ensures q[i] != q[j] {
        if j == |p| {
          assert q[i] == p[i];
        }
      }
    case ClosePath(id) =>
      if p != [] {
        assert q == p[..|q|];
        PrefixNoDup(p, |q|);
      }
  }
}
