/** src/utils.ts: the text direction and the propagation path of a DOM event. */
module DomPath {
  import opened MenuTypes
  import JsArray

  /** getDirection: `dir` is the value of document.dir. */
  function GetDirection(dir: string): (d: Direction)
    ensures d == Rtl <==> dir == "rtl"
  {
    if dir == "rtl" then Rtl else Ltr
  }

  /** An entry of an event path: an element node, or one of the two
      sentinels `document` and `window`. */
  datatype Target = Node(node: Element) | Document | Window

  /** The parent chain is acyclic: `depth` strictly decreases from a node to
      its parentElement. */
  ghost predicate Ranked(parent: Element -> Option<Element>, depth: Element -> nat) {
    forall n :: parent(n).Some? ==> depth(parent(n).value) < depth(n)
  }

  /** parentElement of an entry: only element nodes have one (that of
      `document` is null, `window` has none). */
  function ParentOf(t: Target, parent: Element -> Option<Element>): Option<Target> {
    match t
    case Node(n) => if parent(n).Some? then Some(Node(parent(n).value)) else None
    case _ => None
  }

  function Height(t: Option<Target>, depth: Element -> nat): nat {
    match t
    case Some(Node(n)) => depth(n) + 1
    case Some(_) => 1
    case None => 0
  }

  /** The entries the loop of getPath visits: the target, then its
      parentElement, and so on until null. */
  function Chain(t: Option<Target>, parent: Element -> Option<Element>, depth: Element -> nat): seq<Target>
    requires Ranked(parent, depth)
    decreases Height(t, depth)
  {
    if t.None? then [] else [t.value] + Chain(ParentOf(t.value, parent), parent, depth)
  }

  /** The two conditional pushes at the end of getPath. */
  function WithSentinels(p: seq<Target>): (r: seq<Target>)
    ensures Window in r
    ensures Window in p ==> r == p
    ensures Window !in p && Document in p ==> r == p + [Window]
    ensures Window !in p && Document !in p ==> r == p + [Document, Window]
  {
    var p1 := if JsArray.IndexOf(p, Window) == -1 && JsArray.IndexOf(p, Document) == -1 then p + [Document] else p;
    if JsArray.IndexOf(p1, Window) == -1 then p1 + [Window] else p1
  }

  /** getPath: walk the parent chain from the target, then add `document`
      unless `window` or `document` is already there, then `window` unless it
      is already there. */
  method GetPath(target: Option<Target>, parent: Element -> Option<Element>, depth: Element -> nat)
      returns (path: seq<Target>)
    requires Ranked(parent, depth)
    ensures path == WithSentinels(Chain(target, parent, depth))
  {
    path := [];
    var currentElem := target;
    while currentElem.Some?
      invariant path + Chain(currentElem, parent, depth) == Chain(target, parent, depth)
      decreases Height(currentElem, depth)
    {
      assert Chain(currentElem, parent, depth) == [currentElem.value] + Chain(ParentOf(currentElem.value, parent), parent, depth);
      path := path + [currentElem.value];
      currentElem := ParentOf(currentElem.value, parent);
    }
    assert path == Chain(target, parent, depth);
    if JsArray.IndexOf(path, Window) == -1 && JsArray.IndexOf(path, Document) == -1 {
      path := path + [Document];
    }
    if JsArray.IndexOf(path, Window) == -1 {
      path := path + [Window];
    }
  }

  /** The chain starts at the target, each entry's successor is its
      parentElement, and the last entry has none. */
  lemma {:induction false} ChainFollowsParents(t: Target, parent: Element -> Option<Element>, depth: Element -> nat)
    requires Ranked(parent, depth)
    ensures var c := Chain(Some(t), parent, depth);
      |c| >= 1 && c[0] == t &&
      (forall i :: 0 <= i < |c| - 1 ==> ParentOf(c[i], parent) == Some(c[i + 1])) &&
      ParentOf(c[|c| - 1], parent).None?
    decreases Height(Some(t), depth)
  {
    var next := ParentOf(t, parent);
    if next.Some? {
      ChainFollowsParents(next.value, parent, depth);
      var c := Chain(Some(t), parent, depth);
      var rest := Chain(next, parent, depth);
      assert c == [t] + rest;
      forall i | 0 <= i < |c| - 1 ensures ParentOf(c[i], parent) == Some(c[i + 1]) {
        if i > 0 {
          assert c[i] == rest[i - 1] && c[i + 1] == rest[i];
        }
      }
    }
  }

  /** Starting from an element node, the walk meets neither sentinel. */
  lemma {:induction false} NodeChainHasNoSentinels(t: Option<Target>, parent: Element -> Option<Element>, depth: Element -> nat)
    requires Ranked(parent, depth)
    requires t.None? || t.value.Node?
    ensures Window !in Chain(t, parent, depth) && Document !in Chain(t, parent, depth)
    decreases Height(t, depth)
  {
    if t.Some? {
      NodeChainHasNoSentinels(ParentOf(t.value, parent), parent, depth);
    }
  }

  /** For an element target, or no target at all, getPath appends both
      sentinels; a null target gives exactly [document, window]. */
  lemma NodePathEndsWithSentinels(t: Option<Target>, parent: Element -> Option<Element>, depth: Element -> nat)
    requires Ranked(parent, depth)
    requires t.None? || t.value.Node?
    ensures WithSentinels(Chain(t, parent, depth)) == Chain(t, parent, depth) + [Document, Window]
    ensures t.None? ==> WithSentinels(Chain(t, parent, depth)) == [Document, Window]
  {
    NodeChainHasNoSentinels(t, parent, depth);
  }

  /** The Safari fix of getEventPath: append `window` when it is missing. */
  function EnsureWindow(p: seq<Target>): (r: seq<Target>)
    ensures Window in r
    ensures Window in p ==> r == p
    ensures Window !in p ==> r == p + [Window]
  {
    if JsArray.IndexOf(p, Window) < 0 then p + [Window] else p
  }

  /** getEventPath (its reachable part): the browser's composedPath() when
      the event has one, otherwise getPath of the target; then `window` is
      appended when missing. */
  method GetEventPath(composed: Option<seq<Target>>, target: Option<Target>,
                              parent: Element -> Option<Element>, depth: Element -> nat)
      returns (path: seq<Target>)
    requires Ranked(parent, depth)
    ensures composed.Some? ==> path == EnsureWindow(composed.value)
    ensures composed.None? ==> path == WithSentinels(Chain(target, parent, depth))
    ensures Window in path
  {
    if composed.Some? {
      path := composed.value;
    } else {
      path := GetPath(target, parent, depth);
    }
    path := if JsArray.IndexOf(path, Window) < 0 then path + [Window] else path;
  }
}
