/** src/remenu.tsx, the older variant of the hook: the same reducer over a
    state without a placement, the same registries and triggers, and a
    simpler offset rule driven by a one-step `level`. */
module Remenu {
  import opened MenuTypes
  import Reducer
  import JsArray
  import opened Geometry
  import opened DomPath
  import opened Registry

  datatype State = State(items: seq<MenuItem>, isOpen: bool, currentPath: seq<string>)

  /** The reducer of this file, written out as it is there. */
  function Step(s: State, a: Reducer.Action): (r: State)
    ensures r.items == s.items
  {
    match a
    case Toggle => s.(isOpen := !s.isOpen, currentPath := [])
    case OpenPath(id) => s.(currentPath := s.currentPath + [id])
    case ClosePath(id) =>
      var index := JsArray.IndexOf(s.currentPath, id);
      s.(currentPath := JsArray.Splice(s.currentPath, index))
  }

  /** The reducer of this file is that of the main file, placement aside,
      down to the last-entry removal for an absent id. */
  lemma StepMatchesMain(s: State, a: Reducer.Action, placement: Placement)
    ensures var m := Reducer.Step(Reducer.State(s.items, s.isOpen, s.currentPath, placement), a);
      Step(s, a) == State(m.items, m.isOpen, m.currentPath)
  {
  }

  /** Closing an id that is not on a non-empty path removes its last entry. */
  lemma CloseAbsentDropsLast(s: State, id: string)
    requires id !in s.currentPath && s.currentPath != []
    ensures Step(s, Reducer.ClosePath(id)).currentPath == s.currentPath[..|s.currentPath| - 1]
  {
    StepMatchesMain(s, Reducer.ClosePath(id), DefaultPlacement);
  }

  /** A duplicate-free path stays duplicate-free under toggle, close and an
      open of an id that is not on the path. */
  lemma StepPreservesNoDup(s: State, a: Reducer.Action)
    requires Reducer.NoDup(s.currentPath)
    requires a.OpenPath? ==> a.id !in s.currentPath
    ensures Reducer.NoDup(Step(s, a).currentPath)
  {
    StepMatchesMain(s, a, DefaultPlacement);
    Reducer.StepPreservesNoDup(Reducer.State(s.items, s.isOpen, s.currentPath, DefaultPlacement), a);
  }

  /** `level`: 1 when the path is non-empty and holds the given item, else 0. */
  function Level(path: seq<string>, currentItem: Option<MenuItem>): (level: nat)
    ensures level <= 1
    ensures path == [] ==> level == 0
    ensures level == 1 <==> path != [] && currentItem.Some? && currentItem.value.id in path
  {
    if |path| == 0 then 0
    else if currentItem.Some? && currentItem.value.id in path then 1
    else 0
  }

  /** The style record `{top, [direction], width}`. */
  datatype RemenuOffset = RemenuOffset(top: int, horizontal: HorizontalKey, horizontalValue: int, width: int)

  /** The offsets of a panel: `registered` says whether the given item has a
      registered element. */
  function RemenuOffsetStyles(registered: bool, level: nat, button: Rect, vp: Viewport, dir: Direction): (r: RemenuOffset)
    ensures r.horizontal == LeadingKey(dir)
    ensures r.width == button.width
    ensures registered ==> r.top == 0 && r.horizontalValue == button.width * level
    ensures registered && level == 0 ==> r.horizontalValue == 0
    ensures !registered ==> r.top == button.top
    ensures !registered ==> r.horizontalValue == (if dir == Ltr then button.right else vp.innerWidth - button.left)
  {
    var direction := if dir == Ltr then LeftKey else RightKey;
    var rootX := if dir == Ltr then button.right else vp.innerWidth - button.left;
    RemenuOffset(if registered then 0 else button.top,
                 direction,
                 if registered then button.width * level else rootX,
                 button.width)
  }

  /** The style object as the source builds it: the keys `top`, `width` and
      `left` in ltr or `right` in rtl. */
  function RemenuStyles(o: RemenuOffset): (m: map<string, int>)
    ensures m.Keys == {"top", HorizontalName(o.horizontal), "width"}
    ensures |m.Keys| == 3
    ensures m["top"] == o.top && m[HorizontalName(o.horizontal)] == o.horizontalValue && m["width"] == o.width
  {
    var m := map["top" := o.top, HorizontalName(o.horizontal) := o.horizontalValue, "width" := o.width];
    assert HorizontalName(o.horizontal) in {"left", "right"};
    assert |{"top", "width"}| == 2;
    m
  }

  class Remenu {
    var state: State
    var listening: bool
    var menuRefs: map<string, Element>
    var itemRefs: map<string, Element>

    /** The listener is attached exactly while the menu is open. */
    ghost predicate Valid()
      reads this
    {
      listening == state.isOpen
    }

    constructor (items: seq<MenuItem>, isOpen: bool, defaultOpenPath: seq<string>)
      ensures Valid()
      ensures state == State(items, isOpen, defaultOpenPath)
      ensures menuRefs == map[] && itemRefs == map[]
    {
      state := State(items, isOpen, defaultOpenPath);
      listening := isOpen;
      menuRefs := map[];
      itemRefs := map[];
    }

    method ToggleMenu()
      modifies this
      ensures state == Step(old(state), Reducer.Toggle)
      ensures state.isOpen == !old(state.isOpen) && state.currentPath == [] && state.items == old(state.items)
      ensures Valid()
      ensures menuRefs == old(menuRefs) && itemRefs == old(itemRefs)
    {
      if state.isOpen {
        listening := false;
      }
      state := Step(state, Reducer.Toggle);
      if state.isOpen {
        listening := true;
      }
    }

    method OpenPath(item: MenuItem)
      requires Valid()
      modifies this
      ensures Valid()
      ensures HasSubMenu(item) ==> state == old(state).(currentPath := old(state.currentPath) + [item.id])
      ensures !HasSubMenu(item) ==> state == old(state)
      ensures listening == old(listening) && menuRefs == old(menuRefs) && itemRefs == old(itemRefs)
    {
      if item.subMenu.Some? {
        state := Step(state, Reducer.OpenPath(item.id));
      }
    }

    method ClosePath(item: MenuItem)
      requires Valid()
      modifies this
      ensures Valid()
      ensures HasSubMenu(item) ==> state == Step(old(state), Reducer.ClosePath(item.id))
      ensures !HasSubMenu(item) ==> state == old(state)
      ensures state.isOpen == old(state.isOpen) && state.items == old(state.items)
      ensures listening == old(listening) && menuRefs == old(menuRefs) && itemRefs == old(itemRefs)
      ensures Reducer.NoDup(old(state.currentPath)) ==> Reducer.NoDup(state.currentPath)
    {
      if item.subMenu.Some? {
        if Reducer.NoDup(state.currentPath) {
          StepPreservesNoDup(state, Reducer.ClosePath(item.id));
        }
        state := Step(state, Reducer.ClosePath(item.id));
      }
    }

    function IsSubMenuOpen(item: MenuItem): (open: bool)
      reads this
      ensures open <==> item.id in state.currentPath
    {
      JsArray.IndexOf(state.currentPath, item.id) != -1
    }

    function GetItemPath(item: MenuItem): (p: seq<string>)
      reads this
      ensures |p| == |state.currentPath| + 1
      ensures p[..|state.currentPath|] == state.currentPath && p[|state.currentPath|] == item.id
    {
      state.currentPath + [item.id]
    }

    method RegisterMenu(item: Option<MenuItem>, node: Option<Element>)
      requires Valid()
      modifies this
      ensures Valid()
      ensures node.Some? ==> menuRefs == old(menuRefs)[MenuKey(item) := node.value]
      ensures node.None? ==> menuRefs == old(menuRefs)
      ensures state == old(state) && listening == old(listening) && itemRefs == old(itemRefs)
    {
      if node.Some? {
        menuRefs := menuRefs[MenuKey(item) := node.value];
      }
    }

    method RegisterItem(item: MenuItem, node: Option<Element>)
      requires Valid()
      modifies this
      ensures Valid()
      ensures node.Some? ==> itemRefs == old(itemRefs)[item.id := node.value]
      ensures node.None? ==> itemRefs == old(itemRefs)
      ensures state == old(state) && listening == old(listening) && menuRefs == old(menuRefs)
    {
      if node.Some? {
        itemRefs := itemRefs[item.id := node.value];
      }
    }

    method GlobalClick(path: seq<Target>)
      requires Valid()
      modifies this
      ensures Valid()
      ensures var outside := !IsClickInside(path, old(itemRefs), old(menuRefs));
        if outside && old(state.isOpen)
        then !state.isOpen && state.currentPath == [] && !listening
        else state == old(state) && listening == old(listening)
      ensures state.items == old(state.items)
      ensures menuRefs == old(menuRefs) && itemRefs == old(itemRefs)
    {
      var isClickInside := IsClickInside(path, itemRefs, menuRefs);
      if !isClickInside && state.isOpen {
        ToggleMenu();
      }
    }

    method OpenTrigger(item: MenuItem)
      requires Valid()
      modifies this
      ensures Valid()
      ensures if HasSubMenu(item) && item.id !in old(state.currentPath)
              then state.currentPath == old(state.currentPath) + [item.id]
              else state == old(state)
      ensures state.isOpen == old(state.isOpen) && state.items == old(state.items)
      ensures listening == old(listening) && menuRefs == old(menuRefs) && itemRefs == old(itemRefs)
      ensures Reducer.NoDup(old(state.currentPath)) ==> Reducer.NoDup(state.currentPath)
    {
      if item.subMenu.Some? && item.id !in state.currentPath {
        if Reducer.NoDup(state.currentPath) {
          StepPreservesNoDup(state, Reducer.OpenPath(item.id));
        }
        OpenPath(item);
      }
    }

    method CloseTrigger(item: Option<MenuItem>)
      requires Valid()
      modifies this
      ensures Valid()
      ensures item.Some? && HasSubMenu(item.value) ==> state == Step(old(state), Reducer.ClosePath(item.value.id))
      ensures item.None? || !HasSubMenu(item.value) ==> state == old(state)
      ensures listening == old(listening) && menuRefs == old(menuRefs) && itemRefs == old(itemRefs)
      ensures Reducer.NoDup(old(state.currentPath)) ==> Reducer.NoDup(state.currentPath)
    {
      if item.Some? {
        ClosePath(item.value);
      }
    }

    method ToggleTrigger(item: Option<MenuItem>)
      requires Valid()
      modifies this
      ensures Valid()
      ensures item.Some? && HasSubMenu(item.value) && item.value.id in old(state.currentPath) ==>
                state == Step(old(state), Reducer.ClosePath(item.value.id))
      ensures item.Some? && HasSubMenu(item.value) && item.value.id !in old(state.currentPath) ==>
                state.currentPath == old(state.currentPath) + [item.value.id]
      ensures item.None? || !HasSubMenu(item.value) ==> state == old(state)
      ensures state.isOpen == old(state.isOpen) && state.items == old(state.items)
      ensures listening == old(listening) && menuRefs == old(menuRefs) && itemRefs == old(itemRefs)
      ensures Reducer.NoDup(old(state.currentPath)) ==> Reducer.NoDup(state.currentPath)
    {
      if item.Some? {
        if IsSubMenuOpen(item.value) {
          ClosePath(item.value);
        } else {
          if Reducer.NoDup(state.currentPath) {
            StepPreservesNoDup(state, Reducer.OpenPath(item.value.id));
          }
          OpenPath(item.value);
        }
      }
    }

    /** getMenuOffsetStyles of this file: `measure` is not needed, since
        only the button is measured. */
    function GetMenuOffsetStyles(currentItem: Option<MenuItem>, button: Rect, vp: Viewport, documentDir: string): (r: RemenuOffset)
      reads this
      ensures r.width == button.width && r.horizontal == LeadingKey(GetDirection(documentDir))
      ensures currentItem.Some? && currentItem.value.id in itemRefs ==>
                r.top == 0 && r.horizontalValue == button.width * Level(state.currentPath, currentItem)
      ensures currentItem.Some? && currentItem.value.id in itemRefs && currentItem.value.id !in state.currentPath ==>
                r.horizontalValue == 0
      ensures currentItem.None? || currentItem.value.id !in itemRefs ==>
                r == RemenuOffsetStyles(false, 0, button, vp, GetDirection(documentDir))
    {
      var registered := currentItem.Some? && currentItem.value.id in itemRefs;
      RemenuOffsetStyles(registered, Level(state.currentPath, currentItem), button, vp, GetDirection(documentDir))
    }
  }
}
