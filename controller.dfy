/** The controller returned by useNestedMenu in
    src/react-headless-nested-menu.tsx: the reducer state, the outside-click
    listener flag and the two element registries, updated in place. */
module Controller {
  import opened MenuTypes
  import opened Reducer
  import opened Geometry
  import opened DomPath
  import opened Registry

  class NestedMenu {
    /** The current snapshot of the reducer. */
    var state: State
    /** Whether the document-level click listener is attached. */
    var listening: bool
    /** menuRefs.current: panel elements, keyed by MenuKey. */
    var menuRefs: map<string, Element>
    /** itemRefs.current: item elements, keyed by item id. */
    var itemRefs: map<string, Element>

    /** The listener is attached exactly while the menu is open. */
    ghost predicate Valid()
      reads this
    {
      listening == state.isOpen
    }

    /** useNestedMenu({items, isOpen, defaultOpenPath, placement}); the mount
        effect attaches the listener when the menu starts open. */
    constructor (items: seq<MenuItem>, isOpen: bool, defaultOpenPath: seq<string>, placement: Placement)
      ensures Valid()
      ensures state == State(items, isOpen, defaultOpenPath, placement)
      ensures menuRefs == map[] && itemRefs == map[]
    {
      state := State(items, isOpen, defaultOpenPath, placement);
      listening := isOpen;
      menuRefs := map[];
      itemRefs := map[];
    }

    /** toggleMenu: detach the listener if the menu is open, dispatch
        `toggle`; after the re-render the effect attaches the listener if
        the menu is now open. */
    method ToggleMenu()
      modifies this
      ensures state == Step(old(state), Toggle)
      ensures state.isOpen == !old(state.isOpen) && state.currentPath == []
      ensures Valid()
      ensures menuRefs == old(menuRefs) && itemRefs == old(itemRefs)
    {
      if state.isOpen {
        listening := false;
      }
      state := Step(state, Toggle);
      if state.isOpen {
        listening := true;
      }
    }

    /** openPath: dispatch `open-path` only for an item with a submenu. */
    method OpenPath(item: MenuItem)
      requires Valid()
      modifies this
      ensures Valid()
      ensures HasSubMenu(item) ==> state == Step(old(state), Action.OpenPath(item.id))
      ensures HasSubMenu(item) ==> state.currentPath == old(state.currentPath) + [item.id]
      ensures !HasSubMenu(item) ==> state == old(state)
      ensures state.isOpen == old(state.isOpen) && listening == old(listening)
      ensures menuRefs == old(menuRefs) && itemRefs == old(itemRefs)
    {
      if item.subMenu.Some? {
        state := Step(state, Action.OpenPath(item.id));
      }
    }

    /** closePath: dispatch `close-path` only for an item with a submenu. */
    method ClosePath(item: MenuItem)
      requires Valid()
      modifies this
      ensures Valid()
      ensures HasSubMenu(item) ==> state == Step(old(state), Action.ClosePath(item.id))
      ensures !HasSubMenu(item) ==> state == old(state)
      ensures state.isOpen == old(state.isOpen) && listening == old(listening)
      ensures menuRefs == old(menuRefs) && itemRefs == old(itemRefs)
      ensures NoDup(old(state.currentPath)) ==> NoDup(state.currentPath)
    {
      if item.subMenu.Some? {
        if NoDup(state.currentPath) {
          StepPreservesNoDup(state, Action.ClosePath(item.id));
        }
        state := Step(state, Action.ClosePath(item.id));
      }
    }

    /** isSubMenuOpen: `currentPath.indexOf(item.id) !== -1`. */
    function IsSubMenuOpen(item: MenuItem): (open: bool)
      reads this
      ensures open <==> item.id in state.currentPath
    {
      JsArray.IndexOf(state.currentPath, item.id) != -1
    }

    /** getItemPath: the path a submenu of `item` would have. */
    function GetItemPath(item: MenuItem): (p: seq<string>)
      reads this
      ensures |p| == |state.currentPath| + 1
      ensures p[..|state.currentPath|] == state.currentPath && p[|state.currentPath|] == item.id
    {
      state.currentPath + [item.id]
    }

    /** The ref callback of getMenuProps: record a mounted panel element
        under MenuKey(item); a null node changes nothing. */
    method RegisterMenu(item: Option<MenuItem>, node: Option<Element>)
      requires Valid()
      modifies this
      ensures Valid()
      ensures node.Some? ==> menuRefs == old(menuRefs)[MenuKey(item) := node.value]
      ensures node.None? ==> menuRefs == old(menuRefs)
      ensures state == old(state) && listening == old(listening) && itemRefs == old(itemRefs)
    {
      if node.Some? {
        menuRefs := menuRefs[MenuKey(item) := node.value];
      }
    }

    /** The ref callback of getItemProps: record a mounted item element
        under its id; a null node changes nothing. */
    method RegisterItem(item: MenuItem, node: Option<Element>)
      requires Valid()
      modifies this
      ensures Valid()
      ensures node.Some? ==> itemRefs == old(itemRefs)[item.id := node.value]
      ensures node.None? ==> itemRefs == old(itemRefs)
      ensures state == old(state) && listening == old(listening) && menuRefs == old(menuRefs)
    {
      if node.Some? {
        itemRefs := itemRefs[item.id := node.value];
      }
    }

    /** globalClickHandler, given the event path that getEventPath computed:
        a click outside every registered item and panel closes an open menu. */
    method GlobalClick(path: seq<Target>)
      requires Valid()
      modifies this
      ensures Valid()
      ensures var outside := !IsClickInside(path, old(itemRefs), old(menuRefs));
        if outside && old(state.isOpen)
        then !state.isOpen && state.currentPath == [] && !listening
        else state == old(state) && listening == old(listening)
      ensures state.items == old(state.items) && state.placement == old(state.placement)
      ensures menuRefs == old(menuRefs) && itemRefs == old(itemRefs)
    {
      var isClickInside := IsClickInside(path, itemRefs, menuRefs);
      if !isClickInside && state.isOpen {
        ToggleMenu();
      }
    }

    /** The handler of getOpenTriggerProps: open only an item with a submenu
        that is not already on the path. */
    method OpenTrigger(item: MenuItem)
      requires Valid()
      modifies this
      ensures Valid()
      ensures if HasSubMenu(item) && item.id !in old(state.currentPath)
              then state == Step(old(state), Action.OpenPath(item.id)) &&
                   state.currentPath == old(state.currentPath) + [item.id]
              else state == old(state)
      ensures state.isOpen == old(state.isOpen) && state.items == old(state.items)
      ensures listening == old(listening) && menuRefs == old(menuRefs) && itemRefs == old(itemRefs)
      ensures NoDup(old(state.currentPath)) ==> NoDup(state.currentPath)
    {
      if item.subMenu.Some? && item.id !in state.currentPath {
        if NoDup(state.currentPath) {
          StepPreservesNoDup(state, Action.OpenPath(item.id));
        }
        OpenPath(item);
      }
    }

    /** The handler of getCloseTriggerProps: close the given item, if any. */
    method CloseTrigger(item: Option<MenuItem>)
      requires Valid()
      modifies this
      ensures Valid()
      ensures item.Some? && HasSubMenu(item.value) ==> state == Step(old(state), Action.ClosePath(item.value.id))
      ensures item.None? || !HasSubMenu(item.value) ==> state == old(state)
      ensures listening == old(listening) && menuRefs == old(menuRefs) && itemRefs == old(itemRefs)
      ensures NoDup(old(state.currentPath)) ==> NoDup(state.currentPath)
    {
      if item.Some? {
        ClosePath(item.value);
      }
    }

    /** The handler of getToggleTriggerProps: close the item if its submenu
        is open, open it otherwise. */
    method ToggleTrigger(item: Option<MenuItem>)
      requires Valid()
      modifies this
      ensures Valid()
      ensures item.Some? && HasSubMenu(item.value) && item.value.id in old(state.currentPath) ==>
                state == Step(old(state), Action.ClosePath(item.value.id))
      ensures item.Some? && HasSubMenu(item.value) && item.value.id !in old(state.currentPath) ==>
                state == Step(old(state), Action.OpenPath(item.value.id)) &&
                state.currentPath == old(state.currentPath) + [item.value.id]
      ensures item.None? || !HasSubMenu(item.value) ==> state == old(state)
      ensures state.isOpen == old(state.isOpen) && state.items == old(state.items)
      ensures listening == old(listening) && menuRefs == old(menuRefs) && itemRefs == old(itemRefs)
      ensures NoDup(old(state.currentPath)) ==> NoDup(state.currentPath)
    {
      if item.Some? {
        if IsSubMenuOpen(item.value) {
          ClosePath(item.value);
        } else {
          if NoDup(state.currentPath) {
            StepPreservesNoDup(state, Action.OpenPath(item.value.id));
          }
          OpenPath(item.value);
        }
      }
    }

    /** getMenuOffsetStyles: the panel of a registered item hangs from that
        item; the root panel, and the panel of an item whose element was
        never registered, hang from the toggle button. `measure` stands for
        getBoundingClientRect, `button` for the toggle button's rectangle
        `documentDir` for document.dir, and `placement` for the hook's
        current `placement` argument (the copy kept in the reducer state is
        never read). */
    function GetMenuOffsetStyles(currentItem: Option<MenuItem>, measure: Element -> Rect,
                                 button: Rect, vp: Viewport, documentDir: string, placement: Placement): (r: Offset)
      reads this
      ensures currentItem.Some? && currentItem.value.id in itemRefs ==>
                r == Offset(TopKey, 0, LeadingKey(GetDirection(documentDir)), measure(itemRefs[currentItem.value.id]).width)
      ensures currentItem.None? || currentItem.value.id !in itemRefs ==>
                r == MenuOffsetStyles(None, button, vp, GetDirection(documentDir), placement)
    {
      var item := if currentItem.Some? && currentItem.value.id in itemRefs
                  then Some(measure(itemRefs[currentItem.value.id])) else None;
      MenuOffsetStyles(item, button, vp, GetDirection(documentDir), placement)
    }
  }

  /** A verified client scenario (what a caller can prove from the
      contracts alone): toggle open, open B, try to open the
      leaf B1 (ignored, it has no submenu), close B, toggle closed. */
  method EndToEndScenario() {
    var b1 := MenuItem("B1", "B1", None);
    var b2 := MenuItem("B2", "B2", None);
    var a := MenuItem("A", "A", None);
    var b := MenuItem("B", "B", Some([b1, b2]));
    var c := MenuItem("C", "C", None);
    var menu := new NestedMenu([a, b, c], false, [], DefaultPlacement);
    menu.ToggleMenu();
    assert menu.state.isOpen && menu.state.currentPath == [] && menu.listening;
    menu.OpenTrigger(b);
    assert menu.state.currentPath == ["B"];
    assert menu.IsSubMenuOpen(b) && !menu.IsSubMenuOpen(a);
    menu.OpenPath(b1);
    assert menu.state.currentPath == ["B"];
    menu.ClosePath(b);
    OpenCloseRoundTrip(State([a, b, c], true, [], DefaultPlacement), "B");
    assert menu.state.currentPath == [];
    menu.ToggleMenu();
    assert !menu.state.isOpen && !menu.listening;
  }
}
