/** The element registries of the hook and the inside test of its global
    click handler, shared by both versions. */
module Registry {
  import opened MenuTypes
  import opened DomPath

  /** The registry key of a menu panel, `item?.id || 'root'`: the root panel
      and an item whose id is the empty string both map to "root". */
  function MenuKey(item: Option<MenuItem>): (k: string)
    ensures item.Some? && item.value.id != "" ==> k == item.value.id
    ensures item.None? || item.value.id == "" ==> k == "root"
  {
    if item.Some? && item.value.id != "" then item.value.id else "root"
  }

  /** The root key is not reserved: an item whose id is "root" shares the
      root panel's registry slot. */
  lemma RootKeyCollides(item: MenuItem)
    requires item.id == "root"
    ensures MenuKey(Some(item)) == MenuKey(None)
  {
  }

  /** One entry of the event path is a registered item or menu element. */
  predicate Hit(t: Target, itemRefs: map<string, Element>, menuRefs: map<string, Element>) {
    t.Node? && (t.node in itemRefs.Values || t.node in menuRefs.Values)
  }

  /** `path.some(target => target !== null && (items.indexOf(target) !== -1 ||
      menus.indexOf(target) !== -1))`, where `items` and `menus` are the
      values of the two registries. Path entries are never null here. */
  function IsClickInside(path: seq<Target>, itemRefs: map<string, Element>, menuRefs: map<string, Element>): (inside: bool)
    ensures inside <==> exists i :: 0 <= i < |path| && path[i].Node? &&
                          (exists k :: (k in itemRefs && itemRefs[k] == path[i].node) ||
                                       (k in menuRefs && menuRefs[k] == path[i].node))
  {
    if path == [] then false
    else
      var rest := IsClickInside(path[1..], itemRefs, menuRefs);
      assert forall i :: 1 <= i < |path| ==> path[i] == path[1..][i - 1];
      Hit(path[0], itemRefs, menuRefs) || rest
  }

}
