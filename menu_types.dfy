/** The value types shared by both versions of the hook. */
module MenuTypes {

  datatype Option<T> = None | Some(value: T)

  /** A menu entry (`caption` is the source's `label`, a reserved word here); `subMenu` is `Some` whenever the property is present,
      even as an empty array, because JavaScript treats every array as truthy. */
  datatype MenuItem = MenuItem(id: string, caption: string, subMenu: Option<seq<MenuItem>>)

  /** Preferred side of the root panel relative to the toggle button. */
  datatype Placement = Top | Bottom | Start | End

  /** The placement used when the caller gives none. */
  const DefaultPlacement: Placement := End

  /** Text direction of the document. */
  datatype Direction = Ltr | Rtl

  /** An opaque host element; equality is reference identity. */
  datatype Element = Element(handle: nat)

  /** The truthiness test `if (item.subMenu)`. */
  predicate HasSubMenu(item: MenuItem) {
    item.subMenu.Some?
  }
}
