/** getMenuOffsetStyles of src/react-headless-nested-menu.tsx: where a panel
    is placed, from the measured rectangles, the viewport, the text
    direction and the configured placement. Pixel values are integers. */
module Geometry {
  import opened MenuTypes

  /** The fields of a bounding client rectangle that the placement reads. */
  datatype Rect = Rect(top: int, bottom: int, left: int, right: int, width: int)

  /** window.innerWidth and window.innerHeight. */
  datatype Viewport = Viewport(innerWidth: int, innerHeight: int)

  datatype VerticalKey = TopKey | BottomKey
  datatype HorizontalKey = LeftKey | RightKey

  /** The two-key style record `{[vertical]: verticalValue, [horizontal]: horizontalValue}`. */
  datatype Offset = Offset(vertical: VerticalKey, verticalValue: int, horizontal: HorizontalKey, horizontalValue: int)

  function VerticalName(k: VerticalKey): string {
    match k
    case TopKey => "top"
    case BottomKey => "bottom"
  }

  function HorizontalName(k: HorizontalKey): string {
    match k
    case LeftKey => "left"
    case RightKey => "right"
  }

  /** The key on the leading side of the text direction. */
  function LeadingKey(dir: Direction): HorizontalKey {
    if dir == Ltr then LeftKey else RightKey
  }

  function Opposite(k: HorizontalKey): HorizontalKey {
    if k == LeftKey then RightKey else LeftKey
  }

  /** The style object as the source builds it: exactly two keys, one
      vertical and one horizontal. */
  function Styles(o: Offset): (m: map<string, int>)
    ensures m.Keys == {VerticalName(o.vertical), HorizontalName(o.horizontal)}
    ensures |m.Keys| == 2
    ensures m[VerticalName(o.vertical)] == o.verticalValue
    ensures m[HorizontalName(o.horizontal)] == o.horizontalValue
  {
    var m := map[VerticalName(o.vertical) := o.verticalValue, HorizontalName(o.horizontal) := o.horizontalValue];
    assert VerticalName(o.vertical) != HorizontalName(o.horizontal);
    m
  }

  /** The offsets of a panel. `item` is the rectangle of the registered
      item the panel hangs from, or None for the root panel and for an item
      that has no registered element. The `let` variables of the source are
      set first and then overridden branch by branch, as there. */
  function MenuOffsetStyles(item: Option<Rect>, button: Rect, vp: Viewport, dir: Direction, placement: Placement): (r: Offset)
    // A registered item: flush with the item's top, one item width out on the leading side.
    ensures item.Some? ==> r == Offset(TopKey, 0, LeadingKey(dir), item.value.width)
    // The root panel (or an unregistered item): the per-placement table.
    ensures item.None? && placement == Top ==>
              r.vertical == BottomKey && r.verticalValue == vp.innerHeight - button.top &&
              r.horizontal == LeadingKey(dir) &&
              r.horizontalValue == (if dir == Ltr then button.left else vp.innerWidth - button.right)
    ensures item.None? && placement == Bottom ==>
              r.vertical == TopKey && r.verticalValue == button.bottom &&
              r.horizontal == LeadingKey(dir) &&
              r.horizontalValue == (if dir == Ltr then button.left else vp.innerWidth - button.right)
    ensures item.None? && placement == Start ==>
              r.vertical == TopKey && r.verticalValue == button.top &&
              r.horizontal == Opposite(LeadingKey(dir)) &&
              r.horizontalValue == (if dir == Ltr then vp.innerWidth - button.left else button.right)
    ensures item.None? && placement == End ==>
              r.vertical == TopKey && r.verticalValue == button.top &&
              r.horizontal == LeadingKey(dir) &&
              r.horizontalValue == (if dir == Ltr then button.right else vp.innerWidth - button.left)
  {
    var isItem := item.Some?;
    var itemWidth := if isItem then item.value.width else 0;
    var rootXEnd := if dir == Ltr then button.right else vp.innerWidth - button.left;
    var vertical := TopKey;
    var horizontal := if dir == Ltr then LeftKey else RightKey;
    var verticalValue := if isItem then 0 else button.top;
    var horizontalValue := if isItem then itemWidth else rootXEnd;
    if dir == Ltr then
      match placement
      case Top =>
        Offset(if isItem then TopKey else BottomKey,
               if isItem then 0 else vp.innerHeight - button.top,
               horizontal,
               if isItem then itemWidth else button.left)
      case Bottom =>
        Offset(vertical, if isItem then 0 else button.bottom,
               horizontal, if isItem then itemWidth else button.left)
      case Start =>
        Offset(vertical, verticalValue,
               if isItem then LeftKey else RightKey,
               if isItem then itemWidth else vp.innerWidth - button.left)
      case End =>
        Offset(vertical, verticalValue, horizontal, horizontalValue)
    else
      match placement
      case Top =>
        Offset(if isItem then TopKey else BottomKey,
               if isItem then 0 else vp.innerHeight - button.top,
               RightKey,
               if isItem then itemWidth else vp.innerWidth - button.right)
      case Bottom =>
        Offset(vertical, if isItem then 0 else button.bottom,
               horizontal, if isItem then itemWidth else vp.innerWidth - button.right)
      case Start =>
        Offset(vertical, verticalValue,
               if isItem then RightKey else LeftKey,
               if isItem then itemWidth else button.right)
      case End =>
        Offset(vertical, verticalValue, horizontal, horizontalValue)
  }

  /** The button rectangle reflected about the vertical centre line of the viewport. */
  function MirrorRect(b: Rect, vp: Viewport): (m: Rect)
    ensures m.left == vp.innerWidth - b.right && m.right == vp.innerWidth - b.left
    ensures m.width == b.width && m.top == b.top && m.bottom == b.bottom
  {
    b.(left := vp.innerWidth - b.right, right := vp.innerWidth - b.left)
  }

  /** An offset with its horizontal key swapped. */
  function Mirror(o: Offset): Offset {
    o.(horizontal := Opposite(o.horizontal))
  }

  /** Direction awareness: every right-to-left placement is the
      left-to-right placement of the mirrored button with the horizontal key
      swapped, so no branch hard-codes `left`. */
  lemma RtlMirrorsLtr(item: Option<Rect>, button: Rect, vp: Viewport, placement: Placement)
    ensures MenuOffsetStyles(item, button, vp, Rtl, placement)
         == Mirror(MenuOffsetStyles(item, MirrorRect(button, vp), vp, Ltr, placement))
  {
  }

  /** With the item width fixed, a submenu's horizontal key is `right` in rtl
      and `left` in ltr, and its value is the same in both. */
  lemma SubmenuDirection(r: Rect, button: Rect, vp: Viewport, placement: Placement)
    ensures MenuOffsetStyles(Some(r), button, vp, Ltr, placement).horizontal == LeftKey
    ensures MenuOffsetStyles(Some(r), button, vp, Rtl, placement).horizontal == RightKey
    ensures MenuOffsetStyles(Some(r), button, vp, Ltr, placement).horizontalValue
         == MenuOffsetStyles(Some(r), button, vp, Rtl, placement).horizontalValue
  {
  }
}
