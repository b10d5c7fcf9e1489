# react-headless-nested-menu in Dafny

A model of `useNestedMenu`, a headless controller for nested popup menus, in
its two versions (`src/react-headless-nested-menu.tsx` and the older
`src/remenu.tsx`), together with the DOM helpers of `src/utils.ts`.

- `JsArray` — JavaScript's `indexOf` (first index, or -1) and `splice(start)`
  (a negative start counts from the end), exactly as the runtime defines them.
- `MenuTypes` — menu items, placement, text direction, opaque elements.
- `Reducer` — the path state machine: `Step(State, Action): State` for
  `toggle`, `open-path` and `close-path`, with its laws (round trip of
  open/close, closing an ancestor closes its descendants, duplicate-freeness).
- `Geometry` — `getMenuOffsetStyles` as a pure function of the item
  rectangle, the toggle-button rectangle, the viewport, the direction and the
  placement.
- `DomPath` — `getDirection`, `getPath` (a loop up the parent chain, then the
  `document` and `window` sentinels) and the reachable part of `getEventPath`.
- `Registry` — the menu registry key and the inside test of the global click
  handler.
- `Controller` — class `NestedMenu`: the reducer state, a flag for the
  document click listener, the two element registries, and the operations and
  trigger handlers the hook returns, and `EndToEndScenario`, a verified
  client scenario (toggle open, open a submenu, ignore a leaf, close, toggle
  closed) showing what a caller can prove from the contracts alone.
- `Remenu` — the older version: its own reducer (proved equal to the main
  one), its own class, and its `level`-based offset rule.

The hook's state is a React reducer whose draft is mutated under immer but
whose snapshots are immutable; it is modelled as a pure function, and the
class replaces its `state` field with each new snapshot. The registries are
dictionaries updated in place; they are `map` fields of the class. The
listener flag models `addEventListener`/`removeEventListener`: `toggleMenu`
clears it when the menu is open, and the effect that runs after the re-render
sets it when the menu is open. The class invariant `Valid()` says the listener
is attached exactly while the menu is open; every mutating method requires
and ensures it, and `ToggleMenu` establishes it from any state.

Host inputs are parameters: element measurement is a function
`Element -> Rect`, the toggle button's rectangle, `window.innerWidth/innerHeight`
and `document.dir` are arguments, and the event path passed to the click
handler is the one `DomPath.GetEventPath` computes. The parent chain of
`getPath` is a function `Element -> Option<Element>` with a depth ranking that
strictly decreases towards the root, which stands for the acyclicity of the DOM.

## Behaviour worth knowing

- Closing an id that is not on the path is not a no-op: `splice(indexOf(id))`
  is then `splice(-1)`, which removes the last entry of a non-empty path
  (`Reducer.Step`, `Reducer.CloseAbsentNotIdempotent`). The close trigger calls
  `closePath` for any item with a submenu, so leaving an item whose submenu is
  not open also drops the deepest open submenu.
- The default placement is `end` (react-headless-nested-menu.tsx:97). For
  `end` the root panel has `top = button.top` and the horizontal value
  `button.right` (ltr) or `innerWidth - button.left` (rtl). For `start` the
  horizontal value is `innerWidth - button.left` (ltr) or `button.right`
  (rtl); the toggle button's width plays no part.
- A panel for an item without a registered element falls back to the
  root-panel branch; no measurement is read as zero. A missing toggle button
  would throw, so the model takes the button's rectangle as an argument.
- The root panel's registry key `'root'` is not reserved: an item whose id is
  `"root"` or `""` shares it (`Registry.RootKeyCollides`).
- `getMenuOffsetStyles` reads the hook's current `placement` argument; the
  copy stored in the reducer state (react-headless-nested-menu.tsx:103) is
  never read. `Controller.NestedMenu.GetMenuOffsetStyles` therefore takes the
  placement as an argument.

## Model

| member | source | states |
|---|---|---|
| JsArray.IndexOf | src/react-headless-nested-menu.tsx:64 | -1 exactly when the id is absent; otherwise an index holding the id with no earlier occurrence |
| JsArray.Splice | src/react-headless-nested-menu.tsx:65 | the array left by `splice(start)`: the prefix up to the start, clamped, with a negative start counted from the end |
| JsArray.SpliceNotFound | src/react-headless-nested-menu.tsx:64-65 | `splice(-1)` drops the last element of a non-empty array and leaves an empty one empty |
| Reducer.Step | src/react-headless-nested-menu.tsx:53-70 | toggle flips isOpen and empties the path; open-path appends the id; close-path of a present id keeps the prefix strictly before its first occurrence; close-path of an absent id drops the last entry; items and placement never change |
| Reducer.CloseAncestorDropsDescendants | src/react-headless-nested-menu.tsx:63-65 | closing an id whose first occurrence follows `pre` leaves exactly `pre`, dropping every descendant |
| Reducer.CloseExample | src/react-headless-nested-menu.tsx:63-65 | [a,b,c] closed at b gives [a], closed at a gives [] |
| Reducer.OpenCloseRoundTrip | src/react-headless-nested-menu.tsx:60-65 | for an id not on the path, open then close restores the whole state |
| Reducer.OpenedThenClosed | src/react-headless-nested-menu.tsx:60-65 | after an open the id is on the path; after the following close it is not |
| Reducer.ToggleTwice | src/react-headless-nested-menu.tsx:55-57 | toggling twice restores isOpen but leaves the path empty |
| Reducer.CloseAbsentNotIdempotent | src/react-headless-nested-menu.tsx:63-65 | two closes of an absent id on a path of length two or more remove two entries, so the second close is not a no-op |
| Reducer.StepPreservesNoDup | src/react-headless-nested-menu.tsx:53-70 | toggle, close, and an open of an id not on the path keep a duplicate-free path duplicate-free |
| Geometry.Styles | src/react-headless-nested-menu.tsx:244-247 | the style object has exactly two keys, one of top/bottom and one of left/right, holding the two values |
| Geometry.MenuOffsetStyles | src/react-headless-nested-menu.tsx:190-248 | a registered item gives top 0 and its width on the leading side for every placement; the root panel follows the placement table (top: bottom = innerHeight - button.top; bottom: top = button.bottom; start: the opposite key; end: top = button.top and button.right or innerWidth - button.left) |
| Geometry.RtlMirrorsLtr | src/react-headless-nested-menu.tsx:194-242 | every rtl result is the ltr result for the mirrored button with the horizontal key swapped |
| Geometry.SubmenuDirection | src/react-headless-nested-menu.tsx:200-203 | a submenu's horizontal key is left in ltr and right in rtl, with the same value |
| DomPath.GetDirection | src/utils.ts:17 | rtl exactly when document.dir is "rtl" |
| DomPath.WithSentinels | src/utils.ts:27-28 | `document` is appended only if neither sentinel is present, `window` only if absent; the result always contains `window` |
| DomPath.GetPath | src/utils.ts:19-30 | the loop returns the parent chain of the target followed by the sentinels |
| DomPath.ChainFollowsParents | src/utils.ts:20-26 | the chain starts at the target, each entry is followed by its parentElement, and the last has none |
| DomPath.NodeChainHasNoSentinels | src/utils.ts:22-26 | a walk from an element node never meets `document` or `window` |
| DomPath.NodePathEndsWithSentinels | src/utils.ts:21-28 | for an element target getPath appends both sentinels; a null target gives [document, window] |
| DomPath.EnsureWindow | src/utils.ts:36-39 | a path already holding `window` is unchanged, otherwise `window` is appended |
| DomPath.GetEventPath | src/utils.ts:32-40 | composedPath() or else getPath of the target, with `window` ensured; the result contains `window` |
| Registry.MenuKey | src/react-headless-nested-menu.tsx:171-174 | the item id when it is non-empty, "root" for no item or an empty id |
| Registry.RootKeyCollides | src/react-headless-nested-menu.tsx:171-174 | an item with id "root" shares the root panel's key |
| Registry.IsClickInside | src/react-headless-nested-menu.tsx:109-115 | true exactly when some element of the event path is a value of the item or the menu registry |
| Controller.NestedMenu.constructor | src/react-headless-nested-menu.tsx:93-104 | the initial state from the options, empty registries, listener attached iff open |
| Controller.NestedMenu.ToggleMenu | src/react-headless-nested-menu.tsx:124-137 | isOpen flips, the path empties, the listener is attached iff the menu is now open, registries unchanged |
| Controller.NestedMenu.OpenPath | src/react-headless-nested-menu.tsx:139-146 | appends the id for an item with a submenu (even an empty one); otherwise nothing changes |
| Controller.NestedMenu.ClosePath | src/react-headless-nested-menu.tsx:148-155 | dispatches close-path for an item with a submenu, otherwise nothing changes; keeps a duplicate-free path so |
| Controller.NestedMenu.IsSubMenuOpen | src/react-headless-nested-menu.tsx:157 | true exactly when the id is on the current path |
| Controller.NestedMenu.GetItemPath | src/react-headless-nested-menu.tsx:285 | the current path with the id appended, state untouched |
| Controller.NestedMenu.RegisterMenu | src/react-headless-nested-menu.tsx:168-177 | a non-null node is stored under MenuKey(item); other keys and a null node change nothing |
| Controller.NestedMenu.RegisterItem | src/react-headless-nested-menu.tsx:179-188 | a non-null node is stored under the item id; other keys and a null node change nothing |
| Controller.NestedMenu.GlobalClick | src/react-headless-nested-menu.tsx:106-122 | the menu closes, its path empties and the listener is detached iff it was open and the click was outside every registered element; otherwise nothing changes |
| Controller.NestedMenu.OpenTrigger | src/react-headless-nested-menu.tsx:250-259 | for an item with a submenu whose id is not on the path the new state is exactly the open-path step; otherwise nothing changes, so it never duplicates an id |
| Controller.NestedMenu.CloseTrigger | src/react-headless-nested-menu.tsx:261-268 | closes the given item, does nothing without one |
| Controller.NestedMenu.ToggleTrigger | src/react-headless-nested-menu.tsx:270-283 | the new state is exactly the close-path step for an open item and the open-path step for a closed one; keeps a duplicate-free path so |
| Controller.NestedMenu.GetMenuOffsetStyles | src/react-headless-nested-menu.tsx:190-206 | a registered item's panel hangs one item width out on the leading side; the root and an unregistered item use the root branch for the given placement |
| Remenu.Step | src/remenu.tsx:40-57 | items never change under any action |
| Remenu.StepMatchesMain | src/remenu.tsx:40-57 | this reducer equals the main file's on every state and action, placement aside |
| Remenu.CloseAbsentDropsLast | src/remenu.tsx:50-53 | closing an absent id on a non-empty path drops its last entry |
| Remenu.StepPreservesNoDup | src/remenu.tsx:40-57 | toggle, close and an open of an absent id keep the path duplicate-free |
| Remenu.Level | src/remenu.tsx:167-172 | 0 on an empty path; otherwise 1 iff the item is given and on the path, else 0 |
| Remenu.RemenuOffsetStyles | src/remenu.tsx:173-186 | horizontal key by direction; width is the button width; a registered item gets top 0 and button.width * level; the root gets button.top and button.right or innerWidth - button.left |
| Remenu.RemenuStyles | src/remenu.tsx:182-186 | the style object has exactly the keys top, width and left or right |
| Remenu.Remenu.constructor | src/remenu.tsx:70-79 | the initial state from the options, empty registries, listener attached iff open |
| Remenu.Remenu.ToggleMenu | src/remenu.tsx:99-112 | isOpen flips, the path empties, the listener is attached iff open |
| Remenu.Remenu.OpenPath | src/remenu.tsx:114-121 | appends the id for an item with a submenu, otherwise nothing changes |
| Remenu.Remenu.ClosePath | src/remenu.tsx:123-130 | dispatches close-path for an item with a submenu, otherwise nothing changes |
| Remenu.Remenu.IsSubMenuOpen | src/remenu.tsx:132 | true exactly when the id is on the path |
| Remenu.Remenu.GetItemPath | src/remenu.tsx:224 | the current path with the id appended |
| Remenu.Remenu.RegisterMenu | src/remenu.tsx:143-152 | a non-null node is stored under MenuKey(item) |
| Remenu.Remenu.RegisterItem | src/remenu.tsx:154-163 | a non-null node is stored under the item id |
| Remenu.Remenu.GlobalClick | src/remenu.tsx:81-97 | closes an open menu iff the click was outside every registered element |
| Remenu.Remenu.OpenTrigger | src/remenu.tsx:189-198 | never appends an id already on the path |
| Remenu.Remenu.CloseTrigger | src/remenu.tsx:200-207 | closes the given item, does nothing without one |
| Remenu.Remenu.ToggleTrigger | src/remenu.tsx:209-222 | closes an open item, opens a closed one, never duplicating an id |
| Remenu.Remenu.GetMenuOffsetStyles | src/remenu.tsx:165-187 | a registered item off the path gets horizontal offset 0; the root and an unregistered item use the root branch; width is the button width |

## Left out

- React machinery (`useReducer`, `useEffect`, `useCallback`, `useRef`) and immer: the reducer is a pure function and the refs are class fields.
- Attaching and detaching the document listener is a boolean flag; which handler closure is registered, and the captured `isOpen` inside it, are not modelled.
- `event.stopPropagation()` in the close and toggle handlers: event plumbing with no effect on the menu state.
- The event name of the trigger prop builders (`onPointerEnter`, `onPointerLeave`, `onClick`) only names the prop; each trigger is a method for its handler.
- `getToggleButtonProps` only calls `toggleMenu` and attaches `toggleButtonRef`; the button's rectangle is an argument of the offset functions.
- The `anchorRef`/`menuRef` assignments in the open and toggle triggers and the commented-out `HitArea` are unfinished in the source and left out.
- `handleRefs` (src/utils.ts:5-15) is React ref fan-out.
- The tail of `getEventPath` after `if (path !== null)` (src/utils.ts:42-56) never runs.
- `getBoundingClientRect` values are floating point in the browser (`innerWidth`/`innerHeight` are integers); here all of them are integers, and only selection, subtraction and, in the older version, multiplication by a `level` of 0 or 1 are done on them.
- The registries are plain JavaScript objects inheriting from `Object.prototype`; here they are maps, so ids that name `Object.prototype` members behave differently in the source: `itemRefs['__proto__'] = node` sets the prototype instead of a key, so `Object.keys` misses that element and a click on it counts as outside; and an unregistered id such as `"toString"` or `"constructor"` looks up a truthy inherited function, so the main version's `getMenuOffsetStyles` throws and the older one takes the registered-item branch, where the model takes the root branch.
- The hook's default arguments (`items = []`, `isOpen = false`, `defaultOpenPath = []`, `placement = 'end'`) are not modelled as defaults: the constructors take every option, and callers pass the defaults explicitly (`MenuTypes.DefaultPlacement` names the default placement).
- `Registry.IsClickInside`: the `target !== null` guard is not modelled, because paths here hold only elements and the two sentinels.
- tools/gh-pages-publish.ts (publishing) and test/react-headless-nested-menu.test.tsx (DOM rendering) are not part of this model.
