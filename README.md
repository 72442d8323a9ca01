# Collapsify panel controller, modelled in Dafny

Collapsify drives accordion-style panels. Content elements carry a
`data-<nameSpace>-content="<id>"` attribute and buttons carry
`data-<nameSpace>-control="<id>"`. The `Collapsify` class keeps one
`itemsState[id] = {isOpen, isAnimating}` record per panel. It opens and
closes panels, and it reports each transition through the
`onSlideStart(isOpen, id)` and `onSlideEnd(isOpen, id)` callbacks. The
repository holds two copies of the class: `src/js/Collapsify.js` and
`src/js/_Collapsify.ts`. Their state logic is the same line for line, so one
model serves both. The copies differ in three places:

- the class token `open` adds, which `Presentation` models in both variants;
- the test for the active marker (`classList.contains` in JavaScript,
  `jsui.matches` in TypeScript), which the model reduces to a boolean per
  element;
- the `itemsState = {}` field initializer, which only the TypeScript copy
  has. The model follows the TypeScript copy (see "Left out").

The model has five modules:

- `CollapsifyOptions` (options.dfy) covers the constructor's option merge
  `{...defaultOptions, ..._options}`. The attribute names are derived from
  the caller's `nameSpace`.
- `PanelMachine` (panel_machine.dfy) is the value-level state machine. A
  `Machine` holds `items` (the `itemsState` map), `log` (every callback
  invoked, in order) and `pending` (the `setTimeout(…, animationSpeed)`
  closures not yet run, oldest first). `AfterOpen`, `AfterClose`,
  `AfterToggle`, `AfterInit`, `AfterFire` and `AfterDrain` give the state
  each operation leaves.
- `PanelProperties` (panel_properties.dfy) holds the lemmas about those
  functions.
- `Controller` (controller.dfy) is the `Collapsify` class itself. Its
  fields are `itemsState`, the callback `log` and the `pending` timers, and
  its methods update them in place with the source's own loops. Each method
  is proved to leave exactly the state the matching `PanelMachine` function
  describes.
- `Presentation` (presentation.dfy) covers the class token `open` adds, the
  token `close` removes, and the `(clientHeight || "1000")` height fallback.
  `Scenarios` (scenarios.dfy) works one concrete accordion through
  construction, a click and the timers.

The document enters the model in only two ways:

- the content elements found at construction (id and whether they carry
  `activeClass`);
- the set of ids for which `document.querySelector` finds a content element.

The lemmas that describe a whole `open` assume one thing about the
environment (`EnvOk`): every content element found at construction is
still in the document. Under that assumption no `close` issued by `open`
can throw.

Where the code and the project's own description disagree, the model
follows the code:

- `toggleSlide` on an id with no `itemsState` entry closes it. It does not
  open it, because `itemsState[id]?.isOpen === false` fails for a missing
  entry.
- `open` and `close` never look at `isAnimating`. Only `toggleSlide` drops
  requests while a panel animates.
- `close` on an id with no content element is not ignored. It throws at the
  first use of the missing element, after it has already created the entry, set
  `isAnimating` and possibly called `onSlideStart(false, id)`. The panel is
  then stuck animating and every later toggle of it is dropped.
- An unanimated `close` calls `onSlideEnd(false, id)` even when
  `isRunCallback` is false. An unanimated `open` never calls `onSlideEnd`.
  During construction this reports `onSlideEnd(false, id)` for every panel
  that starts closed. With `closeOthers`, every marked panel's open closes
  all the other registered panels again, each with another
  `onSlideEnd(false, …)`. A panel can therefore be reported several times.
- The closes issued by `closeOthers` pass `isRunCallback = false`. So
  opening one panel reports no `onSlideStart(false, …)` for the others. When
  animated, it reports no `onSlideEnd(false, …)` for them either.
- On an element that already has a class, `open` adds the combined token
  `classList[0] + activeClass`. `close` removes only the bare
  `activeClass`, so the combined token stays after a close.
- The JavaScript copy adds no token to an element without a class. The
  TypeScript copy adds the bare `activeClass`.
- Neither copy has tab mode, a dropdown mode, `destroy` or an `onComplete`
  callback. The TypeScript copy keeps a commented-out `destroy`.

## Model

| member | source | states |
|---|---|---|
| CollapsifyOptions.MergeWithoutOverrides | src/js/Collapsify.js:6-22 | With no options: namespace "collapsify", attributes `data-collapsify-control` / `data-collapsify-content`, class "--is-active", animation and closeOthers on, speed 400, easing "ease-in-out" |
| CollapsifyOptions.NameSpaceOf | src/js/Collapsify.js:6 | No contract of its own: the caller's `nameSpace`, else "collapsify". MergePrefersCaller states how it feeds the attribute names |
| CollapsifyOptions.ControlAttr | src/js/Collapsify.js:9 | No contract of its own: `data-<nameSpace>-control`. DefaultAttrNames, ControlNeverContent and DerivedAttrsDetermineNameSpace state its properties |
| CollapsifyOptions.ContentAttr | src/js/Collapsify.js:10 | No contract of its own: `data-<nameSpace>-content`. DefaultAttrNames, ControlNeverContent and DerivedAttrsDetermineNameSpace state its properties |
| CollapsifyOptions.Defaults | src/js/Collapsify.js:7-18 | No contract of its own: the `defaultOptions` record for a namespace. MergeWithoutOverrides and MergePrefersCaller state its values |
| CollapsifyOptions.Merge | src/js/Collapsify.js:19-22 | No contract of its own: `{...defaultOptions, ..._options}`. MergeWithoutOverrides, MergePrefersCaller, MergeFullIsIdentity and MergedAttrsDiffer state its properties |
| CollapsifyOptions.DefaultAttrNames | src/js/Collapsify.js:9-10 | The default namespace derives `data-collapsify-control` and `data-collapsify-content` |
| CollapsifyOptions.MergePrefersCaller | src/js/_Collapsify.ts:69-90 | Each supplied option wins over its default, whatever else is supplied. An omitted attribute name is `data-<caller's nameSpace>-control/-content`. Every other omitted field takes its own default: "collapsify", "--is-active", animation on, closeOthers on, 400, "ease-in-out" |
| CollapsifyOptions.MergeFullIsIdentity | src/js/_Collapsify.ts:88-90 | Supplying every field yields exactly that configuration, so merging the defaults back in is idempotent |
| CollapsifyOptions.ControlNeverContent | src/js/Collapsify.js:9-10 | As strings, a derived control attribute name never equals a derived content attribute name, for any two namespaces |
| CollapsifyOptions.DerivedAttrsDetermineNameSpace | src/js/_Collapsify.ts:72-73 | As strings, equal derived attribute names imply equal namespaces |
| CollapsifyOptions.MergedAttrsDiffer | src/js/Collapsify.js:6-22 | When the caller names neither attribute, the merged button and content attribute names differ |
| PanelMachine.WithEntry | src/js/Collapsify.js:164-166 | The `hasOwnProperty` guard: the keys gain exactly `id`, an existing entry is kept, a new one is (closed, idle), and every other entry is unchanged |
| PanelMachine.AfterClose | src/js/Collapsify.js:162-205 | An empty id leaves the state unchanged. Otherwise the entry for the id exists afterwards, no other key is added, and every pending timer still names an existing entry |
| PanelMachine.CloseThrows | src/js/Collapsify.js:170-171 | No contract of its own: a non-empty id with no content element. Controller.Collapsify.Close proves `threw` equals it, and CloseWithoutContentSticks states the state it leaves |
| PanelMachine.AfterCloseOthers | src/js/_Collapsify.ts:192-197 | The closeOthers loop adds keys only. The opening panel's own entry is left untouched. Pending timers keep naming existing entries |
| PanelMachine.AfterOpen | src/js/Collapsify.js:80-157 | An empty id leaves the state unchanged. A non-empty id always has an entry afterwards, even when it has no content element. Pending timers keep naming existing entries |
| PanelMachine.AfterToggle | src/js/Collapsify.js:71-78 | Keys are only added and pending timers keep naming existing entries. ToggleWhileAnimatingIsNoop, ToggleFlipsKnownClosedOnly and ToggleUnknownIdCloses state its outcome |
| PanelMachine.ToggleThrows | src/js/Collapsify.js:73-77 | No contract of its own: the close branch is taken and that close throws. Controller.Collapsify.ToggleSlide proves `threw` equals it, and ToggleUnknownIdCloses relates it to CloseThrows |
| PanelMachine.AfterFire | src/js/Collapsify.js:144-150 | Running the oldest timer keeps the set of panels and keeps pending timers well-formed |
| PanelMachine.AfterDrain | src/js/_Collapsify.ts:247-257 | Running every timer keeps the set of panels |
| PanelMachine.AfterSeed | src/js/Collapsify.js:37-49 | One construction step: keys are only added, the element's id (if any) has an entry, and pending timers keep naming existing entries. SeedSettles and SeedStepCore state the rest |
| PanelMachine.AfterSeedAll | src/js/Collapsify.js:37-49 | The construction loop over a sequence of elements: keys are only added, every element with an id has an entry, and pending timers keep naming existing entries. SeedAllSeeded states the rest |
| PanelMachine.AfterInit | src/js/Collapsify.js:35-50 | The state after construction has an entry for every element with an id and well-formed timers. InitSettles states the rest |
| PanelProperties.ToggleWhileAnimatingIsNoop | src/js/Collapsify.js:72 | While `isAnimating` holds, `toggleSlide` changes nothing (no state, callback or timer) and cannot throw |
| PanelProperties.ToggleFlipsKnownClosedOnly | src/js/_Collapsify.ts:168-175 | For a non-animating panel with content: afterwards it is open iff it had an entry that was closed, `isAnimating` equals the `isAnimation` option, and nothing throws |
| PanelProperties.ToggleUnknownIdCloses | src/js/Collapsify.js:73-77 | A toggle of an id with no entry is exactly a `close`: it throws exactly when `close` does, and leaves the panel closed |
| PanelProperties.CloseOutcome | src/js/Collapsify.js:162-205 | Closing a present panel: its entry becomes (closed, animating iff animated). The callbacks logged are `onSlideStart(false)` iff requested, then `onSlideEnd(false)` iff unanimated. A timer is queued iff animated. Other entries are unchanged |
| PanelProperties.CloseEmptyIdIsNoop | src/js/_Collapsify.ts:276 | `close("")` changes nothing and does not throw |
| PanelProperties.CloseWithoutContentSticks | src/js/_Collapsify.ts:275-289 | Closing an id with no content element leaves its entry animating with `isOpen` as before, at most `onSlideStart(false)` logged and no timer. Every later toggle is dropped, and when no timer for the id was already pending, running all timers does not clear it |
| PanelProperties.OpenEmptyIdIsNoop | src/js/Collapsify.js:81 | `open("")` changes nothing |
| PanelProperties.OpenWithoutContent | src/js/Collapsify.js:82-88 | Opening an id with no content element only creates an idle entry if none existed. No callback, no timer, and existing entries are unchanged |
| PanelProperties.CloseOthersCallbacks | src/js/Collapsify.js:91-96 | The closeOthers loop logs `onSlideEnd(false, c)` for each other registered id when unanimated, or queues one silent close timer per id when animated, in document order |
| PanelProperties.CloseOthersItems | src/js/_Collapsify.ts:192-197 | After the closeOthers loop every other registered panel is (closed, animating iff animated), and every other entry is unchanged |
| PanelProperties.OpenOutcome | src/js/Collapsify.js:80-157 | Opening a present panel gives exact results. Its entry becomes (open, animating iff animated). The log gains the others' `onSlideEnd(false)` (unanimated only), then `onSlideStart(true)` iff requested. Pending gains the others' close timers, then its own. The closed entries and the untouched entries are stated |
| PanelProperties.OpenClosesOthers | src/js/_Collapsify.ts:180-266 | With closeOthers, after `open(id)` the panel is open and every other registered panel is closed |
| PanelProperties.FireOutcome | src/js/Collapsify.js:144-150 | A timer firing clears only its panel's `isAnimating`, keeps `isOpen`, and logs `onSlideEnd` iff the request asked for callbacks |
| PanelProperties.DrainCallbacks | src/js/_Collapsify.ts:312-316 | Running all timers empties the queue and appends their `onSlideEnd` callbacks in the order they were scheduled |
| PanelProperties.DrainItems | src/js/Collapsify.js:191-195 | After all timers run, each panel keeps `isOpen` and is still animating iff it was animating with no timer scheduled for it |
| PanelProperties.OpenThenSettle | src/js/Collapsify.js:140-156 | After an animated open and all its timers, the panel is open and idle. With closeOthers every other registered panel is closed and idle |
| PanelProperties.OpenCallbackOrder | src/js/_Collapsify.ts:198-248 | With callbacks on: `onSlideStart(true, id)` is the last callback `open` makes, and after the timers `onSlideEnd(true, id)` is the last one, with the earlier log kept as a prefix |
| PanelProperties.SeedSettles | src/js/Collapsify.js:37-49 | One construction step keeps the queue empty, every panel idle, only `onSlideEnd(false)` callbacks, and only registered ids, and it registers the element's id |
| PanelProperties.UnanimatedCloseSettles | src/js/Collapsify.js:44-45 | A silent, unanimated close of a registered panel during construction queues nothing, leaves nothing animating and logs only `onSlideEnd(false)` |
| PanelProperties.UnanimatedOpenSettles | src/js/Collapsify.js:46-47 | A silent, unanimated open of a marked panel during construction queues nothing, leaves nothing animating, logs only the others' `onSlideEnd(false)`, and adds only registered ids |
| PanelProperties.SeedStepCore | src/js/_Collapsify.ts:112-130 | Each construction step keeps the queue empty, every panel idle, only closing callbacks and only registered ids, and registers one more element |
| PanelProperties.SeedKeepsOneOpen | src/js/_Collapsify.ts:112-130 | With closeOthers, one construction step keeps at most one panel open |
| PanelProperties.LastMarked | src/js/Collapsify.js:40-47 | The id of the last marked element with an id: if non-empty it is the id of a marked element after which no element with an id is marked, and if empty no element with an id is marked |
| PanelProperties.SeedKeepsLastMarked | src/js/Collapsify.js:44-47 | With closeOthers and distinct ids, each construction step keeps open exactly the panel of the last marked element seen so far |
| PanelProperties.CloseKeepsOnlyOpen | src/js/Collapsify.js:44-45 | A silent, unanimated close of a panel other than the only open one keeps that panel the only open one |
| PanelProperties.OpenLeavesOnlyItOpen | src/js/_Collapsify.ts:192-197 | With closeOthers, a silent, unanimated open of a registered panel leaves it the only open panel among registered ids |
| PanelProperties.SeedKeepsMarkers | src/js/Collapsify.js:40-48 | Without closeOthers and with distinct ids, one construction step keeps every panel seen so far open iff its element carries `activeClass` |
| PanelProperties.SeedAllSeeded | src/js/_Collapsify.ts:110-131 | The construction loop, after any prefix of the elements, maintains all of the above |
| PanelProperties.InitSettles | src/js/Collapsify.js:35-50 | After construction: no timers, one entry per element with an id, all idle, only `onSlideEnd(false)` logged. With closeOthers at most one panel is open. With closeOthers and distinct ids, exactly the panel of the last marked element is open, or none when no element is marked. Without closeOthers and with distinct ids, each panel is open iff its element carries `activeClass` |
| Controller.Collapsify.constructor | src/js/Collapsify.js:4-33 | Options are the merge of the caller's options into the defaults. The state is exactly the `initContentsState` result on the captured elements, and the class invariant holds |
| Controller.Collapsify.InitContentsState | src/js/Collapsify.js:35-50 | The loop leaves exactly `AfterSeedAll` of the elements, starting from an empty map |
| Controller.Collapsify.SeedItem | src/js/Collapsify.js:37-49 | One loop iteration gives exactly `AfterSeed`: an element without an id is skipped, otherwise its entry is set from its marker and it is closed or opened without animation or callbacks |
| Controller.Collapsify.SetItemState | src/js/_Collapsify.ts:157-162 | Only `itemsState[id]` changes, to (isOpen, not animating) |
| Controller.Collapsify.EnsureEntry | src/js/Collapsify.js:82-84 | An unknown id gets a (closed, idle) entry, and a known entry is left as it is |
| Controller.Collapsify.ToggleSlide | src/js/Collapsify.js:71-78 | The new state is `AfterToggle`, and `threw` is exactly when the close it runs finds no content. A request while animating changes nothing. Otherwise the panel ends open iff it was known and closed |
| Controller.Collapsify.Open | src/js/Collapsify.js:80-160 | The new state is `AfterOpen`, via the closeOthers loop. A present panel ends (open, animating iff animated), with closeOthers every other registered panel ends closed, and a missing element adds no callback or timer |
| Controller.Collapsify.CloseOthers | src/js/Collapsify.js:91-96 | The loop over the captured content elements gives exactly `AfterCloseOthers`. Each other element with an id is closed silently, in document order |
| Controller.Collapsify.Close | src/js/_Collapsify.ts:275-330 | The new state is `AfterClose`. `threw` holds iff the document has no content element for the id, which is the only throw path modelled (see "Left out"). The entry exists and animates iff the close is animated or threw. If it did not throw, the panel is closed, and an unanimated close ends with `onSlideEnd(false, id)` |
| Controller.Collapsify.FireNext | src/js/Collapsify.js:144-150 | Running the oldest timer gives exactly `AfterFire`, and the class invariant holds |
| Presentation.ActiveTokenShape | src/js/_Collapsify.ts:204-211 | The TypeScript token ends with `activeClass`, and is the bare `activeClass` iff the element has no first class |
| Presentation.ActiveToken | src/js/_Collapsify.ts:204-211 | No contract of its own: the token the TypeScript `open` adds. ActiveTokenShape, OpenCloseRoundTripIff and CombinedTokenOutlivesClose state its properties |
| Presentation.ActiveTokenJs | src/js/Collapsify.js:103-113 | No contract of its own: the token the JavaScript `open` adds, if any. CopiesAgreeOnClassedElements relates it to ActiveToken |
| Presentation.CopiesAgreeOnClassedElements | src/js/Collapsify.js:103-113 | The JavaScript copy adds a token iff the element has a first class, and then the same token as the TypeScript copy |
| Presentation.OpenCloseRoundTripIff | src/js/_Collapsify.ts:204-211 | For an element holding neither the marker nor the token, the TypeScript close removes exactly what open added iff the element has no first class |
| Presentation.CombinedTokenOutlivesClose | src/js/Collapsify.js:104-113 | On an element with a first class, the combined token open adds differs from `activeClass`, and it survives `close`'s removal |
| Presentation.RemoveClass | src/js/Collapsify.js:172 | `classList.remove(t)` keeps exactly the tokens other than `t`, and changes nothing when `t` is absent |
| Presentation.AddClass | src/js/_Collapsify.ts:210 | `classList.add(t)` yields the old tokens plus `t` |
| Presentation.OpenTargetHeight | src/js/Collapsify.js:143 | The target height is always positive and is the measured height whenever that is positive, otherwise 1000 |
| Scenarios.AccordionAfterConstruction | src/js/Collapsify.js:35-50 | Two panels, "b" marked active: after construction "b" is open, "a" closed, both idle, and `onSlideEnd(false, "a")` was called twice |
| Scenarios.AccordionSeedB | src/js/Collapsify.js:46-47 | Seeding the marked panel "b" opens it and closes "a" again, which calls `onSlideEnd(false, "a")` a second time |
| Scenarios.AccordionClickOpensA | src/js/Collapsify.js:71-157 | Clicking "a" in the constructed state, whatever was logged before, opens "a" and closes "b", both animating. The only new callback is `onSlideStart(true, "a")`, and the close of "b" is queued before the open of "a" |
| Scenarios.AccordionClickClosesB | src/js/_Collapsify.ts:192-197 | The closeOthers loop of that click closes only "b", silently, and queues its timer |
| Scenarios.AccordionTimersSettle | src/js/Collapsify.js:144-150 | After both timers run, "a" is open and idle, "b" is closed and idle, and only `onSlideEnd(true, "a")` was added |

## Left out

- Styles, visibility, `aria-*` attributes, the transition CSS and the 5 ms `maxHeight = "0px"` step are presentation only. They do not feed back into the panel state.
- `getTargetHeight` clones the element and measures it in the parent. The measurement enters the model as `Option<nat>` in `OpenTargetHeight`.
- The clock-based suffix that `getTargetHeight` appends to radio-button names touches only the clone. The clock is not modelled.
- Presentation.OpenTargetHeight: returns the number, not the `"<n>px"` string the source assigns to `maxHeight`.
- `handleButtonsEvent` click wiring is not modelled. A click is modelled as a call of `ToggleSlide(id, true)`.
- `console.log` output is not modelled.
- `src/js/index.ts` and `src/js/test.ts` are demo and test pages and are not part of this model.
- In the JavaScript copy, a page with neither content nor button elements leaves `itemsState` undefined, because there is no field initializer. The model follows the TypeScript copy, which starts from `{}`; that is also what the JavaScript copy reaches in every other case.
- Ids that name `Object.prototype` properties (such as `__proto__`) are not modelled. Ids are treated as plain map keys.
- The cases where `nameSpace` is present but `undefined`, or `_options` is `null`, are left out. Options are either supplied or omitted.
- The `jsui.matches` check for `activeClass` in the TypeScript copy is reduced to a boolean per element, as is `classList.contains` in the JavaScript copy.
- PanelMachine.AfterOpen: models `open` only while every element captured at construction is still in the document (`EnvOk`). When one is missing, the source throws in the closeOthers loop before `onSlideStart(true, id)`, but `AfterOpen` carries on past it. OpenCallbackOrder, which does not assume `EnvOk`, therefore also speaks of that case, which the source never reaches.
- Exceptions thrown by the caller's callbacks are not modelled. Callbacks only append to the log.
- A callback that calls back into the controller (`toggleSlide`, `open` or `close` from inside `onSlideStart` or `onSlideEnd`) is not modelled. The model runs no caller code at the points where the callbacks are invoked (Collapsify.js lines 97, 145, 168, 192 and 198), so such re-entrant calls and their effect on the state are outside it.
- `animationSpeed` and `cssEasing` timing is not modelled. All completion timers of one controller share one delay, so they run in the order they were scheduled, as a FIFO queue.
- Controller.Collapsify.Close: `threw` covers only a missing content element. The model assumes `activeClass` is one valid class token. An empty `activeClass`, or one with whitespace, makes `classList.remove` throw after `isAnimating` is set and `onSlideStart` is called. That leaves the same stuck state, and with such an option the constructor throws on the first unmarked panel. This is not modelled.
- Ids are assumed safe inside the `[attr='id']` selector. An id containing `'` makes `document.querySelector` throw, and one containing `\` finds nothing. Pages with such content ids fall outside the construction precondition `AllPresent`.
- The document is static. The content elements and the set of ids with a content element are fixed at construction. Elements added or removed later are not modelled.
