/**
 * The panel state machine of a Collapsify controller, as values.
 *
 * `Machine` is everything the controller's operations change: the `itemsState`
 * map, the callbacks invoked so far (`onSlideStart` / `onSlideEnd`, as a log of
 * events) and the completions scheduled with `setTimeout(…, animationSpeed)`.
 * All completions share one delay, so they fire in the order they were
 * scheduled: `pending` is a FIFO queue.  The functions `After…` give the state
 * an operation leaves behind; the class in module Controller is proved to
 * change its fields exactly as they say.
 */
module PanelMachine {

  /** The record `itemsState[id]`. */
  datatype ItemState = ItemState(isOpen: bool, isAnimating: bool)

  /** One call of a lifecycle callback: `onSlideStart(isOpen, id)` or `onSlideEnd(isOpen, id)`. */
  datatype Event = Start(isOpen: bool, id: string) | End(isOpen: bool, id: string)

  /** A completion closure waiting on its timer, with the `isRunCallback` it captured. */
  datatype Completion = OpenDone(id: string, runCallback: bool) | CloseDone(id: string, runCallback: bool)

  /**
   * A content element as the controller found it at construction: the value of
   * its content attribute ("" when the attribute is missing or empty) and
   * whether it carried the active marker.
   */
  datatype ContentEl = ContentEl(id: string, active: bool)

  /**
   * What the operations read but never change: the content elements captured at
   * construction, the ids for which the document holds a content element, and
   * the two options the state machine consults.
   */
  datatype Env = Env(contents: seq<ContentEl>, present: set<string>, closeOthers: bool, isAnimation: bool)

  datatype Machine = Machine(items: map<string, ItemState>, log: seq<Event>, pending: seq<Completion>)

  /** The entry `setItemState(id, false)` creates. */
  const Idle := ItemState(false, false)

  /** Every scheduled completion refers to an existing entry (its closure writes `itemsState[id]`). */
  ghost predicate Wf(s: Machine) {
    forall k :: 0 <= k < |s.pending| ==> s.pending[k].id in s.items
  }

  /** Every content element captured at construction is still in the document. */
  ghost predicate AllPresent(els: seq<ContentEl>, present: set<string>) {
    forall k :: 0 <= k < |els| && els[k].id != "" ==> els[k].id in present
  }

  ghost predicate EnvOk(env: Env) {
    AllPresent(env.contents, env.present)
  }

  /** The non-empty ids of the content elements. */
  ghost function RegisteredIds(els: seq<ContentEl>): set<string> {
    set k | 0 <= k < |els| && els[k].id != "" :: els[k].id
  }

  /** `if (!hasOwnProperty(itemsState, id)) setItemState(id, false)` */
  function WithEntry(items: map<string, ItemState>, id: string): (r: map<string, ItemState>)
    ensures r.Keys == items.Keys + {id}
    ensures id in items ==> r[id] == items[id]
    ensures id !in items ==> r[id] == Idle
    ensures forall k :: k in items ==> r[k] == items[k]
  {
    if id in items then items else items[id := Idle]
  }

  /**
   * `close(id, isRunCallback, isAnimation)`.  When the document has no content
   * element for `id`, the source dereferences null right after the `Start`
   * callback: the result is the state at that moment (see CloseThrows).
   */
  function AfterClose(s: Machine, env: Env, id: string, runCallback: bool, isAnimation: bool): (r: Machine)
    ensures id == "" ==> r == s
    ensures id != "" ==> r.items.Keys == s.items.Keys + {id}
    ensures Wf(s) ==> Wf(r)
  {
    if id == "" then s
    else
      var items1 := WithEntry(s.items, id);
      var items2 := items1[id := items1[id].(isAnimating := true)];
      var log1 := if runCallback then s.log + [Start(false, id)] else s.log;
      if id !in env.present then Machine(items2, log1, s.pending)
      else if isAnimation then
        Machine(items2[id := items2[id].(isOpen := false)], log1, s.pending + [CloseDone(id, runCallback)])
      else
        var items3 := items2[id := items2[id].(isAnimating := false)];
        Machine(items3[id := items3[id].(isOpen := false)], log1 + [End(false, id)], s.pending)
  }

  /** `close` throws exactly when it is given a non-empty id with no content element. */
  predicate CloseThrows(env: Env, id: string) {
    id != "" && id !in env.present
  }

  /**
   * The `closeOthers` loop of `open`: `close(closeId, false, isAnimation)` for
   * every element of `els` whose id is non-empty and differs from `id`.
   */
  function AfterCloseOthers(s: Machine, env: Env, els: seq<ContentEl>, id: string, isAnimation: bool): (r: Machine)
    ensures s.items.Keys <= r.items.Keys
    ensures id in s.items ==> r.items[id] == s.items[id]
    ensures Wf(s) ==> Wf(r)
    decreases |els|
  {
    if els == [] then s
    else
      var r0 := AfterCloseOthers(s, env, els[..|els| - 1], id, isAnimation);
      var closeId := els[|els| - 1].id;
      if closeId != "" && closeId != id then AfterClose(r0, env, closeId, false, isAnimation) else r0
  }

  /**
   * `open(id, isRunCallback, isAnimation)`.  This is `open` only when every
   * element of `env.contents` is still in the document (`EnvOk`): otherwise the
   * source throws inside the `closeOthers` loop, before `onSlideStart`, while
   * this function carries on past the missing element.
   */
  function AfterOpen(s: Machine, env: Env, id: string, runCallback: bool, isAnimation: bool): (r: Machine)
    ensures id == "" ==> r == s
    ensures r.items.Keys >= s.items.Keys
    ensures id != "" ==> id in r.items
    ensures Wf(s) ==> Wf(r)
  {
    if id == "" then s
    else
      var s1 := s.(items := WithEntry(s.items, id));
      if id !in env.present then s1
      else
        var s2 := s1.(items := s1.items[id := s1.items[id].(isAnimating := true)]);
        var s3 := if env.closeOthers then AfterCloseOthers(s2, env, env.contents, id, isAnimation) else s2;
        var log := if runCallback then s3.log + [Start(true, id)] else s3.log;
        var items :=
          if isAnimation then s3.items else s3.items[id := s3.items[id].(isAnimating := false)];
        var pending := if isAnimation then s3.pending + [OpenDone(id, runCallback)] else s3.pending;
        Machine(items[id := items[id].(isOpen := true)], log, pending)
  }

  /** `toggleSlide(id, isRunCallback)`, with the `isAnimation` option. */
  function AfterToggle(s: Machine, env: Env, id: string, runCallback: bool): (r: Machine)
    ensures r.items.Keys >= s.items.Keys
    ensures Wf(s) ==> Wf(r)
  {
    if id in s.items && s.items[id].isAnimating then s
    else if id in s.items && !s.items[id].isOpen then AfterOpen(s, env, id, runCallback, env.isAnimation)
    else AfterClose(s, env, id, runCallback, env.isAnimation)
  }

  /** `toggleSlide` throws exactly when it takes the close branch and that close throws. */
  predicate ToggleThrows(s: Machine, env: Env, id: string) {
    !(id in s.items && (s.items[id].isAnimating || !s.items[id].isOpen)) && CloseThrows(env, id)
  }

  /** The oldest timer fires: its closure calls `onSlideEnd` if asked to and clears `isAnimating`. */
  function AfterFire(s: Machine): (r: Machine)
    requires Wf(s) && s.pending != []
    ensures Wf(r) && r.items.Keys == s.items.Keys
  {
    var c := s.pending[0];
    var log := if c.runCallback then s.log + [End(c.OpenDone?, c.id)] else s.log;
    Machine(s.items[c.id := s.items[c.id].(isAnimating := false)], log, s.pending[1..])
  }

  /** Every scheduled timer fires, oldest first. */
  function AfterDrain(s: Machine): (r: Machine)
    requires Wf(s)
    ensures r.items.Keys == s.items.Keys
    decreases |s.pending|
  {
    if s.pending == [] then s else AfterDrain(AfterFire(s))
  }

  /** One iteration of `initContentsState`'s loop. */
  function AfterSeed(s: Machine, env: Env, e: ContentEl): (r: Machine)
    ensures r.items.Keys >= s.items.Keys
    ensures e.id != "" ==> e.id in r.items
    ensures Wf(s) ==> Wf(r)
  {
    if e.id == "" then s
    else
      var s1 := s.(items := s.items[e.id := ItemState(e.active, false)]);
      if !e.active then AfterClose(s1, env, e.id, false, false) else AfterOpen(s1, env, e.id, false, false)
  }

  /** `initContentsState` over the elements `els`, in order. */
  function AfterSeedAll(s: Machine, env: Env, els: seq<ContentEl>): (r: Machine)
    ensures r.items.Keys >= s.items.Keys
    ensures forall k :: 0 <= k < |els| && els[k].id != "" ==> els[k].id in r.items
    ensures Wf(s) ==> Wf(r)
    decreases |els|
  {
    if els == [] then s
    else
      var r0 := AfterSeedAll(s, env, els[..|els| - 1]);
      assert forall k :: 0 <= k < |els| - 1 ==> els[..|els| - 1][k] == els[k];
      AfterSeed(r0, env, els[|els| - 1])
  }

  /** The state a freshly constructed controller is in. */
  function AfterInit(env: Env): (r: Machine)
    ensures Wf(r)
    ensures forall k :: 0 <= k < |env.contents| && env.contents[k].id != "" ==> env.contents[k].id in r.items
  {
    AfterSeedAll(Machine(map[], [], []), env, env.contents)
  }
}
