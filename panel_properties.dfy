/**
 * What the Collapsify controller promises, proved about the state machine of
 * module PanelMachine: the re-entrancy guard of `toggleSlide`, the branch it
 * takes, the outcome of `open` and `close` (flags, callbacks, timers, and what
 * stays untouched), the `closeOthers` policy, the timers, and the state a new
 * controller starts in.
 */
module PanelProperties {
  import opened PanelMachine

  /** The ids the `closeOthers` loop of `open(id)` closes, in document order. */
  function Others(els: seq<ContentEl>, id: string): (r: seq<string>)
    ensures forall c :: c in r ==> c != "" && c != id
    ensures forall k :: 0 <= k < |els| && els[k].id != "" && els[k].id != id ==> els[k].id in r
    decreases |els|
  {
    if els == [] then []
    else
      var r0 := Others(els[..|els| - 1], id);
      var c := els[|els| - 1].id;
      if c != "" && c != id then r0 + [c] else r0
  }

  /** `onSlideEnd(false, c)` for each `c`, in order. */
  function Ends(ids: seq<string>): (r: seq<Event>)
    ensures |r| == |ids|
    ensures forall k :: 0 <= k < |ids| ==> r[k] == End(false, ids[k])
  {
    seq(|ids|, k requires 0 <= k < |ids| => End(false, ids[k]))
  }

  /** The close completions, without callbacks, scheduled for each `c`, in order. */
  function CloseDones(ids: seq<string>): (r: seq<Completion>)
    ensures |r| == |ids|
    ensures forall k :: 0 <= k < |ids| ==> r[k] == CloseDone(ids[k], false)
  {
    seq(|ids|, k requires 0 <= k < |ids| => CloseDone(ids[k], false))
  }

  /** The `onSlideEnd` calls the timers in `p` make when they fire. */
  function CompletionEvents(p: seq<Completion>): seq<Event> {
    if p == [] then []
    else (if p[0].runCallback then [End(p[0].OpenDone?, p[0].id)] else []) + CompletionEvents(p[1..])
  }

  /** Some timer in `p` will clear `isAnimating` of `id`. */
  ghost predicate Scheduled(p: seq<Completion>, id: string) {
    exists j :: 0 <= j < |p| && p[j].id == id
  }

  ghost predicate AtMostOneOpen(items: map<string, ItemState>) {
    forall a, b :: a in items && b in items && items[a].isOpen && items[b].isOpen ==> a == b
  }

  ghost predicate DistinctIds(els: seq<ContentEl>) {
    forall i, j :: 0 <= i < j < |els| && els[i].id != "" ==> els[i].id != els[j].id
  }

  /** Every callback in `log` is `onSlideEnd(false, …)`. */
  ghost predicate OnlyClosingEnds(log: seq<Event>) {
    forall j :: 0 <= j < |log| ==> log[j].End? && !log[j].isOpen
  }

  // ---------------------------------------------------------------- toggleSlide

  /** While `itemsState[id].isAnimating`, `toggleSlide(id)` changes nothing and throws nothing. */
  lemma ToggleWhileAnimatingIsNoop(s: Machine, env: Env, id: string, runCallback: bool)
    requires id in s.items && s.items[id].isAnimating
    ensures AfterToggle(s, env, id, runCallback) == s
    ensures !ToggleThrows(s, env, id)
  {
  }

  /**
   * Outside the guard, `toggleSlide` opens exactly the ids whose entry exists
   * with `isOpen == false`; an open id and an id with no entry are closed.
   * The panel ends up animating exactly when the `isAnimation` option is set.
   */
  lemma ToggleFlipsKnownClosedOnly(s: Machine, env: Env, id: string, runCallback: bool)
    requires EnvOk(env)
    requires id != "" && id in env.present
    requires !(id in s.items && s.items[id].isAnimating)
    ensures var r := AfterToggle(s, env, id, runCallback);
      && id in r.items
      && (r.items[id].isOpen <==> id in s.items && !s.items[id].isOpen)
      && r.items[id].isAnimating == env.isAnimation
      && !ToggleThrows(s, env, id)
  {
    if id in s.items && !s.items[id].isOpen {
      OpenOutcome(s, env, id, runCallback, env.isAnimation);
    } else {
      CloseOutcome(s, env, id, runCallback, env.isAnimation);
    }
  }

  /** An id with no entry takes the close branch, so a toggle of an unknown id never opens it. */
  lemma ToggleUnknownIdCloses(s: Machine, env: Env, id: string, runCallback: bool)
    requires id !in s.items
    ensures AfterToggle(s, env, id, runCallback) == AfterClose(s, env, id, runCallback, env.isAnimation)
    ensures ToggleThrows(s, env, id) == CloseThrows(env, id)
    ensures var r := AfterToggle(s, env, id, runCallback);
      id != "" ==> id in r.items && !r.items[id].isOpen
  {
  }

  // ---------------------------------------------------------------- close

  /**
   * `close` of a panel whose content element exists: the panel is closed,
   * `onSlideStart(false, id)` is called only with `isRunCallback`, and
   * `onSlideEnd(false, id)` is called at once without animation (whatever
   * `isRunCallback` says) or left to a timer with animation.  No other entry
   * changes.
   */
  lemma CloseOutcome(s: Machine, env: Env, id: string, runCallback: bool, isAnimation: bool)
    requires id != "" && id in env.present
    ensures var r := AfterClose(s, env, id, runCallback, isAnimation);
      && r.items[id] == ItemState(false, isAnimation)
      && r.log == s.log + (if runCallback then [Start(false, id)] else [])
                        + (if isAnimation then [] else [End(false, id)])
      && r.pending == s.pending + (if isAnimation then [CloseDone(id, runCallback)] else [])
      && (forall k :: k in s.items && k != id ==> r.items[k] == s.items[k])
  {
  }

  /** `close("")` returns at once. */
  lemma CloseEmptyIdIsNoop(s: Machine, env: Env, runCallback: bool, isAnimation: bool)
    ensures AfterClose(s, env, "", runCallback, isAnimation) == s
    ensures !CloseThrows(env, "")
  {
  }

  /**
   * `close` of an id with no content element throws after it has created the
   * entry, set `isAnimating` and possibly called `onSlideStart(false, id)`.
   * No timer was scheduled, so unless one was already pending for `id`, the
   * panel stays animating for good: every later `toggleSlide(id)` is dropped,
   * even after all timers have fired.
   */
  lemma {:induction false} CloseWithoutContentSticks(s: Machine, env: Env, id: string, runCallback: bool, isAnimation: bool, again: bool)
    requires Wf(s) && CloseThrows(env, id) && !Scheduled(s.pending, id)
    ensures var r := AfterClose(s, env, id, runCallback, isAnimation);
      && r.items[id].isAnimating
      && r.items[id].isOpen == (id in s.items && s.items[id].isOpen)
      && r.log == s.log + (if runCallback then [Start(false, id)] else [])
      && r.pending == s.pending
      && AfterToggle(r, env, id, again) == r
      && AfterDrain(r).items[id].isAnimating
  {
    var r := AfterClose(s, env, id, runCallback, isAnimation);
    DrainItems(r);
  }

  // ---------------------------------------------------------------- open

  /** `open("")` returns at once. */
  lemma OpenEmptyIdIsNoop(s: Machine, env: Env, runCallback: bool, isAnimation: bool)
    ensures AfterOpen(s, env, "", runCallback, isAnimation) == s
  {
  }

  /**
   * `open` of an id with no content element only adds the default closed,
   * idle entry if there was none: no flag, callback or timer changes.
   */
  lemma OpenWithoutContent(s: Machine, env: Env, id: string, runCallback: bool, isAnimation: bool)
    requires id != "" && id !in env.present
    ensures var r := AfterOpen(s, env, id, runCallback, isAnimation);
      && r.log == s.log && r.pending == s.pending
      && r.items.Keys == s.items.Keys + {id}
      && (forall k :: k in s.items ==> r.items[k] == s.items[k])
      && (id !in s.items ==> r.items[id] == Idle)
  {
  }

  /** Every id the `closeOthers` loop closes belongs to a content element. */
  lemma {:induction false} OthersAreRegistered(els: seq<ContentEl>, id: string)
    ensures forall c :: c in Others(els, id) ==> c in RegisteredIds(els)
    decreases |els|
  {
    if els != [] {
      var front := els[..|els| - 1];
      OthersAreRegistered(front, id);
      forall c | c in Others(els, id) ensures c in RegisteredIds(els) {
        if c in Others(front, id) {
          var k :| 0 <= k < |front| && front[k].id != "" && front[k].id == c;
          assert els[k] == front[k];
        } else {
          assert els[|els| - 1].id == c;
        }
      }
    }
  }

  lemma AllPresentFront(els: seq<ContentEl>, present: set<string>)
    requires els != [] && AllPresent(els, present)
    ensures AllPresent(els[..|els| - 1], present)
  {
    var front := els[..|els| - 1];
    forall k | 0 <= k < |front| && front[k].id != "" ensures front[k].id in present {
      assert front[k] == els[k];
    }
  }

  lemma SnocCallbacks(o: seq<string>, c: string)
    ensures Ends(o + [c]) == Ends(o) + [End(false, c)]
    ensures CloseDones(o + [c]) == CloseDones(o) + [CloseDone(c, false)]
  {
    assert Ends(o + [c])[|o|] == End(false, c);
  }

  /**
   * The callbacks and timers of the `closeOthers` loop: no `onSlideStart`;
   * without animation `onSlideEnd(false, c)` at once for each closed id `c`,
   * with animation one timer (asked for no callback) per closed id instead.
   */
  lemma {:induction false} CloseOthersCallbacks(s: Machine, env: Env, els: seq<ContentEl>, id: string, isAnimation: bool)
    requires AllPresent(els, env.present)
    ensures var r := AfterCloseOthers(s, env, els, id, isAnimation);
      && r.log == s.log + (if isAnimation then [] else Ends(Others(els, id)))
      && r.pending == s.pending + (if isAnimation then CloseDones(Others(els, id)) else [])
    decreases |els|
  {
    if els != [] {
      var front := els[..|els| - 1];
      AllPresentFront(els, env.present);
      CloseOthersCallbacks(s, env, front, id, isAnimation);
      var c := els[|els| - 1].id;
      if c != "" && c != id {
        var o := Others(front, id);
        assert Others(els, id) == o + [c];
        SnocCallbacks(o, c);
        var r0 := AfterCloseOthers(s, env, front, id, isAnimation);
        assert AfterCloseOthers(s, env, els, id, isAnimation) == AfterClose(r0, env, c, false, isAnimation);
        CloseOutcome(r0, env, c, false, isAnimation);
      }
    }
  }

  /**
   * The entries after the `closeOthers` loop: every closed id is closed and
   * animating exactly when `isAnimation` is set; every other entry is as it
   * was; the only entries added are those of closed ids.
   */
  lemma {:induction false} CloseOthersItems(s: Machine, env: Env, els: seq<ContentEl>, id: string, isAnimation: bool)
    requires AllPresent(els, env.present)
    ensures var r := AfterCloseOthers(s, env, els, id, isAnimation);
      && (forall c :: c in Others(els, id) ==> c in r.items && r.items[c] == ItemState(false, isAnimation))
      && (forall k :: k in s.items && k !in Others(els, id) ==> r.items[k] == s.items[k])
      && (forall k :: k in r.items ==> k in s.items || k in Others(els, id))
    decreases |els|
  {
    if els != [] {
      var front := els[..|els| - 1];
      AllPresentFront(els, env.present);
      CloseOthersItems(s, env, front, id, isAnimation);
      var c := els[|els| - 1].id;
      if c != "" && c != id {
        assert Others(els, id) == Others(front, id) + [c];
        CloseOutcome(AfterCloseOthers(s, env, front, id, isAnimation), env, c, false, isAnimation);
      }
    }
  }

  /**
   * `open` of a panel whose content element exists.  The panel ends open; it
   * is still animating exactly when `isAnimation` is set, until its timer
   * fires.  The callbacks made are those of the `closeOthers` loop, then
   * `onSlideStart(true, id)` if `isRunCallback`, and no `onSlideEnd(true, id)`
   * yet; the timers scheduled are those of the loop, then this panel's.
   * `open` does not consult `isAnimating` and never throws.
   */
  lemma OpenOutcome(s: Machine, env: Env, id: string, runCallback: bool, isAnimation: bool)
    requires EnvOk(env) && id != "" && id in env.present
    ensures var r := AfterOpen(s, env, id, runCallback, isAnimation);
      var closed := if env.closeOthers then Others(env.contents, id) else [];
      && r.items[id] == ItemState(true, isAnimation)
      && r.log == s.log + (if isAnimation then [] else Ends(closed))
                        + (if runCallback then [Start(true, id)] else [])
      && r.pending == s.pending + (if isAnimation then CloseDones(closed) + [OpenDone(id, runCallback)] else [])
      && (forall c :: c in closed ==> c in r.items && r.items[c] == ItemState(false, isAnimation))
      && (forall k :: k in s.items && k != id && k !in closed ==> r.items[k] == s.items[k])
      && (forall k :: k in r.items ==> k == id || k in s.items || k in closed)
  {
    var s1 := s.(items := WithEntry(s.items, id));
    var s2 := s1.(items := s1.items[id := s1.items[id].(isAnimating := true)]);
    if env.closeOthers {
      CloseOthersCallbacks(s2, env, env.contents, id, isAnimation);
      CloseOthersItems(s2, env, env.contents, id, isAnimation);
    }
  }

  /**
   * With `closeOthers`, once `open(id)` returns every other registered panel is
   * closed (and the open panel is open).
   */
  lemma OpenClosesOthers(s: Machine, env: Env, id: string, runCallback: bool, isAnimation: bool)
    requires EnvOk(env) && env.closeOthers && id != "" && id in env.present
    ensures var r := AfterOpen(s, env, id, runCallback, isAnimation);
      && r.items[id].isOpen
      && forall k :: 0 <= k < |env.contents| && env.contents[k].id != "" && env.contents[k].id != id ==>
           env.contents[k].id in r.items && !r.items[env.contents[k].id].isOpen
  {
    OpenOutcome(s, env, id, runCallback, isAnimation);
  }

  // ---------------------------------------------------------------- timers

  /** The oldest timer fires: only its panel's `isAnimating` is cleared, `isOpen` is untouched. */
  lemma FireOutcome(s: Machine)
    requires Wf(s) && s.pending != []
    ensures var c := s.pending[0]; var r := AfterFire(s);
      && r.pending == s.pending[1..]
      && r.items[c.id] == ItemState(s.items[c.id].isOpen, false)
      && r.log == s.log + (if c.runCallback then [End(c.OpenDone?, c.id)] else [])
      && (forall k :: k in s.items && k != c.id ==> r.items[k] == s.items[k])
  {
  }

  lemma {:induction false} CompletionEventsAppend(p: seq<Completion>, q: seq<Completion>)
    ensures CompletionEvents(p + q) == CompletionEvents(p) + CompletionEvents(q)
    decreases |p|
  {
    if p == [] {
      assert p + q == q;
    } else {
      var head := if p[0].runCallback then [End(p[0].OpenDone?, p[0].id)] else [];
      assert (p + q)[0] == p[0];
      assert (p + q)[1..] == p[1..] + q;
      CompletionEventsAppend(p[1..], q);
      calc {
        CompletionEvents(p + q);
        head + CompletionEvents(p[1..] + q);
        head + (CompletionEvents(p[1..]) + CompletionEvents(q));
        (head + CompletionEvents(p[1..])) + CompletionEvents(q);
        CompletionEvents(p) + CompletionEvents(q);
      }
    }
  }

  /** Letting every timer fire calls the `onSlideEnd` callbacks the timers were asked to, in scheduling order. */
  lemma {:induction false} DrainCallbacks(s: Machine)
    requires Wf(s)
    ensures var r := AfterDrain(s);
      r.pending == [] && r.log == s.log + CompletionEvents(s.pending)
    decreases |s.pending|
  {
    if s.pending != [] {
      DrainCallbacks(AfterFire(s));
    }
  }

  /**
   * Letting every timer fire clears `isAnimating` of exactly the panels that
   * had a timer pending and leaves every `isOpen` as it was.
   */
  lemma {:induction false} DrainItems(s: Machine)
    requires Wf(s)
    ensures var r := AfterDrain(s);
      forall k :: k in s.items ==>
        r.items[k] == ItemState(s.items[k].isOpen, s.items[k].isAnimating && !Scheduled(s.pending, k))
    decreases |s.pending|
  {
    if s.pending != [] {
      var f := AfterFire(s);
      DrainItems(f);
      var c := s.pending[0];
      forall k | k in s.items
        ensures Scheduled(s.pending, k) <==> k == c.id || Scheduled(f.pending, k)
      {
        if Scheduled(f.pending, k) {
          var j :| 0 <= j < |f.pending| && f.pending[j].id == k;
          assert s.pending[j + 1].id == k;
        }
        if Scheduled(s.pending, k) && k != c.id {
          var j :| 0 <= j < |s.pending| && s.pending[j].id == k;
          assert f.pending[j - 1].id == k;
        }
      }
    }
  }

  /**
   * End to end: an animated `open(id)` followed by all timers firing leaves
   * the panel open and idle and, with `closeOthers`, every other registered
   * panel closed and idle.
   */
  lemma OpenThenSettle(s: Machine, env: Env, id: string, runCallback: bool)
    requires EnvOk(env) && Wf(s) && id != "" && id in env.present
    ensures var r := AfterDrain(AfterOpen(s, env, id, runCallback, true));
      && r.items[id] == ItemState(true, false)
      && (env.closeOthers ==>
            forall k :: 0 <= k < |env.contents| && env.contents[k].id != "" && env.contents[k].id != id ==>
              env.contents[k].id in r.items && r.items[env.contents[k].id] == Idle)
  {
    var o := AfterOpen(s, env, id, runCallback, true);
    var closed := if env.closeOthers then Others(env.contents, id) else [];
    OpenOutcome(s, env, id, runCallback, true);
    ScheduledCloses(s.pending, closed, id, runCallback, o.pending);
    DrainItems(o);
  }

  /** Every panel named in the timers an animated `open` appends is scheduled. */
  lemma ScheduledCloses(p: seq<Completion>, closed: seq<string>, id: string, runCallback: bool, q: seq<Completion>)
    requires q == p + CloseDones(closed) + [OpenDone(id, runCallback)]
    ensures Scheduled(q, id)
    ensures forall c :: c in closed ==> Scheduled(q, c)
  {
    assert q[|q| - 1] == OpenDone(id, runCallback);
    forall c | c in closed ensures Scheduled(q, c) {
      var j :| 0 <= j < |closed| && closed[j] == c;
      assert q[|p| + j] == CloseDone(c, false);
    }
  }

  /**
   * Callback order of an animated `open(id)` with `isRunCallback`:
   * `onSlideStart(true, id)` is the last callback `open` itself makes, and once
   * all timers have fired, `onSlideEnd(true, id)` is the last callback made.
   */
  lemma OpenCallbackOrder(s: Machine, env: Env, id: string)
    requires Wf(s) && id != "" && id in env.present
    ensures var o := AfterOpen(s, env, id, true, true);
      var r := AfterDrain(o);
      && |o.log| > 0 && o.log[|o.log| - 1] == Start(true, id)
      && |r.log| > |o.log| && r.log[..|o.log|] == o.log && r.log[|r.log| - 1] == End(true, id)
  {
    var o := AfterOpen(s, env, id, true, true);
    var s1 := s.(items := WithEntry(s.items, id));
    var s2 := s1.(items := s1.items[id := s1.items[id].(isAnimating := true)]);
    var s3 := if env.closeOthers then AfterCloseOthers(s2, env, env.contents, id, true) else s2;
    assert o.pending == s3.pending + [OpenDone(id, true)];
    DrainEndsWithOpen(o, s3.pending, id);
  }

  /** When the last timer is an `open` with callbacks, draining ends the log with `onSlideEnd(true, id)`. */
  lemma DrainEndsWithOpen(o: Machine, p: seq<Completion>, id: string)
    requires Wf(o) && o.pending == p + [OpenDone(id, true)]
    ensures var r := AfterDrain(o);
      |r.log| > |o.log| && r.log[..|o.log|] == o.log && r.log[|r.log| - 1] == End(true, id)
  {
    DrainCallbacks(o);
    CompletionEventsAppend(p, [OpenDone(id, true)]);
    assert [OpenDone(id, true)][1..] == [];
    assert CompletionEvents([OpenDone(id, true)]) == [End(true, id)];
  }

  // ---------------------------------------------------------------- construction

  /**
   * One seeding step, `setItemState(id, active)` followed by
   * `close(id, false, false)` or `open(id, false, false)`: no timer is
   * scheduled, nothing is left animating, the only callbacks are
   * `onSlideEnd(false, …)` (from the unanimated closes, which ignore
   * `isRunCallback`), and only registered ids gain entries.
   */
  lemma SeedSettles(s: Machine, env: Env, e: ContentEl)
    requires EnvOk(env) && (e.id != "" ==> e.id in RegisteredIds(env.contents))
    requires s.pending == [] && (forall k :: k in s.items ==> !s.items[k].isAnimating)
    requires OnlyClosingEnds(s.log) && s.items.Keys <= RegisteredIds(env.contents)
    ensures var r := AfterSeed(s, env, e);
      && r.pending == []
      && (forall k :: k in r.items ==> !r.items[k].isAnimating)
      && OnlyClosingEnds(r.log)
      && r.items.Keys <= RegisteredIds(env.contents)
      && s.items.Keys + (if e.id == "" then {} else {e.id}) <= r.items.Keys
  {
    if e.id != "" {
      var s1 := s.(items := s.items[e.id := ItemState(e.active, false)]);
      if !e.active {
        UnanimatedCloseSettles(s1, env, e.id);
      } else {
        UnanimatedOpenSettles(s1, env, e.id);
      }
    }
  }

  /** An unanimated, silent close of a registered panel leaves nothing animating and logs only `onSlideEnd(false, id)`. */
  lemma UnanimatedCloseSettles(s: Machine, env: Env, id: string)
    requires EnvOk(env) && id in RegisteredIds(env.contents)
    requires s.pending == [] && (forall k :: k in s.items ==> !s.items[k].isAnimating)
    requires OnlyClosingEnds(s.log) && s.items.Keys <= RegisteredIds(env.contents)
    ensures var r := AfterClose(s, env, id, false, false);
      && r.pending == []
      && (forall k :: k in r.items ==> !r.items[k].isAnimating)
      && OnlyClosingEnds(r.log)
      && r.items.Keys <= RegisteredIds(env.contents)
  {
    CloseOutcome(s, env, id, false, false);
  }

  /** An unanimated, silent open of a registered panel leaves nothing animating and logs only closing callbacks. */
  lemma UnanimatedOpenSettles(s: Machine, env: Env, id: string)
    requires EnvOk(env) && id in RegisteredIds(env.contents)
    requires s.pending == [] && (forall k :: k in s.items ==> !s.items[k].isAnimating)
    requires OnlyClosingEnds(s.log) && s.items.Keys <= RegisteredIds(env.contents)
    ensures var r := AfterOpen(s, env, id, false, false);
      && r.pending == []
      && (forall k :: k in r.items ==> !r.items[k].isAnimating)
      && OnlyClosingEnds(r.log)
      && r.items.Keys <= RegisteredIds(env.contents)
  {
    var r := AfterOpen(s, env, id, false, false);
    var closed := if env.closeOthers then Others(env.contents, id) else [];
    OpenOutcome(s, env, id, false, false);
    assert r.log == s.log + Ends(closed);
    EndsAreClosing(s.log, closed);
    if env.closeOthers {
      OthersAreRegistered(env.contents, id);
    }
  }

  lemma EndsAreClosing(log: seq<Event>, ids: seq<string>)
    requires OnlyClosingEnds(log)
    ensures OnlyClosingEnds(log + Ends(ids))
  {
    var r := log + Ends(ids);
    forall j | 0 <= j < |r| ensures r[j].End? && !r[j].isOpen {
      if j >= |log| {
        assert r[j] == Ends(ids)[j - |log|];
      }
    }
  }

  /** With `closeOthers`, a seeding step keeps at most one panel open. */
  lemma SeedKeepsOneOpen(s: Machine, env: Env, e: ContentEl)
    requires EnvOk(env) && env.closeOthers && (e.id != "" ==> e.id in RegisteredIds(env.contents))
    requires s.items.Keys <= RegisteredIds(env.contents) && AtMostOneOpen(s.items)
    ensures AtMostOneOpen(AfterSeed(s, env, e).items)
  {
    var r := AfterSeed(s, env, e);
    if e.id != "" {
      var s1 := s.(items := s.items[e.id := ItemState(e.active, false)]);
      if !e.active {
        CloseOutcome(s1, env, e.id, false, false);
      } else {
        OpenOutcome(s1, env, e.id, false, false);
        OthersAreRegistered(env.contents, e.id);
        forall a | a in r.items && r.items[a].isOpen ensures a == e.id {
          if a != e.id {
            OthersIncludesRegistered(env.contents, e.id, a);
          }
        }
      }
    }
  }

  /**
   * Without `closeOthers` and with distinct ids, a seeding step leaves the
   * entries of other ids alone and opens its own panel exactly when it
   * carried the active marker.
   */
  lemma SeedKeepsMarkers(s: Machine, env: Env, n: nat)
    requires EnvOk(env) && !env.closeOthers && DistinctIds(env.contents) && n < |env.contents|
    requires forall j :: 0 <= j < n && env.contents[j].id != "" ==>
               env.contents[j].id in s.items && s.items[env.contents[j].id].isOpen == env.contents[j].active
    ensures var r := AfterSeed(s, env, env.contents[n]);
      forall j :: 0 <= j <= n && env.contents[j].id != "" ==>
        env.contents[j].id in r.items && r.items[env.contents[j].id].isOpen == env.contents[j].active
  {
    var e := env.contents[n];
    if e.id != "" {
      assert e.id in RegisteredIds(env.contents);
      var s1 := s.(items := s.items[e.id := ItemState(e.active, false)]);
      if !e.active {
        CloseOutcome(s1, env, e.id, false, false);
      } else {
        OpenOutcome(s1, env, e.id, false, false);
      }
    }
  }

  /** Helper: a registered id other than the opened one is in the list `open` closes. */
  lemma OthersIncludesRegistered(els: seq<ContentEl>, id: string, a: string)
    requires a in RegisteredIds(els) && a != id
    ensures a in Others(els, id)
  {
    var k :| 0 <= k < |els| && els[k].id != "" && els[k].id == a;
  }

  /**
   * The id of the last element of `els` that has an id and carries the active
   * marker, or "" when there is none.
   */
  function LastMarked(els: seq<ContentEl>): (m: string)
    ensures m != "" ==> exists j :: 0 <= j < |els| && els[j].id == m && els[j].active
    ensures m == "" ==> forall j :: 0 <= j < |els| && els[j].active ==> els[j].id == ""
    ensures m != "" ==>
      exists j :: 0 <= j < |els| && els[j].id == m && els[j].active &&
        (forall i :: j < i < |els| ==> !(els[i].active && els[i].id != ""))
    decreases |els|
  {
    if els == [] then ""
    else
      var e := els[|els| - 1];
      if e.active && e.id != "" then e.id
      else
        var p := els[..|els| - 1];
        var m := LastMarked(p);
        assert forall j :: 0 <= j < |p| ==> p[j] == els[j];
        if m != "" then
          var j :| 0 <= j < |p| && p[j].id == m && p[j].active &&
            (forall i :: j < i < |p| ==> !(p[i].active && p[i].id != ""));
          assert forall i :: j < i < |els| ==> !(els[i].active && els[i].id != "");
          m
        else m
  }

  /**
   * With `closeOthers` and distinct ids, a seeding step keeps exactly the panel
   * of the last marked element seen so far open: a marked element's
   * `open(id, false, false)` closes every other registered panel, and an
   * unmarked element's `close` touches only its own panel.
   */
  lemma SeedKeepsLastMarked(s: Machine, env: Env, n: nat)
    requires EnvOk(env) && env.closeOthers && DistinctIds(env.contents) && 0 < n <= |env.contents|
    requires s.items.Keys <= RegisteredIds(env.contents)
    requires forall k :: k in s.items ==> (s.items[k].isOpen <==> k == LastMarked(env.contents[..n - 1]))
    ensures var r := AfterSeed(s, env, env.contents[n - 1]);
      forall k :: k in r.items ==> (r.items[k].isOpen <==> k == LastMarked(env.contents[..n]))
  {
    var e := env.contents[n - 1];
    var els := env.contents[..n];
    assert els[..|els| - 1] == env.contents[..n - 1];
    assert els[|els| - 1] == e;
    var m := LastMarked(env.contents[..n - 1]);
    if e.id != "" {
      assert e.id in RegisteredIds(env.contents);
      var s1 := s.(items := s.items[e.id := ItemState(e.active, false)]);
      if m != "" {
        var j :| 0 <= j < n - 1 && env.contents[..n - 1][j].id == m && env.contents[..n - 1][j].active;
        assert env.contents[j].id == m;
      }
      if !e.active {
        assert LastMarked(els) == m && m != e.id;
        CloseKeepsOnlyOpen(s1, env, e.id, m);
      } else {
        assert LastMarked(els) == e.id;
        OpenLeavesOnlyItOpen(s1, env, e.id);
      }
    }
  }

  /** An unanimated, silent close of a panel other than the open one `m` keeps `m` the only open panel. */
  lemma CloseKeepsOnlyOpen(s: Machine, env: Env, id: string, m: string)
    requires id != "" && id in env.present && id != m
    requires forall k :: k in s.items ==> (s.items[k].isOpen <==> k == m)
    ensures var r := AfterClose(s, env, id, false, false);
      forall k :: k in r.items ==> (r.items[k].isOpen <==> k == m)
  {
    CloseOutcome(s, env, id, false, false);
  }

  /** With `closeOthers`, an unanimated, silent open leaves its panel the only open one among registered ids. */
  lemma OpenLeavesOnlyItOpen(s: Machine, env: Env, id: string)
    requires EnvOk(env) && env.closeOthers && id in RegisteredIds(env.contents)
    requires s.items.Keys <= RegisteredIds(env.contents)
    ensures var r := AfterOpen(s, env, id, false, false);
      forall k :: k in r.items ==> (r.items[k].isOpen <==> k == id)
  {
    OpenOutcome(s, env, id, false, false);
    forall k | k in s.items && k != id ensures k in Others(env.contents, id) {
      OthersIncludesRegistered(env.contents, id, k);
    }
  }

  /** What the first `n` seeding steps establish regardless of the options. */
  ghost predicate SeededCore(r: Machine, env: Env, n: nat)
    requires n <= |env.contents|
  {
    && r.pending == []
    && (forall k :: k in r.items ==> !r.items[k].isAnimating)
    && OnlyClosingEnds(r.log)
    && r.items.Keys <= RegisteredIds(env.contents)
    && (forall j :: 0 <= j < n && env.contents[j].id != "" ==> env.contents[j].id in r.items)
  }

  ghost predicate Seeded(r: Machine, env: Env, n: nat)
    requires n <= |env.contents|
  {
    && SeededCore(r, env, n)
    && (env.closeOthers ==> AtMostOneOpen(r.items))
    && (env.closeOthers && DistinctIds(env.contents) ==>
          forall k :: k in r.items ==> (r.items[k].isOpen <==> k == LastMarked(env.contents[..n])))
    && (!env.closeOthers && DistinctIds(env.contents) ==>
          forall j :: 0 <= j < n && env.contents[j].id != "" ==>
            r.items[env.contents[j].id].isOpen == env.contents[j].active)
  }

  lemma {:induction false} SeedAllSeeded(env: Env, n: nat)
    requires EnvOk(env) && n <= |env.contents|
    ensures Seeded(AfterSeedAll(Machine(map[], [], []), env, env.contents[..n]), env, n)
  {
    var s0 := Machine(map[], [], []);
    if n > 0 {
      SeedAllSeeded(env, n - 1);
      var els := env.contents[..n];
      assert els[..|els| - 1] == env.contents[..n - 1];
      assert els[|els| - 1] == env.contents[n - 1];
      var s := AfterSeedAll(s0, env, env.contents[..n - 1]);
      var e := env.contents[n - 1];
      SeedStepCore(s, env, n);
      if env.closeOthers {
        assert e.id != "" ==> e.id in RegisteredIds(env.contents);
        SeedKeepsOneOpen(s, env, e);
        if DistinctIds(env.contents) {
          SeedKeepsLastMarked(s, env, n);
        }
      }
      if !env.closeOthers && DistinctIds(env.contents) {
        SeedKeepsMarkers(s, env, n - 1);
      }
    }
  }

  /** One seeding step extends `SeededCore` by one element. */
  lemma SeedStepCore(s: Machine, env: Env, n: nat)
    requires EnvOk(env) && 0 < n <= |env.contents| && SeededCore(s, env, n - 1)
    ensures SeededCore(AfterSeed(s, env, env.contents[n - 1]), env, n)
  {
    var e := env.contents[n - 1];
    assert e.id != "" ==> e.id in RegisteredIds(env.contents);
    SeedSettles(s, env, e);
  }

  /**
   * A freshly constructed controller: every registered id has an entry and no
   * other id does, nothing is animating and no timer is pending, the only
   * callbacks made were `onSlideEnd(false, …)` from unanimated closes, and
   * with `closeOthers` at most one panel is open.  With `closeOthers` and
   * distinct ids, the open panel is exactly that of the last element carrying
   * the active marker (none when no element carries it).  Without
   * `closeOthers` and with distinct ids, a panel is open exactly when its
   * element carried the active marker.
   */
  lemma InitSettles(env: Env)
    requires EnvOk(env)
    ensures var r := AfterInit(env);
      && r.pending == []
      && r.items.Keys == RegisteredIds(env.contents)
      && (forall k :: k in r.items ==> !r.items[k].isAnimating)
      && OnlyClosingEnds(r.log)
      && (env.closeOthers ==> AtMostOneOpen(r.items))
      && (env.closeOthers && DistinctIds(env.contents) ==>
            && (forall k :: k in r.items ==> (r.items[k].isOpen <==> k == LastMarked(env.contents)))
            && (LastMarked(env.contents) != "" ==> LastMarked(env.contents) in r.items))
      && (!env.closeOthers && DistinctIds(env.contents) ==>
            forall j :: 0 <= j < |env.contents| && env.contents[j].id != "" ==>
              r.items[env.contents[j].id].isOpen == env.contents[j].active)
  {
    SeedAllSeeded(env, |env.contents|);
    assert env.contents[..|env.contents|] == env.contents;
    var r := AfterInit(env);
    forall c | c in RegisteredIds(env.contents) ensures c in r.items {
      var k :| 0 <= k < |env.contents| && env.contents[k].id != "" && env.contents[k].id == c;
    }
  }
}
