/**
 * The `Collapsify` class.  The document is reduced to what the state machine
 * depends on: the content elements found at construction (`contentEls`, with
 * their ids and active markers) and the set of ids for which a content element
 * can be found (`present`).  The callbacks append to `log`; each
 * `setTimeout(…, animationSpeed)` appends its closure to `pending`, and
 * `FireNext` runs the oldest one.
 */
module Controller {
  import opened CollapsifyOptions
  import opened PanelMachine
  import PanelProperties

  class Collapsify {
    const options: Config
    const contentEls: seq<ContentEl>
    const present: set<string>
    var itemsState: map<string, ItemState>
    var log: seq<Event>
    var pending: seq<Completion>

    /** The document and the options, as the state machine reads them. */
    function Environment(): Env {
      Env(contentEls, present, options.closeOthers, options.isAnimation)
    }

    function Snapshot(): Machine
      reads this
    {
      Machine(itemsState, log, pending)
    }

    ghost predicate Valid()
      reads this
    {
      EnvOk(Environment()) && Wf(Snapshot())
    }

    /**
     * `new Collapsify(_options)` on a document whose content elements are
     * `els` and which can find a content element for each id in `present`.
     */
    constructor (overrides: Overrides, els: seq<ContentEl>, present: set<string>)
      requires AllPresent(els, present)
      ensures Valid()
      ensures options == Merge(overrides) && contentEls == els && this.present == present
      ensures Snapshot() == AfterInit(Environment())
    {
      options := Merge(overrides);
      contentEls := els;
      this.present := present;
      itemsState := map[];
      log := [];
      pending := [];
      new;
      InitContentsState();
    }

    /** `initContentsState`: seed an entry per content element with an id, then close or open it. */
    method InitContentsState()
      requires EnvOk(Environment()) && pending == []
      modifies this
      ensures Valid()
      ensures Snapshot() == AfterSeedAll(old(Snapshot()).(items := map[]), Environment(), contentEls)
    {
      ghost var s0 := Snapshot().(items := map[]);
      itemsState := map[];
      var i := 0;
      while i < |contentEls|
        invariant 0 <= i <= |contentEls|
        invariant Valid()
        invariant Snapshot() == AfterSeedAll(s0, Environment(), contentEls[..i])
      {
        assert contentEls[..i + 1][..i] == contentEls[..i];
        SeedItem(contentEls[i]);
        i := i + 1;
      }
      assert contentEls[..i] == contentEls;
    }

    /** One element of `initContentsState`: record its marker, then close or open it without animation. */
    method SeedItem(el: ContentEl)
      requires Valid()
      modifies this
      ensures Valid()
      ensures Snapshot() == AfterSeed(old(Snapshot()), Environment(), el)
    {
      if el.id == "" {
        return;
      }
      SetItemState(el.id, el.active);
      if !el.active {
        var threw := Close(el.id, false, false);
      } else {
        Open(el.id, false, false);
      }
    }

    /** `setItemState(id, isOpen)` */
    method SetItemState(id: string, isOpen: bool)
      requires Valid()
      modifies this`itemsState
      ensures Valid()
      ensures itemsState == old(itemsState)[id := ItemState(isOpen, false)]
    {
      itemsState := itemsState[id := ItemState(isOpen, false)];
    }

    /** The guard `open` and `close` both start with: an unknown id gets a closed, idle entry. */
    method EnsureEntry(id: string)
      requires Valid()
      modifies this`itemsState
      ensures Valid()
      ensures itemsState == WithEntry(old(itemsState), id)
    {
      if id !in itemsState {
        SetItemState(id, false);
      }
    }

    /** `toggleSlide(id, isRunCallback)`; `threw` is true when the close it ran threw. */
    method ToggleSlide(id: string, runCallback: bool) returns (threw: bool)
      requires Valid()
      modifies this
      ensures Valid()
      ensures Snapshot() == AfterToggle(old(Snapshot()), Environment(), id, runCallback)
      ensures threw == ToggleThrows(old(Snapshot()), Environment(), id)
      ensures old(id in itemsState && itemsState[id].isAnimating) ==> Snapshot() == old(Snapshot()) && !threw
      ensures old(!(id in itemsState && itemsState[id].isAnimating)) && id != "" && id in present ==>
        && id in itemsState
        && (itemsState[id].isOpen <==> old(id in itemsState && !itemsState[id].isOpen))
        && itemsState[id].isAnimating == options.isAnimation
    {
      ghost var s := Snapshot();
      if !(id in itemsState && itemsState[id].isAnimating) && id != "" && id in present {
        PanelProperties.ToggleFlipsKnownClosedOnly(s, Environment(), id, runCallback);
      }
      threw := false;
      if id in itemsState && itemsState[id].isAnimating {
        return;
      }
      if id in itemsState && !itemsState[id].isOpen {
        Open(id, runCallback, options.isAnimation);
      } else {
        threw := Close(id, runCallback, options.isAnimation);
      }
    }

    /** `open(id, isRunCallback, isAnimation)` */
    method Open(id: string, runCallback: bool, isAnimation: bool)
      requires Valid()
      modifies this
      ensures Valid()
      ensures Snapshot() == AfterOpen(old(Snapshot()), Environment(), id, runCallback, isAnimation)
      ensures id != "" && id in present ==> itemsState[id] == ItemState(true, isAnimation)
      ensures id != "" && id in present && options.closeOthers ==>
        forall k :: 0 <= k < |contentEls| && contentEls[k].id != "" && contentEls[k].id != id ==>
          contentEls[k].id in itemsState && !itemsState[contentEls[k].id].isOpen
      ensures id !in present ==> log == old(log) && pending == old(pending)
    {
      ghost var s := Snapshot();
      if id != "" && id in present {
        PanelProperties.OpenOutcome(s, Environment(), id, runCallback, isAnimation);
        if options.closeOthers {
          PanelProperties.OpenClosesOthers(s, Environment(), id, runCallback, isAnimation);
        }
      }
      if id == "" {
        return;
      }
      EnsureEntry(id);
      if id !in present {
        return;
      }
      itemsState := itemsState[id := itemsState[id].(isAnimating := true)];
      if options.closeOthers {
        CloseOthers(id, isAnimation);
      }
      if runCallback {
        log := log + [Start(true, id)];
      }
      if isAnimation {
        pending := pending + [OpenDone(id, runCallback)];
      } else {
        itemsState := itemsState[id := itemsState[id].(isAnimating := false)];
      }
      itemsState := itemsState[id := itemsState[id].(isOpen := true)];
    }

    /** The `closeOthers` loop of `open`: a silent close of every other content element with an id. */
    method CloseOthers(id: string, isAnimation: bool)
      requires Valid()
      modifies this
      ensures Valid()
      ensures Snapshot() == AfterCloseOthers(old(Snapshot()), Environment(), contentEls, id, isAnimation)
    {
      ghost var s := Snapshot();
      var i := 0;
      while i < |contentEls|
        invariant 0 <= i <= |contentEls|
        invariant Valid()
        invariant Snapshot() == AfterCloseOthers(s, Environment(), contentEls[..i], id, isAnimation)
      {
        assert contentEls[..i + 1][..i] == contentEls[..i];
        var closeId := contentEls[i].id;
        if closeId != "" && closeId != id {
          var threw := Close(closeId, false, isAnimation);
        }
        i := i + 1;
      }
      assert contentEls[..i] == contentEls;
    }

    /**
     * `close(id, isRunCallback, isAnimation)`; `threw` is true when the
     * document has no content element for `id`, in which case the state is
     * the one the source leaves when it dereferences the missing element.
     */
    method Close(id: string, runCallback: bool, isAnimation: bool) returns (threw: bool)
      requires Valid()
      modifies this
      ensures Valid()
      ensures Snapshot() == AfterClose(old(Snapshot()), Environment(), id, runCallback, isAnimation)
      ensures threw == CloseThrows(Environment(), id)
      ensures id != "" ==> id in itemsState && itemsState[id].isAnimating == (isAnimation || threw)
      ensures id != "" && !threw ==> !itemsState[id].isOpen
      ensures !threw && !isAnimation && id != "" ==> log[|log| - 1] == End(false, id)
    {
      ghost var s := Snapshot();
      if id != "" && id in present {
        PanelProperties.CloseOutcome(s, Environment(), id, runCallback, isAnimation);
      }
      threw := false;
      if id == "" {
        return;
      }
      EnsureEntry(id);
      itemsState := itemsState[id := itemsState[id].(isAnimating := true)];
      if runCallback {
        log := log + [Start(false, id)];
      }
      if id !in present {
        threw := true;
        return;
      }
      if isAnimation {
        pending := pending + [CloseDone(id, runCallback)];
      } else {
        log := log + [End(false, id)];
        itemsState := itemsState[id := itemsState[id].(isAnimating := false)];
      }
      itemsState := itemsState[id := itemsState[id].(isOpen := false)];
    }

    /** The oldest pending timer fires. */
    method FireNext()
      requires Valid() && pending != []
      modifies this
      ensures Valid()
      ensures Snapshot() == AfterFire(old(Snapshot()))
    {
      var c := pending[0];
      pending := pending[1..];
      if c.runCallback {
        log := log + [End(c.OpenDone?, c.id)];
      }
      itemsState := itemsState[c.id := itemsState[c.id].(isAnimating := false)];
    }
  }
}
