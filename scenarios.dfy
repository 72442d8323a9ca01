/**
 * A worked accordion: two panels, "a" closed and "b" marked active, with the
 * default options (`closeOthers` and animation on).  A click on the button of
 * "a" opens it and closes "b"; the close of "b" is requested without callbacks.
 */
module Scenarios {
  import opened PanelMachine

  const Accordion := Env([ContentEl("a", false), ContentEl("b", true)], {"a", "b"}, true, true)

  /** Construction: both seeding steps call `onSlideEnd(false, "a")`, and only "b" is open. */
  lemma AccordionAfterConstruction()
    ensures AfterInit(Accordion) == Machine(map["a" := Idle, "b" := ItemState(true, false)],
                                            [End(false, "a"), End(false, "a")], [])
  {
    var env := Accordion;
    var s0 := Machine(map[], [], []);
    assert env.contents[..1] == [ContentEl("a", false)];
    assert [ContentEl("a", false)][..0] == [];
    var s1 := AfterSeedAll(s0, env, env.contents[..1]);
    assert s1 == AfterSeed(s0, env, ContentEl("a", false));
    assert s1 == Machine(map["a" := Idle], [End(false, "a")], []);
    assert env.contents[..2][..1] == env.contents[..1];
    assert env.contents[..2] == env.contents;
    AccordionSeedB();
  }

  /**
   * Seeding "b", which carries the marker: `open("b", false, false)` closes
   * "a" again, unanimated, which calls `onSlideEnd(false, "a")` once more.
   */
  lemma AccordionSeedB()
    ensures AfterSeed(Machine(map["a" := Idle], [End(false, "a")], []), Accordion, ContentEl("b", true))
         == Machine(map["a" := Idle, "b" := ItemState(true, false)], [End(false, "a"), End(false, "a")], [])
  {
    var env := Accordion;
    var t := Machine(map["a" := Idle, "b" := ItemState(true, false)], [End(false, "a")], []);
    assert t.items["b"] == ItemState(true, false);
    var t2 := t.(items := t.items["b" := ItemState(true, true)]);
    assert env.contents[..1] == [ContentEl("a", false)];
    assert [ContentEl("a", false)][..0] == [];
    assert AfterCloseOthers(t2, env, env.contents[..1], "b", false)
        == Machine(map["a" := Idle, "b" := ItemState(true, true)], [End(false, "a"), End(false, "a")], []);
    assert env.contents[..2][..1] == env.contents[..1];
    assert env.contents[..2] == env.contents;
    assert AfterCloseOthers(t2, env, env.contents, "b", false)
        == AfterCloseOthers(t2, env, env.contents[..1], "b", false);
  }

  /**
   * A click on "a" (`toggleSlide("a", true)`) in the state construction
   * leaves, whatever was logged so far: "a" is open and "b" closed,
   * both still animating; the only new callback is `onSlideStart(true, "a")`,
   * since the close of "b" asks for none; two timers are pending, the close
   * of "b" first.
   */
  lemma AccordionClickOpensA(log: seq<Event>)
    ensures AfterToggle(Machine(map["a" := Idle, "b" := ItemState(true, false)], log, []), Accordion, "a", true)
         == Machine(map["a" := ItemState(true, true), "b" := ItemState(false, true)],
                    log + [Start(true, "a")],
                    [CloseDone("b", false), OpenDone("a", true)])
  {
    var s := Machine(map["a" := Idle, "b" := ItemState(true, false)], log, []);
    var s2 := Machine(map["a" := ItemState(false, true), "b" := ItemState(true, false)], log, []);
    assert s.items["a"] == Idle;
    assert s.(items := s.items["a" := s.items["a"].(isAnimating := true)]) == s2;
    AccordionClickClosesB(log);
    assert AfterToggle(s, Accordion, "a", true) == AfterOpen(s, Accordion, "a", true, true);
  }

  /** The `closeOthers` loop of that click: only "b" is closed, silently, with its timer queued. */
  lemma AccordionClickClosesB(log: seq<Event>)
    ensures AfterCloseOthers(Machine(map["a" := ItemState(false, true), "b" := ItemState(true, false)], log, []),
                             Accordion, Accordion.contents, "a", true)
         == Machine(map["a" := ItemState(false, true), "b" := ItemState(false, true)], log, [CloseDone("b", false)])
  {
    var env := Accordion;
    var s2 := Machine(map["a" := ItemState(false, true), "b" := ItemState(true, false)], log, []);
    assert env.contents[..1] == [ContentEl("a", false)];
    assert [ContentEl("a", false)][..0] == [];
    assert AfterCloseOthers(s2, env, env.contents[..1], "a", true) == s2;
    assert env.contents[..2][..1] == env.contents[..1];
    assert env.contents[..2] == env.contents;
  }

  /** Both timers fire: "a" and "b" become idle, and the timer of "a" calls `onSlideEnd(true, "a")`. */
  lemma AccordionTimersSettle(log: seq<Event>)
    ensures var clicked := Machine(map["a" := ItemState(true, true), "b" := ItemState(false, true)],
                                   log, [CloseDone("b", false), OpenDone("a", true)]);
      && Wf(clicked)
      && AfterDrain(clicked) == Machine(map["a" := ItemState(true, false), "b" := Idle], log + [End(true, "a")], [])
  {
    var clicked := Machine(map["a" := ItemState(true, true), "b" := ItemState(false, true)],
                           log, [CloseDone("b", false), OpenDone("a", true)]);
    var f1 := AfterFire(clicked);
    assert f1 == Machine(map["a" := ItemState(true, true), "b" := Idle], log, [OpenDone("a", true)]);
    var f2 := AfterFire(f1);
    assert f2 == Machine(map["a" := ItemState(true, false), "b" := Idle], log + [End(true, "a")], []);
    assert AfterDrain(f1) == AfterDrain(f2) == f2;
    assert AfterDrain(clicked) == AfterDrain(f1);
  }
}
