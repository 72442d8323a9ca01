module Wrappers {
  datatype Option<T> = None | Some(value: T)
}

/**
 * The constructor's option merge: `{...defaultOptions, ..._options}`, where the
 * default attribute names are derived from the caller's `nameSpace` (or
 * "collapsify" when the caller gives none).
 */
module CollapsifyOptions {
  import opened Wrappers

  /** The caller's `_options`: a field is `Some` exactly when the caller supplied it. */
  datatype Overrides = Overrides(
    nameSpace: Option<string>,
    toggleButtonAttr: Option<string>,
    toggleContentAttr: Option<string>,
    activeClass: Option<string>,
    isAnimation: Option<bool>,
    closeOthers: Option<bool>,
    animationSpeed: Option<int>,
    cssEasing: Option<string>)

  /** The merged `this.options`. */
  datatype Config = Config(
    nameSpace: string,
    toggleButtonAttr: string,
    toggleContentAttr: string,
    activeClass: string,
    isAnimation: bool,
    closeOthers: bool,
    animationSpeed: int,
    cssEasing: string)

  const NoOverrides := Overrides(None, None, None, None, None, None, None, None)

  /** The namespace the default attribute names are derived from. */
  function NameSpaceOf(u: Overrides): string {
    if u.nameSpace.Some? then u.nameSpace.value else "collapsify"
  }

  /** `data-${nameSpace}-control` */
  function ControlAttr(ns: string): string {
    "data-" + ns + "-control"
  }

  /** `data-${nameSpace}-content` */
  function ContentAttr(ns: string): string {
    "data-" + ns + "-content"
  }

  function Defaults(ns: string): Config {
    Config("collapsify", ControlAttr(ns), ContentAttr(ns), "--is-active", true, true, 400, "ease-in-out")
  }

  function Pick<T>(o: Option<T>, default: T): T {
    if o.Some? then o.value else default
  }

  function Merge(u: Overrides): Config {
    var d := Defaults(NameSpaceOf(u));
    Config(
      Pick(u.nameSpace, d.nameSpace),
      Pick(u.toggleButtonAttr, d.toggleButtonAttr),
      Pick(u.toggleContentAttr, d.toggleContentAttr),
      Pick(u.activeClass, d.activeClass),
      Pick(u.isAnimation, d.isAnimation),
      Pick(u.closeOthers, d.closeOthers),
      Pick(u.animationSpeed, d.animationSpeed),
      Pick(u.cssEasing, d.cssEasing))
  }

  /** Supplying every field. */
  function Full(c: Config): Overrides {
    Overrides(Some(c.nameSpace), Some(c.toggleButtonAttr), Some(c.toggleContentAttr), Some(c.activeClass),
              Some(c.isAnimation), Some(c.closeOthers), Some(c.animationSpeed), Some(c.cssEasing))
  }

  /** With no options the controller uses the documented defaults. */
  lemma MergeWithoutOverrides()
    ensures Merge(NoOverrides) ==
      Config("collapsify", "data-collapsify-control", "data-collapsify-content", "--is-active", true, true, 400, "ease-in-out")
  {
    DefaultAttrNames();
  }

  /** The attribute names derived from the default namespace. */
  lemma DefaultAttrNames()
    ensures ControlAttr("collapsify") == "data-collapsify-control"
    ensures ContentAttr("collapsify") == "data-collapsify-content"
  {
  }

  /**
   * A caller-supplied field always wins, whatever else is supplied; an omitted
   * attribute name is derived from the caller's namespace; every other omitted
   * field takes its default.
   */
  lemma MergePrefersCaller(u: Overrides)
    ensures var c := Merge(u);
      && (u.nameSpace.Some? ==> c.nameSpace == u.nameSpace.value)
      && (u.nameSpace.None? ==> c.nameSpace == "collapsify")
      && (u.toggleButtonAttr.Some? ==> c.toggleButtonAttr == u.toggleButtonAttr.value)
      && (u.toggleButtonAttr.None? ==> c.toggleButtonAttr == "data-" + NameSpaceOf(u) + "-control")
      && (u.toggleContentAttr.Some? ==> c.toggleContentAttr == u.toggleContentAttr.value)
      && (u.toggleContentAttr.None? ==> c.toggleContentAttr == "data-" + NameSpaceOf(u) + "-content")
      && (u.activeClass.Some? ==> c.activeClass == u.activeClass.value)
      && (u.activeClass.None? ==> c.activeClass == "--is-active")
      && (u.isAnimation.Some? ==> c.isAnimation == u.isAnimation.value)
      && (u.isAnimation.None? ==> c.isAnimation)
      && (u.closeOthers.Some? ==> c.closeOthers == u.closeOthers.value)
      && (u.closeOthers.None? ==> c.closeOthers)
      && (u.animationSpeed.Some? ==> c.animationSpeed == u.animationSpeed.value)
      && (u.animationSpeed.None? ==> c.animationSpeed == 400)
      && (u.cssEasing.Some? ==> c.cssEasing == u.cssEasing.value)
      && (u.cssEasing.None? ==> c.cssEasing == "ease-in-out")
  {
  }

  /** Supplying every field yields exactly that configuration; in particular merging is idempotent. */
  lemma MergeFullIsIdentity(c: Config)
    ensures Merge(Full(c)) == c
    ensures Merge(Full(Merge(NoOverrides))) == Merge(NoOverrides)
  {
  }

  /**
   * As strings, a derived control attribute name is never a derived content
   * attribute name, for any two namespaces.
   */
  lemma {:induction false} ControlNeverContent(ns1: string, ns2: string)
    ensures ControlAttr(ns1) != ContentAttr(ns2)
  {
    var a, b := ControlAttr(ns1), ContentAttr(ns2);
    // "-control" and "-content" differ three characters from the end
    assert a[|a| - 3] == 'r';
    assert b[|b| - 3] == 'e';
  }

  /** As strings, distinct namespaces derive distinct attribute names. */
  lemma {:induction false} DerivedAttrsDetermineNameSpace(ns1: string, ns2: string)
    ensures ControlAttr(ns1) == ControlAttr(ns2) ==> ns1 == ns2
    ensures ContentAttr(ns1) == ContentAttr(ns2) ==> ns1 == ns2
  {
    if ControlAttr(ns1) == ControlAttr(ns2) {
      assert ns1 == ControlAttr(ns1)[5..|ControlAttr(ns1)| - 8];
      assert ns2 == ControlAttr(ns2)[5..|ControlAttr(ns2)| - 8];
    }
    if ContentAttr(ns1) == ContentAttr(ns2) {
      assert ns1 == ContentAttr(ns1)[5..|ContentAttr(ns1)| - 8];
      assert ns2 == ContentAttr(ns2)[5..|ContentAttr(ns2)| - 8];
    }
  }

  /** When the caller names neither attribute, the merged control and content attribute names differ. */
  lemma MergedAttrsDiffer(u: Overrides)
    requires u.toggleButtonAttr.None? && u.toggleContentAttr.None?
    ensures Merge(u).toggleButtonAttr != Merge(u).toggleContentAttr
  {
    ControlNeverContent(NameSpaceOf(u), NameSpaceOf(u));
  }
}
