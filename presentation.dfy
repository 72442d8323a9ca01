/**
 * The two expressions `open` computes for the document: the class token it
 * adds to the content element and to each of its buttons, and the height the
 * opening transition targets.  The token differs between the two copies of the
 * class; `close` in both copies removes only the bare `activeClass` token.
 */
module Presentation {
  import opened Wrappers

  /** `!el.classList[0]`: the element has no first class token. */
  predicate NoFirstClass(classes: seq<string>) {
    |classes| == 0 || classes[0] == ""
  }

  /** The token the TypeScript copy adds: the bare `activeClass`, or the first class with `activeClass` appended. */
  function ActiveToken(classes: seq<string>, activeClass: string): string {
    if NoFirstClass(classes) then activeClass else classes[0] + activeClass
  }

  /** The token the JavaScript copy adds: only an element that already has a first class gets one. */
  function ActiveTokenJs(classes: seq<string>, activeClass: string): Option<string> {
    if NoFirstClass(classes) then None else Some(classes[0] + activeClass)
  }

  /** `classList.add(t)`: appends `t` unless it is already there. */
  function AddClass(classes: seq<string>, t: string): (r: seq<string>)
    ensures t in r
    ensures forall x :: x in r <==> x in classes || x == t
  {
    if t in classes then classes else classes + [t]
  }

  /** `classList.remove(t)`: drops `t`, keeping the other tokens in order. */
  function RemoveClass(classes: seq<string>, t: string): (r: seq<string>)
    ensures forall x :: x in r <==> x in classes && x != t
    ensures t !in classes ==> r == classes
    decreases |classes|
  {
    if classes == [] then []
    else (if classes[0] == t then [] else [classes[0]]) + RemoveClass(classes[1..], t)
  }

  /**
   * The TypeScript token always ends with `activeClass`, and it is the bare
   * `activeClass` exactly when the element has no first class.
   */
  lemma ActiveTokenShape(classes: seq<string>, activeClass: string)
    ensures var t := ActiveToken(classes, activeClass);
      && |t| >= |activeClass|
      && t[|t| - |activeClass|..] == activeClass
      && (t == activeClass <==> NoFirstClass(classes))
  {
    var t := ActiveToken(classes, activeClass);
    if !NoFirstClass(classes) {
      assert |t| == |classes[0]| + |activeClass| > |activeClass|;
    }
  }

  /**
   * The two copies agree on an element that has a first class; on an element
   * without one the JavaScript copy adds no token at all, where the TypeScript
   * copy adds the bare `activeClass`.
   */
  lemma CopiesAgreeOnClassedElements(classes: seq<string>, activeClass: string)
    ensures ActiveTokenJs(classes, activeClass).Some? <==> !NoFirstClass(classes)
    ensures ActiveTokenJs(classes, activeClass).Some? ==>
              ActiveTokenJs(classes, activeClass).value == ActiveToken(classes, activeClass)
  {
  }

  /**
   * The TypeScript close undoes the TypeScript open exactly when the element
   * has no first class: otherwise the combined token stays behind.
   */
  lemma OpenCloseRoundTripIff(classes: seq<string>, activeClass: string)
    requires activeClass !in classes && ActiveToken(classes, activeClass) !in classes
    ensures RemoveClass(AddClass(classes, ActiveToken(classes, activeClass)), activeClass) == classes
            <==> NoFirstClass(classes)
  {
    var t := ActiveToken(classes, activeClass);
    if NoFirstClass(classes) {
      assert AddClass(classes, t) == classes + [activeClass];
      RemoveLast(classes, activeClass);
    } else {
      CombinedTokenOutlivesClose(classes, activeClass);
    }
  }

  lemma {:induction false} RemoveLast(classes: seq<string>, t: string)
    requires t !in classes
    ensures RemoveClass(classes + [t], t) == classes
    decreases |classes|
  {
    if classes == [] {
      assert [t][1..] == [];
    } else {
      assert (classes + [t])[1..] == classes[1..] + [t];
      RemoveLast(classes[1..], t);
    }
  }

  /**
   * On an element that has a first class, both copies' `open` adds a combined
   * token that `close` does not remove: the token outlives the close.
   */
  lemma CombinedTokenOutlivesClose(classes: seq<string>, activeClass: string)
    requires !NoFirstClass(classes)
    ensures var t := ActiveToken(classes, activeClass);
      && t != activeClass
      && t in RemoveClass(AddClass(classes, t), activeClass)
      && ActiveTokenJs(classes, activeClass) == Some(t)
  {
    ActiveTokenShape(classes, activeClass);
  }

  /**
   * `(clientHeight || "1000")`: the height the opening transition targets.
   * `measured` is `None` when the content element has no parent to measure in.
   */
  function OpenTargetHeight(measured: Option<nat>): (h: nat)
    ensures h > 0
    ensures measured.Some? && measured.value > 0 ==> h == measured.value
    ensures !(measured.Some? && measured.value > 0) ==> h == 1000
  {
    if measured.Some? && measured.value != 0 then measured.value else 1000
  }
}
