/**
 * The mobile navigation menu: the toggle button and its `aria-expanded`
 * attribute, the links that close the menu, and the touch rule that makes a
 * first tap on a menu item show its hover effect instead of navigating.
 * Items are numbered by their position in the menu.
 */
module Nav {
  import opened Wrappers
  import opened JsText

  class NavMenu {
    /** Whether the menu has the `open` class. */
    var open: bool
    /** The toggle button's `aria-expanded` attribute. */
    var ariaExpanded: string
    /** Whether item `i` contains an `a.fx` link (only those listen for taps). */
    const hasLink: seq<bool>
    /** Whether item `i` has the `active` class. */
    var active: seq<bool>
    /** Item `i`'s own `tappedOnce` flag. */
    var tappedOnce: seq<bool>
    /** `lastActive`: the item activated last, or null. */
    var lastActive: Option<nat>

    /**
     * An item is active exactly when it is `lastActive`; hence at most one
     * item is active at a time.
     */
    ghost predicate Valid()
      reads this
    {
      && |active| == |tappedOnce| == |hasLink|
      && (lastActive.Some? ==> lastActive.value < |active| && active[lastActive.value])
      && (forall k :: 0 <= k < |active| && active[k] ==> lastActive == Some(k))
    }

    constructor(hasLink: seq<bool>, open: bool, ariaExpanded: string)
      ensures Valid()
      ensures this.hasLink == hasLink && this.open == open && this.ariaExpanded == ariaExpanded
      ensures active == seq(|hasLink|, _ => false) && tappedOnce == seq(|hasLink|, _ => false)
      ensures lastActive == None
    {
      this.hasLink := hasLink;
      this.open := open;
      this.ariaExpanded := ariaExpanded;
      active := seq(|hasLink|, _ => false);
      tappedOnce := seq(|hasLink|, _ => false);
      lastActive := None;
    }

    /** The toggle button: flip the menu, and make `aria-expanded` say its new state. */
    method ToggleClick()
      modifies this
      ensures open == !old(open) && ariaExpanded == BooleanString(open)
      ensures active == old(active) && tappedOnce == old(tappedOnce) && lastActive == old(lastActive)
    {
      open := !open;
      ariaExpanded := BooleanString(open);
    }

    /** Any link inside the menu: close the menu. */
    method LinkClick()
      modifies this
      ensures !open && ariaExpanded == "false"
      ensures active == old(active) && tappedOnce == old(tappedOnce) && lastActive == old(lastActive)
    {
      open := false;
      ariaExpanded := "false";
    }

    /**
     * A touch on item `i`'s link. On an inactive item it is the first tap:
     * the previous `lastActive` is deactivated, this item is activated and
     * navigation is blocked. On an active item navigation goes ahead, and a
     * pending first tap is consumed. An item without a link ignores taps.
     */
    method TouchItem(i: nat) returns (navigates: bool)
      requires Valid() && i < |hasLink|
      modifies this
      ensures Valid()
      ensures open == old(open) && ariaExpanded == old(ariaExpanded)
      ensures !hasLink[i] ==>
                navigates && active == old(active) && tappedOnce == old(tappedOnce)
                && lastActive == old(lastActive)
      ensures hasLink[i] && !old(active[i]) ==>
                && !navigates
                && active == seq(|hasLink|, k => k == i)
                && lastActive == Some(i)
                && tappedOnce == old(tappedOnce)[i := true]
      ensures hasLink[i] && old(active[i]) ==>
                && navigates
                && active == old(active) && lastActive == old(lastActive)
                && tappedOnce == old(tappedOnce)[i := false]
    {
      if !hasLink[i] {
        return true;
      }
      if !active[i] {
        navigates := false;
        if lastActive.Some? && lastActive.value != i {
          active := active[lastActive.value := false];
        }
        active := active[i := true];
        lastActive := Some(i);
        tappedOnce := tappedOnce[i := true];
        assert forall k :: 0 <= k < |active| ==> active[k] == (k == i);
      } else {
        navigates := true;
        if tappedOnce[i] {
          tappedOnce := tappedOnce[i := false];
        }
      }
    }

    /** A touch outside the menu clears every active item and `lastActive`. */
    method TouchOutside()
      requires Valid()
      modifies this
      ensures Valid()
      ensures active == seq(|hasLink|, _ => false) && lastActive == None
      ensures tappedOnce == old(tappedOnce) && open == old(open) && ariaExpanded == old(ariaExpanded)
    {
      active := seq(|active|, _ => false);
      lastActive := None;
    }
  }

  /** At most one item is active in any valid menu state. */
  lemma AtMostOneActive(menu: NavMenu, j: nat, k: nat)
    requires menu.Valid() && j < |menu.active| && k < |menu.active|
    requires menu.active[j] && menu.active[k]
    ensures j == k
  {
  }
}
