/**
 * The auto-hiding site header: it hides after enough downward scrolling and
 * shows again after enough upward scrolling, near the top of the page, or
 * while the mobile menu is open. Scroll offsets are whole pixels.
 */
module Header {

  /** Pixels of accumulated downward scroll beyond which the header hides. */
  const HideAfter := 16
  /** Pixels of accumulated upward scroll beyond which the header shows. */
  const ShowAfter := 8
  /** At or above this offset the header is always shown. */
  const TopZone := 8

  /** `Math.max(0, offset)`: the scroll offset, never negative. */
  function ClampOffset(offset: int): (y: nat)
    ensures y >= offset
    ensures offset >= 0 ==> y == offset
    ensures offset < 0 ==> y == 0
  {
    if offset < 0 then 0 else offset
  }

  class AutoHideHeader {
    /** The offset seen at the previous scroll event. */
    var lastY: int
    /** Downward and upward scroll accumulated since the direction last changed. */
    var down: int
    var up: int
    /** Whether the header carries the `hide` class. */
    var hidden: bool

    /** Both counters are non-negative and at most one of them is non-zero. */
    ghost predicate Valid()
      reads this
    {
      lastY >= 0 && down >= 0 && up >= 0 && (down == 0 || up == 0)
    }

    constructor(offset: int, hidden: bool)
      ensures Valid()
      ensures lastY == ClampOffset(offset) && down == 0 && up == 0 && this.hidden == hidden
    {
      lastY := ClampOffset(offset);
      down, up := 0, 0;
      this.hidden := hidden;
    }

    /**
     * The scroll handler. `offset` is the page's vertical scroll position and
     * `menuOpen` whether the mobile menu is open.
     */
    method OnScroll(offset: int, menuOpen: bool)
      requires Valid()
      modifies this
      ensures Valid()
      ensures lastY == ClampOffset(offset)
      // Near the top: shown, and both counters reset.
      ensures ClampOffset(offset) <= TopZone ==> !hidden && down == 0 && up == 0
      // Menu open: shown, counters untouched.
      ensures ClampOffset(offset) > TopZone && menuOpen ==>
                !hidden && down == old(down) && up == old(up)
      ensures ClampOffset(offset) > TopZone && !menuOpen ==>
                var dy := ClampOffset(offset) - old(lastY);
                if dy > 0 then
                  down == old(down) + dy && up == 0 && hidden == (old(hidden) || down > HideAfter)
                else if dy < 0 then
                  up == old(up) - dy && down == 0 && hidden == (old(hidden) && up <= ShowAfter)
                else
                  down == old(down) && up == old(up) && hidden == old(hidden)
      // The thresholds: hiding needs more than 16 pixels of downward scroll,
      // and re-showing away from the top with the menu closed more than 8 upward.
      ensures hidden && !old(hidden) ==> down > HideAfter
      ensures !hidden && old(hidden) ==> ClampOffset(offset) <= TopZone || menuOpen || up > ShowAfter
    {
      var y := ClampOffset(offset);
      var dy := y - lastY;
      lastY := y;
      if y <= TopZone {
        hidden := false;
        down, up := 0, 0;
        return;
      }
      if menuOpen {
        hidden := false;
        return;
      }
      if dy > 0 {
        down, up := down + dy, 0;
        if down > HideAfter {
          hidden := true;
        }
      } else if dy < 0 {
        up, down := up - dy, 0;
        if up > ShowAfter {
          hidden := false;
        }
      }
    }
  }
}
