/**
 * The starfield background: three layers whose `box-shadow` holds a random
 * star pattern in the dark theme and `none` otherwise. Each layer's element
 * carries a `data-generated` flag, and a page-wide flag asks for a rebuild.
 * The random pattern a rebuild draws is a parameter.
 */
module Starfield {
  import opened Wrappers
  import Theme

  /** One layer: its element id, how many stars it draws, and their size. */
  datatype Layer = Layer(id: string, count: nat, size: nat)

  const Layers: seq<Layer> := [Layer("stars", 700, 1), Layer("stars2", 200, 2), Layer("stars3", 100, 3)]

  /** A viewport change in either dimension beyond this many pixels triggers a rebuild. */
  const ResizeThreshold := 200

  /** Whether a layer in the dark theme is redrawn rather than kept. */
  predicate NeedsRebuild(generated: string, boxShadow: string, regen: bool)
    ensures regen ==> NeedsRebuild(generated, boxShadow, regen)
    ensures !NeedsRebuild(generated, boxShadow, regen) ==> generated != "" && boxShadow != "none"
  {
    generated == "" || boxShadow == "none" || regen
  }

  /** `Math.abs(a - b)`. */
  function Distance(a: int, b: int): (d: nat)
    ensures d == a - b || d == b - a
  {
    if a >= b then a - b else b - a
  }

  class Starfield {
    /** Whether the element of layer `i` exists in the page. */
    const present: seq<bool>
    /** `style.boxShadow` of each layer's element. */
    var boxShadow: seq<string>
    /** `dataset.generated` of each layer's element; a missing entry reads as "". */
    var generated: seq<string>
    /** `window.__starsNeedsRegen`. */
    var needsRegen: bool
    /** The viewport size at the last rebuild caused by a resize. */
    var lastW: int
    var lastH: int

    ghost predicate Valid()
      reads this
    {
      |present| == |boxShadow| == |generated| == |Layers|
    }

    constructor(present: seq<bool>, boxShadow: seq<string>, generated: seq<string>, w: int, h: int)
      requires |present| == |boxShadow| == |generated| == |Layers|
      ensures Valid()
      ensures this.present == present && this.boxShadow == boxShadow && this.generated == generated
      ensures !needsRegen && lastW == w && lastH == h
    {
      this.present := present;
      this.boxShadow := boxShadow;
      this.generated := generated;
      needsRegen := false;
      lastW, lastH := w, h;
    }

    /**
     * `apply`: outside the dark theme every present layer is blanked and
     * marked ungenerated; in the dark theme a present layer is redrawn with
     * `built[i]` when it is ungenerated, blank, or a rebuild was requested,
     * and kept otherwise. The rebuild request is cleared afterwards.
     */
    method Apply(theme: Option<string>, built: seq<string>)
      requires Valid() && |built| == |Layers|
      modifies this
      ensures Valid() && !needsRegen && lastW == old(lastW) && lastH == old(lastH)
      ensures forall i :: 0 <= i < |Layers| && !present[i] ==>
                boxShadow[i] == old(boxShadow[i]) && generated[i] == old(generated[i])
      ensures Theme.CurrentTheme(theme) != Theme.Dark ==>
                forall i :: 0 <= i < |Layers| && present[i] ==>
                  boxShadow[i] == "none" && generated[i] == ""
      ensures Theme.CurrentTheme(theme) == Theme.Dark ==>
                forall i :: 0 <= i < |Layers| && present[i] ==>
                  if NeedsRebuild(old(generated[i]), old(boxShadow[i]), old(needsRegen))
                  then boxShadow[i] == built[i] && generated[i] == "true"
                  else boxShadow[i] == old(boxShadow[i]) && generated[i] == old(generated[i])
    {
      var dark := Theme.CurrentTheme(theme) == Theme.Dark;
      for i := 0 to |Layers|
        invariant Valid() && needsRegen == old(needsRegen)
        invariant lastW == old(lastW) && lastH == old(lastH)
        invariant forall j :: i <= j < |Layers| ==>
                    boxShadow[j] == old(boxShadow[j]) && generated[j] == old(generated[j])
        invariant forall j :: 0 <= j < i && !present[j] ==>
                    boxShadow[j] == old(boxShadow[j]) && generated[j] == old(generated[j])
        invariant !dark ==> forall j :: 0 <= j < i && present[j] ==>
                    boxShadow[j] == "none" && generated[j] == ""
        invariant dark ==> forall j :: 0 <= j < i && present[j] ==>
                    if NeedsRebuild(old(generated[j]), old(boxShadow[j]), old(needsRegen))
                    then boxShadow[j] == built[j] && generated[j] == "true"
                    else boxShadow[j] == old(boxShadow[j]) && generated[j] == old(generated[j])
      {
        if !present[i] {
          continue;
        }
        if !dark {
          boxShadow := boxShadow[i := "none"];
          generated := generated[i := ""];
          continue;
        }
        if NeedsRebuild(generated[i], boxShadow[i], needsRegen) {
          boxShadow := boxShadow[i := built[i]];
          generated := generated[i := "true"];
        }
      }
      needsRegen := false;
    }

    /**
     * The debounced resize handler: a change of more than 200 pixels in
     * width or height records the new size, requests a rebuild and applies
     * it; a smaller change does nothing.
     */
    method OnResize(w: int, h: int, theme: Option<string>, built: seq<string>)
      requires Valid() && |built| == |Layers|
      modifies this
      ensures Valid()
      ensures Distance(w, old(lastW)) > ResizeThreshold || Distance(h, old(lastH)) > ResizeThreshold ==>
                && lastW == w && lastH == h && !needsRegen
                && (Theme.CurrentTheme(theme) == Theme.Dark ==>
                      forall i :: 0 <= i < |Layers| && present[i] ==>
                        boxShadow[i] == built[i] && generated[i] == "true")
                && (Theme.CurrentTheme(theme) != Theme.Dark ==>
                      forall i :: 0 <= i < |Layers| && present[i] ==>
                        boxShadow[i] == "none" && generated[i] == "")
                && (forall i :: 0 <= i < |Layers| && !present[i] ==>
                      boxShadow[i] == old(boxShadow[i]) && generated[i] == old(generated[i]))
      ensures Distance(w, old(lastW)) <= ResizeThreshold && Distance(h, old(lastH)) <= ResizeThreshold ==>
                && lastW == old(lastW) && lastH == old(lastH) && needsRegen == old(needsRegen)
                && boxShadow == old(boxShadow) && generated == old(generated)
    {
      if Distance(w, lastW) > ResizeThreshold || Distance(h, lastH) > ResizeThreshold {
        lastW, lastH := w, h;
        needsRegen := true;
        Apply(theme, built);
      }
    }
  }
}
