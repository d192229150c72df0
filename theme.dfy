/**
 * The colour-theme rule of the page: the `data-theme` attribute of the
 * document element, read with "dark" as its default, and the toggle that
 * flips it.
 */
module Theme {
  import opened Wrappers

  const Light := "light"
  const Dark := "dark"

  /**
   * `getAttribute("data-theme") || "dark"`: a missing or empty attribute
   * reads as dark, any other value as itself.
   */
  function CurrentTheme(attr: Option<string>): (t: string)
    ensures t != ""
    ensures attr.Some? && attr.value != "" ==> t == attr.value
    ensures attr.None? || attr.value == "" ==> t == Dark
  {
    if attr.Some? && attr.value != "" then attr.value else Dark
  }

  /** The toggle: light becomes dark, and every other theme becomes light. */
  function NextTheme(current: string): (next: string)
    ensures next == Light || next == Dark
    ensures next == Dark <==> current == Light
  {
    if current == Light then Dark else Light
  }

  /** Toggling twice from light or dark returns to where it started. */
  lemma ToggleTwice(t: string)
    requires t == Light || t == Dark
    ensures NextTheme(NextTheme(t)) == t
  {
  }

  /** With no attribute the page counts as dark, so the first toggle selects light. */
  lemma FirstToggleFromDefault()
    ensures NextTheme(CurrentTheme(None)) == Light
  {
  }
}

/**
 * The theme button's click handler: it writes the next theme to the
 * document and to local storage, asks for a starfield rebuild when the
 * page turns dark, and re-applies the starfield.
 */
module ThemeToggle {
  import opened Wrappers
  import opened Theme
  import Starfield

  class ThemeButton {
    /** The `data-theme` attribute of the document element. */
    var dataTheme: Option<string>
    /** The value stored under the `pref-theme` key of local storage. */
    var stored: Option<string>

    /** Start-up: a non-empty saved preference overrides the markup's attribute. */
    constructor(saved: Option<string>, markupTheme: Option<string>)
      ensures stored == saved
      ensures dataTheme == if saved.Some? && saved.value != "" then saved else markupTheme
    {
      stored := saved;
      dataTheme := if saved.Some? && saved.value != "" then saved else markupTheme;
    }

    /**
     * A click. `built[i]` is the star pattern a rebuild of layer `i` would
     * draw. Switching to dark rebuilds every layer whose element exists;
     * switching to light blanks every such layer.
     */
    method Click(stars: Starfield.Starfield, built: seq<string>)
      requires stars.Valid() && |built| == |Starfield.Layers|
      modifies this, stars
      ensures dataTheme == Some(NextTheme(CurrentTheme(old(dataTheme))))
      ensures stored == dataTheme
      ensures stars.Valid() && !stars.needsRegen
      ensures stars.lastW == old(stars.lastW) && stars.lastH == old(stars.lastH)
      ensures dataTheme == Some(Dark) ==>
                forall i :: 0 <= i < |Starfield.Layers| && stars.present[i] ==>
                  stars.boxShadow[i] == built[i] && stars.generated[i] == "true"
      ensures dataTheme == Some(Light) ==>
                forall i :: 0 <= i < |Starfield.Layers| && stars.present[i] ==>
                  stars.boxShadow[i] == "none" && stars.generated[i] == ""
      ensures forall i :: 0 <= i < |Starfield.Layers| && !stars.present[i] ==>
                stars.boxShadow[i] == old(stars.boxShadow[i]) && stars.generated[i] == old(stars.generated[i])
    {
      var next := NextTheme(CurrentTheme(dataTheme));
      dataTheme := Some(next);
      stored := Some(next);
      if next == Dark {
        stars.needsRegen := true;
      }
      stars.Apply(dataTheme, built);
    }
  }
}
