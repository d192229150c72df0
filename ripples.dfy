/**
 * The animated ripple background: a bounded first-in-first-out buffer of
 * ripples, fed by throttled pointer moves and pointer-down bursts and pruned
 * of expired ripples on every animation frame. Times are whole milliseconds
 * from the page's monotonic clock, passed in as `now`.
 */
module Ripples {
  import opened Wrappers
  import Theme

  const MaxRipples := 64
  /** How long a ripple lives, in milliseconds. */
  const LifeMs := 1400
  /** Minimum milliseconds between two ripples emitted by pointer moves. */
  const MinEmitInterval := 35
  /** Largest frame delta, in milliseconds. */
  const MaxFrameDelta := 33
  const MaxDpr: real := 2.0
  const LightFill := "rgba(255,255,255,0.08)"
  const DarkFill := "rgba(11,18,32,0.08)"

  /** A ripple: its centre in CSS pixels, its start time, and its strength. */
  datatype Ripple = Ripple(x: real, y: real, t0: int, force: real)

  /** `emit` on the buffer: drop the oldest entry when over 64, then append. */
  function Pushed(rs: seq<Ripple>, r: Ripple): (out: seq<Ripple>)
    ensures |rs| <= MaxRipples + 1 ==> |out| <= MaxRipples + 1
    ensures out != [] && out[|out| - 1] == r
    ensures out[..|out| - 1] == (if |rs| > MaxRipples then rs[1..] else rs)
  {
    (if |rs| > MaxRipples then rs[1..] else rs) + [r]
  }

  /** The buffer after emitting each of `news` in turn. */
  function PushedAll(rs: seq<Ripple>, news: seq<Ripple>): seq<Ripple>
    decreases |news|
  {
    if news == [] then rs else PushedAll(Pushed(rs, news[0]), news[1..])
  }

  function Min(a: int, b: int): int {
    if a <= b then a else b
  }

  /**
   * However many ripples are emitted, a buffer that starts with at most 65
   * entries holds exactly the newest min(total, 65) of all ripples, oldest
   * first.
   */
  lemma {:induction false} PushedAllKeepsNewest(rs: seq<Ripple>, news: seq<Ripple>)
    requires |rs| <= MaxRipples + 1
    ensures |PushedAll(rs, news)| == Min(|rs| + |news|, MaxRipples + 1)
    ensures PushedAll(rs, news) == (rs + news)[|rs| + |news| - |PushedAll(rs, news)|..]
    decreases |news|
  {
    if news != [] {
      var x, rest := news[0], news[1..];
      var all := rs + news;
      var d := if |rs| > MaxRipples then 1 else 0;
      var p := Pushed(rs, x);
      assert p == (rs + [x])[d..];
      assert p + rest == all[d..] by {
        assert all == (rs + [x]) + rest;
      }
      PushedAllKeepsNewest(p, rest);
      var out := PushedAll(p, rest);
      assert all[d..][|all| - d - |out|..] == all[|all| - |out|..];
    }
  }

  /** Whether a ripple is still alive at time `now`. */
  predicate Alive(r: Ripple, now: int)
    ensures r.t0 >= now ==> Alive(r, now)
  {
    now - r.t0 <= LifeMs
  }

  /** A ripple alive at some time was alive at every earlier time. */
  lemma AliveEarlier(r: Ripple, now: int, earlier: int)
    requires Alive(r, now) && earlier <= now
    ensures Alive(r, earlier)
  {
  }

  /** The ripples of `rs` still alive at `now`, in their original order. */
  function Survivors(rs: seq<Ripple>, now: int): (out: seq<Ripple>)
    ensures |out| <= |rs|
    ensures forall k :: 0 <= k < |out| ==> Alive(out[k], now)
    ensures forall r :: r in out <==> r in rs && Alive(r, now)
  {
    if rs == [] then []
    else if Alive(rs[0], now) then [rs[0]] + Survivors(rs[1..], now)
    else Survivors(rs[1..], now)
  }

  /** Pruning keeps relative order: it distributes over concatenation. */
  lemma {:induction false} SurvivorsOfConcat(a: seq<Ripple>, b: seq<Ripple>, now: int)
    ensures Survivors(a + b, now) == Survivors(a, now) + Survivors(b, now)
    decreases |a|
  {
    if a != [] {
      assert (a + b)[1..] == a[1..] + b;
      SurvivorsOfConcat(a[1..], b, now);
    } else {
      assert a + b == b;
    }
  }

  /** When nothing has expired, pruning changes nothing. */
  lemma {:induction false} SurvivorsOfLive(rs: seq<Ripple>, now: int)
    requires forall k :: 0 <= k < |rs| ==> Alive(rs[k], now)
    ensures Survivors(rs, now) == rs
    decreases |rs|
  {
    if rs != [] {
      SurvivorsOfLive(rs[1..], now);
    }
  }

  /** `Math.min(e.pressure || 0.5, 1)`: a pressure of 0 counts as 0.5. */
  function PointerForce(pressure: real): (f: real)
    ensures f <= 1.0
    ensures pressure == 0.0 ==> f == 0.5
    ensures pressure != 0.0 && pressure <= 1.0 ==> f == pressure
    ensures pressure > 1.0 ==> f == 1.0
    ensures pressure >= 0.0 ==> f > 0.0
  {
    var p := if pressure == 0.0 then 0.5 else pressure;
    if p < 1.0 then p else 1.0
  }

  /** `Math.min(33, now - last)`. */
  function FrameDelta(now: int, last: int): (dt: int)
    ensures dt <= MaxFrameDelta
    ensures dt == now - last || dt == MaxFrameDelta
    ensures now - last <= MaxFrameDelta ==> dt == now - last
  {
    if now - last < MaxFrameDelta then now - last else MaxFrameDelta
  }

  /** `Math.min(window.devicePixelRatio || 1, 2)`: a ratio of 0 counts as 1. */
  function ClampDpr(ratio: real): (dpr: real)
    ensures dpr <= MaxDpr
    ensures ratio == 0.0 ==> dpr == 1.0
    ensures ratio != 0.0 && ratio <= MaxDpr ==> dpr == ratio
    ensures ratio > MaxDpr ==> dpr == MaxDpr
    ensures ratio >= 0.0 ==> dpr > 0.0
  {
    var r := if ratio == 0.0 then 1.0 else ratio;
    if r < MaxDpr then r else MaxDpr
  }

  /** The fade colour: the white wash exactly when the theme is light; no theme counts as dark. */
  function FadeFill(theme: Option<string>): (fill: string)
    ensures fill == LightFill <==> Theme.CurrentTheme(theme) == Theme.Light
    ensures fill == LightFill || fill == DarkFill
    ensures theme.None? ==> fill == DarkFill
  {
    if Theme.CurrentTheme(theme) == Theme.Light then LightFill else DarkFill
  }

  class RippleField {
    /** The live ripples, oldest first. */
    var ripples: seq<Ripple>
    /** When a pointer move last emitted a ripple. */
    var lastEmit: int
    /** The time of the previous animation frame. */
    var last: int
    /** False while the tab is hidden. */
    var running: bool
    /** The clamped device pixel ratio and the viewport size in CSS pixels. */
    var dpr: real
    var vw: int
    var vh: int
    /** The canvas's backing size in device pixels. */
    var canvasWidth: int
    var canvasHeight: int
    var fadeFill: string

    ghost predicate Valid()
      reads this
    {
      |ripples| <= MaxRipples + 1 && dpr <= MaxDpr
    }

    constructor(now: int, ratio: real, w: int, h: int, theme: Option<string>)
      ensures Valid()
      ensures ripples == [] && lastEmit == 0 && last == now && running
      ensures dpr == ClampDpr(ratio) && vw == w && vh == h
      ensures canvasWidth == (w as real * dpr).Floor && canvasHeight == (h as real * dpr).Floor
      ensures fadeFill == FadeFill(theme)
    {
      ripples := [];
      lastEmit := 0;
      last := now;
      running := true;
      dpr := ClampDpr(ratio);
      vw, vh := w, h;
      canvasWidth := (w as real * ClampDpr(ratio)).Floor;
      canvasHeight := (h as real * ClampDpr(ratio)).Floor;
      fadeFill := FadeFill(theme);
    }

    /** `resize`: re-read the pixel ratio and viewport and size the canvas to match. */
    method Resize(ratio: real, w: int, h: int)
      requires Valid()
      modifies this
      ensures Valid()
      ensures dpr == ClampDpr(ratio) && vw == w && vh == h
      ensures canvasWidth == (w as real * dpr).Floor && canvasHeight == (h as real * dpr).Floor
      ensures ripples == old(ripples) && lastEmit == old(lastEmit) && last == old(last)
      ensures running == old(running) && fadeFill == old(fadeFill)
    {
      dpr := ClampDpr(ratio);
      vw, vh := w, h;
      canvasWidth := (w as real * dpr).Floor;
      canvasHeight := (h as real * dpr).Floor;
    }

    /** The theme button's deferred callback: re-read the fade colour. */
    method OnThemeToggled(theme: Option<string>)
      requires Valid()
      modifies this
      ensures Valid() && fadeFill == FadeFill(theme)
      ensures ripples == old(ripples) && lastEmit == old(lastEmit) && last == old(last)
      ensures running == old(running) && dpr == old(dpr)
      ensures vw == old(vw) && vh == old(vh) && canvasWidth == old(canvasWidth) && canvasHeight == old(canvasHeight)
    {
      fadeFill := FadeFill(theme);
    }

    /** `emit`: shift out the oldest ripple when over the limit, then push the new one. */
    method Emit(x: real, y: real, now: int, force: real)
      requires Valid()
      modifies this
      ensures Valid()
      ensures ripples == Pushed(old(ripples), Ripple(x, y, now, force))
      ensures lastEmit == old(lastEmit) && last == old(last) && running == old(running)
      ensures dpr == old(dpr) && fadeFill == old(fadeFill)
      ensures vw == old(vw) && vh == old(vh) && canvasWidth == old(canvasWidth) && canvasHeight == old(canvasHeight)
    {
      if |ripples| > MaxRipples {
        ripples := ripples[1..];
      }
      ripples := ripples + [Ripple(x, y, now, force)];
    }

    /**
     * A pointer move: ignored until 35 ms have passed since the last emitting
     * move; otherwise it records the time and emits one ripple whose force
     * is at most 1.
     */
    method OnPointerMove(now: int, x: real, y: real, pressure: real) returns (emitted: bool)
      requires Valid()
      modifies this
      ensures Valid()
      ensures emitted <==> now - old(lastEmit) >= MinEmitInterval
      ensures emitted ==>
                lastEmit == now && ripples == Pushed(old(ripples), Ripple(x, y, now, PointerForce(pressure)))
      ensures !emitted ==> lastEmit == old(lastEmit) && ripples == old(ripples)
      ensures last == old(last) && running == old(running) && dpr == old(dpr) && fadeFill == old(fadeFill)
      ensures vw == old(vw) && vh == old(vh) && canvasWidth == old(canvasWidth) && canvasHeight == old(canvasHeight)
    {
      if now - lastEmit < MinEmitInterval {
        return false;
      }
      lastEmit := now;
      Emit(x, y, now, PointerForce(pressure));
      emitted := true;
    }

    /** A pointer down: a burst of two full-strength ripples at the pointer. */
    method OnPointerDown(now: int, x: real, y: real)
      requires Valid()
      modifies this
      ensures Valid()
      ensures ripples == PushedAll(old(ripples), [Ripple(x, y, now, 1.0), Ripple(x, y, now, 1.0)])
      ensures lastEmit == old(lastEmit) && last == old(last) && running == old(running)
      ensures dpr == old(dpr) && fadeFill == old(fadeFill)
      ensures vw == old(vw) && vh == old(vh) && canvasWidth == old(canvasWidth) && canvasHeight == old(canvasHeight)
    {
      var i := 0;
      while i < 2
        invariant 0 <= i <= 2 && Valid()
        invariant ripples == PushedAll(old(ripples), seq(i, _ => Ripple(x, y, now, 1.0)))
        invariant lastEmit == old(lastEmit) && last == old(last) && running == old(running)
        invariant dpr == old(dpr) && fadeFill == old(fadeFill)
        invariant vw == old(vw) && vh == old(vh) && canvasWidth == old(canvasWidth) && canvasHeight == old(canvasHeight)
      {
        Emit(x, y, now, 1.0);
        PushedAllSnoc(old(ripples), seq(i, _ => Ripple(x, y, now, 1.0)), Ripple(x, y, now, 1.0));
        assert seq(i, _ => Ripple(x, y, now, 1.0)) + [Ripple(x, y, now, 1.0)]
            == seq(i + 1, _ => Ripple(x, y, now, 1.0));
        i := i + 1;
      }
      assert seq(2, _ => Ripple(x, y, now, 1.0)) == [Ripple(x, y, now, 1.0), Ripple(x, y, now, 1.0)];
    }

    /** The page's visibility changed: pause while hidden, restart the frame clock when shown. */
    method OnVisibilityChange(visible: bool, now: int)
      requires Valid()
      modifies this
      ensures Valid() && running == visible
      ensures last == if visible then now else old(last)
      ensures ripples == old(ripples) && lastEmit == old(lastEmit)
      ensures dpr == old(dpr) && fadeFill == old(fadeFill)
      ensures vw == old(vw) && vh == old(vh) && canvasWidth == old(canvasWidth) && canvasHeight == old(canvasHeight)
    {
      running := visible;
      if running {
        last := now;
      }
    }

    /**
     * One animation frame. While paused nothing changes. Otherwise the frame
     * delta (at most 33 ms) is returned, the frame clock advances, and the
     * buffer is walked from the newest ripple back, splicing out each one
     * older than 1400 ms; the survivors keep their order.
     */
    method Tick(now: int) returns (dt: Option<int>)
      requires Valid()
      modifies this
      ensures Valid()
      ensures !old(running) ==> dt == None && ripples == old(ripples) && last == old(last)
      ensures old(running) ==>
                && dt == Some(FrameDelta(now, old(last)))
                && last == now
                && ripples == Survivors(old(ripples), now)
      ensures lastEmit == old(lastEmit) && running == old(running)
      ensures dpr == old(dpr) && fadeFill == old(fadeFill)
      ensures vw == old(vw) && vh == old(vh) && canvasWidth == old(canvasWidth) && canvasHeight == old(canvasHeight)
    {
      if !running {
        return None;
      }
      dt := Some(FrameDelta(now, last));
      last := now;
      ghost var rs := ripples;
      var i := |ripples|;
      while i > 0
        invariant 0 <= i <= |rs|
        invariant ripples == rs[..i] + Survivors(rs[i..], now)
        invariant |ripples| <= |rs|
        invariant last == now && lastEmit == old(lastEmit) && running == old(running)
        invariant dpr == old(dpr) && fadeFill == old(fadeFill)
        invariant vw == old(vw) && vh == old(vh) && canvasWidth == old(canvasWidth) && canvasHeight == old(canvasHeight)
      {
        i := i - 1;
        PruneStep(rs, i, now, ripples);
        if now - ripples[i].t0 > LifeMs {
          ripples := ripples[..i] + ripples[i + 1..];
        }
      }
      assert rs[0..] == rs;
    }
  }

  /**
   * One step of the backward pruning walk: with the entries after `i`
   * already pruned, entry `i` is still in place, and splicing it out when it
   * has expired (keeping it otherwise) prunes from `i` on.
   */
  lemma PruneStep(rs: seq<Ripple>, i: nat, now: int, cur: seq<Ripple>)
    requires i < |rs| && cur == rs[..i + 1] + Survivors(rs[i + 1..], now)
    ensures i < |cur| && cur[i] == rs[i]
    ensures !Alive(rs[i], now) ==> cur[..i] + cur[i + 1..] == rs[..i] + Survivors(rs[i..], now)
    ensures Alive(rs[i], now) ==> cur == rs[..i] + Survivors(rs[i..], now)
  {
    assert rs[i..][0] == rs[i] && rs[i..][1..] == rs[i + 1..];
    assert rs[..i + 1] == rs[..i] + [rs[i]];
    if !Alive(rs[i], now) {
      assert cur[..i] == rs[..i];
      assert cur[i + 1..] == Survivors(rs[i + 1..], now);
    }
  }

  /** Emitting one more ripple after a sequence of emissions. */
  lemma {:induction false} PushedAllSnoc(rs: seq<Ripple>, news: seq<Ripple>, r: Ripple)
    ensures PushedAll(rs, news + [r]) == Pushed(PushedAll(rs, news), r)
    decreases |news|
  {
    if news == [] {
      assert [r][1..] == [];
    } else {
      assert (news + [r])[1..] == news[1..] + [r];
      PushedAllSnoc(Pushed(rs, news[0]), news[1..], r);
    }
  }
}
