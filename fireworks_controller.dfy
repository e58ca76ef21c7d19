/**
 * The event-driven part of the click effect (`initClickFireworks` in
 * admin/src/lib/fireworks.ts): the one-shot initialisation, the mousedown,
 * mouseup and long-press timer handlers, and the animation frame. The
 * closure variables `balls`, `longPressed`, `longPressTimer`, `multiplier`,
 * `width` and `height` are the fields of `Effect`; the classes of
 * `document.body` are `bodyClasses`; the timers the browser holds are
 * `pending`.
 */
module FxController {
  import opened Wrappers
  import opened Storage
  import opened FxPrefs
  import opened FxBurst
  import opened FxBalls

  const PressedClass := "is-pressed"
  const LongPressClass := "is-longpress"

  /** The state installed by a successful `initClickFireworks`. */
  class Effect {
    const storage: LocalStorage
    var balls: seq<Ball>
    var longPressed: bool
    /** The id of the last armed timer, never reset once set. */
    var longPressTimer: Option<nat>
    /** Timers armed and neither fired nor cleared. */
    var pending: set<nat>
    /** The id the browser hands out next; ids are positive. */
    var nextTimer: nat
    var multiplier: real
    var width: real
    var height: real
    var bodyClasses: set<string>

    ghost predicate Valid()
      reads this
    {
      nextTimer >= 1 &&
      (forall t :: t in pending ==> 1 <= t < nextTimer) &&
      (longPressTimer.Some? ==> 1 <= longPressTimer.value < nextTimer) &&
      multiplier >= -0.4 &&
      Distinct(balls)
    }

    /** The closure's initial state, with a viewport of the given size. */
    constructor (storage: LocalStorage, width: real, height: real, bodyClasses: set<string>)
      ensures Valid()
      ensures this.storage == storage && balls == [] && !longPressed
      ensures longPressTimer == None && pending == {} && multiplier == 0.0
      ensures this.width == width && this.height == height && this.bodyClasses == bodyClasses
    {
      this.storage := storage;
      balls := [];
      longPressed := false;
      longPressTimer := None;
      pending := {};
      nextTimer := 1;
      multiplier := 0.0;
      this.width := width;
      this.height := height;
      this.bodyClasses := bodyClasses;
    }

    /** `updateSize`, as far as the bounds of `removeBall` see it. */
    method Resize(w: real, h: real)
      modifies this
      ensures old(Valid()) ==> Valid()
      ensures width == w && height == h
      ensures balls == old(balls) && longPressed == old(longPressed) && multiplier == old(multiplier)
      ensures longPressTimer == old(longPressTimer) && pending == old(pending) && nextTimer == old(nextTimer)
      ensures bodyClasses == old(bodyClasses)
    {
      width, height := w, h;
    }

    /** `pushBalls(count, x, y)`: append one new ball per iteration of its loop. */
    method PushBalls(count: real, x: real, y: real, draws: nat -> BallDraw)
      requires Valid()
      modifies this`balls
      ensures Valid()
      ensures |balls| == |old(balls)| + Iterations(count)
      ensures balls[..|old(balls)|] == old(balls)
      ensures forall k :: |old(balls)| <= k < |balls| ==> fresh(balls[k])
      ensures Spawned(balls, |old(balls)|, x, y, draws, longPressed, multiplier)
    {
      var i: nat := 0;
      while (i as real) < count
        invariant i <= Iterations(count)
        invariant |balls| == |old(balls)| + i
        invariant balls[..|old(balls)|] == old(balls)
        invariant forall k :: |old(balls)| <= k < |balls| ==> fresh(balls[k])
        invariant Spawned(balls, |old(balls)|, x, y, draws, longPressed, multiplier)
        invariant Distinct(balls)
        decreases Iterations(count) - i
      {
        var b := new Ball(x, y, draws(i), longPressed, multiplier);
        assert b !in balls;
        AppendKeepsDistinct(balls, b);
        SpawnedAppend(balls, |old(balls)|, b, x, y, draws, longPressed, multiplier);
        balls := balls + [b];
        i := i + 1;
      }
    }

    /**
     * The mousedown listener. When enabled it emits a press burst at the
     * pointer, marks the body as pressed and arms the 500 ms long-press
     * timer; when disabled it does nothing.
     */
    method MouseDown(x: real, y: real, u: Unit, draws: nat -> BallDraw)
      requires Valid()
      modifies this
      ensures Valid()
      ensures !IsEnabled(storage.items) ==>
        balls == old(balls) && bodyClasses == old(bodyClasses) &&
        longPressTimer == old(longPressTimer) && pending == old(pending) && nextTimer == old(nextTimer)
      ensures IsEnabled(storage.items) ==>
        var n := Iterations(PressBurst(CurrentMode(storage.items), u));
        |balls| == |old(balls)| + n && balls[..|old(balls)|] == old(balls) &&
        Spawned(balls, |old(balls)|, x, y, draws, longPressed, multiplier) &&
        bodyClasses == old(bodyClasses) + {PressedClass} &&
        longPressTimer == Some(old(nextTimer)) && pending == old(pending) + {old(nextTimer)} &&
        nextTimer == old(nextTimer) + 1
      ensures IsEnabled(storage.items) ==>
        var n := |balls| - |old(balls)|;
        if CurrentMode(storage.items) == ConfettiMode then 20 <= n <= 69 else 10 <= n <= 29
      ensures forall k :: |old(balls)| <= k < |balls| ==> fresh(balls[k])
      ensures longPressed == old(longPressed) && multiplier == old(multiplier)
      ensures width == old(width) && height == old(height)
    {
      if !IsEnabled(storage.items) {
        return;
      }
      var mode := CurrentMode(storage.items);
      PressBurstRange(mode, u);
      PushBalls(PressBurst(mode, u), x, y, draws);
      bodyClasses := bodyClasses + {PressedClass};
      longPressTimer := Some(nextTimer);
      pending := pending + {nextTimer};
      nextTimer := nextTimer + 1;
    }

    /** The long-press timer's callback, for an armed timer that has not been cleared. */
    method TimerFire(id: nat)
      requires Valid() && id in pending
      modifies this
      ensures Valid()
      ensures longPressed && pending == old(pending) - {id}
      ensures bodyClasses == old(bodyClasses) + {LongPressClass}
      ensures balls == old(balls) && multiplier == old(multiplier)
      ensures longPressTimer == old(longPressTimer) && nextTimer == old(nextTimer)
      ensures width == old(width) && height == old(height)
    {
      bodyClasses := bodyClasses + {LongPressClass};
      longPressed := true;
      pending := pending - {id};
    }

    /**
     * The mouseup listener. It clears the last armed timer whatever else
     * holds; when disabled it only removes the pressed class; when enabled
     * after a long press it emits a release burst sized by the intensity
     * and ends the long press.
     */
    method MouseUp(x: real, y: real, u: Unit, draws: nat -> BallDraw)
      requires Valid()
      modifies this
      ensures Valid()
      ensures pending == if old(longPressTimer).Some? then old(pending) - {old(longPressTimer).value} else old(pending)
      ensures longPressTimer == old(longPressTimer) && nextTimer == old(nextTimer)
      ensures multiplier == old(multiplier) && width == old(width) && height == old(height)
      ensures !IsEnabled(storage.items) ==>
        balls == old(balls) && longPressed == old(longPressed) && bodyClasses == old(bodyClasses) - {PressedClass}
      ensures IsEnabled(storage.items) ==> !longPressed
      ensures IsEnabled(storage.items) && !old(longPressed) ==>
        balls == old(balls) && bodyClasses == old(bodyClasses) - {PressedClass}
      ensures IsEnabled(storage.items) && old(longPressed) ==>
        var n := Iterations(ReleaseBurst(CurrentMode(storage.items), old(multiplier), u));
        |balls| == |old(balls)| + n && balls[..|old(balls)|] == old(balls) &&
        Spawned(balls, |old(balls)|, x, y, draws, true, old(multiplier)) &&
        bodyClasses == old(bodyClasses) - {LongPressClass, PressedClass}
      ensures IsEnabled(storage.items) && old(longPressed) ==>
        var b := BoostBase(CurrentMode(storage.items));
        var c := Ceil(old(multiplier));
        var n := |balls| - |old(balls)|;
        0 <= c && b + c <= n <= 2 * b + 59 + 2 * c
      ensures forall k :: |old(balls)| <= k < |balls| ==> fresh(balls[k])
    {
      if longPressTimer.Some? {
        pending := pending - {longPressTimer.value};
      }
      if !IsEnabled(storage.items) {
        bodyClasses := bodyClasses - {PressedClass};
        return;
      }
      if longPressed {
        bodyClasses := bodyClasses - {LongPressClass};
        var mode := CurrentMode(storage.items);
        var count := ReleaseBurst(mode, multiplier, u);
        ReleaseBurstRange(mode, multiplier, u);
        PushBalls(count, x, y, draws);
        longPressed := false;
      }
      bodyClasses := bodyClasses - {PressedClass};
    }

    /**
     * One call of `loop`: every ball whose radius is not negative is
     * updated (moving to `moved[k]`), the intensity takes one step, and
     * `removeBall` sweeps the population.
     */
    method Frame(moved: seq<Point>)
      requires Valid() && |moved| == |balls|
      modifies this, balls
      ensures Valid()
      ensures forall k :: 0 <= k < |old(balls)| ==>
        old(balls)[k].State() ==
          if old(balls[k].r) < 0.0 then old(balls[k].State())
          else Stepped(old(balls[k].State()), CurrentMode(storage.items), moved[k])
      ensures multiplier == NextMultiplier(old(multiplier), longPressed)
      ensures balls == Sweep(old(balls), width, height)
      ensures longPressed == old(longPressed) && bodyClasses == old(bodyClasses)
      ensures longPressTimer == old(longPressTimer) && pending == old(pending) && nextTimer == old(nextTimer)
      ensures width == old(width) && height == old(height)
    {
      StepBalls(CurrentMode(storage.items), moved);
      multiplier := NextMultiplier(multiplier, longPressed);
      RemoveBall();
    }

    /** The loop of `loop` over the balls: update every ball whose radius is not negative. */
    method StepBalls(mode: string, moved: seq<Point>)
      requires Distinct(balls) && |moved| == |balls|
      modifies balls
      ensures forall k :: 0 <= k < |balls| ==>
        balls[k].State() ==
          if old(balls[k].r) < 0.0 then old(balls[k].State())
          else Stepped(old(balls[k].State()), mode, moved[k])
    {
      var i := 0;
      while i < |balls|
        invariant 0 <= i <= |balls|
        invariant forall k :: 0 <= k < i ==>
          balls[k].State() ==
            if old(balls[k].r) < 0.0 then old(balls[k].State())
            else Stepped(old(balls[k].State()), mode, moved[k])
        invariant forall k :: i <= k < |balls| ==> balls[k].State() == old(balls[k].State())
      {
        var b := balls[i];
        if b.r >= 0.0 {
          b.Update(mode, moved[i]);
        }
        i := i + 1;
      }
    }

    /**
     * `removeBall`: splice every ball found dead out of `balls`, in place;
     * the index advances after a splice too.
     */
    method RemoveBall()
      requires Valid()
      modifies this`balls
      ensures Valid()
      ensures balls == Sweep(old(balls), width, height)
    {
      var i := 0;
      while i < |balls|
        invariant i <= |balls| + 1
        invariant SweptUpTo(balls, i, width, height) == Sweep(old(balls), width, height)
        invariant Distinct(balls)
        decreases |balls| + 1 - i
      {
        var b := balls[i];
        if Dead(b, width, height) {
          SweepSpliceDead(balls, i, width, height);
          SpliceKeepsDistinct(balls, i);
          balls := balls[..i] + balls[i + 1..];
        } else {
          SweepPassLive(balls, i, width, height);
        }
        i := i + 1;
      }
      assert i == |balls| ==> balls[i..] == [];
    }
  }

  /**
   * What the sweep leaves of `s` once the first `i` places have been
   * dealt with; past the end (after a splice of the last ball) the
   * population has been swept.
   */
  function SweptUpTo(s: seq<Ball>, i: nat, width: real, height: real): seq<Ball>
    reads s
  {
    if i <= |s| then s[..i] + Sweep(s[i..], width, height) else s
  }

  /** Splicing out the dead ball at `i` and advancing keeps what the sweep leaves. */
  lemma SweepSpliceDead(s: seq<Ball>, i: nat, width: real, height: real)
    requires i < |s| && Dead(s[i], width, height)
    ensures SweptUpTo(s[..i] + s[i + 1..], i + 1, width, height) == SweptUpTo(s, i, width, height)
  {
    var t := s[..i] + s[i + 1..];
    if i + 1 < |s| {
      assert s[i..][1] == s[i + 1] && s[i..][2..] == s[i + 2..];
      assert t[..i + 1] == s[..i] + [s[i + 1]];
      assert t[i + 1..] == s[i + 2..];
    } else {
      assert s[i..] == [s[i]];
      assert t == s[..i];
    }
  }

  /** Passing over the live ball at `i` keeps what the sweep leaves. */
  lemma SweepPassLive(s: seq<Ball>, i: nat, width: real, height: real)
    requires i < |s| && !Dead(s[i], width, height)
    ensures SweptUpTo(s, i + 1, width, height) == SweptUpTo(s, i, width, height)
  {
    assert s[i..][1..] == s[i + 1..];
    assert s[..i + 1] == s[..i] + [s[i]];
  }

  /**
   * Two mousedowns with no mouseup between them (the button was released
   * outside the window): the second overwrites `longPressTimer`, the next
   * mouseup clears only that one, and the first timer, still armed, later
   * starts a long press with no button held.
   */
  method OrphanedLongPress(storage: LocalStorage, u: Unit, draws: nat -> BallDraw)
    returns (e: Effect, orphan: nat)
    requires IsEnabled(storage.items)
    ensures e.longPressed && LongPressClass in e.bodyClasses && PressedClass !in e.bodyClasses
    ensures e.longPressTimer != Some(orphan)
  {
    e := new Effect(storage, 100.0, 100.0, {});
    e.MouseDown(10.0, 10.0, u, draws);
    orphan := e.longPressTimer.value;
    e.MouseDown(10.0, 10.0, u, draws);
    e.MouseUp(10.0, 10.0, u, draws);
    assert orphan in e.pending;
    e.TimerFire(orphan);
  }

  /** The balls from place `from` on are new ones drawn, in order, by `draws`. */
  ghost predicate Spawned(s: seq<Ball>, from: nat, x: real, y: real, draws: nat -> BallDraw,
                          longPressed: bool, multiplier: real)
    reads s
  {
    from <= |s| &&
    forall k :: from <= k < |s| ==> s[k].State() == Spawn(x, y, draws(k - from), longPressed, multiplier)
  }

  lemma SpawnedAppend(s: seq<Ball>, from: nat, b: Ball, x: real, y: real, draws: nat -> BallDraw,
                      longPressed: bool, multiplier: real)
    requires Spawned(s, from, x, y, draws, longPressed, multiplier)
    requires b.State() == Spawn(x, y, draws(|s| - from), longPressed, multiplier)
    ensures Spawned(s + [b], from, x, y, draws, longPressed, multiplier)
  {
    var t := s + [b];
    forall k | from <= k < |t|
      ensures t[k].State() == Spawn(x, y, draws(k - from), longPressed, multiplier)
    {
      if k < |s| {
        assert t[k] == s[k];
      }
    }
  }

  /** No ball is in the population twice. */
  predicate Distinct(s: seq<Ball>) {
    forall i, j :: 0 <= i < j < |s| ==> s[i] != s[j]
  }

  lemma AppendKeepsDistinct(s: seq<Ball>, b: Ball)
    requires Distinct(s) && b !in s
    ensures Distinct(s + [b])
  {
    var t := s + [b];
    forall i, j | 0 <= i < j < |t| ensures t[i] != t[j] {
      if j == |s| {
        assert t[i] == s[i];
      } else {
        assert t[i] == s[i] && t[j] == s[j];
      }
    }
  }

  lemma SpliceKeepsDistinct(s: seq<Ball>, i: nat)
    requires Distinct(s) && i < |s|
    ensures Distinct(s[..i] + s[i + 1..])
  {
    var t := s[..i] + s[i + 1..];
    forall a, b | 0 <= a < b < |t| ensures t[a] != t[b] {
      var a' := if a < i then a else a + 1;
      var b' := if b < i then b else b + 1;
      assert t[a] == s[a'] && t[b] == s[b'];
    }
  }

  /**
   * The page-wide guard of `initClickFireworks` and what it installs: the
   * canvases appended to the body and, once a 2d context was obtained,
   * the effect with its listeners and animation loop.
   */
  class Page {
    var initialized: bool
    var canvases: nat
    var effect: Effect?

    ghost predicate Valid()
      reads this
    {
      canvases == (if initialized then 1 else 0) && (effect != null ==> initialized)
    }

    constructor ()
      ensures Valid() && !initialized && effect == null
    {
      initialized := false;
      canvases := 0;
      effect := null;
    }

    /**
     * `initClickFireworks()`. It returns at once if it ran before or there
     * is no window or document; otherwise it sets the guard, appends a
     * canvas, and only then asks for a 2d context, giving up for good if
     * there is none. With a context it runs the first frame at once.
     */
    method InitClickFireworks(hasWindow: bool, hasDocument: bool, contextAvailable: bool,
                              storage: LocalStorage, width: real, height: real, bodyClasses: set<string>)
      requires Valid()
      modifies this
      ensures Valid()
      ensures old(initialized) || !hasWindow || !hasDocument ==>
        initialized == old(initialized) && canvases == old(canvases) && effect == old(effect)
      ensures !old(initialized) && hasWindow && hasDocument ==>
        initialized && canvases == 1 && (effect != null <==> contextAvailable)
      ensures !old(initialized) && hasWindow && hasDocument && contextAvailable ==>
        effect != null && fresh(effect) && effect.Valid() && effect.storage == storage &&
        effect.balls == [] && !effect.longPressed && effect.multiplier == -0.4 &&
        effect.pending == {} && effect.bodyClasses == bodyClasses &&
        effect.width == width && effect.height == height && effect.longPressTimer == None
    {
      if initialized || !hasWindow || !hasDocument {
        return;
      }
      initialized := true;
      canvases := canvases + 1;
      if !contextAvailable {
        return;
      }
      var e := new Effect(storage, width, height, bodyClasses);
      e.Frame([]);
      effect := e;
    }
  }
}
