/**
 * The particles of the click effect (class `Ball` in
 * admin/src/lib/fireworks.ts) and the order in which `removeBall` drops
 * them. The trigonometric parts are not modelled: the cosine and sine of a
 * ball's angle are drawn with it, and the position a ball moves to in a
 * frame is given.
 */
module FxBalls {
  import opened FxBurst

  /** The four colours a ball may take, in the order they are indexed. */
  const Colors: seq<string> := ["#d7698e", "#4caae7", "#6d6e6e", "#c1dcc7"]

  /** `Math.PI`. */
  const Pi: real := 3.141592653589793

  datatype Point = Point(x: real, y: real)

  /**
   * What a ball's constructor draws: its eight `Math.random()` values in
   * the order it calls it, and the cosine and sine of its angle.
   */
  datatype BallDraw = BallDraw(
    angle: Unit, speed: Unit, jitterX: Unit, jitterY: Unit,
    size: Unit, sizeJitter: Unit, color: Unit, rot: Unit,
    cos: real, sin: real)

  /** The fields of a ball at one moment. */
  datatype BallState = BallState(
    x: real, y: real, angle: real, multiplier: real,
    vx: real, vy: real, r: real, color: string, rot: real)

  /** A ball's speed: wider and growing with the intensity during a long press. */
  function Speed(d: BallDraw, longPressed: bool, multiplier: real): (v: real)
    ensures !longPressed ==> 6.0 <= v < 18.0
    ensures longPressed && multiplier >= -0.4 ==> 14.0 + multiplier <= v < 29.0 + 2.0 * multiplier
  {
    if longPressed then RandBetween(d.speed, 14.0 + multiplier, 15.0 + multiplier)
    else RandBetween(d.speed, 6.0, 12.0)
  }

  /** `randBetween(6, 12) + 3 * Math.random()`: a new ball's radius lies in [6, 20). */
  function InitialRadius(d: BallDraw): (r: real)
    ensures 6.0 <= r < 20.0
  {
    RandBetweenRange(d.size, 6.0, 12.0);
    RandBetween(d.size, 6.0, 12.0) + 3.0 * d.sizeJitter
  }

  /** `(Math.random() * COLORS.length) | 0`: always an index of the palette. */
  function ColorIndex(u: Unit): (i: nat)
    ensures i < |Colors|
  {
    ScaledUnit(u, 4.0);
    (u * 4.0).Floor
  }

  /** The fields `new Ball(x, y)` gives a ball. */
  function Spawn(x: real, y: real, d: BallDraw, longPressed: bool, multiplier: real): (b: BallState)
    ensures b.x == x && b.y == y
    ensures 6.0 <= b.r < 20.0
    ensures b.color in Colors
  {
    var speed := Speed(d, longPressed, multiplier);
    BallState(
      x, y, Pi * 2.0 * d.angle, speed,
      (speed + d.jitterX * 0.5) * d.cos,
      (speed + d.jitterY * 0.5) * d.sin,
      InitialRadius(d), Colors[ColorIndex(d.color)], d.rot * Pi)
  }

  /**
   * The fields after `update()` moved the ball to `p`: the radius drops by
   * 0.3, the velocity is damped by 0.9, and in "confetti" mode gravity
   * adds 0.12 to `vy` and the rotation advances by 0.1.
   */
  function Stepped(b: BallState, mode: string, p: Point): (c: BallState)
    ensures c.r < b.r
    ensures c.angle == b.angle && c.multiplier == b.multiplier && c.color == b.color
  {
    var confetti := mode == ConfettiMode;
    BallState(
      p.x, p.y, b.angle, b.multiplier,
      b.vx * 0.9,
      if confetti then b.vy * 0.9 + 0.12 else b.vy * 0.9,
      b.r - 0.3, b.color,
      if confetti then b.rot + 0.1 else b.rot)
  }

  /** Whether `removeBall` drops a ball: outside the viewport by more than its radius, or decayed. */
  predicate Gone(b: BallState, width: real, height: real)
    ensures !Gone(b, width, height) <==>
      0.0 <= b.r && -b.r <= b.x <= width + b.r && -b.r <= b.y <= height + b.r
  {
    b.x + b.r < 0.0 || b.x - b.r > width || b.y + b.r < 0.0 || b.y - b.r > height || b.r < 0.0
  }

  class Ball {
    var x: real
    var y: real
    var angle: real
    var multiplier: real
    var vx: real
    var vy: real
    var r: real
    var color: string
    var rot: real

    function State(): BallState
      reads this
    {
      BallState(x, y, angle, multiplier, vx, vy, r, color, rot)
    }

    /** `new Ball(x, y)` while the long-press flag and the intensity have the given values. */
    constructor (x: real, y: real, d: BallDraw, longPressed: bool, m: real)
      ensures State() == Spawn(x, y, d, longPressed, m)
    {
      var s := Spawn(x, y, d, longPressed, m);
      this.x, this.y, angle, multiplier := s.x, s.y, s.angle, s.multiplier;
      vx, vy, r, color, rot := s.vx, s.vy, s.r, s.color, s.rot;
    }

    /** `update()`, with the position it moves to given. */
    method Update(mode: string, p: Point)
      modifies this
      ensures State() == Stepped(old(State()), mode, p)
    {
      x, y := p.x, p.y;
      r := r - 0.3;
      vx := vx * 0.9;
      vy := vy * 0.9;
      if mode == ConfettiMode {
        vy := vy + 0.12;
        rot := rot + 0.1;
      }
    }
  }

  predicate Dead(b: Ball, width: real, height: real)
    reads b
  {
    Gone(b.State(), width, height)
  }

  // -----------------------------------------------------------------------
  // The sweep of `removeBall`

  /**
   * What `removeBall` leaves of `s`. Its loop splices a dead ball out and
   * then still advances the index, so the ball that slid into the freed
   * place is passed over and kept, dead or not.
   */
  function Sweep(s: seq<Ball>, width: real, height: real): (r: seq<Ball>)
    reads s
    ensures |r| <= |s|
  {
    if s == [] then []
    else if Dead(s[0], width, height) then
      (if |s| == 1 then [] else [s[1]] + Sweep(s[2..], width, height))
    else [s[0]] + Sweep(s[1..], width, height)
  }

  /** Which balls are dead, in order. */
  function DeadFlags(s: seq<Ball>, width: real, height: real): (d: seq<bool>)
    reads s
    ensures |d| == |s|
    ensures forall i :: 0 <= i < |s| ==> d[i] == Dead(s[i], width, height)
  {
    if s == [] then [] else [Dead(s[0], width, height)] + DeadFlags(s[1..], width, height)
  }

  /** Which places the sweep removes, given which are dead and whether the place before was removed. */
  function RemovalMask(dead: seq<bool>, afterRemoval: bool): (m: seq<bool>)
    ensures |m| == |dead|
  {
    if dead == [] then []
    else
      var here := dead[0] && !afterRemoval;
      [here] + RemovalMask(dead[1..], here)
  }

  /** The elements of `s` at the places `removed` does not mark, in their order. */
  function Keep<T>(s: seq<T>, removed: seq<bool>): seq<T>
    requires |removed| == |s|
  {
    if s == [] then []
    else (if removed[0] then [] else [s[0]]) + Keep(s[1..], removed[1..])
  }

  /** The number of places before `i` that `removed` does not mark. */
  function KeptBefore(removed: seq<bool>, i: nat): nat
    requires i <= |removed|
  {
    if i == 0 then 0
    else (if removed[0] then 0 else 1) + KeptBefore(removed[1..], i - 1)
  }

  /** Whether the place before `i` is marked; `first` stands in for the place before the first. */
  function PrevMarked(m: seq<bool>, i: nat, first: bool): bool
    requires i < |m|
  {
    if i == 0 then first else m[i - 1]
  }

  /** A place is removed exactly when it is dead and the place before it was not removed. */
  lemma {:induction false} RemovalMaskRule(dead: seq<bool>, afterRemoval: bool)
    ensures forall i :: 0 <= i < |dead| ==>
      (RemovalMask(dead, afterRemoval)[i] <==>
         dead[i] && !PrevMarked(RemovalMask(dead, afterRemoval), i, afterRemoval))
  {
    if dead != [] {
      var here := dead[0] && !afterRemoval;
      RemovalMaskRule(dead[1..], here);
      var m := RemovalMask(dead, afterRemoval);
      var tail := RemovalMask(dead[1..], here);
      assert m == [here] + tail;
      forall i | 0 <= i < |dead|
        ensures m[i] <==> dead[i] && !PrevMarked(m, i, afterRemoval)
      {
        if i > 0 {
          assert m[i] == tail[i - 1];
          assert dead[i] == dead[1..][i - 1];
          assert PrevMarked(m, i, afterRemoval) == PrevMarked(tail, i - 1, here);
        }
      }
    }
  }

  /** The sweep removes exactly what the removal mask marks, keeping the rest in order. */
  lemma {:induction false} SweepAsMask(s: seq<Ball>, width: real, height: real)
    ensures Sweep(s, width, height) == Keep(s, RemovalMask(DeadFlags(s, width, height), false))
    decreases |s|
  {
    if s != [] {
      var dead := DeadFlags(s, width, height);
      assert dead == [Dead(s[0], width, height)] + DeadFlags(s[1..], width, height);
      if Dead(s[0], width, height) {
        if |s| == 1 {
        } else {
          var rest := DeadFlags(s[2..], width, height);
          assert DeadFlags(s[1..], width, height) == [Dead(s[1], width, height)] + rest by {
            assert s[1..][1..] == s[2..];
          }
          SweepAsMask(s[2..], width, height);
          var m := RemovalMask(dead, false);
          assert m == [true] + RemovalMask(dead[1..], true);
          assert dead[1..] == [Dead(s[1], width, height)] + rest;
          assert RemovalMask(dead[1..], true) == [false] + RemovalMask(rest, false);
          assert Keep(s, m) == Keep(s[1..], m[1..]);
          assert s[1..][1..] == s[2..];
          assert Keep(s[1..], m[1..]) == [s[1]] + Keep(s[2..], RemovalMask(rest, false));
        }
      } else {
        SweepAsMask(s[1..], width, height);
        assert dead[1..] == DeadFlags(s[1..], width, height);
      }
    }
  }

  /**
   * What the sweep removes: only dead balls, never two neighbours, and a
   * dead ball whenever it is the first or follows a ball that stays.
   */
  lemma SweepRemoves(s: seq<Ball>, width: real, height: real)
    ensures var dead := DeadFlags(s, width, height);
      var m := RemovalMask(dead, false);
      Sweep(s, width, height) == Keep(s, m) &&
      (forall i :: 0 <= i < |s| && m[i] ==> Dead(s[i], width, height)) &&
      (forall i :: 0 <= i < |s| - 1 ==> !(m[i] && m[i + 1])) &&
      (|s| > 0 && Dead(s[0], width, height) ==> m[0]) &&
      (forall i :: 0 <= i < |s| - 1 && !m[i] && Dead(s[i + 1], width, height) ==> m[i + 1])
  {
    SweepAsMask(s, width, height);
    var dead := DeadFlags(s, width, height);
    var m := RemovalMask(dead, false);
    RemovalMaskRule(dead, false);
    assert forall i :: 0 <= i < |s| - 1 ==> PrevMarked(m, i + 1, false) == m[i];
  }

  /** `Keep` puts the `i`-th element, if kept, at place `KeptBefore(removed, i)`. */
  lemma {:induction false} KeepAt<T>(s: seq<T>, removed: seq<bool>, i: nat)
    requires |removed| == |s| && i < |s| && !removed[i]
    ensures KeptBefore(removed, i) < |Keep(s, removed)|
    ensures Keep(s, removed)[KeptBefore(removed, i)] == s[i]
  {
    if i > 0 {
      KeepAt(s[1..], removed[1..], i - 1);
    }
  }

  /** Kept elements keep their relative order: a later one lands at a later place. */
  lemma {:induction false} KeptInOrder(removed: seq<bool>, i: nat, j: nat)
    requires i < j <= |removed| && !removed[i]
    ensures KeptBefore(removed, i) < KeptBefore(removed, j)
  {
    if i > 0 {
      KeptInOrder(removed[1..], i - 1, j - 1);
    }
  }

  /** Every ball that is not dead survives the sweep. */
  lemma SweepKeepsLive(s: seq<Ball>, width: real, height: real, i: nat)
    requires i < |s| && !Dead(s[i], width, height)
    ensures s[i] in Sweep(s, width, height)
  {
    SweepRemoves(s, width, height);
    var m := RemovalMask(DeadFlags(s, width, height), false);
    KeepAt(s, m, i);
  }
}
