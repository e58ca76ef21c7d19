/**
 * The arithmetic of the click effect (admin/src/lib/fireworks.ts): the
 * random integer helper `randBetween`, the burst sizes of a press and of a
 * release, the number of iterations of `pushBalls`' loop and the per-frame
 * step of the long-press intensity `multiplier`.
 */
module FxBurst {

  /** A value of `Math.random()`. */
  type Unit = u: real | 0.0 <= u < 1.0

  const ConfettiMode := "confetti"

  /** `Math.ceil(x)`: the least integer not below `x`. */
  function Ceil(x: real): (c: int)
    ensures x <= c as real < x + 1.0
  {
    -((-x).Floor)
  }

  /** `randBetween(min, max)`, which is `Math.floor(Math.random() * max) + min`. */
  function RandBetween(u: Unit, min: real, max: real): (r: real)
    ensures Whole(r - min)
    ensures 0.0 < max ==> min <= r < min + max
  {
    if 0.0 < max then ScaledUnit(u, max); (u * max).Floor as real + min
    else (u * max).Floor as real + min
  }

  /** `x` is a whole number. */
  predicate Whole(x: real) {
    x.Floor as real == x
  }

  /**
   * Despite its name, `randBetween(min, max)` lies between `min` and
   * `min + max - 1` (not `max`) for whole numbers with `max` positive.
   */
  lemma RandBetweenRange(u: Unit, min: real, max: real)
    requires Whole(max) && max >= 1.0
    ensures min <= RandBetween(u, min, max) <= min + max - 1.0
    ensures Whole(min) ==> Whole(RandBetween(u, min, max))
  {
    var p := u * max;
    ScaledUnit(u, max);
    var f := p.Floor;
    assert 0 <= f && f as real <= p;
    assert max.Floor as real == max;
    assert f < max.Floor;
    assert RandBetween(u, min, max) == f as real + min;
    if Whole(min) {
      assert (f + min.Floor) as real == f as real + min;
    }
  }

  /** A random value scaled by a positive number stays below that number. */
  lemma ScaledUnit(u: Unit, m: real)
    requires m > 0.0
    ensures 0.0 <= u * m < m
  {
    assert m - u * m == (1.0 - u) * m;
  }

  /** How often `for (let i = 0; i < count; i++)` runs its body. */
  function Iterations(count: real): (n: nat)
    ensures n as real >= count
    ensures n > 0 ==> (n - 1) as real < count
  {
    if count <= 0.0 then 0 else Ceil(count)
  }

  /** `Iterations` of a whole, non-negative count is that count. */
  lemma IterationsOfWhole(x: real)
    requires Whole(x) && x >= 0.0
    ensures Iterations(x) as real == x
  {
    var k := x.Floor;
    assert -x == (-k) as real;
    assert (-x).Floor == -k;
  }

  /** The size of the burst a press emits: `randBetween(base, base + extra)`. */
  function PressBurst(mode: string, u: Unit): (r: real)
    ensures Whole(r)
    ensures mode == ConfettiMode ==> 20.0 <= r <= 69.0
    ensures mode != ConfettiMode ==> 10.0 <= r <= 29.0
  {
    var base := if mode == ConfettiMode then 20.0 else 10.0;
    var extra := if mode == ConfettiMode then 30.0 else 10.0;
    RandBetweenRange(u, base, base + extra);
    RandBetween(u, base, base + extra)
  }

  /** A press emits 20 to 69 balls in "confetti" mode and 10 to 29 in any other. */
  lemma PressBurstRange(mode: string, u: Unit)
    ensures var n := Iterations(PressBurst(mode, u));
      if mode == ConfettiMode then 20 <= n <= 69 else 10 <= n <= 29
  {
    var base := if mode == ConfettiMode then 20.0 else 10.0;
    var extra := if mode == ConfettiMode then 30.0 else 10.0;
    RandBetweenRange(u, base, base + extra);
    IterationsOfWhole(PressBurst(mode, u));
  }

  /** The base of the release burst: 120 in "confetti" mode, 50 otherwise. */
  function BoostBase(mode: string): (b: int)
    ensures b == 120 <==> mode == ConfettiMode
    ensures b >= 50
  {
    if mode == ConfettiMode then 120 else 50
  }

  /**
   * The size of the burst a release emits after a long press:
   * `randBetween(b + ceil(m), b + 60 + ceil(m))` for the boost base `b`.
   */
  function ReleaseBurst(mode: string, multiplier: real, u: Unit): (r: real)
    ensures var c := Ceil(multiplier);
      var b := BoostBase(mode);
      b + 60 + c >= 1 ==> Whole(r) && (b + c) as real <= r <= (2 * b + 59 + 2 * c) as real
  {
    var c := Ceil(multiplier);
    var b := BoostBase(mode);
    var lo := (b + c) as real;
    var hi := (b + 60 + c) as real;
    assert Whole(lo) && Whole(hi);
    assert lo + hi - 1.0 == (2 * b + 59 + 2 * c) as real;
    if hi >= 1.0 then RandBetweenRange(u, lo, hi); RandBetween(u, lo, hi)
    else RandBetween(u, lo, hi)
  }

  /**
   * A release emits between `b + c` and `2b + 59 + 2c` balls, with
   * `c = ceil(multiplier)`; since the multiplier never drops below -0.4,
   * `c` is not negative and at least `b` balls are emitted.
   */
  lemma ReleaseBurstRange(mode: string, multiplier: real, u: Unit)
    requires multiplier >= -0.4
    ensures var c := Ceil(multiplier);
      var b := BoostBase(mode);
      var n := Iterations(ReleaseBurst(mode, multiplier, u));
      c >= 0 && b + c <= n <= 2 * b + 59 + 2 * c && b <= n
  {
    var c := Ceil(multiplier);
    var b := BoostBase(mode);
    var lo := (b + c) as real;
    var hi := (b + 60 + c) as real;
    assert Whole(lo) && Whole(hi);
    RandBetweenRange(u, lo, hi);
    IterationsOfWhole(ReleaseBurst(mode, multiplier, u));
  }

  /** One frame's change of the intensity: +0.2 during a long press, else -0.4 while not negative. */
  function NextMultiplier(m: real, longPressed: bool): (n: real)
    ensures longPressed ==> n > m
    ensures !longPressed ==> n <= m
    ensures m >= -0.4 ==> n >= -0.4
  {
    if longPressed then m + 0.2
    else if m >= 0.0 then m - 0.4
    else m
  }

  /** The intensity after a run of frames, `pressed[k]` telling whether the k-th was during a long press. */
  function MultiplierAfter(m: real, pressed: seq<bool>): real
    decreases |pressed|
  {
    if pressed == [] then m
    else MultiplierAfter(NextMultiplier(m, pressed[0]), pressed[1..])
  }

  /** Starting from 0, the intensity never falls below -0.4, however the frames go. */
  lemma {:induction false} MultiplierBounded(m: real, pressed: seq<bool>)
    requires m >= -0.4
    ensures MultiplierAfter(m, pressed) >= -0.4
    decreases |pressed|
  {
    if pressed != [] {
      MultiplierBounded(NextMultiplier(m, pressed[0]), pressed[1..]);
    }
  }

  /** Hence the release burst's offset `ceil(multiplier)` is never negative. */
  lemma CeilNotNegative(m: real)
    requires m >= -0.4
    ensures Ceil(m) >= 0
  {
  }
}
