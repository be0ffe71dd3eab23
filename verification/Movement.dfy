/** Moving towards a target (ship.rs, movement.rs) over the reals: each step shortens the distance by
    exactly its length, and repeated steps land on the target exactly. */
module Movement {
  import opened Ships

  lemma TimesPositive(a: real, b: real)
    requires a > 0.0 && b > 0.0
    ensures Times(a, b) > 0.0
  {
  }

  lemma TimesDistributes(a: real, b: real, k: real)
    ensures Times(a + b, k) == Times(a, k) + Times(b, k)
    ensures Times(a - b, k) == Times(a, k) - Times(b, k)
  {
  }

  lemma DifferenceOfSquares(a: real, b: real)
    ensures Times(a - b, a + b) == Square(a) - Square(b)
  {
  }

  lemma SquareNotNegative(a: real)
    ensures if a == 0.0 then Square(a) == 0.0 else Square(a) > 0.0
  {
    if a > 0.0 { TimesPositive(a, a); }
    if a < 0.0 { TimesPositive(-a, -a); }
  }

  lemma SquareOfProduct(a: real, k: real)
    ensures Square(Times(a, k)) == Times(Square(a), Square(k))
  {
    assert (a * k) * (a * k) == a * (k * (a * k));
    assert k * (a * k) == a * (k * k);
  }

  lemma SquaresOrdered(b: real, a: real)
    requires 0.0 <= b < a
    ensures Square(b) < Square(a)
  {
    hide Times, Square;
    TimesPositive(a - b, a + b);
    DifferenceOfSquares(a, b);
  }

  /** Square roots are unique. */
  lemma RootOfSquare(root: real -> real, a: real)
    requires IsRoot(root) && a >= 0.0
    ensures root(Square(a)) == a
  {
    hide Times, Square;
    SquareNotNegative(a);
    var b := root(Square(a));
    assert b >= 0.0 && Square(b) == Square(a);
    if b < a { SquaresOrdered(b, a); }
    if a < b { SquaresOrdered(a, b); }
  }

  lemma DistanceSquaredNotNegative(p: Position, q: Position)
    ensures if p == q then DistanceSquared(p, q) == 0.0 else DistanceSquared(p, q) > 0.0
  {
    hide Square;
    SquareNotNegative(p.x - q.x);
    SquareNotNegative(p.y - q.y);
    SquareNotNegative(p.z - q.z);
  }

  /** The point at a share of the way. */
  function Along(p: Position, t: Position, r: real): Position {
    Position(p.x + Times(t.x - p.x, r), p.y + Times(t.y - p.y, r), p.z + Times(t.z - p.z, r))
  }

  /** A coordinate moved by a share of the way is that share off the start, and the rest of the way off the
      target. */
  lemma MovedCoordinate(p: real, t: real, r: real)
    ensures p + Times(t - p, r) - t == Times(p - t, 1.0 - r)
    ensures p - (p + Times(t - p, r)) == Times(p - t, r)
  {
  }

  lemma ScaledDistance(p: Position, t: Position, u: Position, v: Position, k: real)
    requires u.x - v.x == Times(p.x - t.x, k) && u.y - v.y == Times(p.y - t.y, k) && u.z - v.z == Times(p.z - t.z, k)
    ensures DistanceSquared(u, v) == Times(DistanceSquared(p, t), Square(k))
  {
    hide Times, Square;
    var a, b, c := p.x - t.x, p.y - t.y, p.z - t.z;
    SquareOfProduct(a, k);
    SquareOfProduct(b, k);
    SquareOfProduct(c, k);
    TimesDistributes(Square(a), Square(b), Square(k));
    TimesDistributes(Square(a) + Square(b), Square(c), Square(k));
  }

  lemma MovedDistance(p: Position, t: Position, r: real)
    ensures DistanceSquared(Along(p, t, r), t) == Times(DistanceSquared(p, t), Square(1.0 - r))
    ensures DistanceSquared(p, Along(p, t, r)) == Times(DistanceSquared(p, t), Square(r))
  {
    hide Times, DistanceSquared;
    MovedCoordinate(p.x, t.x, r);
    MovedCoordinate(p.y, t.y, r);
    MovedCoordinate(p.z, t.z, r);
    ScaledDistance(p, t, Along(p, t, r), t, 1.0 - r);
    ScaledDistance(p, t, p, Along(p, t, r), r);
  }

  /** A share of the way is that share of the distance from the start, and the rest of it from the target. */
  lemma AlongDistances(root: real -> real, p: Position, t: Position, r: real)
    requires IsRoot(root) && 0.0 <= r <= 1.0
    ensures DistanceTo(root, p, Along(p, t, r)) == Times(DistanceTo(root, p, t), r)
    ensures DistanceTo(root, Along(p, t, r), t) == Times(DistanceTo(root, p, t), 1.0 - r)
  {
    hide Times, Square, DistanceSquared, Along;
    var d := DistanceTo(root, p, t);
    DistanceSquaredNotNegative(p, t);
    MovedDistance(p, t, r);
    SquareOfProduct(d, r);
    SquareOfProduct(d, 1.0 - r);
    assert Square(d) == DistanceSquared(p, t);
    TimesNotNegative(d, r);
    TimesNotNegative(d, 1.0 - r);
    RootOfSquare(root, Times(d, r));
    RootOfSquare(root, Times(d, 1.0 - r));
  }

  lemma TimesNotNegative(a: real, b: real)
    requires a >= 0.0 && b >= 0.0
    ensures Times(a, b) >= 0.0
  {
  }

  lemma ShareOf(d: real, step: real)
    requires 0.0 <= step < d
    ensures 0.0 <= step / d < 1.0
    ensures Times(d, step / d) == step && Times(d, 1.0 - step / d) == d - step
  {
    var r := step / d;
    assert r * d == step;
    assert d * (1.0 - r) == d - d * r;
    if r >= 1.0 {
      TimesNotNegative(d, r - 1.0);
    }
  }

  /** A step that does not reach the target is exactly as long as asked for, and shortens the distance by
      exactly its length: it does not leave the straight way. */
  lemma StepShortens(root: real -> real, p: Position, target: Position, step: real)
    requires IsRoot(root) && 0.0 <= step < DistanceTo(root, p, target)
    ensures DistanceTo(root, MoveTowards(root, p, target, step), target) == DistanceTo(root, p, target) - step
    ensures DistanceTo(root, p, MoveTowards(root, p, target, step)) == step
  {
    var d := DistanceTo(root, p, target);
    assert MoveTowards(root, p, target, step) == Along(p, target, step / d);
    hide *;
    ShareOf(d, step);
    AlongDistances(root, p, target, step / d);
  }

  /** A share of the rest of the way. */
  lemma AlongTwice(p: Position, t: Position, r: real, s: real)
    ensures Along(Along(p, t, r), t, s) == Along(p, t, r + Times(1.0 - r, s))
  {
    hide Times;
    TwiceOnTheWay(p.x, t.x, r, s);
    TwiceOnTheWay(p.y, t.y, r, s);
    TwiceOnTheWay(p.z, t.z, r, s);
  }

  lemma TwiceOnTheWay(p: real, t: real, r: real, s: real)
    ensures var q := p + Times(t - p, r); q + Times(t - q, s) == p + Times(t - p, r + Times(1.0 - r, s))
  {
    var d := t - p;
    assert (d - d * r) * s == d * s - d * (r * s);
    assert d * (r + (1.0 - r) * s) == d * r + d * s - d * (r * s);
  }

  function Moved(root: real -> real, p: Position, target: Position, step: real, n: nat): Position
    requires step >= 0.0
  {
    if n == 0 then p else MoveTowards(root, Moved(root, p, target, step, n - 1), target, step)
  }

  function Ceiling(x: real): int { -(-x).Floor }

  /** The length of `n` steps. */
  function Steps(n: nat, step: real): real {
    if n == 0 then 0.0 else Steps(n - 1, step) + step
  }

  lemma {:induction false} StepsAreTimes(n: nat, step: real)
    ensures Steps(n, step) == Times(n as real, step)
  {
    if n > 0 {
      StepsAreTimes(n - 1, step);
      TimesDistributes((n - 1) as real, 1.0, step);
    }
  }

  lemma {:induction false} StepsOrdered(k: nat, n: nat, step: real)
    requires k <= n && step > 0.0
    ensures Steps(k, step) <= Steps(n, step)
    decreases n
  {
    if k < n { StepsOrdered(k, n - 1, step); }
  }

  lemma {:induction false} DistanceLeft(root: real -> real, p: Position, target: Position, step: real, n: nat)
    requires IsRoot(root) && step > 0.0 && Steps(n, step) < DistanceTo(root, p, target)
    ensures DistanceTo(root, Moved(root, p, target, step, n), target) == DistanceTo(root, p, target) - Steps(n, step)
    decreases n
  {
    hide IsRoot, DistanceTo, MoveTowards;
    if n > 0 {
      DistanceLeft(root, p, target, step, n - 1);
      StepShortens(root, Moved(root, p, target, step, n - 1), target, step);
    }
  }

  /** The share of the way that is left, times its share of the rest, is a step's share of the whole. */
  lemma ShareOfRest(d: real, done: real, step: real)
    requires 0.0 <= done < d && 0.0 <= step < d - done
    ensures Times(d, 1.0 - done / d) == d - done
    ensures done / d + Times(1.0 - done / d, step / (d - done)) == (done + step) / d
  {
    ShareOf(d, done);
    var (r, s) := (done / d, step / (d - done));
    assert d * r == done && (d - done) * s == step;
    assert d * ((1.0 - r) * s) == (d - d * r) * s;
    assert d * (r + (1.0 - r) * s) == done + step;
    assert d * ((done + step) / d) == done + step;
    Cancelled(d, r + (1.0 - r) * s, (done + step) / d);
  }

  lemma Cancelled(d: real, a: real, b: real)
    requires d > 0.0 && d * a == d * b
    ensures a == b
  {
    assert d * (a - b) == 0.0;
  }

  /** A step from a point of the straight way leads to the point that much further on it. */
  lemma StepOnWay(root: real -> real, p: Position, target: Position, q: Position, done: real, step: real)
    requires IsRoot(root) && 0.0 <= done < DistanceTo(root, p, target) && 0.0 <= step < DistanceTo(root, p, target) - done
    requires q == Along(p, target, done / DistanceTo(root, p, target))
    ensures MoveTowards(root, q, target, step) == Along(p, target, (done + step) / DistanceTo(root, p, target))
    ensures DistanceTo(root, p, MoveTowards(root, q, target, step)) == done + step
  {
    var d := DistanceTo(root, p, target);
    ShareOf(d, done);
    AlongDistances(root, p, target, done / d);
    assert MoveTowards(root, q, target, step) == Along(q, target, step / (d - done));
    hide *;
    ShareOfRest(d, done, step);
    AlongTwice(p, target, done / d, step / (d - done));
    ShareOf(d, done + step);
    AlongDistances(root, p, target, (done + step) / d);
  }

  /** Repeated steps that do not reach the target add up, on the straight way. */
  lemma {:induction false} StepsAddUp(root: real -> real, p: Position, target: Position, step: real, n: nat)
    requires IsRoot(root) && step > 0.0 && Steps(n, step) < DistanceTo(root, p, target)
    ensures Steps(n, step) >= 0.0
    ensures Moved(root, p, target, step, n) == Along(p, target, Steps(n, step) / DistanceTo(root, p, target))
    ensures DistanceTo(root, p, Moved(root, p, target, step, n)) == Steps(n, step)
    decreases n
  {
    hide IsRoot, MoveTowards, DistanceTo, Along;
    if n == 0 {
      AlongNothing(p, target);
      AlongDistances(root, p, target, 0.0);
    } else {
      StepsAddUp(root, p, target, step, n - 1);
      StepOnWay(root, p, target, Moved(root, p, target, step, n - 1), Steps(n - 1, step), step);
    }
  }

  lemma AlongNothing(p: Position, t: Position)
    ensures Along(p, t, 0.0) == p
  {
  }

  lemma TimesOrdered(a: real, b: real, s: real)
    requires s > 0.0
    ensures a < b ==> Times(a, s) < Times(b, s)
    ensures a <= b ==> Times(a, s) <= Times(b, s)
  {
    hide Times;
    if a < b {
      TimesPositive(b - a, s);
      TimesDistributes(b, a, s);
    }
  }

  lemma QuotientPositive(d: real, s: real)
    requires d > 0.0 && s > 0.0
    ensures d / s > 0.0
  {
  }

  lemma CeilingBounds(d: real, s: real)
    requires d > 0.0 && s > 0.0
    ensures var n := Ceiling(d / s); n >= 1 && Steps(n - 1, s) < d <= Steps(n, s)
  {
    var x := d / s;
    var n := Ceiling(x);
    assert Times(x, s) == d;
    QuotientPositive(d, s);
    hide Times;
    assert (n - 1) as real < x <= n as real;
    TimesOrdered((n - 1) as real, x, s);
    TimesOrdered(x, n as real, s);
    StepsAreTimes(n, s);
    StepsAreTimes(n - 1, s);
  }

  /** Repeated steps of length s > 0 from distance D > 0 land on the target at call ceil(D / s) and not
      earlier, and each earlier call leaves D less the steps taken, all of them away from the start. */
  lemma Converges(root: real -> real, p: Position, target: Position, step: real)
    requires IsRoot(root) && step > 0.0 && DistanceTo(root, p, target) > 0.0
    ensures var d := DistanceTo(root, p, target);
            var n := Ceiling(d / step);
            && n >= 1 && Moved(root, p, target, step, n) == target
            && forall k: nat | k < n :: Moved(root, p, target, step, k) != target &&
                 DistanceTo(root, Moved(root, p, target, step, k), target) == d - Times(k as real, step) > 0.0
    ensures var d := DistanceTo(root, p, target);
            forall k: nat | k < Ceiling(d / step) :: DistanceTo(root, p, Moved(root, p, target, step, k)) == Times(k as real, step)
  {
    var d := DistanceTo(root, p, target);
    var n := Ceiling(d / step);
    CeilingBounds(d, step);
    hide Ceiling, IsRoot;
    DistanceLeft(root, p, target, step, n - 1);
    assert Moved(root, p, target, step, n) == target;
    hide MoveTowards, DistanceTo;
    forall k: nat | k < n
      ensures Moved(root, p, target, step, k) != target
      ensures DistanceTo(root, Moved(root, p, target, step, k), target) == d - Times(k as real, step) > 0.0
      ensures DistanceTo(root, p, Moved(root, p, target, step, k)) == Times(k as real, step)
    {
      StepsOrdered(k, n - 1, step);
      StepsAddUp(root, p, target, step, k);
      DistanceLeft(root, p, target, step, k);
      StepsAreTimes(k, step);
      ApartFromTarget(root, Moved(root, p, target, step, k), target);
    }
  }

  /** Not being on the target is being at a distance from it. */
  lemma ApartFromTarget(root: real -> real, p: Position, target: Position)
    requires IsRoot(root)
    ensures DistanceTo(root, p, target) == 0.0 <==> p == target
  {
    hide Square, DistanceSquared;
    DistanceSquaredNotNegative(p, target);
    SquareNotNegative(DistanceTo(root, p, target));
  }

  // ---------- one tick of a ship in transit ----------

  /** The movement system: a speed and a time, and whether the ship has arrived. */
  function MoveShipTowards(root: real -> real, p: Position, target: Position, speed: real, deltaTime: real): (Position, bool)
    requires Times(speed, deltaTime) >= 0.0
  {
    if DistanceTo(root, p, target) <= Times(speed, deltaTime) then (target, true)
    else (MoveTowards(root, p, target, Times(speed, deltaTime)), false)
  }

  lemma TwiceIsOnce(speed: real, deltaTime: real)
    requires speed >= 0.0 && deltaTime >= 0.0
    ensures Times(speed, deltaTime) >= 0.0 && Times(Times(speed, deltaTime), deltaTime) >= 0.0
    ensures Times(Times(speed, deltaTime), deltaTime) == Times(speed, deltaTime)
            <==> speed == 0.0 || deltaTime == 0.0 || deltaTime == 1.0
  {
    var perTick := Times(speed, deltaTime);
    assert Times(perTick, deltaTime) == Times(deltaTime, perTick) && Times(1.0, perTick) == perTick;
    if speed == 0.0 || deltaTime == 0.0 {
      assert perTick == 0.0;
    } else {
      hide Times;
      TimesPositive(speed, deltaTime);
      TimesPositive(perTick, deltaTime);
      TimesOrdered(deltaTime, 1.0, perTick);
      TimesOrdered(1.0, deltaTime, perTick);
    }
  }

  /** The simulation passes the distance per tick as the speed, so time is applied twice. A ship that is
      not arriving covers its distance per tick exactly when the tick lasts one second, or the distance
      is zero anyway. */
  lemma TimeAppliedTwice(root: real -> real, p: Position, target: Position, speed: real, deltaTime: real)
    requires IsRoot(root) && speed >= 0.0 && deltaTime >= 0.0
    requires Times(Times(speed, deltaTime), deltaTime) < DistanceTo(root, p, target)
    ensures Times(Times(speed, deltaTime), deltaTime) >= 0.0
    ensures var perTick := Times(speed, deltaTime);
            var (q, arrived) := MoveShipTowards(root, p, target, perTick, deltaTime);
            && !arrived
            && (DistanceTo(root, q, target) == DistanceTo(root, p, target) - perTick
                <==> speed == 0.0 || deltaTime == 0.0 || deltaTime == 1.0)
  {
    hide Times, DistanceTo, MoveTowards;
    TwiceIsOnce(speed, deltaTime);
    StepShortens(root, p, target, Times(Times(speed, deltaTime), deltaTime));
  }
}
