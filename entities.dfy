/** The entity kinds of the demo game: bullets, soldiers, enemies and walls,
    with their per-entity rules (a soldier's lateral step, an enemy's chase
    step, a wall's squad-size transform and a soldier's volley). */
module Entities {

  const SOLDIER_SIZE: int := 30
  const ENEMY_RADIUS: int := 20
  /** Lateral distance a soldier covers per frame while a direction key is held. */
  const MOVE_STEP: int := 5
  const BULLET_RADIUS: int := 5

  function Abs(n: int): (r: nat)
    ensures r == n || r == -n
  {
    if n < 0 then -n else n
  }

  function Max(a: int, b: int): (r: int)
    ensures r >= a && r >= b && (r == a || r == b)
  {
    if a < b then b else a
  }

  function Min(a: int, b: int): (r: int)
    ensures r <= a && r <= b && (r == a || r == b)
  {
    if a < b then a else b
  }

  /** A bullet's direction of travel, `num/den` of a half turn (num/den * pi
      radians); the game computes it as a double from this fraction. */
  datatype HalfTurns = HalfTurns(num: int, den: int)

  datatype Bullet = Bullet(x: int, y: int, radius: int, angle: HalfTurns)

  // ---------------------------------------------------------------- Soldier

  /** The x coordinate after one lateral step of `dx` (-1, 0 or 1): the step is
      taken only when the soldier then lies wholly inside [0, width]. */
  function LateralStep(x: int, dx: int, size: int, width: int): (r: int)
    ensures r == x || r == x + dx * MOVE_STEP
    ensures 0 <= x <= width - size ==> 0 <= r <= width - size
  {
    var newX := x + dx * MOVE_STEP;
    if 0 <= newX <= width - size then newX else x
  }

  /** The bullets one soldier at (x, y) fires when asked for `n` of them: the
      i-th travels at (i+1)/(n+1) of a half turn, so the fan is spread evenly
      strictly between the two horizontal directions. */
  function Shots(x: int, y: int, n: int): (r: seq<Bullet>)
    ensures |r| == Max(n, 0)
    ensures forall i :: 0 <= i < |r| ==> r[i].x == x && r[i].y == y && r[i].radius == BULLET_RADIUS
    ensures forall i :: 0 <= i < |r| ==> 0 < r[i].angle.num < r[i].angle.den
  {
    seq(Max(n, 0), i => Bullet(x, y, BULLET_RADIUS, HalfTurns(i + 1, n + 1)))
  }

  class Soldier {
    var x: int
    var y: int
    const size: int

    constructor (x: int, y: int, size: int)
      ensures this.x == x && this.y == y && this.size == size
    {
      this.x := x;
      this.y := y;
      this.size := size;
    }

    /** One frame of movement: the guarded lateral step, then one unit up. */
    method Move(dx: int, windowWidth: int)
      modifies this
      ensures x == LateralStep(old(x), dx, size, windowWidth)
      ensures y == old(y) - 1
    {
      var newX := x + dx * MOVE_STEP;
      if newX >= 0 && newX <= windowWidth - size {
        x := newX;
      }
      y := y - 1;
    }

    /** The fan of `numBullets` bullets starting at this soldier's position. */
    method Shoot(numBullets: int) returns (bullets: seq<Bullet>)
      ensures |bullets| == Max(numBullets, 0)
      ensures forall i :: 0 <= i < |bullets| ==>
        bullets[i] == Bullet(x, y, BULLET_RADIUS, HalfTurns(i + 1, numBullets + 1))
    {
      bullets := [];
      var i := 0;
      while i < numBullets
        invariant 0 <= i == |bullets|
        invariant i <= Max(numBullets, 0)
        invariant forall k :: 0 <= k < i ==>
          bullets[k] == Bullet(x, y, BULLET_RADIUS, HalfTurns(k + 1, numBullets + 1))
      {
        bullets := bullets + [Bullet(x, y, BULLET_RADIUS, HalfTurns(i + 1, numBullets + 1))];
        i := i + 1;
      }
    }
  }

  /** Both directions of the guard in Soldier.Move: a non-zero step is taken
      exactly when it lands inside the lane. */
  lemma StepTakenIffInLane(x: int, dx: int, size: int, width: int)
    requires dx != 0
    ensures LateralStep(x, dx, size, width) == x + dx * MOVE_STEP
            <==> 0 <= x + dx * MOVE_STEP <= width - size
  {
  }

  /** A soldier standing exactly on either edge of the lane can still step away
      from it, as long as the lane is at least one step wider than the soldier. */
  lemma EdgesDoNotTrap(size: int, width: int)
    requires width - size >= MOVE_STEP
    ensures LateralStep(0, 1, size, width) == MOVE_STEP
    ensures LateralStep(width - size, -1, size, width) == width - size - MOVE_STEP
  {
  }

  // ---------------------------------------------------------------- Enemy

  /** One unit step of coordinate `c` toward `target`. */
  function Toward(c: int, target: int): (r: int)
    ensures Abs(r - target) <= Abs(c - target)
    ensures c != target ==> Abs(r - c) == 1 && Abs(r - target) == Abs(c - target) - 1
    ensures c == target ==> r == c
  {
    if c < target then c + 1 else if c > target then c - 1 else c
  }

  class Enemy {
    var x: int
    var y: int
    const radius: int
    /** Set once the squad has crossed a wall; until then the enemy stands still. */
    var isMoving: bool

    constructor (x: int, y: int, radius: int)
      ensures this.x == x && this.y == y && this.radius == radius && !isMoving
    {
      this.x := x;
      this.y := y;
      this.radius := radius;
      isMoving := false;
    }

    /** One frame of chasing the point (soldierX, soldierY). */
    method Move(soldierX: int, soldierY: int)
      modifies this
      ensures isMoving == old(isMoving)
      ensures x == if isMoving then Toward(old(x), soldierX) else old(x)
      ensures y == if isMoving then Toward(old(y), soldierY) else old(y)
    {
      if isMoving {
        if x < soldierX {
          x := x + 1;
        } else if x > soldierX {
          x := x - 1;
        }
        if y < soldierY {
          y := y + 1;
        } else if y > soldierY {
          y := y - 1;
        }
      }
    }
  }

  /** Repeated chase steps reach a fixed target in exactly as many steps as
      the distance, and then stay there. */
  function Chase(c: int, target: int, steps: nat): (r: int)
    ensures Abs(r - target) == Max(Abs(c - target) - steps, 0)
    decreases steps
  {
    if steps == 0 then c else Chase(Toward(c, target), target, steps - 1)
  }

  // ---------------------------------------------------------------- Wall

  class Wall {
    const x1: int
    const y1: int
    const x2: int
    const y2: int
    /** 0 adds two soldiers, 1 subtracts two, 2 doubles, 3 halves. */
    const operation: int
    /** Set when the squad crosses the wall; never cleared. */
    var isPassed: bool

    constructor (x1: int, y1: int, x2: int, y2: int, operation: int)
      ensures this.x1 == x1 && this.y1 == y1 && this.x2 == x2 && this.y2 == y2
      ensures this.operation == operation && !isPassed
    {
      this.x1, this.y1, this.x2, this.y2 := x1, y1, x2, y2;
      this.operation := operation;
      isPassed := false;
    }

    /** The squad size after crossing this wall with `numSoldiers` soldiers. */
    function PerformOperation(numSoldiers: int): (r: int)
      ensures numSoldiers >= 1 ==> r >= 1
    {
      match operation
      case 0 => numSoldiers + 2
      case 1 => if numSoldiers > 2 then numSoldiers - 2 else 1
      case 2 => numSoldiers * 2
      case 3 => if numSoldiers > 1 then numSoldiers / 2 else 1
      case _ => numSoldiers
    }
  }

  /** The effect of each operation code on a squad of n soldiers; an unknown
      code leaves the squad as it is. */
  lemma OperationEffect(w: Wall, n: int)
    ensures w.operation == 0 ==> w.PerformOperation(n) == n + 2
    ensures w.operation == 1 ==> w.PerformOperation(n) == Max(n - 2, 1)
    ensures w.operation == 2 ==> w.PerformOperation(n) == 2 * n
    ensures w.operation == 3 ==> w.PerformOperation(n) == Max(n / 2, 1)
    ensures !(0 <= w.operation <= 3) ==> w.PerformOperation(n) == n
  {
  }

  /** Subtracting two undoes adding two. */
  lemma SubtractUndoesAdd(add: Wall, sub: Wall, n: int)
    requires add.operation == 0 && sub.operation == 1 && n >= 1
    ensures sub.PerformOperation(add.PerformOperation(n)) == n
  {
  }

  /** Halving undoes doubling. */
  lemma DivideUndoesMultiply(mul: Wall, div: Wall, n: int)
    requires mul.operation == 2 && div.operation == 3 && n >= 1
    ensures div.PerformOperation(mul.PerformOperation(n)) == n
  {
  }
}
