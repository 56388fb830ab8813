/** The state of the demo game's main loop and the steps of one frame, in the
    order the loop runs them: fire a volley when due, move bullets, soldiers
    and enemies, cull soldiers touched by enemies, cull bullets and the
    enemies they strike, and let the lead soldier cross walls. */
module GameLoop {
  import opened Seqs
  import opened Entities
  import opened Collisions
  import opened Crossing

  /** The key read this frame; any key other than the two arrows is `Other`
      (the escape key ends the loop before a frame is computed). */
  datatype Key = Left | Right | Other

  function Lateral(key: Key): (dx: int)
    ensures -1 <= dx <= 1
    ensures dx == 0 <==> key == Other
  {
    match key
    case Left => -1
    case Right => 1
    case Other => 0
  }

  /** The bullets of one volley: each soldier of `ss`, in order, fires `n`. */
  function Volley(ss: seq<Soldier>, n: int): (r: seq<Bullet>)
    reads ss
    ensures forall i :: 0 <= i < |r| ==>
      r[i].radius == BULLET_RADIUS && 0 < r[i].angle.num < r[i].angle.den
    decreases |ss|
  {
    if ss == [] then []
    else
      var init, last := ss[..|ss| - 1], ss[|ss| - 1];
      assert forall i :: 0 <= i < |init| ==> init[i] in ss;
      Volley(init, n) + Shots(last.x, last.y, n)
  }

  /** A volley of `n` bullets per soldier holds `n` bullets per soldier. */
  lemma {:induction false} VolleySize(ss: seq<Soldier>, n: int)
    requires n >= 0
    ensures |Volley(ss, n)| == |ss| * n
    decreases |ss|
  {
    if ss != [] {
      VolleySize(ss[..|ss| - 1], n);
      assert |ss| * n == (|ss| - 1) * n + n;
    }
  }

  /** Bullet k * n + j of a volley is soldier k's j-th bullet: it starts at
      that soldier's position and flies at (j+1)/(n+1) of a half turn. */
  lemma {:induction false} VolleyAt(ss: seq<Soldier>, n: int, k: int, j: int)
    requires 0 <= k < |ss| && 0 <= j < n
    ensures |Volley(ss, n)| == |ss| * n
    ensures k * n + j < |Volley(ss, n)| && Volley(ss, n)[k * n + j] == Bullet(ss[k].x, ss[k].y, BULLET_RADIUS, HalfTurns(j + 1, n + 1))
    decreases |ss|
  {
    VolleySize(ss, n);
    var init := ss[..|ss| - 1];
    VolleySize(init, n);
    if k < |init| {
      VolleyAt(init, n, k, j);
      EarlierRow(k, |init|, n, j);
    }
  }

  /** Entry j of row k of a table with n columns comes before row m > k. */
  lemma {:induction false} EarlierRow(k: int, m: int, n: int, j: int)
    requires 0 <= k < m && 0 <= j < n
    ensures k * n + j < m * n
    decreases m - k
  {
    if m > k + 1 {
      EarlierRow(k, m - 1, n, j);
    }
    assert m * n == (m - 1) * n + n;
  }

  /** Scans the enemies for one touching soldier `s`, stopping at the first. */
  method Threat(s: Soldier, es: seq<Enemy>) returns (isHit: bool)
    ensures isHit == Threatened(s, es)
  {
    isHit := false;
    var j := 0;
    while j < |es|
      invariant 0 <= j <= |es|
      invariant forall k :: 0 <= k < j ==> !Touches(s, es[k])
    {
      if Touches(s, es[j]) {
        isHit := true;
        break;
      }
      j := j + 1;
    }
  }

  /** One turn of the soldier pass at index i: soldier i is erased when an
      enemy touches it, otherwise the pass steps past it. The outcome of the
      whole pass is unchanged. */
  method PassSoldier(squad: seq<Soldier>, es: seq<Enemy>, i: int)
    returns (squad': seq<Soldier>, i': int)
    requires 0 <= i < |squad|
    ensures 0 <= i' <= |squad'| && |squad'| - i' < |squad| - i
    ensures squad'[..i'] + Survivors(squad'[i'..], es) == squad[..i] + Survivors(squad[i..], es)
  {
    var isHit := Threat(squad[i], es);
    SurvivorsStep(squad, es, i);
    if isHit {
      squad', i' := squad[..i] + squad[i + 1..], i;
    } else {
      squad', i' := squad, i + 1;
    }
  }

  /** Erases, while iterating over the squad `ss`, every soldier some enemy
      of `es` touches. */
  method SurvivingSquad(ss: seq<Soldier>, es: seq<Enemy>) returns (squad: seq<Soldier>)
    ensures squad == Survivors(ss, es)
  {
    ghost var outcome := Survivors(ss, es);
    squad := ss;
    var i := 0;
    while i < |squad|
      invariant 0 <= i <= |squad|
      invariant squad[..i] + Survivors(squad[i..], es) == outcome
      decreases |squad| - i
    {
      ghost var before, pending := squad[..i], Survivors(squad[i..], es);
      squad, i := PassSoldier(squad, es, i);
      assert squad[..i] + Survivors(squad[i..], es) == before + pending;
    }
    assert squad[..i] == squad && squad[i..] == [];
    assert Survivors(squad[i..], es) == [];
    assert squad[..i] + [] == squad;
  }

  /** Erases, while iterating, every enemy of `es` that bullet `b` strikes,
      and says whether there was one. */
  method Sweep(b: Bullet, es: seq<Enemy>) returns (left: seq<Enemy>, isHit: bool)
    ensures left == Missed(b, es)
    ensures isHit == StrikesAny(b, es)
  {
    left := es;
    isHit := false;
    var j := 0;
    while j < |left|
      invariant 0 <= j <= |left| <= |es|
      invariant left[..j] + Missed(b, left[j..]) == Missed(b, es)
      invariant isHit == (|left| < |es|)
      decreases |left| - j
    {
      MissedStep(b, left, j);
      if Strikes(b, left[j]) {
        isHit := true;
        left := left[..j] + left[j + 1..];
      } else {
        j := j + 1;
      }
    }
    assert left[..j] == left && left[j..] == [];
    MissedIsFilter(b, es);
  }

  /** One turn of the bullet pass at index i: bullet i sweeps the enemies
      that are left and is erased when it struck one, otherwise the pass
      steps past it. The outcome of the whole pass is unchanged. */
  method PassBullet(flying: seq<Bullet>, alive: seq<Enemy>, i: int)
    returns (flying': seq<Bullet>, alive': seq<Enemy>, i': int)
    requires 0 <= i < |flying|
    ensures 0 <= i' <= |flying'| && |flying'| - i' < |flying| - i
    ensures flying'[..i'] + BulletPass(flying'[i'..], alive').0 == flying[..i] + BulletPass(flying[i..], alive).0
    ensures BulletPass(flying'[i'..], alive').1 == BulletPass(flying[i..], alive).1
  {
    var b := flying[i];
    var isHit;
    alive', isHit := Sweep(b, alive);
    if isHit {
      BulletPassHit(flying, alive, i);
      flying', i' := flying[..i] + flying[i + 1..], i;
    } else {
      BulletPassMiss(flying, alive, i);
      flying', i' := flying, i + 1;
    }
  }

  /** Erases, while iterating over the bullets `bs`, every bullet that strikes
      an enemy, after erasing every enemy it strikes from `es`. */
  method Shootout(bs: seq<Bullet>, es: seq<Enemy>) returns (flying: seq<Bullet>, alive: seq<Enemy>)
    ensures (flying, alive) == BulletPass(bs, es)
  {
    flying, alive := bs, es;
    var i := 0;
    while i < |flying|
      invariant 0 <= i <= |flying|
      invariant flying[..i] + BulletPass(flying[i..], alive).0 == BulletPass(bs, es).0
      invariant BulletPass(flying[i..], alive).1 == BulletPass(bs, es).1
      decreases |flying| - i
    {
      flying, alive, i := PassBullet(flying, alive, i);
    }
    assert flying[..i] == flying && flying[i..] == [];
    assert BulletPass(flying[i..], alive) == ([], alive);
    assert flying[..i] + [] == flying;
  }

  class Game {
    const windowWidth: int
    const windowHeight: int
    var soldiers: seq<Soldier>
    var enemies: seq<Enemy>
    var walls: seq<Wall>
    var bullets: seq<Bullet>

    /** Each vector holds its entities by value, so no entity appears twice. */
    ghost predicate Valid()
      reads this
    {
      Distinct(soldiers) && Distinct(enemies) && Distinct(walls)
    }

    /** The opening position: one soldier at the bottom centre, one enemy,
        an adding wall on the left and a subtracting wall on the right. */
    constructor ()
      ensures Valid()
      ensures windowWidth == 800 && windowHeight == 600
      ensures |soldiers| == 1 && fresh(soldiers[0])
      ensures soldiers[0].x == 400 && soldiers[0].y == 570 && soldiers[0].size == SOLDIER_SIZE
      ensures |enemies| == 1 && fresh(enemies[0])
      ensures enemies[0].x == 400 && enemies[0].y == 300 && enemies[0].radius == ENEMY_RADIUS
      ensures !enemies[0].isMoving
      ensures |walls| == 2 && fresh(walls[0]) && fresh(walls[1]) && walls[0] != walls[1]
      ensures walls[0].x1 == 100 && walls[0].y1 == 400 && walls[0].x2 == 390 && walls[0].y2 == 400
      ensures walls[0].operation == 0 && !walls[0].isPassed
      ensures walls[1].x1 == 410 && walls[1].y1 == 400 && walls[1].x2 == 700 && walls[1].y2 == 400
      ensures walls[1].operation == 1 && !walls[1].isPassed
      ensures bullets == []
    {
      windowWidth := 800;
      windowHeight := 600;
      var lead := new Soldier(800 / 2, 600 - SOLDIER_SIZE, SOLDIER_SIZE);
      soldiers := [lead];
      var enemy := new Enemy(400, 300, ENEMY_RADIUS);
      enemies := [enemy];
      var add := new Wall(100, 400, 390, 400, 0);
      var sub := new Wall(410, 400, 700, 400, 1);
      walls := [add, sub];
      bullets := [];
    }

    // ------------------------------------------------------------ volley

    /** Every soldier fires as many bullets as there are soldiers. */
    method Fire()
      requires Valid()
      modifies this
      ensures Valid()
      ensures soldiers == old(soldiers) && enemies == old(enemies) && walls == old(walls)
      ensures bullets == old(bullets) + Volley(soldiers, |soldiers|)
    {
      var i := 0;
      while i < |soldiers|
        invariant 0 <= i <= |soldiers|
        invariant soldiers == old(soldiers) && enemies == old(enemies) && walls == old(walls)
        invariant bullets == old(bullets) + old(Volley(soldiers[..i], |soldiers|))
      {
        var soldier := soldiers[i];
        assert old(soldier.x) == soldier.x && old(soldier.y) == soldier.y;
        var newBullets := soldier.Shoot(|soldiers|);
        assert newBullets == Shots(soldier.x, soldier.y, |soldiers|);
        assert soldiers[..i + 1][..i] == soldiers[..i];
        bullets := bullets + newBullets;
        i := i + 1;
      }
      assert soldiers[..i] == soldiers;
      assert old(Volley(soldiers, |soldiers|)) == Volley(soldiers, |soldiers|);
    }

    // ------------------------------------------------------------ movement

    /** Every bullet advances by the external flight rule `step`. */
    method MoveBullets(step: Bullet -> Bullet)
      requires Valid()
      modifies this
      ensures Valid()
      ensures soldiers == old(soldiers) && enemies == old(enemies) && walls == old(walls)
      ensures |bullets| == |old(bullets)|
      ensures forall i :: 0 <= i < |bullets| ==> bullets[i] == step(old(bullets)[i])
    {
      var i := 0;
      while i < |bullets|
        invariant 0 <= i <= |bullets| == |old(bullets)|
        invariant soldiers == old(soldiers) && enemies == old(enemies) && walls == old(walls)
        invariant forall k :: 0 <= k < i ==> bullets[k] == step(old(bullets)[k])
        invariant forall k :: i <= k < |bullets| ==> bullets[k] == old(bullets)[k]
      {
        bullets := bullets[i := step(bullets[i])];
        i := i + 1;
      }
    }

    /** Every soldier takes its lateral step for `key` and moves up by one. */
    method MoveSoldiers(key: Key)
      requires Valid()
      modifies soldiers
      ensures forall i :: 0 <= i < |soldiers| ==>
        soldiers[i].x == LateralStep(old(soldiers[i].x), Lateral(key), soldiers[i].size, windowWidth)
      ensures forall i :: 0 <= i < |soldiers| ==> soldiers[i].y == old(soldiers[i].y) - 1
    {
      var dx := Lateral(key);
      var i := 0;
      while i < |soldiers|
        invariant 0 <= i <= |soldiers|
        invariant forall k :: 0 <= k < i ==>
          soldiers[k].x == LateralStep(old(soldiers[k].x), dx, soldiers[k].size, windowWidth) &&
          soldiers[k].y == old(soldiers[k].y) - 1
        invariant forall k :: i <= k < |soldiers| ==>
          soldiers[k].x == old(soldiers[k].x) && soldiers[k].y == old(soldiers[k].y)
      {
        soldiers[i].Move(dx, windowWidth);
        i := i + 1;
      }
    }

    /** While the squad is not empty, every enemy takes its chase step toward
        the lead soldier; an empty squad leaves every enemy where it is. */
    method MoveEnemies()
      requires Valid()
      modifies enemies
      ensures forall i :: 0 <= i < |enemies| ==> enemies[i].isMoving == old(enemies[i].isMoving)
      ensures forall i :: 0 <= i < |enemies| ==>
        if |soldiers| > 0 && enemies[i].isMoving then
          enemies[i].x == Toward(old(enemies[i].x), soldiers[0].x) &&
          enemies[i].y == Toward(old(enemies[i].y), soldiers[0].y)
        else
          enemies[i].x == old(enemies[i].x) && enemies[i].y == old(enemies[i].y)
    {
      var i := 0;
      while i < |enemies|
        invariant 0 <= i <= |enemies|
        invariant forall k :: 0 <= k < |enemies| ==> enemies[k].isMoving == old(enemies[k].isMoving)
        invariant forall k :: 0 <= k < i ==>
          if |soldiers| > 0 && enemies[k].isMoving then
            enemies[k].x == Toward(old(enemies[k].x), soldiers[0].x) &&
            enemies[k].y == Toward(old(enemies[k].y), soldiers[0].y)
          else
            enemies[k].x == old(enemies[k].x) && enemies[k].y == old(enemies[k].y)
        invariant forall k :: i <= k < |enemies| ==>
          enemies[k].x == old(enemies[k].x) && enemies[k].y == old(enemies[k].y)
      {
        if |soldiers| > 0 {
          enemies[i].Move(soldiers[0].x, soldiers[0].y);
        }
        i := i + 1;
      }
    }

    // ------------------------------------------------------------ soldier - enemy

    /** Removes every soldier some enemy touches; enemies stay. */
    method CullSoldiers()
      requires Valid()
      modifies this
      ensures Valid()
      ensures soldiers == Survivors(old(soldiers), enemies)
      ensures enemies == old(enemies) && walls == old(walls) && bullets == old(bullets)
    {
      var squad := SurvivingSquad(soldiers, enemies);
      SurvivorsInOrder(soldiers, enemies);
      SubsequenceDistinct(squad, soldiers);
      soldiers := squad;
    }

    // ------------------------------------------------------------ bullet - enemy

    /** Each bullet in turn removes every enemy it strikes; the bullet is
        removed when it struck at least one. */
    method CullBullets()
      requires Valid()
      modifies this
      ensures Valid()
      ensures (bullets, enemies) == BulletPass(old(bullets), old(enemies))
      ensures forall e :: e in enemies ==> e in old(enemies)
      ensures soldiers == old(soldiers) && walls == old(walls)
    {
      var flying, alive := Shootout(bullets, enemies);
      BulletPassInOrder(bullets, enemies);
      SubsequenceDistinct(alive, enemies);
      bullets, enemies := flying, alive;
    }

    // ------------------------------------------------------------ walls

    /** Every enemy starts chasing. */
    method ReleaseEnemies()
      modifies enemies
      ensures forall i :: 0 <= i < |enemies| ==> enemies[i].isMoving
      ensures forall i :: 0 <= i < |enemies| ==>
        enemies[i].x == old(enemies[i].x) && enemies[i].y == old(enemies[i].y)
    {
      var i := 0;
      while i < |enemies|
        invariant 0 <= i <= |enemies|
        invariant forall k :: 0 <= k < i ==> enemies[k].isMoving
        invariant forall k :: 0 <= k < |enemies| ==>
          enemies[k].x == old(enemies[k].x) && enemies[k].y == old(enemies[k].y)
      {
        enemies[i].isMoving := true;
        i := i + 1;
      }
    }

    /** Appends recruits until the squad has `target` soldiers, each at the
        lead's height and at the offset that belongs to its index. */
    method Grow(target: int)
      requires Valid() && |soldiers| > 0
      modifies this
      ensures Valid()
      ensures enemies == old(enemies) && walls == old(walls) && bullets == old(bullets)
      ensures |soldiers| == Max(target, old(|soldiers|))
      ensures soldiers[..old(|soldiers|)] == old(soldiers)
      ensures forall k :: old(|soldiers|) <= k < |soldiers| ==>
        fresh(soldiers[k]) && Recruit(soldiers[k], soldiers[0], k)
    {
      while |soldiers| < target
        invariant Valid()
        invariant enemies == old(enemies) && walls == old(walls) && bullets == old(bullets)
        invariant old(|soldiers|) <= |soldiers| <= Max(target, old(|soldiers|))
        invariant soldiers[..old(|soldiers|)] == old(soldiers)
        invariant forall k :: old(|soldiers|) <= k < |soldiers| ==>
          fresh(soldiers[k]) && Recruit(soldiers[k], soldiers[0], k)
        decreases target - |soldiers|
      {
        var startX := soldiers[0].x + Offset(|soldiers|);
        var recruit := new Soldier(startX, soldiers[0].y, SOLDIER_SIZE);
        soldiers := soldiers + [recruit];
      }
    }

    /** Removes soldiers from the tail while there are more than `target`,
        but never the last one. */
    method Shrink(target: int)
      requires Valid()
      modifies this
      ensures Valid()
      ensures enemies == old(enemies) && walls == old(walls) && bullets == old(bullets)
      ensures soldiers == old(soldiers)[..Min(|old(soldiers)|, Max(target, 1))]
    {
      while |soldiers| > target && |soldiers| > 1
        invariant Valid()
        invariant enemies == old(enemies) && walls == old(walls) && bullets == old(bullets)
        invariant Min(|old(soldiers)|, Max(target, 1)) <= |soldiers| <= |old(soldiers)|
        invariant soldiers == old(soldiers)[..|soldiers|]
      {
        soldiers := soldiers[..|soldiers| - 1];
      }
    }

    /** The lead soldier crosses wall `w`: the wall is marked passed, every
        enemy is released and the squad is resized to the wall's result. */
    method PassWall(w: Wall)
      requires Valid() && |soldiers| > 0
      modifies this, w, enemies
      ensures Valid() && w.isPassed
      ensures enemies == old(enemies) && walls == old(walls) && bullets == old(bullets)
      ensures forall i :: 0 <= i < |enemies| ==> enemies[i].isMoving
      ensures forall i :: 0 <= i < |enemies| ==>
        enemies[i].x == old(enemies[i].x) && enemies[i].y == old(enemies[i].y)
      ensures |soldiers| == w.PerformOperation(old(|soldiers|)) && soldiers[0] == old(soldiers[0])
      ensures soldiers[..Min(old(|soldiers|), |soldiers|)] == old(soldiers)[..Min(old(|soldiers|), |soldiers|)]
      ensures forall k :: old(|soldiers|) <= k < |soldiers| ==>
        fresh(soldiers[k]) && Recruit(soldiers[k], soldiers[0], k)
    {
      w.isPassed := true;
      ReleaseEnemies();
      var numSoldiers := |soldiers|;
      numSoldiers := w.PerformOperation(numSoldiers);
      Grow(numSoldiers);
      Shrink(numSoldiers);
    }

    /** The state of the crossing pass once the walls before index i have
        been considered, relative to the snapshot `b` taken when it began:
        the squad has `size` soldiers, keeps the soldiers of the snapshot
        below `low` and holds recruits from there on; the walls before i are
        passed if they were or if the lead had reached them; the enemies
        chase if they did or if `chasing` (some wall was crossed). */
    ghost predicate MidCrossing(i: int, b: Snapshot, size: int, low: int, chasing: bool)
      reads this, walls, enemies, soldiers, b.lead
    {
      Valid() && 0 <= i <= |walls| &&
      |b.passed| == |walls| && |b.opens| == |walls| && |b.moving| == |enemies| && |b.at| == |enemies| &&
      b.lead.x == b.x && b.lead.y == b.y &&
      |soldiers| == size && Formation(soldiers, b.lead, b.squad, low) &&
      (forall k :: 0 <= k < |walls| ==> walls[k].isPassed == (b.passed[k] || (k < i && b.opens[k]))) &&
      (forall k :: 0 <= k < |enemies| ==> enemies[k].x == b.at[k].0 && enemies[k].y == b.at[k].1) &&
      (forall k :: 0 <= k < |enemies| ==> enemies[k].isMoving == (b.moving[k] || chasing))
    }

    /** One wall of the crossing pass: the lead crosses wall i exactly when it
        had reached it when the pass began, which brings the tally of the
        pass from n soldiers one wall further. */
    method ApproachWall(i: int, ghost b: Snapshot, ghost n: int)
      requires 0 <= i < |walls| && |b.passed| == |walls| && |b.opens| == |walls|
      requires b.opens[i] == (!b.passed[i] && b.y < walls[i].y1 && walls[i].x1 <= b.x <= walls[i].x2)
      requires var t := Tally(walls, b.opens, n, i); MidCrossing(i, b, t.0, t.1, t.2)
      modifies this, walls[i], enemies
      ensures walls == old(walls) && enemies == old(enemies) && bullets == old(bullets)
      ensures var t := Tally(walls, b.opens, n, i + 1); MidCrossing(i + 1, b, t.0, t.1, t.2)
    {
      ghost var t := Tally(walls, b.opens, n, i);
      var wall := walls[i];
      if !wall.isPassed && |soldiers| > 0 && soldiers[0].y < wall.y1 &&
         soldiers[0].x >= wall.x1 && soldiers[0].x <= wall.x2 {
        CrossWall(i, b, t.0, t.1, t.2);
        assert Tally(walls, b.opens, n, i + 1) ==
          (walls[i].PerformOperation(t.0), Min(t.1, walls[i].PerformOperation(t.0)), true);
      } else {
        assert Tally(walls, b.opens, n, i + 1) == t;
      }
    }

    /** The lead crosses wall i, which it had reached when the pass began. */
    method CrossWall(i: int, ghost b: Snapshot, ghost size: int, ghost low: int, ghost chasing: bool)
      requires 0 <= i < |walls| && MidCrossing(i, b, size, low, chasing) && b.opens[i]
      modifies this, walls[i], enemies
      ensures walls == old(walls) && enemies == old(enemies) && bullets == old(bullets)
      ensures MidCrossing(i + 1, b, walls[i].PerformOperation(size),
                          Min(low, walls[i].PerformOperation(size)), true)
    {
      var wall := walls[i];
      ghost var before := soldiers;
      PassWall(wall);
      FormationResized(before, soldiers, b.lead, b.squad, low);
    }

    /** The state in which a crossing pass begins, as it remembers it: the
        lead and its position, the squad, each wall's passed flag and whether
        the lead reaches it, and each enemy's chasing flag and position. */
    ghost function Snap(): (b: Snapshot)
      requires soldiers != []
      reads this, soldiers, walls, enemies
    {
      Snapshot(soldiers[0], soldiers[0].x, soldiers[0].y, soldiers,
        PassedFlags(walls), ReachedFlags(walls, soldiers[0]), ChasingFlags(enemies), Positions(enemies))
    }

    /** The lead soldier crosses, in order, every wall it has reached this
        frame: a wall not yet passed that the lead stands above and within.
        Each crossing marks the wall, releases the enemies and resizes the
        squad. With `crossed` the walls the lead reached and n the squad
        size, the end state is the MidCrossing of all walls from the start
        state's Snap() with size SquadAfter(crossed, n), low water mark
        LowWater(crossed, n) and chasing exactly when some wall was crossed:
        the lead and its position and the soldiers below the smallest size
        reached stay, every other soldier is a recruit standing at the offset
        of its index, exactly the walls crossed are newly marked and no enemy
        moves. Afterwards the lead reaches no wall. An empty squad crosses
        nothing. */
    method CrossWalls()
      requires Valid()
      modifies this, walls, enemies
      ensures Valid()
      ensures walls == old(walls) && enemies == old(enemies) && bullets == old(bullets)
      ensures forall k :: 0 <= k < |walls| ==> old(walls[k].isPassed) ==> walls[k].isPassed
      ensures old(soldiers) == [] ==> soldiers == [] && unchanged(walls, enemies)
      ensures old(soldiers) != [] ==>
        var b := old(Snap());
        var crossed := Picked(walls, b.opens, |walls|);
        MidCrossing(|walls|, b, SquadAfter(crossed, |b.squad|), LowWater(crossed, |b.squad|), crossed != []) &&
        forall k :: 0 <= k < |walls| ==> !Opens(walls[k], b.lead)
    {
      if soldiers == [] {
        return;
      }
      ghost var b := Snap();
      assert soldiers[..|soldiers|] == b.squad[..|soldiers|];
      var crossed := CrossFrom(b);
    }

    /** The wall pass proper, from the state recorded in `b`: each wall in
        turn is approached, and the walls crossed are those the lead had
        reached when the pass began. */
    method CrossFrom(ghost b: Snapshot) returns (ghost crossed: seq<Wall>)
      requires MidCrossing(0, b, |b.squad|, |b.squad|, false) && Reached(b, walls)
      modifies this, walls, enemies
      ensures walls == old(walls) && enemies == old(enemies) && bullets == old(bullets)
      ensures crossed == Picked(walls, b.opens, |walls|)
      ensures MidCrossing(|walls|, b, SquadAfter(crossed, |b.squad|), LowWater(crossed, |b.squad|), crossed != [])
      ensures forall k :: 0 <= k < |walls| ==> !Opens(walls[k], b.lead)
    {
      ghost var n := |b.squad|;
      var i := 0;
      while i < |walls|
        invariant walls == old(walls) && enemies == old(enemies) && bullets == old(bullets)
        invariant Reached(b, walls) && i <= |walls|
        invariant var t := Tally(walls, b.opens, n, i); MidCrossing(i, b, t.0, t.1, t.2)
      {
        ApproachWall(i, b, n);
        i := i + 1;
      }
      crossed := Picked(walls, b.opens, i);
      PickedTally(walls, b.opens, n, i);
      NothingLeftToCross(walls, b);
    }

    /** The wall pass for a lone soldier that reaches exactly one wall, a:
        an adding wall leaves the lead with a recruit one column to its right
        and one to its left, a doubling wall with one to its right, and a
        subtracting or halving wall leaves the lead alone. The lead does not
        move and wall a is marked passed. */
    method LoneSoldierCrossesWall(a: int)
      requires Valid() && |soldiers| == 1 && 0 <= a < |walls|
      requires Opens(walls[a], soldiers[0])
      requires forall k :: 0 <= k < |walls| && k != a ==> !Opens(walls[k], soldiers[0])
      modifies this, walls, enemies
      ensures walls == old(walls) && walls[a].isPassed
      ensures soldiers != [] && soldiers[0] == old(soldiers[0])
      ensures soldiers[0].x == old(soldiers[0].x) && soldiers[0].y == old(soldiers[0].y)
      ensures walls[a].operation == 0 ==>
        |soldiers| == 3 &&
        soldiers[1].x == soldiers[0].x + SOLDIER_SIZE + 1 && soldiers[1].y == soldiers[0].y &&
        soldiers[2].x == soldiers[0].x - SOLDIER_SIZE - 1 && soldiers[2].y == soldiers[0].y
      ensures walls[a].operation == 2 ==>
        |soldiers| == 2 && soldiers[1].x == soldiers[0].x + SOLDIER_SIZE + 1 && soldiers[1].y == soldiers[0].y
      ensures walls[a].operation == 1 || walls[a].operation == 3 ==> soldiers == old(soldiers)
    {
      ghost var b := Snap();
      CrossWalls();
      PickedOnly(walls, b.opens, a, |walls|);
      LoneFormation(soldiers, b.lead, b.squad, walls[a]);
    }

    /** The movement half of a frame: bullets, then soldiers, then enemies. */
    method MoveAll(key: Key, step: Bullet -> Bullet)
      requires Valid()
      modifies this, soldiers, enemies
      ensures Valid()
      ensures soldiers == old(soldiers) && enemies == old(enemies) && walls == old(walls)
      ensures |bullets| == |old(bullets)|
      ensures forall i :: 0 <= i < |bullets| ==> bullets[i] == step(old(bullets)[i])
      ensures forall i :: 0 <= i < |soldiers| ==>
        soldiers[i].x == LateralStep(old(soldiers[i].x), Lateral(key), soldiers[i].size, windowWidth) &&
        soldiers[i].y == old(soldiers[i].y) - 1
      ensures forall i :: 0 <= i < |enemies| ==> enemies[i].isMoving == old(enemies[i].isMoving)
      ensures forall i :: 0 <= i < |enemies| ==>
        if |soldiers| > 0 && enemies[i].isMoving then
          enemies[i].x == Toward(old(enemies[i].x), soldiers[0].x) &&
          enemies[i].y == Toward(old(enemies[i].y), soldiers[0].y)
        else
          enemies[i].x == old(enemies[i].x) && enemies[i].y == old(enemies[i].y)
      ensures forall k :: 0 <= k < |walls| ==> walls[k].isPassed == old(walls[k].isPassed)
    {
      MoveBullets(step);
      MoveSoldiers(key);
      MoveEnemies();
    }

    /** The collision half of a frame: soldiers touched by an enemy, then
        bullets and the enemies they strike. */
    method CullAll()
      requires Valid()
      modifies this
      ensures Valid()
      ensures walls == old(walls)
      ensures soldiers == old(Survivors(soldiers, enemies))
      ensures (bullets, enemies) == old(BulletPass(bullets, enemies))
      ensures |soldiers| <= |old(soldiers)| && |bullets| <= |old(bullets)|
      ensures forall e :: e in enemies ==> e in old(enemies)
    {
      CullSoldiers();
      ghost var flying := bullets;
      CullBullets();
      BulletPassInOrder(flying, old(enemies));
      SubsequenceLength(bullets, flying);
    }

    /** The first part of a frame: a volley when the shot timer is due, then
        movement. The bullets are the old ones with the volley appended, each
        flown one step; every soldier and enemy has taken its movement step. */
    method Launch(key: Key, shotDue: bool, step: Bullet -> Bullet)
      requires Valid()
      modifies this, soldiers, enemies
      ensures Valid()
      ensures soldiers == old(soldiers) && enemies == old(enemies) && walls == old(walls)
      ensures forall k :: 0 <= k < |walls| ==> walls[k].isPassed == old(walls[k].isPassed)
      ensures bullets == Flown(old(bullets) + (if shotDue then old(Volley(soldiers, |soldiers|)) else []), step)
      ensures |bullets| == |old(bullets)| + if shotDue then |soldiers| * |soldiers| else 0
      ensures forall i :: 0 <= i < |soldiers| ==>
        soldiers[i].x == LateralStep(old(soldiers[i].x), Lateral(key), soldiers[i].size, windowWidth) &&
        soldiers[i].y == old(soldiers[i].y) - 1
      ensures forall i :: 0 <= i < |enemies| ==> enemies[i].isMoving == old(enemies[i].isMoving)
      ensures forall i :: 0 <= i < |enemies| ==>
        if |soldiers| > 0 && enemies[i].isMoving then
          enemies[i].x == Toward(old(enemies[i].x), soldiers[0].x) &&
          enemies[i].y == Toward(old(enemies[i].y), soldiers[0].y)
        else
          enemies[i].x == old(enemies[i].x) && enemies[i].y == old(enemies[i].y)
    {
      ghost var volley := Volley(soldiers, |soldiers|);
      if shotDue {
        Fire();
        VolleySize(soldiers, |soldiers|);
        assert bullets == old(bullets) + volley;
      }
      ghost var fired := bullets;
      assert fired == old(bullets) + (if shotDue then volley else []);
      MoveAll(key, step);
      assert bullets == Flown(fired, step);
    }

    /** The part of a frame before the wall pass: the volley and movement of
        Launch, then the two culling passes. The squad is what the soldier
        pass leaves of the moved squad; the bullets and enemies are what the
        bullet pass leaves of the launched bullets and the moved enemies. */
    method Advance(key: Key, shotDue: bool, step: Bullet -> Bullet)
      requires Valid()
      modifies this, soldiers, enemies
      ensures Valid()
      ensures walls == old(walls)
      ensures forall k :: 0 <= k < |walls| ==> walls[k].isPassed == old(walls[k].isPassed)
      ensures forall i :: 0 <= i < |old(soldiers)| ==>
        old(soldiers)[i].x == LateralStep(old(soldiers[i].x), Lateral(key), old(soldiers)[i].size, windowWidth) &&
        old(soldiers)[i].y == old(soldiers[i].y) - 1
      ensures forall i :: 0 <= i < |old(enemies)| ==> old(enemies)[i].isMoving == old(enemies[i].isMoving)
      ensures forall i :: 0 <= i < |old(enemies)| ==>
        if |old(soldiers)| > 0 && old(enemies[i].isMoving) then
          old(enemies)[i].x == Toward(old(enemies[i].x), old(soldiers)[0].x) &&
          old(enemies)[i].y == Toward(old(enemies[i].y), old(soldiers)[0].y)
        else
          old(enemies)[i].x == old(enemies[i].x) && old(enemies)[i].y == old(enemies[i].y)
      ensures soldiers == Survivors(old(soldiers), old(enemies))
      ensures (bullets, enemies) ==
        BulletPass(Flown(old(bullets) + (if shotDue then old(Volley(soldiers, |soldiers|)) else []), step),
                   old(enemies))
      ensures forall e :: e in enemies ==> e in old(enemies)
      ensures |soldiers| <= |old(soldiers)|
      ensures |bullets| <= |old(bullets)| + if shotDue then |old(soldiers)| * |old(soldiers)| else 0
    {
      Launch(key, shotDue, step);
      ghost var flown, moved, foes := bullets, soldiers, enemies;
      ghost var survivors, outcome := Survivors(moved, foes), BulletPass(flown, foes);
      CullAll();
      assert soldiers == survivors && (bullets, enemies) == outcome;
      assert survivors == Survivors(moved, foes);
      assert outcome == BulletPass(flown, foes);
    }

    /** One frame of the main loop, after the escape test: a volley when the
        shot timer is due, then the bullets, soldiers and enemies move, touched
        soldiers and struck enemies and spent bullets are removed, and the lead
        crosses the walls it has reached. */
    method Frame(key: Key, shotDue: bool, step: Bullet -> Bullet)
      requires Valid()
      modifies this, soldiers, enemies, walls
      ensures Valid()
      ensures walls == old(walls)
      ensures forall k :: 0 <= k < |walls| ==> old(walls[k].isPassed) ==> walls[k].isPassed
      ensures forall e :: e in enemies ==> e in old(enemies)
      ensures old(soldiers) == [] ==> soldiers == []
      ensures |bullets| <= |old(bullets)| + if shotDue then |old(soldiers)| * |old(soldiers)| else 0
    {
      Advance(key, shotDue, step);
      assert forall k :: 0 <= k < |enemies| ==> enemies[k] in old(enemies);
      CrossWalls();
    }
  }

  /** Each bullet of `bs` after one flight step. */
  function Flown(bs: seq<Bullet>, step: Bullet -> Bullet): (r: seq<Bullet>)
    ensures |r| == |bs| && forall i :: 0 <= i < |bs| ==> r[i] == step(bs[i])
  {
    seq(|bs|, i requires 0 <= i < |bs| => step(bs[i]))
  }

  /** What the crossing pass remembers of the state in which it began: the
      lead and its position, the squad, each wall's passed flag and whether
      the lead had reached it, and each enemy's chasing flag and position. */
  datatype Snapshot = Snapshot(lead: Soldier, x: int, y: int, squad: seq<Soldier>,
                               passed: seq<bool>, opens: seq<bool>,
                               moving: seq<bool>, at: seq<(int, int)>)

  /** The snapshot records, for each wall, that the lead had reached it exactly
      when the wall was not passed and the lead stood above and within it. */
  predicate Reached(b: Snapshot, ws: seq<Wall>)
  {
    |b.passed| == |ws| && |b.opens| == |ws| &&
    forall k :: 0 <= k < |ws| ==>
      b.opens[k] == (!b.passed[k] && b.y < ws[k].y1 && ws[k].x1 <= b.x <= ws[k].x2)
  }

  /** Once every wall the lead had reached is marked passed, and the lead has
      not moved, the lead reaches no wall any more. */
  lemma NothingLeftToCross(ws: seq<Wall>, b: Snapshot)
    requires Reached(b, ws) && b.lead.x == b.x && b.lead.y == b.y
    requires forall k :: 0 <= k < |ws| ==> ws[k].isPassed == (b.passed[k] || b.opens[k])
    ensures forall k :: 0 <= k < |ws| ==> !Opens(ws[k], b.lead)
  {
  }

  /** The passed flag of each wall. */
  ghost function PassedFlags(ws: seq<Wall>): (r: seq<bool>)
    reads ws
    ensures |r| == |ws| && forall k :: 0 <= k < |ws| ==> r[k] == ws[k].isPassed
  {
    if ws == [] then [] else [ws[0].isPassed] + PassedFlags(ws[1..])
  }

  /** Whether the lead has reached each wall. */
  ghost function ReachedFlags(ws: seq<Wall>, lead: Soldier): (r: seq<bool>)
    reads ws, lead
    ensures |r| == |ws| && forall k :: 0 <= k < |ws| ==> r[k] == Opens(ws[k], lead)
  {
    if ws == [] then [] else [Opens(ws[0], lead)] + ReachedFlags(ws[1..], lead)
  }

  /** The chasing flag of each enemy. */
  ghost function ChasingFlags(es: seq<Enemy>): (r: seq<bool>)
    reads es
    ensures |r| == |es| && forall k :: 0 <= k < |es| ==> r[k] == es[k].isMoving
  {
    if es == [] then [] else [es[0].isMoving] + ChasingFlags(es[1..])
  }

  /** The position of each enemy. */
  ghost function Positions(es: seq<Enemy>): (r: seq<(int, int)>)
    reads es
    ensures |r| == |es| && forall k :: 0 <= k < |es| ==> r[k] == (es[k].x, es[k].y)
  {
    if es == [] then [] else [(es[0].x, es[0].y)] + Positions(es[1..])
  }
}
