# Wall Warriors demo game, modelled in Dafny

`demo_game.cpp` is the first, single-file version of the Wall Warriors squad
game. A squad of soldiers walks up a lane and fires fans of bullets at
enemies. When the lead soldier crosses a gated wall, the squad is resized by
the wall's operation: add two, subtract two, double or halve. The window,
drawing, keyboard and timer calls go to the `fssimplewindow`/GL library.
Between those calls sits a small integer core, and that core is what this
project models and proves things about.

- `entities.dfy` (module `Entities`): the four entity kinds.
  - `Bullet` is a value.
  - `Soldier`, `Enemy` and `Wall` are classes, because the game updates
    their fields in place.
  - Each kind keeps its own rule: the guarded lateral step of
    `Soldier::move`, the flag-gated unit chase step of `Enemy::move`, the
    squad-size transform `Wall::performOperation` and the volley of
    `Soldier::shoot`.
- `collisions.dfy` (module `Collisions`): what the two culling passes of a
  frame compute.
  - Each outcome is a function over sequences: `Survivors`, `Missed` and
    `BulletPass`.
  - Lemmas tie these functions to independent descriptions:
    - filter membership;
    - order preservation (subsequence);
    - "an enemy goes exactly when some bullet strikes it";
    - "a bullet goes exactly when it strikes an enemy no earlier bullet
      struck";
    - a bound on spent bullets.
- `crossing.dfy` (module `Crossing`): what the wall pass computes.
  - `OpenedWalls` gives the walls the lead crosses.
  - `SquadAfter` gives the squad size after their operations, and
    `LowWater` the smallest size reached on the way.
  - `Formation` says which soldiers stay and where recruits stand.
  - `Offset` gives each recruit's horizontal offset.
- `seqs.dfy` (module `Seqs`): distinctness and subsequence facts.
- `game.dfy` (module `GameLoop`): the state of `main` as class `Game`.
  - It has four sequence fields: soldiers, enemies, walls and bullets.
  - Each step of a frame is a method that works on that state as the loop
    does:
    - volley creation;
    - movement;
    - erase-while-iterating for the soldier and the bullet passes;
    - the wall pass with its flag updates and its `push_back`/`pop_back`
      resize loops.
  - Every step method below `Frame` is proved against the specification
    functions above; `Frame` states the frame-wide facts.
- `Game.Valid()` says that no entity reference occurs twice in a vector. A
  `std::vector` holds its elements by value, and distinct references are
  how a model over references recovers that.

The model follows the code as written, including where it differs from the
full game:

- A soldier touched by an enemy is erased, but the enemy stays.
- A bullet erases every enemy it strikes, not only the first one.
- `isPassed` is never cleared, so each wall's operation applies at most once
  ever.
- Any crossing releases every enemy; enemies are not tied to a particular
  wall.
- Recruits are placed by index offset and are not held inside the lane.
- The crossing test is strict: the lead must be above the wall
  (`soldiers[0].y < wall.y1`) and within `[x1, x2]`, both ends included.

## Model

| member | source | states |
|---|---|---|
| Entities.Wall.PerformOperation | demo_game.cpp:118-126 | a squad of at least one soldier never drops below one soldier |
| Entities.Wall.constructor | demo_game.cpp:109 | a new wall has the given end points and operation and is not passed |
| Entities.OperationEffect | demo_game.cpp:118-126 | the effect of each opcode: add two; subtract two with a floor of one; double; halve (floored) with a floor of one; any other code leaves the size as it is |
| Entities.SubtractUndoesAdd | demo_game.cpp:120-121 | for n >= 1, subtracting two after adding two gives n back |
| Entities.DivideUndoesMultiply | demo_game.cpp:122-123 | for n >= 1, halving after doubling gives n back |
| Entities.LateralStep | demo_game.cpp:52-55 | the new x is either the old one or the old one plus the step, and a soldier inside [0, width - size] stays inside |
| Entities.Soldier.constructor | demo_game.cpp:40 | a new soldier has the given position and size |
| Entities.StepTakenIffInLane | demo_game.cpp:52-55 | a non-zero step is taken exactly when its target lies in [0, width - size] (both directions) |
| Entities.EdgesDoNotTrap | demo_game.cpp:52-55 | a soldier on either edge of the lane can still step away from it |
| Entities.Soldier.Move | demo_game.cpp:51-57 | x becomes the guarded lateral step of the old x, and y decreases by exactly one |
| Entities.Shots | demo_game.cpp:59-66 | a fan holds max(n, 0) bullets; each starts at the soldier's position with radius 5, its angle strictly between 0 and a half turn |
| Entities.Soldier.Shoot | demo_game.cpp:59-66 | the loop returns max(n, 0) bullets; bullet i starts at the soldier's (x, y) with radius 5 and angle (i+1)/(n+1) of a half turn |
| Entities.Toward | demo_game.cpp:89-98 | one chase step never moves away from the target; off-target it moves by exactly one and closes the distance by one; on target it stays |
| Entities.Enemy.constructor | demo_game.cpp:74 | a new enemy has the given position and radius and is not chasing |
| Entities.Enemy.Move | demo_game.cpp:87-100 | a still enemy does not move; a moving one takes the chase step toward the point on each axis; the flag is unchanged |
| Entities.Chase | demo_game.cpp:87-100 | after k chase steps toward a fixed target the distance is max(d - k, 0), so the target is reached and never overshot |
| Collisions.Survivors | demo_game.cpp:204-218 | the surviving squad is never longer than the squad |
| Collisions.Touches | demo_game.cpp:207 | an enemy touches a soldier when the horizontal distance is strictly below the soldier size and the vertical one strictly below the enemy radius (a definition, used by the lemmas above and below) |
| Collisions.SurvivorsAreUntouched | demo_game.cpp:204-218 | a soldier survives exactly when it is in the squad and no enemy touches it |
| Collisions.SurvivorsInOrder | demo_game.cpp:204-218 | survivors keep their relative order |
| Collisions.SurvivorsStep | demo_game.cpp:213-217 | erasing a touched soldier at the iterator, or stepping past an untouched one, leaves the outcome of the pass unchanged |
| Collisions.ContactIsStrict | demo_game.cpp:207 | a soldier exactly a soldier width away across, or exactly an enemy radius away vertically, is not touched |
| Collisions.Missed | demo_game.cpp:223-230 | one bullet's sweep leaves at most as many enemies as there were |
| Collisions.Strikes | demo_game.cpp:224 | a bullet strikes an enemy when both distances are strictly below the sum of the radii (a definition, used by the lemmas around it) |
| Collisions.MissedIsFilter | demo_game.cpp:223-230 | an enemy is left by a sweep exactly when the bullet does not strike it; the enemy count is unchanged exactly when the bullet strikes none |
| Collisions.StrikesAnyFirst | demo_game.cpp:223-230 | a bullet strikes some enemy exactly when it strikes the first one or one of the rest |
| Collisions.MissedStep | demo_game.cpp:225-229 | erasing a struck enemy at the iterator, or stepping past one that is not struck, leaves the outcome of the sweep unchanged |
| Collisions.MissedInOrder | demo_game.cpp:223-230 | the enemies left by a sweep keep their order |
| Collisions.Untouched | demo_game.cpp:221-236 | the enemies no bullet strikes are exactly the members of the original that no bullet strikes |
| Collisions.BulletPass | demo_game.cpp:221-236 | the bullet pass only leaves enemies that were there before |
| Collisions.UntouchedByNothing | demo_game.cpp:221-236 | no bullets strike no enemy |
| Collisions.StruckByOneMore | demo_game.cpp:221-236 | an enemy is struck by one more bullet exactly when it was struck already or the new bullet strikes it |
| Collisions.MissedAfterUntouched | demo_game.cpp:221-236 | a later bullet sweeps only the enemies earlier bullets left, and leaves those no bullet up to it struck |
| Collisions.BulletPassLeavesUntouchedFrom | demo_game.cpp:221-236 | continuing the pass from the enemies left by earlier bullets leaves those no bullet at all struck |
| Collisions.BulletPassLeavesUntouched | demo_game.cpp:221-236 | an enemy is erased by the pass exactly when some bullet strikes it |
| Collisions.StrikesUntouchedIffSpent | demo_game.cpp:224-232 | bullet i strikes one of the enemies still there exactly when it strikes an enemy no earlier bullet struck |
| Collisions.BulletPassKeepsUnspentFrom | demo_game.cpp:221-236 | from bullet i on, the pass keeps exactly the bullets that strike no enemy still present when they sweep |
| Collisions.BulletPassKeepsUnspent | demo_game.cpp:221-236 | a bullet is erased exactly when it strikes an enemy no earlier bullet struck |
| Collisions.BulletPassAt | demo_game.cpp:221-236 | the pass from bullet i sweeps the enemies with bullet i, then continues with the rest |
| Collisions.BulletPassHit | demo_game.cpp:231-232 | erasing at the iterator a bullet that struck leaves the outcome of the pass unchanged |
| Collisions.BulletPassMiss | demo_game.cpp:233-234 | stepping past a bullet that struck nothing leaves the outcome of the pass unchanged |
| Collisions.BulletsSpentAtMostEnemiesKilled | demo_game.cpp:221-236 | the pass erases no more bullets than enemies |
| Collisions.BulletPassInOrder | demo_game.cpp:221-236 | surviving bullets and surviving enemies keep their relative order |
| Crossing.OpenedWalls | demo_game.cpp:244-245 | the walls crossed are exactly those not yet passed with the lead strictly above them and within [x1, x2] |
| Crossing.Opens | demo_game.cpp:245 | the lead crosses a wall when it is not passed, the lead is strictly above its first end point and within [x1, x2] with both ends included (a definition, used by OpenedWalls and the wall pass) |
| Crossing.Picked | demo_game.cpp:244-245 | picking walls by flag yields at most as many walls as were considered |
| Crossing.OpenedWallsArePicked | demo_game.cpp:244-245 | the walls crossed are those picked, in order, by the per-wall flags "the lead reaches this wall" |
| Crossing.SquadAfter | demo_game.cpp:250-258 | applying the crossed walls' operations in turn to a squad of at least one soldier leaves at least one |
| Crossing.LowWater | demo_game.cpp:250-258 | the smallest size reached is at most the starting and the final size, and at least one |
| Crossing.CrossedOneMore | demo_game.cpp:250-258 | crossing one more wall applies its operation to the size reached and lowers the smallest size to the new size when that is smaller |
| Crossing.PickedTally | demo_game.cpp:244-260 | the wall-by-wall tally of the pass equals (size after the picked walls, smallest size on the way, some wall picked) |
| Crossing.PickedNonEmpty | demo_game.cpp:244-249 | some wall is crossed exactly when the lead reached at least one of them |
| Crossing.FormationResized | demo_game.cpp:252-258 | a resize that keeps the common prefix and recruits into every new index keeps the squad formed down to the smaller of the old bound and the new size |
| Crossing.OffsetsAlternate | demo_game.cpp:253 | the j-th pair of recruits stands j columns of SOLDIER_SIZE + 1 to the right and to the left of the lead |
| Crossing.Column | demo_game.cpp:253 | each offset is a whole number of columns: right of the lead for odd indices, -(k/2) columns for even k |
| Crossing.OffsetsApart | demo_game.cpp:253 | any two indices stand at least SOLDIER_SIZE + 1 apart, so starting recruits never overlap each other or the lead |
| Crossing.Offset | demo_game.cpp:253 | the recruit for squad size k stands (SOLDIER_SIZE + 1) * ((k + 1) / 2) from the lead, right of it for odd k and left of it (or on it, for k = 0) for even k |
| Crossing.Recruit | demo_game.cpp:253-254 | a recruit at index k stands at the lead x plus Offset(k), at the lead y, with size SOLDIER_SIZE (a definition, used by Formation, Grow and PassWall) |
| Crossing.PickedOnly | demo_game.cpp:244-249 | when the lead reached only wall a, wall a is the one wall crossed |
| Crossing.LoneFormation | demo_game.cpp:118-126 | a squad of one that crossed one wall is three soldiers (the lead, a recruit one column right and one column left) after an adding wall, two after a doubling wall, and the original soldier alone after a subtracting or halving wall |
| GameLoop.Lateral | demo_game.cpp:186-192 | the left arrow steps -1, the right arrow +1, and any other key 0 |
| GameLoop.Volley | demo_game.cpp:169-173 | every bullet of a volley has radius 5 and an angle strictly between 0 and a half turn |
| GameLoop.VolleySize | demo_game.cpp:169-173 | with n bullets per soldier, a volley holds (number of soldiers) * n bullets |
| GameLoop.VolleyAt | demo_game.cpp:59-66 | bullet k * n + j belongs to soldier k: it starts at that soldier's position with radius 5 and angle (j+1)/(n+1) of a half turn |
| GameLoop.Threat | demo_game.cpp:205-212 | the inner loop with its break reports a hit exactly when some enemy touches the soldier |
| GameLoop.PassSoldier | demo_game.cpp:205-217 | one turn of the soldier loop shortens what is left to scan and leaves the outcome of the pass unchanged |
| GameLoop.SurvivingSquad | demo_game.cpp:204-218 | the erase-while-iterating loop leaves exactly the survivors |
| GameLoop.Sweep | demo_game.cpp:222-230 | the inner erase loop leaves exactly the enemies the bullet misses, and its hit flag says whether it struck one |
| GameLoop.PassBullet | demo_game.cpp:221-235 | one turn of the bullet loop shortens what is left to scan and leaves both outcomes of the pass unchanged |
| GameLoop.Shootout | demo_game.cpp:221-236 | the nested erase loops leave exactly the bullets and enemies the bullet pass leaves |
| GameLoop.Game.constructor | demo_game.cpp:130-145 | the opening state: one soldier at (400, 570), one still enemy at (400, 300), an adding wall and a subtracting wall at y 400, no bullets |
| GameLoop.Game.Fire | demo_game.cpp:169-173 | the volley is appended to the bullets; nothing else changes |
| GameLoop.Game.MoveBullets | demo_game.cpp:178-181 | each bullet is replaced by its flight step; nothing else changes |
| GameLoop.Game.MoveSoldiers | demo_game.cpp:184-193 | every soldier takes the lateral step for the key and moves up one |
| GameLoop.Game.MoveEnemies | demo_game.cpp:196-201 | with a non-empty squad each chasing enemy steps toward the lead; otherwise no enemy moves; no flag changes |
| GameLoop.Game.CullSoldiers | demo_game.cpp:203-218 | the squad becomes the survivors; enemies, walls and bullets are unchanged |
| GameLoop.Game.CullBullets | demo_game.cpp:220-236 | bullets and enemies become the bullet pass outcome, and no enemy is added |
| GameLoop.Game.ReleaseEnemies | demo_game.cpp:247-249 | every enemy is chasing and none has moved |
| GameLoop.Game.Grow | demo_game.cpp:252-255 | the squad grows to max(target, size); the old soldiers stay and each new index holds a fresh recruit at its offset and at the lead's height |
| GameLoop.Game.Shrink | demo_game.cpp:256-258 | the squad is cut from the tail to max(target, 1) soldiers, never below one and never grown |
| GameLoop.Game.PassWall | demo_game.cpp:246-258 | the wall is marked passed, every enemy chases without moving, the squad size becomes the wall's result, the common prefix and the lead stay, and new indices are fresh recruits |
| GameLoop.Game.ApproachWall | demo_game.cpp:245-259 | the wall is crossed exactly when the lead had reached it when the pass began, which moves the tally one wall on |
| GameLoop.Game.CrossWall | demo_game.cpp:246-258 | crossing a reached wall applies its operation to the size, lowers the smallest size, releases the enemies and marks that wall only |
| GameLoop.Game.CrossFrom | demo_game.cpp:244-260 | over all walls in order, the walls crossed are those the lead had reached at the start, the squad size and formation follow their operations, and afterwards the lead reaches no wall |
| GameLoop.Game.CrossWalls | demo_game.cpp:244-260 | an empty squad crosses nothing; otherwise exactly the reached walls are newly passed, enemies chase exactly when one was crossed and none moves, the size is SquadAfter of the crossed walls, the lead and the soldiers below the smallest size reached stay, every other soldier is a recruit at its offset, and isPassed is never cleared |
| GameLoop.NothingLeftToCross | demo_game.cpp:245-246 | once every reached wall is marked passed and the lead has not moved, the lead reaches no wall |
| GameLoop.Game.MoveAll | demo_game.cpp:177-201 | each bullet is replaced by its flight step; every soldier takes the lateral step for the key and moves up one; with a non-empty squad each chasing enemy steps toward the moved lead, otherwise no enemy moves; no chasing or wall flag changes and the vectors stay the same |
| GameLoop.Game.CullAll | demo_game.cpp:203-236 | the squad becomes the survivors of the enemies, then bullets and enemies become the bullet pass outcome; so the squad and the bullets never grow and no enemy is added |
| GameLoop.Flown | demo_game.cpp:178-181 | each bullet is replaced by its flight step, in order |
| GameLoop.Game.Launch | demo_game.cpp:168-201 | the bullets become the old bullets plus the volley when one is due, each flown one step; every soldier takes the lateral step for the key and moves up one; each enemy chases the moved lead or stays; no flag and no vector membership changes |
| GameLoop.Game.Advance | demo_game.cpp:168-236 | the frame before the wall pass: soldiers and enemies stand where Launch moves them, the squad is the survivors of the enemies, and bullets and enemies are the bullet pass outcome for the flown bullets plus the volley; walls and their flags are kept, no enemy or soldier is added, and at most n * n bullets are added for a squad of n |
| GameLoop.Game.LoneSoldierCrossesWall | demo_game.cpp:244-260 | a wall pass for a lone soldier whose lead reaches only wall a marks it passed, keeps the lead in place, and leaves three soldiers at lead.x + 31 and lead.x - 31 beside it for an adding wall, two for a doubling wall and the lead alone for a subtracting or halving wall |
| GameLoop.Game.Frame | demo_game.cpp:168-260 | one frame never clears a wall flag, never adds an enemy, never revives an empty squad, and adds at most n * n bullets for a squad of n when a volley is due |

## Left out

- Drawing (`draw()`, `glBegin`/`glVertex`/`glClear`, the road lines, `FsSwapBuffers`) is rendering through an external library and is not modelled.
- `FsOpenWindow`, `FsPollDevice`, `FsInkey` and `FsSleep` are window, input and pacing I/O: the key read is the `key` parameter of `Game.Frame` (type `Key`), and the escape test that ends the loop is outside the frame.
- The shot timer (`FsSubSecondTimer`, `lastShotTime`) is wall-clock time: "a volley is due" is the boolean `shotDue` of `Game.Frame`.
- `Bullet::move` uses floating-point `sin`/`cos` with truncation to int: it is the `step` function parameter of `Game.MoveBullets`, and nothing is assumed about it.
- The bullet angle is a `double` in the source: the model keeps it exactly as the fraction (i+1)/(n+1) of a half turn (`HalfTurns`), not as a rounded radian value.
- 32-bit `int` overflow and the `size_t` arithmetic of the recruit offset (line 253) are not modelled. Integers are unbounded, which agrees with the source whenever the values fit in an `int`.
- Game.Frame: its contract states only the frame-wide facts. The step-by-step outcome is in the contracts of `Game.Launch` and `Game.Advance` (the moves, the survivors and the bullet pass) and of `Game.CrossWalls` (the wall pass).
- The per-step obstacles, power-ups, spawner, lane-bounded growth, paired soldier/enemy removal and game-over state of the full game do not occur in this file.
