# slitherr world core in Dafny

This project models the simulation core of the slitherr arena game server:

- `SpatialHash` (`src/spatial.js`), a uniform-grid bucket index used for circle queries.
- `World` (`src/world.js`), which holds the players and foods, the two hashes with their side tables, and the tick pipeline:
  - the chance food spawn;
  - movement with path recording and boosting;
  - the rebuild of the player hash;
  - food pickup with replenishment;
  - head-against-body collisions with death scatter;
  - the area-of-interest query sent to clients.

The model is functional. A `World` value stands for the mutable object. Every method of the class becomes a function from a world to a world.

Some of the class's behaviour is only implicit in its shared mutable state. The model makes these parts explicit:

- **Map iteration order.** The insertion order of the JavaScript `Map`s is the `order` field.
- **Randomness.** `Math.random()` is the `n`-th draw of an `Env` parameter. The world counts its draws in `draws`.
- **Trigonometry and square roots.** `Math.cos`, `Math.sin` and `Math.sqrt` are uninterpreted functions of the `Env`.
- **Time.** `Date.now()` is a `now` parameter.
- **String keys.** The hash's `cx + ":" + cy` keys are integer pairs.
- **Food ids.** The food id `"f" + n` is the number `n`.

Modules follow the source's structure:

| module | file | models |
|---|---|---|
| `Spatial` | spatial.dfy | the spatial hash |
| `Numeric` | numeric.dfy | `clamp`, `dist2` and `Math.floor` |
| `GameConfig` | config.dfy | the configuration record |
| `Environment` | environment.dfy | `rnd` over the draws |
| `WorldState` | world_state.dfy | the world record and its registry invariant |
| `FoodRegistry` | food.dfy | the food spawns |
| `PlayerRegistry` | players.dfy | adding, removing and respawning players, and input |
| `Movement` | movement.dfy | `stepMovement` |
| `Rebuild` | rebuild.dfy | `rebuildSpatial` |
| `Pickup` | pickup.dfy | `stepFoodPickup` |
| `Collisions` | collisions.dfy | `stepCollisions` and `kill` |
| `Tick` | tick.dfy | the constructor and `tick` |
| `Aoi` | aoi.dfy | `aoiFor` |

The central invariant is `WorldState.Registry`:

- the configuration is sane;
- every food sits in the bucket of its own position under the key `foodCells` records, and its id is below `nextFoodId`;
- every player sits in the bucket `playerCells` records, and nothing else is in the player hash;
- `order` lists every player once.

Each operation has a `…Keeps` lemma stating that it preserves this invariant. A second predicate, `CellsCurrent`, says that every recorded player key is the key of the player's current position. Movement breaks it, `rebuildSpatial` restores it, and `TickKeeps` proves that every tick ends with it restored. The completeness lemmas need it: the player-hash queries of collisions and `aoiFor` miss nobody within range.

The model follows what the code does:

- there is no wagering;
- the arena is a rectangle clamped axis by axis;
- the head turns by the raw difference of angles, not by the shortest one, so `HandleInput` steers as written (see Findings for the corrected rule);
- the tail is extended when the head is more than `pathPointSpacing` from its last point and trimmed from the old end, without carry-based resampling;
- a kill scatters `max(5, floor(length / 2))` unit foods around the head and does not conserve the victim's length;
- `respawn` and `handleInput` do not check whether the player is alive;
- `respawn` does not re-index the player.

## Model

| member | source | states |
|---|---|---|
| `GameConfig.DefaultValid` | src/server.js:17-62 | the configuration the server builds the world with meets every assumption the lemmas make: it is valid, its pickup, collision and view radii are non-negative, and the boost floor `minLength` lies below the spawn length `baseLength` |
| `Numeric.Clamp` | src/world.js:7 | the lower bound is tested first; a value inside the range is kept, one below it becomes the lower bound, one above it the upper bound |
| `Numeric.CellIndexUnique` | src/spatial.js:8-9 | the floor division of a coordinate by the cell size is the only integer whose cell contains it |
| `Numeric.Dist2` | src/world.js:8 | the squared distance is never negative, is zero exactly when the two points coincide, and is the same in either direction |
| `Numeric.Dist2Box` | src/world.js:8 | a point within squared distance `r*r` lies within `r` of the centre on each axis, which is what lets a box scan find circle members |
| `Environment.Rnd` | src/world.js:6 | `rnd(a, b)` yields a point of `[a, b]` whenever `a <= b` |
| `Spatial.Key` | src/spatial.js:7-11 | the key is the cell whose square `[cx*c, (cx+1)*c) x [cy*c, (cy+1)*c)` holds the point |
| `Spatial.KeysForAABB` | src/spatial.js:12-21 | the keys listed are exactly the cells between the floors of `(x-r)/c` and `(x+r)/c` on each axis |
| `Spatial.Add` | src/spatial.js:23-29 | returns the point's key; that bucket gains the id (being created if missing); every other bucket is unchanged; no empty bucket appears |
| `Spatial.RemoveKey` | src/spatial.js:30-36 | a missing key or bucket changes nothing; otherwise the id leaves that bucket, which is dropped exactly when it becomes empty; other buckets are untouched |
| `Spatial.AddRemoveRoundTrip` | src/spatial.js:23-36 | adding an id not yet in its bucket and removing it under the returned key gives back the original hash |
| `Spatial.Gather` | src/spatial.js:39-44 | an id is gathered exactly when some listed key has a bucket holding it; listed keys without a bucket are skipped |
| `Spatial.Query` | src/spatial.js:37-46 | the result is exactly the union of the buckets of the cells of the circle's bounding box |
| `Spatial.QuerySound` | src/spatial.js:37-46 | an id stored at the key of any point inside the bounding box is returned |
| `Spatial.QuerySoundCircle` | src/spatial.js:37-46 | no false negatives: an id stored at the key of a point within Euclidean distance `r` is returned |
| `Spatial.QueryTracked` | src/spatial.js:37-46 | under a consistent side table, every id returned was recorded under a key of the scanned box |
| `Spatial.TracksAdd` | src/spatial.js:23-29 | adding a new id and recording the returned key keeps the side table in step with the hash |
| `Spatial.TracksRemove` | src/spatial.js:30-36 | removing an id under its recorded key keeps the side table in step and leaves the id in no bucket |
| `Spatial.RemoveAllRemoves` | src/world.js:159 | removing every listed id under its recorded key only shrinks buckets, takes each listed id out of its recorded bucket, and creates no empty bucket |
| `Spatial.RemoveAllEmpties` | src/world.js:159 | removing every tracked id under its recorded key empties the hash completely |
| `WorldState.Without` | src/world.js:66-72 | deleting a key from an insertion-ordered map removes exactly that id from the order, keeps it duplicate-free, and changes nothing when the id is absent |
| `WorldState.WithoutAt` | src/world.js:66-72 | removing the one occurrence of an id at position `i` leaves the other ids in their relative order, `s[..i] + s[i+1..]`; this order is the visiting order of every later loop |
| `WorldState.SetPlayerKeeps` | src/world.js:74-96 | an in-place update of a record keeps the registry, and keeps cells current when the position is kept |
| `FoodRegistry.SpawnFoodAt` | src/world.js:25-31 | the food gets the next id and the given value, is indexed under the key of its position, the counter moves on by one, and no other food changes |
| `FoodRegistry.SpawnFoodAtKeeps` | src/world.js:25-31 | spawning a food keeps the registry |
| `FoodRegistry.SpawnPoint` | src/world.js:34 | the drawn spawn point lies inside the arena |
| `FoodRegistry.SpawnFood` | src/world.js:33-35 | one unit food appears under the next id, inside the arena, after two draws; the player side is untouched |
| `FoodRegistry.SpawnFoodKeeps` | src/world.js:33-35 | the random spawn keeps the registry |
| `FoodRegistry.SpawnMany` | src/world.js:22 | `n` spawns add exactly the ids `next .. next+n-1`, all unit foods inside the arena, and keep existing foods |
| `FoodRegistry.SpawnManyKeeps` | src/world.js:22 | repeated spawns keep the registry |
| `PlayerRegistry.NewPlayer` | src/world.js:38-59 | a new player is alive, not boosting, with an empty path, base length, head radius, inside the arena, heading in `[0, 2π]`; an empty skin becomes `"default"` |
| `PlayerRegistry.AddPlayer` | src/world.js:37-64 | the player set gains exactly the new id, which goes to the end of the order and is indexed under the key of its position; existing players and the food side are unchanged |
| `PlayerRegistry.AddPlayerKeeps` | src/world.js:60-62 | adding a player keeps the registry and keeps recorded cells current |
| `PlayerRegistry.RemovePlayer` | src/world.js:66-72 | an unknown id changes nothing; otherwise exactly that id leaves the players, the insertion order and the side table, it leaves the bucket the side table recorded for it, every other bucket is unchanged, and other players are untouched |
| `PlayerRegistry.RemovePlayerKeeps` | src/world.js:66-72 | removal keeps the registry, leaves the id in no bucket and keeps recorded cells current |
| `PlayerRegistry.Respawn` | src/world.js:74-84 | the record is reset (alive, not boosting, empty path, base length and radius, a new place inside the arena and a new heading) while its identity and time stamps are kept; the hash is not touched |
| `PlayerRegistry.RespawnKeeps` | src/world.js:74-84 | respawning keeps the registry, although the recorded cell may go stale |
| `PlayerRegistry.TurnToward` | src/world.js:91-93 | the rule as written: the heading moves by the raw difference to the target, clamped to `maxTurn` either way |
| `PlayerRegistry.TurnTowardLongWay` | src/world.js:91-93 | for heading 6.2, target 0 and `maxTurn` 0.18, the written rule turns backward although the target lies 0.083 ahead, while the corrected rule turns forward |
| `PlayerRegistry.Wrap` | src/world.js:91 | a difference of angles wrapped into `(-π, π]` names the same direction |
| `PlayerRegistry.TurnShortest` | src/world.js:90-94 | the corrected rule: the turn is at most `maxTurn`, goes the short way round, and reaches the target direction when it is within `maxTurn` |
| `PlayerRegistry.TurnRulesAgree` | src/world.js:90-94 | the written and the corrected rules give the same heading whenever the raw difference already lies in `(-π, π]` |
| `PlayerRegistry.ApplyInput` | src/world.js:89-95 | an accepted input stamps the time, steers by the written raw-difference rule when an angle is supplied and takes a supplied boost flag; nothing else in the record changes |
| `PlayerRegistry.ApplyInputCorrected` | src/world.js:89-95 | the accepted input with the corrected steering: the same record as the written handler gives, except that a supplied angle turns the short way round |
| `PlayerRegistry.HandleInput` | src/world.js:86-96 | input within `inputMinIntervalMs` of the last accepted one, or for an unknown player, changes nothing; otherwise only that player's record changes |
| `PlayerRegistry.HandleInputKeeps` | src/world.js:86-96 | input keeps the registry and recorded cells current |
| `Movement.ArenaClamp` | src/world.js:112-115 | the head ends inside the arena, and a coordinate already inside is kept |
| `Movement.AdvanceHead` | src/world.js:103-115 | the head moves by `speed * dt` along its heading, with the speed multiplied while boosting; a coordinate that stays inside the arena moves by exactly that much, and one that leaves stops on the boundary it crossed |
| `Movement.TrimTo` | src/world.js:128-136 | trimming keeps a suffix of the path, of at most the given length when it was longer, and leaves a path short enough unchanged |
| `Movement.Extend` | src/world.js:118-125 | the head is appended exactly when the path is empty or the head is more than `pathPointSpacing` from the last point |
| `Movement.Drain` | src/world.js:140-141 | the drained length is exactly `length - boostLengthDrain * dt` when that is at least `minLength`, and exactly `minLength` otherwise; under a valid configuration it never lengthens a player already at or above `minLength` |
| `Movement.HeadRadius` | src/world.js:152-154 | the head radius lies between `headRadius` and `headRadius + 12` |
| `Movement.MaxSegments` | src/world.js:128 | the cap is the floor of `length / segmentSpacing` |
| `Movement.TrimBoth` | src/world.js:128-136 | the two trims keep exactly the newest `min(length, max(maxSegments, 0), maxPathPoints)` points |
| `Movement.NewPath` | src/world.js:118-136 | the new path is the newest `min(n, max(maxSegments, 0), maxPathPoints)` points of the extended path of `n` points, and stays in the arena if its points were |
| `Movement.MoveBody` | src/world.js:102-154 | one step changes only position, path, length and radius: the head is the advanced head, inside the arena; the path is the new path for the length before draining; the length is drained exactly when boosting; the radius is that of the new length |
| `Movement.StepPlayer` | src/world.js:139-149 | a food drop is due exactly when boosting past the drop interval; it falls at the oldest path point of a path longer than three, else at the head, and stamps the time |
| `Movement.MovePlayer` | src/world.js:99-155 | dead or unknown players are skipped; a living one takes its step; a due drop adds exactly one unit food under the next id at the drop point, and otherwise the food side is untouched |
| `Movement.MovePlayerDrops` | src/world.js:143-148 | one player's step adds a food under the next id exactly when its drop is due, a unit food at the point `StepPlayer` gives, and no other food |
| `Movement.MovePlayerKeeps` | src/world.js:99-155 | one player's movement, including a boost drop, keeps the registry |
| `Movement.MoveAll` | src/world.js:98-156 | each living player listed takes exactly one step, and the others are unchanged |
| `Movement.MoveAllDrops` | src/world.js:98-156 | the movement loop adds exactly one unit food per due drop, under consecutive fresh ids in loop order: the food under `nextFoodId + j` lies at the `j`-th drop point (`Drops`), and no other food appears |
| `Movement.MoveAllKeeps` | src/world.js:98-156 | the movement loop keeps the registry |
| `Movement.StepMovement` | src/world.js:98-156 | every living player takes exactly one step in insertion order; dead ones are untouched; the food counter moves on by the number of due drops, the food under `nextFoodId + j` is a unit food at the `j`-th drop point, and no other food appears |
| `Rebuild.AddAll` | src/world.js:161-164 | re-adding every listed player records the key of its current position and keeps the side table in step |
| `Rebuild.RebuildSpatial` | src/world.js:158-165 | afterwards the side table holds exactly the players, each under the key of where it stands |
| `Rebuild.RebuildKeeps` | src/world.js:158-165 | a rebuild restores the registry with current cells, whatever cells were recorded before |
| `Rebuild.RebuildExact` | src/world.js:158-165 | after a rebuild every player, dead or alive, is in the bucket of its position, and nothing else is in the hash |
| `Pickup.Ascending` | src/world.js:171 | the visiting order lists exactly the candidate ids, strictly increasing |
| `Pickup.Eat` | src/world.js:175-178 | the food leaves `foods` and `foodCells` and its recorded bucket, every other bucket is unchanged, and its value is added to the player's length |
| `Pickup.EatKeeps` | src/world.js:175-178 | eating keeps the registry |
| `Pickup.Replenish` | src/world.js:179 | below `targetFood` one new unit food appears, otherwise nothing happens |
| `Pickup.ReplenishKeeps` | src/world.js:179 | replenishing keeps the registry |
| `Pickup.EatOne` | src/world.js:172-180 | a candidate is eaten exactly when it is still registered and within `foodPickupRadius` of the head; the player grows by its value; other foods and players are kept |
| `Pickup.EatOneKeeps` | src/world.js:172-180 | one candidate step keeps the registry |
| `Pickup.EatAll` | src/world.js:171-181 | only the listed candidates can be eaten; only the eater's length changes among players; uneaten older foods are kept |
| `Pickup.EatAllKeeps` | src/world.js:171-181 | the candidate loop keeps the registry |
| `Pickup.EatAllDistinct` | src/world.js:171-181 | over distinct candidates no food is eaten twice |
| `Pickup.EatAllEaten` | src/world.js:171-181 | the loop eats exactly the candidates that are registered and within reach, whatever replenishment happens in between |
| `Pickup.EatAllRemoves` | src/world.js:175-177 | every food eaten is gone afterwards |
| `Pickup.EatAllGrowth` | src/world.js:178 | the player grows by exactly the total value of the foods it ate |
| `Pickup.Candidates` | src/world.js:170 | the candidates are exactly the query result below the id counter, without repeats |
| `Pickup.CandidatesComplete` | src/world.js:170-174 | the broad phase misses no registered food within `foodPickupRadius` of the head |
| `Pickup.PickupFor` | src/world.js:168-182 | dead or unknown players eat nothing; otherwise only the player's length changes among players |
| `Pickup.PickupForEaten` | src/world.js:168-182 | a living player eats exactly the registered foods within reach of its head, each once, and they are gone afterwards |
| `Pickup.PickupForGrowth` | src/world.js:168-182 | a living player grows by exactly the value it ate, and every food it did not eat is kept |
| `Pickup.PickupAll` | src/world.js:167-183 | only lengths change, dead and unlisted players are untouched, and every food that appears carries an id the counter had not yet handed out |
| `Pickup.PickupAllAppend` | src/world.js:168 | running the loop over two lists in a row is running it over their concatenation |
| `Pickup.PickupGrowthAt` | src/world.js:168-182 | the `k`-th player of the loop eats exactly the registered foods within reach of its head in the world its predecessors left, and its final length is its length before the loop plus the total value of those foods |
| `Pickup.EatenInReachStep` | src/world.js:168-182 | if the first turn eats only foods in its player's reach, keeps every other food and changes only lengths, and the later turns remove only foods in reach of their players, then every food the whole loop removes was in reach of one of them |
| `Pickup.PickupForFate` | src/world.js:168-182 | one turn keeps the registry, eats only foods within reach of its living player and keeps every food it does not eat |
| `Pickup.PickupAllFoods` | src/world.js:167-183 | every food the loop removes or replaces was within reach of a living listed player |
| `Pickup.PickupAllKeeps` | src/world.js:167-183 | the pickup step keeps the registry |
| `Pickup.StepFoodPickup` | src/world.js:167-183 | the pickup step over the insertion order changes only lengths, leaves dead players untouched, and every food that appears carries a fresh id; `Pickup.PickupGrowthAt` and `Pickup.PickupAllFoods` over `order` say which foods go and how much each player grows |
| `Collisions.DeathPieces` | src/world.js:219 | a kill makes at least 5 pieces, 5 for lengths below 12, and `floor(length / 2)` from 10 on |
| `Collisions.ScatterPoint` | src/world.js:221-224 | a scattered piece lands inside the arena |
| `Collisions.ScatterPiece` | src/world.js:221-225 | one piece is a unit food under the next id, inside the arena, after two draws |
| `Collisions.ScatterPieceKeeps` | src/world.js:221-225 | a scattered piece keeps the registry |
| `Collisions.Scatter` | src/world.js:220-226 | `n` pieces add exactly the ids `next .. next+n-1`, all unit foods inside the arena, after `2n` draws; the player side is unchanged |
| `Collisions.ScatterKeeps` | src/world.js:220-226 | the scatter loop keeps the registry |
| `Collisions.Kill` | src/world.js:214-226 | killing a dead or unknown player changes nothing (so killing twice is killing once); otherwise only its `alive` flag falls and exactly `DeathPieces` new unit foods appear in the arena; older foods are kept |
| `Collisions.KillKeeps` | src/world.js:214-226 | a kill keeps the registry |
| `Collisions.BodyRadius` | src/world.js:202 | the body radius lies between `bodyRadius` and `bodyRadius + 10` |
| `Collisions.HitFrom` | src/world.js:198-207 | from sample `k` on, the loop hits exactly when some sampled point `m * step` at or after it is within reach of the head |
| `Collisions.HitsBody` | src/world.js:197-207 | the head touches the body exactly when some sampled point `m * segmentSampleStep` of the path is within `p.r` plus `q`'s body radius of the head |
| `Collisions.Opponents` | src/world.js:189-196 | the candidates are other, living, registered players |
| `Collisions.OpponentsComplete` | src/world.js:189-196 | with current cells, the broad phase misses no living player whose head is within `collisionQueryRadius` |
| `Collisions.CollideOne` | src/world.js:187-208 | a player's turn can change only its own `alive` flag and only from alive to dead; older foods are kept |
| `Collisions.CollideOneFate` | src/world.js:187-208 | a player is alive after its turn exactly when it was alive and touched no candidate's body |
| `Collisions.CollideAll` | src/world.js:185-210 | the loop changes only `alive` flags, revives nobody and leaves players not listed untouched |
| `Collisions.CollideAllKeeps` | src/world.js:185-210 | the collision loop keeps the registry |
| `Collisions.CollideAllAppend` | src/world.js:187 | running the loop over two lists in a row is running it over their concatenation |
| `Collisions.CollideFate` | src/world.js:185-210 | the `k`-th player survives exactly when it was alive and touched no candidate's body in the world its predecessors left |
| `Collisions.StepCollisions` | src/world.js:185-210 | collisions change only `alive` flags and revive nobody |
| `Tick.Init` | src/world.js:11-23 | a new world has no players, tick 0, and exactly the foods `1 .. initialFood`, unit-valued inside the arena, with the registry and current cells established |
| `Tick.MaybeSpawn` | src/world.js:252 | at or above `targetFood` nothing is drawn; below it one draw decides, and a success adds one food under the next id |
| `Tick.MaybeSpawnKeeps` | src/world.js:252 | the chance spawn keeps the registry |
| `Tick.MaybeSpawnBounded` | src/world.js:252 | the chance spawn never lifts the population above `targetFood` |
| `Tick.Prepare` | src/world.js:251-252 | the tick counter moves on by one and the player side is untouched |
| `Tick.PrepareKeeps` | src/world.js:251-252 | the start of a tick keeps the registry |
| `Tick.Resolve` | src/world.js:255-256 | pickup then collisions change only lengths and `alive` flags, revive nobody and leave dead players untouched |
| `Tick.ResolveKeeps` | src/world.js:255-256 | pickup and collisions keep the registry and current cells |
| `Tick.Tick` | src/world.js:250-257 | a tick moves the counter by one, revives nobody, leaves dead players untouched and keeps every living player inside the arena |
| `Tick.TickKeeps` | src/world.js:250-257 | a tick keeps the registry and ends with every player recorded in the cell where it stands |
| `Aoi.ViewOf` | src/world.js:270-280 | a player's view carries its identity, place, life and path, with the length floored |
| `Aoi.AoiFor` | src/world.js:259-290 | every entry of the view is a registered entity returned by the query and within `viewRadius`, shown as its view |
| `Aoi.AoiPlayersExact` | src/world.js:265-282 | with current cells the view holds exactly the players within `viewRadius`, dead ones and the viewer included |
| `Aoi.AoiFoodsExact` | src/world.js:283-288 | the view holds exactly the foods within `viewRadius` |

## Left out

- I/O is not modelled: the kill logger (`src/world.js:229-238`), the death message sent over the socket (`src/world.js:240-246`), and `src/server.js`, `src/logger.js` and `src/protocol.js`, which only call into the world or carry messages.
- The player fields that the world never reads are not modelled: the socket handle, `speed`, `pathLen`, `lastSeenTick`, `msgCountWindow` and `lastMsgWindowTs`. `addPlayer`'s return value is the new record, `r.players[id]`.
- Floating-point arithmetic is modelled with exact reals: there is no rounding, no infinity and no NaN. For example, `Math.sqrt` of a negative length would give NaN in the source; here it is an arbitrary non-negative number.
- `Math.cos`, `Math.sin` and `Math.sqrt` are uninterpreted. `Math.random()` is a stream of draws in `[0, 1)`. Nothing is claimed about their distribution.
- The UUID of `addPlayer` is a parameter, with the precondition that it is not already registered.
- `stepMovement` reads `Date.now()` afresh for every boosting player (`src/world.js:143-144`), twice for one drop. The model reads the clock once per movement step: one `now` serves every player of the loop and both reads of a drop. Players whose drops are due late in one real pass could see a later clock than those before them; here they all see the same.
- The order in which a player visits its candidate foods is ascending id. In the source it is the insertion order of the query's `Set`. The foods eaten, the growth and the replacement spawns do not depend on that order: `Pickup.PickupForEaten` and `Pickup.PickupForGrowth` state them without reference to it. Only which replacement id comes after which eaten id follows the modelled order.
- `kill`'s `killer` argument is not modelled: the source uses it only for the log and the death message.
- `respawn`, `handleInput` and `kill` (`src/world.js:214`) take a player record in the source. Here they take an id (`Collisions.Kill` takes the victim's id). A record that was removed from the world, and whose later mutation the world cannot see, is an unknown id, and nothing changes.
- `handleInput`'s `typeof` checks are modelled by optional fields. A value of the wrong type is `None`.
- `Tick.Tick`, `Rebuild.RebuildSpatial` and `Movement.StepMovement` require `order` to list the players (`OrderValid`). This is part of the registry invariant that every operation keeps. The source has no such list because its `Map` remembers insertion order itself.
- `Collisions.CollideAll` states which flags can change but not which players die. `Collisions.CollideFate` states that, player by player.
- `GameConfig.Config`: `sectorSize` and `segmentSpacing` are assumed positive and `segmentSampleStep` at least 1, as types. With a zero sample step the source's collision loop (`src/world.js:199`) would never end, and a zero cell size or spacing would give infinite or NaN keys.
- `Pickup.EatOne`: the eaten food is promised to be gone only when its id is below the food counter. Without the registry invariant, a food whose id equals the counter could be eaten and then re-created under the same id by the replacement spawn. The registry invariant keeps every id below the counter.

## Findings

| source | as written | input that shows it | evidently intended | confidence | as-written member | corrected member |
|---|---|---|---|---|---|---|
| src/world.js:91-93 | the heading moves by `clamp(target - angle, -maxTurn, maxTurn)`, the raw difference of the two angles | heading 6.2, target angle 0, `maxTurn` 0.18: the target lies 0.083 ahead the short way round, but the raw difference is -6.2 and the player turns 0.18 away from it | clamp the difference wrapped into `(-π, π]`, so that the player turns toward the target the short way round | medium, not executed | `PlayerRegistry.TurnToward`, used by `PlayerRegistry.ApplyInput` (with `PlayerRegistry.TurnTowardLongWay`) | `PlayerRegistry.TurnShortest`, used by `PlayerRegistry.ApplyInputCorrected` |
