/** `kill()` and `stepCollisions()` of `World`. A living player dies when
    its head touches a sampled segment of another living player's body
    found through the player hash; a dying player is marked dead (it stays
    in `players` and in the player hash) and `max(5, floor(length / 2))`
    unit foods are scattered around its head, whatever its length was. */
module Collisions {
  import opened Numeric
  import opened GameConfig
  import opened Environment
  import opened Spatial
  import opened WorldState
  import opened FoodRegistry

  /** How many foods a victim of length `length` leaves:
      `max(5, floor(length / 2))`. */
  function DeathPieces(length: real): (n: nat)
    ensures n >= 5
    ensures length < 12.0 ==> n == 5
    ensures length >= 10.0 ==> n as real <= length / 2.0 < n as real + 1.0
  {
    var half := CellIndex(2.0, length);
    if half > 5 then half else 5
  }

  /** Where a scattered piece lands: an angle and a distance are drawn
      (draws `n` and `n + 1`) and the point is clamped to the arena. */
  function ScatterPoint(cfg: Config, env: Env, n: nat, cx: real, cy: real): (pt: Point)
    ensures cfg.Valid() ==> InArena(cfg, pt.x, pt.y)
  {
    var a := Rnd(env, n, 0.0, 2.0 * Pi);
    var d := Rnd(env, n + 1, 0.0, cfg.deathScatterRadius);
    Point(Clamp(cx + env.cos(a) * d, 0.0, cfg.width), Clamp(cy + env.sin(a) * d, 0.0, cfg.height))
  }

  /** One scattered piece: a unit food at the drawn point. */
  function ScatterPiece(w: World, env: Env, cx: real, cy: real): (r: World)
    ensures r.nextFoodId == w.nextFoodId + 1
    ensures r.foods.Keys == w.foods.Keys + {w.nextFoodId}
    ensures r.foods[w.nextFoodId].v == 1.0
    ensures w.cfg.Valid() ==> InArena(w.cfg, r.foods[w.nextFoodId].x, r.foods[w.nextFoodId].y)
    ensures forall id :: id in w.foods && id != w.nextFoodId ==> r.foods[id] == w.foods[id]
    ensures SamePlayerSide(w, r) && r.draws == w.draws + 2
  {
    var pt := ScatterPoint(w.cfg, env, w.draws, cx, cy);
    SpawnFoodAt(w.(draws := w.draws + 2), pt.x, pt.y, 1.0)
  }

  /** The scatter loop of `kill()`: `n` pieces around `(cx, cy)`. */
  function Scatter(w: World, env: Env, cx: real, cy: real, n: nat): (r: World)
    ensures r.nextFoodId == w.nextFoodId + n
    ensures forall id :: id in r.foods <==> id in w.foods || w.nextFoodId <= id < w.nextFoodId + n
    ensures forall id :: id in w.foods && id < w.nextFoodId ==> r.foods[id] == w.foods[id]
    ensures w.cfg.Valid() ==> forall id :: id in r.foods && id !in w.foods ==>
      r.foods[id].v == 1.0 && InArena(w.cfg, r.foods[id].x, r.foods[id].y)
    ensures SamePlayerSide(w, r) && r.draws == w.draws + 2 * n
    decreases n
  {
    if n == 0 then w
    else
      var w1 := ScatterPiece(w, env, cx, cy);
      Scatter(w1, env, cx, cy, n - 1)
  }

  lemma ScatterPieceKeeps(w: World, env: Env, cx: real, cy: real)
    requires Registry(w)
    ensures Registry(ScatterPiece(w, env, cx, cy))
  {
    var w1 := w.(draws := w.draws + 2);
    var pt := ScatterPoint(w.cfg, env, w.draws, cx, cy);
    CountersKeep(w, w.draws + 2, w.tickId);
    SpawnFoodAtKeeps(w1, pt.x, pt.y, 1.0);
  }

  lemma {:induction false} ScatterKeeps(w: World, env: Env, cx: real, cy: real, n: nat)
    requires Registry(w)
    ensures Registry(Scatter(w, env, cx, cy, n))
    decreases n
  {
    if n > 0 {
      var w1 := ScatterPiece(w, env, cx, cy);
      ScatterPieceKeeps(w, env, cx, cy);
      ScatterKeeps(w1, env, cx, cy, n - 1);
    }
  }

  /** `kill(victim, killer)`. A dead or unknown victim leaves the world as
      it is, so killing twice is killing once; otherwise the victim is
      marked dead where it stands and exactly `DeathPieces` unit foods with
      the next ids appear inside the arena. The killer only feeds the log. */
  function Kill(w: World, env: Env, vid: PlayerId): (r: World)
    ensures vid !in w.players || !w.players[vid].alive ==> r == w
    ensures vid in w.players && w.players[vid].alive ==>
      && r.players == w.players[vid := w.players[vid].(alive := false)]
      && r.nextFoodId == w.nextFoodId + DeathPieces(w.players[vid].length)
      && (forall id :: id in r.foods <==> id in w.foods || w.nextFoodId <= id < r.nextFoodId)
      && r.draws == w.draws + 2 * DeathPieces(w.players[vid].length)
    ensures w.cfg.Valid() ==> forall id :: id in r.foods && id !in w.foods ==>
      r.foods[id].v == 1.0 && InArena(w.cfg, r.foods[id].x, r.foods[id].y)
    ensures forall id :: id in w.foods && id < w.nextFoodId ==> r.foods[id] == w.foods[id]
    ensures r.nextFoodId >= w.nextFoodId
    ensures r.cfg == w.cfg && r.order == w.order && r.playerCells == w.playerCells && r.playerSpatial == w.playerSpatial
    ensures r.tickId == w.tickId
  {
    if vid !in w.players || !w.players[vid].alive then w
    else
      var v := w.players[vid];
      var w1 := SetPlayer(w, vid, v.(alive := false));
      Scatter(w1, env, v.x, v.y, DeathPieces(v.length))
  }

  lemma KillKeeps(w: World, env: Env, vid: PlayerId)
    requires Registry(w)
    ensures Registry(Kill(w, env, vid))
  {
    if vid in w.players && w.players[vid].alive {
      var v := w.players[vid];
      SetPlayerKeeps(w, vid, v.(alive := false));
      ScatterKeeps(SetPlayer(w, vid, v.(alive := false)), env, v.x, v.y, DeathPieces(v.length));
    }
  }

  /** The body radius of `q` for the collision test:
      `bodyRadius + min(10, sqrt(length) * 0.2)`. */
  function BodyRadius(cfg: Config, env: Env, q: Player): (rad: real)
    ensures cfg.bodyRadius <= rad <= cfg.bodyRadius + 10.0
  {
    var grow := env.sqrt(q.length) * 0.2;
    cfg.bodyRadius + Min(10.0, grow)
  }

  /** The head of `p` touches segment `seg` of a body of radius `rad`. */
  predicate Touches(p: Player, seg: Point, rad: real) {
    Dist2(p.x, p.y, seg.x, seg.y) <= (p.r + rad) * (p.r + rad)
  }

  /** The sampling loop from the `k`-th sample on: indices
      `k * step, (k + 1) * step, …` below the length of the path. */
  function HitFrom(p: Player, path: seq<Point>, rad: real, step: Stride, k: nat): (hit: bool)
    ensures hit <==> exists m: nat :: k <= m && m * step < |path| && Touches(p, path[m * step], rad)
    decreases |path| - k * step
  {
    var i := k * step;
    var next := i + step;
    assert (k + 1) * step == next;
    if i >= |path| then
      assert forall m: nat :: k <= m ==> i <= m * step by {
        forall m: nat | k <= m ensures i <= m * step { MulMono(k, m, step); }
      }
      false
    else
      var rest := HitFrom(p, path, rad, step, k + 1);
      Touches(p, path[i], rad) || rest
  }

  lemma MulMono(a: int, b: int, s: nat)
    requires a <= b
    ensures a * s <= b * s
  {
  }

  /** The sampled test of `p`'s head against `q`'s body: segments
      `0, step, 2 * step, …`. */
  function HitsBody(cfg: Config, env: Env, p: Player, q: Player): (hit: bool)
    ensures hit <==> exists m: nat ::
      m * cfg.segmentSampleStep < |q.path| && Touches(p, q.path[m * cfg.segmentSampleStep], BodyRadius(cfg, env, q))
  {
    HitFrom(p, q.path, BodyRadius(cfg, env, q), cfg.segmentSampleStep, 0)
  }

  /** The candidates of player `pid`: the other living players the player
      hash reports within `collisionQueryRadius` of its head. */
  function Opponents(w: World, pid: PlayerId): (os: set<PlayerId>)
    requires pid in w.players
    ensures forall o :: o in os ==> o in w.players && o != pid && w.players[o].alive
  {
    var p := w.players[pid];
    set o | o in Query(w.playerSpatial, p.x, p.y, w.cfg.collisionQueryRadius) && o != pid && o in w.players && w.players[o].alive
  }

  /** The broad phase misses no living player whose head lies within
      `collisionQueryRadius` of the head of `pid`, as long as the recorded
      cells are current. */
  lemma OpponentsComplete(w: World, pid: PlayerId, o: PlayerId)
    requires Registry(w) && CellsCurrent(w) && w.cfg.collisionQueryRadius >= 0.0
    requires pid in w.players && o in w.players && o != pid && w.players[o].alive
    requires Dist2(w.players[pid].x, w.players[pid].y, w.players[o].x, w.players[o].y)
      <= w.cfg.collisionQueryRadius * w.cfg.collisionQueryRadius
    ensures o in Opponents(w, pid)
  {
    var p := w.players[pid];
    var q := w.players[o];
    TracksBucket(w.playerSpatial, w.playerCells);
    assert o in Bucket(w.playerSpatial, Key(w.cfg.sectorSize, q.x, q.y));
    QuerySoundCircle(w.playerSpatial, p.x, p.y, w.cfg.collisionQueryRadius, o, q.x, q.y);
  }

  /** Whether player `pid`, at its turn, touches the body of a candidate. */
  predicate Struck(w: World, env: Env, pid: PlayerId)
    requires pid in w.players
  {
    exists o :: o in Opponents(w, pid) && HitsBody(w.cfg, env, w.players[pid], w.players[o])
  }

  /** One turn of the outer loop of `stepCollisions()`. */
  function CollideOne(w: World, env: Env, pid: PlayerId): (r: World)
    ensures r.players.Keys == w.players.Keys
    ensures pid in w.players ==> r.players[pid] == w.players[pid].(alive := r.players[pid].alive)
    ensures pid in w.players && r.players[pid].alive ==> w.players[pid].alive
    ensures forall o :: o in w.players && o != pid ==> r.players[o] == w.players[o]
    ensures forall id :: id in w.foods && id < w.nextFoodId ==> id in r.foods && r.foods[id] == w.foods[id]
    ensures forall id :: id in r.foods && id !in w.foods ==> id >= w.nextFoodId
    ensures r.nextFoodId >= w.nextFoodId
    ensures r.cfg == w.cfg && r.order == w.order && r.playerCells == w.playerCells && r.playerSpatial == w.playerSpatial
    ensures r.tickId == w.tickId
  {
    if pid in w.players && w.players[pid].alive && Struck(w, env, pid) then Kill(w, env, pid) else w
  }

  /** A living player dies at its turn exactly when it touches the body of
      a candidate. */
  lemma CollideOneFate(w: World, env: Env, pid: PlayerId)
    requires pid in w.players
    ensures CollideOne(w, env, pid).players[pid].alive <==> w.players[pid].alive && !Struck(w, env, pid)
  {
    if w.players[pid].alive && Struck(w, env, pid) {
      assert CollideOne(w, env, pid) == Kill(w, env, pid);
    } else {
      assert CollideOne(w, env, pid) == w;
    }
  }

  /** The outer loop of `stepCollisions()` over the players in `ids`. */
  function CollideAll(w: World, env: Env, ids: seq<PlayerId>): (r: World)
    ensures r.players.Keys == w.players.Keys
    ensures forall o :: o in w.players ==> r.players[o] == w.players[o].(alive := r.players[o].alive)
    ensures forall o :: o in w.players && r.players[o].alive ==> w.players[o].alive
    ensures forall o :: o in w.players && o !in ids ==> r.players[o] == w.players[o]
    ensures forall id :: id in w.foods && id < w.nextFoodId ==> id in r.foods && r.foods[id] == w.foods[id]
    ensures forall id :: id in r.foods && id !in w.foods ==> id >= w.nextFoodId
    ensures r.nextFoodId >= w.nextFoodId
    ensures r.cfg == w.cfg && r.order == w.order && r.playerCells == w.playerCells && r.playerSpatial == w.playerSpatial
    ensures r.tickId == w.tickId
    decreases |ids|
  {
    if ids == [] then w
    else
      var w1 := CollideOne(w, env, ids[0]);
      var r := CollideAll(w1, env, ids[1..]);
      assert forall o :: o in w.players ==> r.players[o] == w.players[o].(alive := r.players[o].alive) by {
        forall o | o in w.players
          ensures r.players[o] == w.players[o].(alive := r.players[o].alive)
        {
          if o == ids[0] {
            AliveOnlyTrans(w.players[o], w1.players[o], r.players[o]);
          } else {
            assert w1.players[o] == w.players[o];
          }
        }
      }
      r
  }

  /** Two updates of the `alive` flag amount to one. */
  lemma AliveOnlyTrans(a: Player, b: Player, c: Player)
    requires b == a.(alive := b.alive) && c == b.(alive := c.alive)
    ensures c == a.(alive := c.alive)
  {
  }

  lemma {:induction false} CollideAllKeeps(w: World, env: Env, ids: seq<PlayerId>)
    requires Registry(w)
    ensures Registry(CollideAll(w, env, ids))
    decreases |ids|
  {
    if ids != [] {
      var pid := ids[0];
      assert Registry(CollideOne(w, env, pid)) by {
        if pid in w.players && w.players[pid].alive && Struck(w, env, pid) {
          KillKeeps(w, env, pid);
          assert CollideOne(w, env, pid) == Kill(w, env, pid);
        }
      }
      CollideAllKeeps(CollideOne(w, env, pid), env, ids[1..]);
    }
  }

  lemma {:induction false} CollideAllAppend(w: World, env: Env, a: seq<PlayerId>, b: seq<PlayerId>)
    ensures CollideAll(w, env, a + b) == CollideAll(CollideAll(w, env, a), env, b)
    decreases |a|
  {
    if a == [] {
      assert a + b == b;
    } else {
      var w1 := CollideOne(w, env, a[0]);
      assert (a + b)[0] == a[0] && (a + b)[1..] == a[1..] + b;
      assert CollideAll(w, env, a + b) == CollideAll(w1, env, a[1..] + b);
      assert CollideAll(w, env, a) == CollideAll(w1, env, a[1..]);
      CollideAllAppend(w1, env, a[1..], b);
    }
  }

  lemma CollideAllSplit(w: World, env: Env, ids: seq<PlayerId>, k: nat)
    requires k < |ids|
    ensures CollideAll(w, env, ids) ==
      CollideAll(CollideOne(CollideAll(w, env, ids[..k]), env, ids[k]), env, ids[k + 1..])
  {
    var after := [ids[k]] + ids[k + 1..];
    assert ids == ids[..k] + after;
    CollideAllAppend(w, env, ids[..k], after);
    assert after[0] == ids[k] && after[1..] == ids[k + 1..];
  }

  /** The fate of the `k`-th player of the loop: it survives exactly when
      it was alive and touched no candidate's body in the world its
      predecessors left. Only its own turn can kill it. */
  lemma CollideFate(w: World, env: Env, ids: seq<PlayerId>, k: nat)
    requires Distinct(ids) && k < |ids| && ids[k] in w.players
    ensures CollideAll(w, env, ids).players[ids[k]].alive <==>
      w.players[ids[k]].alive && !Struck(CollideAll(w, env, ids[..k]), env, ids[k])
  {
    var pid := ids[k];
    var wk := CollideAll(w, env, ids[..k]);
    var w1 := CollideOne(wk, env, pid);
    CollideAllSplit(w, env, ids, k);
    DistinctAt(ids, k);
    assert wk.players[pid] == w.players[pid];
    CollideOneFate(wk, env, pid);
    assert CollideAll(w1, env, ids[k + 1..]).players[pid] == w1.players[pid];
  }

  /** `stepCollisions()`: the loop over every player in insertion order. */
  function StepCollisions(w: World, env: Env): (r: World)
    ensures r.players.Keys == w.players.Keys
    ensures forall o :: o in w.players ==> r.players[o] == w.players[o].(alive := r.players[o].alive)
    ensures forall o :: o in w.players && r.players[o].alive ==> w.players[o].alive
    ensures forall id :: id in w.foods && id < w.nextFoodId ==> id in r.foods && r.foods[id] == w.foods[id]
    ensures r.cfg == w.cfg && r.order == w.order && r.playerCells == w.playerCells && r.playerSpatial == w.playerSpatial
    ensures r.tickId == w.tickId
  {
    CollideAll(w, env, w.order)
  }
}
