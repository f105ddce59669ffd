/** `stepMovement(dt)` of `World`: every living player's head advances along
    its heading, is clamped into the rectangular arena, its path gains the
    new head when it is far enough from the last point, the path is trimmed
    from the old end, boosting drains length down to `minLength` and
    periodically drops a food, and the head radius is recomputed. The
    displacement `cos(angle) * speed * dt` uses the environment's
    trigonometry; `now` stands for `Date.now()`. */
module Movement {
  import opened Wrappers
  import opened Numeric
  import opened GameConfig
  import opened Environment
  import opened Spatial
  import opened WorldState
  import opened FoodRegistry

  ghost predicate IsSuffix<T>(a: seq<T>, b: seq<T>) {
    |a| <= |b| && a == b[|b| - |a|..]
  }

  ghost predicate PathInArena(cfg: Config, path: seq<Point>) {
    forall i :: 0 <= i < |path| ==> InArena(cfg, path[i].x, path[i].y)
  }

  lemma SuffixTrans<T>(a: seq<T>, b: seq<T>, c: seq<T>)
    requires IsSuffix(a, b) && IsSuffix(b, c)
    ensures IsSuffix(a, c)
  {
    assert b[|b| - |a|..] == c[|c| - |a|..];
  }

  lemma SuffixInArena(cfg: Config, a: seq<Point>, b: seq<Point>)
    requires IsSuffix(a, b) && PathInArena(cfg, b)
    ensures PathInArena(cfg, a)
  {
    forall i | 0 <= i < |a| ensures InArena(cfg, a[i].x, a[i].y) {
      assert a[i] == b[|b| - |a| + i];
    }
  }

  /** The four boundary tests, in the source's order. */
  function ArenaClamp(cfg: Config, x: real, y: real): (pt: Point)
    ensures cfg.Valid() ==> InArena(cfg, pt.x, pt.y)
    ensures InArena(cfg, x, y) ==> pt == Point(x, y)
    ensures 0.0 <= x <= cfg.width ==> pt.x == x
    ensures 0.0 <= y <= cfg.height ==> pt.y == y
  {
    var x1 := if x < 0.0 then 0.0 else x;
    var y1 := if y < 0.0 then 0.0 else y;
    var x2 := if x1 > cfg.width then cfg.width else x1;
    var y2 := if y1 > cfg.height then cfg.height else y1;
    Point(x2, y2)
  }

  /** `path.slice(start)` for a start that is not negative. */
  function SliceFrom<T>(s: seq<T>, start: nat): (r: seq<T>)
    ensures IsSuffix(r, s)
    ensures |r| == if start >= |s| then 0 else |s| - start
  {
    if start >= |s| then [] else s[start..]
  }

  /** Keep at most the newest `n` points (`slice(length - n)` when too long). */
  function TrimTo<T>(path: seq<T>, n: int): (r: seq<T>)
    ensures IsSuffix(r, path)
    ensures |path| <= n ==> r == path
    ensures |path| > n ==> |r| == if n < 0 then 0 else n
  {
    if |path| > n then SliceFrom(path, |path| - n) else path
  }

  /** The path after the head is recorded: a new point only when the path is
      empty or the head is more than `spacing` from the last point. */
  function Extend(path: seq<Point>, head: Point, spacing: real): (r: seq<Point>)
    ensures r == path || r == path + [head]
    ensures r == path + [head] <==> |path| == 0 || Dist2(path[|path| - 1].x, path[|path| - 1].y, head.x, head.y) > spacing * spacing
  {
    if |path| == 0 || Dist2(path[|path| - 1].x, path[|path| - 1].y, head.x, head.y) > spacing * spacing
    then path + [head]
    else path
  }

  /** The boost drain: length falls by `boostLengthDrain * dt`, floored at
      `minLength`. */
  function Drain(cfg: Config, length: real, dt: real): (l: real)
    ensures l >= cfg.minLength
    ensures length - cfg.boostLengthDrain * dt >= cfg.minLength ==> l == length - cfg.boostLengthDrain * dt
    ensures length - cfg.boostLengthDrain * dt < cfg.minLength ==> l == cfg.minLength
    ensures cfg.Valid() && dt >= 0.0 && length >= cfg.minLength ==> l <= length
  {
    var l := length - cfg.boostLengthDrain * dt;
    assert cfg.Valid() && dt >= 0.0 ==> cfg.boostLengthDrain * dt >= 0.0;
    if l < cfg.minLength then cfg.minLength else l
  }

  /** `headRadius + Math.min(12, Math.sqrt(length) * 0.3)`. */
  function HeadRadius(cfg: Config, env: Env, length: real): (r: real)
    ensures cfg.headRadius <= r <= cfg.headRadius + 12.0
  {
    cfg.headRadius + Min(12.0, env.sqrt(length) * 0.3)
  }

  /** `Math.floor(length / segmentSpacing)`: the most points the path may keep. */
  function MaxSegments(cfg: Config, length: real): (n: int)
    ensures n as real <= length / cfg.segmentSpacing < (n + 1) as real
  {
    CellIndex(cfg.segmentSpacing, length)
  }

  /** `baseSpeed`, multiplied by `boostMultiplier` while boosting. */
  function Speed(cfg: Config, boost: bool): real {
    if boost then cfg.baseSpeed * cfg.boostMultiplier else cfg.baseSpeed
  }

  /** Where the head would be after `speed * dt` along the heading, before
      the arena clamp. */
  function Destination(cfg: Config, env: Env, dt: real, p: Player): Point {
    var speed := Speed(cfg, p.boost);
    Point(p.x + env.cos(p.angle) * speed * dt, p.y + env.sin(p.angle) * speed * dt)
  }

  /** The head after one step: the destination clamped into the arena. A
      coordinate that stays inside moves by exactly the displacement; one
      that leaves stops on the boundary it crossed. */
  function AdvanceHead(cfg: Config, env: Env, dt: real, p: Player): (head: Point)
    ensures cfg.Valid() ==> InArena(cfg, head.x, head.y)
    ensures var d := Destination(cfg, env, dt, p);
      && (0.0 <= d.x <= cfg.width ==> head.x == d.x)
      && (d.x < 0.0 ==> head.x == Min(0.0, cfg.width))
      && (d.x > cfg.width && cfg.width >= 0.0 ==> head.x == cfg.width)
      && (0.0 <= d.y <= cfg.height ==> head.y == d.y)
      && (d.y < 0.0 ==> head.y == Min(0.0, cfg.height))
      && (d.y > cfg.height && cfg.height >= 0.0 ==> head.y == cfg.height)
  {
    var d := Destination(cfg, env, dt, p);
    ArenaClamp(cfg, d.x, d.y)
  }

  /** How many of `n` points survive the caps `a` and `b`: the least of
      `n`, `max(a, 0)` and `b`. */
  function Kept(n: nat, a: int, b: nat): nat {
    var cap := if a < 0 then 0 else a;
    if n <= cap && n <= b then n else if cap <= b then cap else b
  }

  /** Trim to `a` points and then to `b` points: exactly the newest
      `Kept(|s|, a, b)` points are kept. */
  function TrimBoth<T>(s: seq<T>, a: int, b: nat): (r: seq<T>)
    ensures IsSuffix(r, s)
    ensures |r| == Kept(|s|, a, b)
  {
    var s1 := TrimTo(s, a);
    var s2 := TrimTo(s1, b);
    SuffixTrans(s2, s1, s);
    s2
  }

  /** The path after recording `head` and trimming to `maxSegments` and then
      to `maxPathPoints` points. */
  function NewPath(cfg: Config, path: seq<Point>, head: Point, maxSegments: int): (r: seq<Point>)
    ensures |r| <= |path| + 1
    ensures IsSuffix(r, Extend(path, head, cfg.pathPointSpacing))
    ensures |r| == Kept(|Extend(path, head, cfg.pathPointSpacing)|, maxSegments, cfg.maxPathPoints)
    ensures |r| == 0 || |r| <= maxSegments
    ensures PathInArena(cfg, path) && InArena(cfg, head.x, head.y) ==> PathInArena(cfg, r)
  {
    var path1 := Extend(path, head, cfg.pathPointSpacing);
    var r := TrimBoth(path1, maxSegments, cfg.maxPathPoints);
    assert |r| <= |path1| <= |path| + 1;
    assert PathInArena(cfg, path) && InArena(cfg, head.x, head.y) ==> PathInArena(cfg, r) by {
      if PathInArena(cfg, path) && InArena(cfg, head.x, head.y) {
        ExtendInArena(cfg, path, head, cfg.pathPointSpacing);
        SuffixInArena(cfg, r, path1);
      }
    }
    r
  }

  lemma ExtendInArena(cfg: Config, path: seq<Point>, head: Point, spacing: real)
    requires PathInArena(cfg, path) && InArena(cfg, head.x, head.y)
    ensures PathInArena(cfg, Extend(path, head, spacing))
  {
    var e := Extend(path, head, spacing);
    forall i | 0 <= i < |e| ensures InArena(cfg, e[i].x, e[i].y) {
      if i < |path| {
        assert e[i] == path[i];
      }
    }
  }

  /** One living player's motion: head, path, length and head radius. */
  function MoveBody(cfg: Config, env: Env, dt: real, p: Player): (q: Player)
    ensures q == p.(x := q.x, y := q.y, path := q.path, length := q.length, r := q.r)
    ensures Point(q.x, q.y) == AdvanceHead(cfg, env, dt, p)
    ensures cfg.Valid() ==> InArena(cfg, q.x, q.y)
    ensures |q.path| <= |p.path| + 1
    ensures q.path == NewPath(cfg, p.path, Point(q.x, q.y), MaxSegments(cfg, p.length))
    ensures cfg.Valid() && PathInArena(cfg, p.path) ==> PathInArena(cfg, q.path)
    ensures !p.boost ==> q.length == p.length
    ensures p.boost ==> q.length == Drain(cfg, p.length, dt)
    ensures p.boost && cfg.Valid() && dt >= 0.0 && p.length >= cfg.minLength ==> q.length <= p.length
    ensures q.r == HeadRadius(cfg, env, q.length)
  {
    var head := AdvanceHead(cfg, env, dt, p);
    var path := NewPath(cfg, p.path, head, MaxSegments(cfg, p.length));
    var length := if p.boost then Drain(cfg, p.length, dt) else p.length;
    var q := p.(x := head.x, y := head.y, path := path, length := length, r := HeadRadius(cfg, env, length));
    assert Point(q.x, q.y) == head;
    q
  }

  /** One living player's movement step; the second component is where a
      boost drop falls, if one is due: the tail end of a path of more than
      three points, otherwise the head. */
  function StepPlayer(cfg: Config, env: Env, dt: real, now: int, p: Player): (res: (Player, Option<Point>))
    ensures res.0 == MoveBody(cfg, env, dt, p).(lastDrop := res.0.lastDrop)
    ensures res.1.Some? <==> p.boost && now - p.lastDrop > cfg.boostDropIntervalMs
    ensures res.1.Some? ==> res.0.lastDrop == now
    ensures res.1.None? ==> res.0.lastDrop == p.lastDrop
    ensures res.1.Some? ==> res.1.value == (if |res.0.path| > 3 then res.0.path[0] else Point(res.0.x, res.0.y))
  {
    var q := MoveBody(cfg, env, dt, p);
    var due := p.boost && now - p.lastDrop > cfg.boostDropIntervalMs;
    var drop := if due then Some(if |q.path| > 3 then q.path[0] else Point(q.x, q.y)) else None;
    (q.(lastDrop := if due then now else p.lastDrop), drop)
  }

  /** A living boosting player whose last drop is older than
      `boostDropIntervalMs` drops a food this step. */
  predicate DropDue(cfg: Config, now: int, p: Player) {
    p.alive && p.boost && now - p.lastDrop > cfg.boostDropIntervalMs
  }

  /** Where the due drops of the players `ids` names fall, in loop order:
      one point per living boosting player whose interval has passed, the
      point `StepPlayer` gives for it. */
  ghost function Drops(cfg: Config, env: Env, dt: real, now: int, players: map<PlayerId, Player>, ids: seq<PlayerId>): seq<Point>
    decreases |ids|
  {
    if ids == [] then []
    else
      var here := if ids[0] in players && DropDue(cfg, now, players[ids[0]])
        then [StepPlayer(cfg, env, dt, now, players[ids[0]]).1.value] else [];
      here + Drops(cfg, env, dt, now, players, ids[1..])
  }

  lemma {:induction false} DropsFrame(cfg: Config, env: Env, dt: real, now: int, a: map<PlayerId, Player>, b: map<PlayerId, Player>, ids: seq<PlayerId>)
    requires forall o :: o in ids ==> (o in a <==> o in b) && (o in a ==> a[o] == b[o])
    ensures Drops(cfg, env, dt, now, a, ids) == Drops(cfg, env, dt, now, b, ids)
    decreases |ids|
  {
    if ids != [] {
      assert ids[0] in ids;
      assert forall o :: o in ids[1..] ==> o in ids;
      DropsFrame(cfg, env, dt, now, a, b, ids[1..]);
    }
  }

  /** The movement step of one player id: dead or unknown players are
      skipped; a due boost drop adds exactly one unit food, under the next
      id, where `StepPlayer` says it falls, and otherwise the food side is
      untouched. */
  function MovePlayer(w: World, env: Env, dt: real, now: int, id: PlayerId): (r: World)
    ensures r.players.Keys == w.players.Keys
    ensures forall o :: o in w.players ==>
      r.players[o] == (if o == id && w.players[o].alive then StepPlayer(w.cfg, env, dt, now, w.players[o]).0 else w.players[o])
    ensures r.cfg == w.cfg && r.order == w.order && r.playerCells == w.playerCells && r.playerSpatial == w.playerSpatial
    ensures r.tickId == w.tickId && r.draws == w.draws
    ensures id in w.players && DropDue(w.cfg, now, w.players[id]) ==>
      var pt := StepPlayer(w.cfg, env, dt, now, w.players[id]).1.value;
      && r.foods == w.foods[w.nextFoodId := Food(w.nextFoodId, pt.x, pt.y, 1.0)]
      && r.nextFoodId == w.nextFoodId + 1
    ensures !(id in w.players && DropDue(w.cfg, now, w.players[id])) ==>
      r.foods == w.foods && r.foodCells == w.foodCells && r.foodSpatial == w.foodSpatial && r.nextFoodId == w.nextFoodId
  {
    if id !in w.players || !w.players[id].alive then w
    else
      var step := StepPlayer(w.cfg, env, dt, now, w.players[id]);
      var w1 := SetPlayer(w, id, step.0);
      match step.1
      case None => w1
      case Some(pt) => SpawnFoodAt(w1, pt.x, pt.y, 1.0)
  }

  lemma MovePlayerKeeps(w: World, env: Env, dt: real, now: int, id: PlayerId)
    requires Registry(w)
    ensures Registry(MovePlayer(w, env, dt, now, id))
  {
    if id in w.players && w.players[id].alive {
      var step := StepPlayer(w.cfg, env, dt, now, w.players[id]);
      SetPlayerKeeps(w, id, step.0);
      var w1 := SetPlayer(w, id, step.0);
      if step.1.Some? {
        SpawnFoodAtKeeps(w1, step.1.value.x, step.1.value.y, 1.0);
      }
    }
  }

  /** The loop of `stepMovement` over the players in `ids`. */
  function MoveAll(w: World, env: Env, dt: real, now: int, ids: seq<PlayerId>): (r: World)
    requires Distinct(ids)
    ensures r.players.Keys == w.players.Keys
    ensures forall o :: o in w.players ==>
      r.players[o] == (if o in ids && w.players[o].alive then StepPlayer(w.cfg, env, dt, now, w.players[o]).0 else w.players[o])
    ensures r.cfg == w.cfg && r.order == w.order && r.playerCells == w.playerCells && r.playerSpatial == w.playerSpatial
    ensures r.tickId == w.tickId && r.draws == w.draws
    ensures r.nextFoodId >= w.nextFoodId
    ensures forall f :: f in w.foods && f < w.nextFoodId ==> f in r.foods && r.foods[f] == w.foods[f]
    decreases |ids|
  {
    if ids == [] then w
    else
      DistinctSplit(ids);
      var w1 := MovePlayer(w, env, dt, now, ids[0]);
      MoveAll(w1, env, dt, now, ids[1..])
  }

  /** The foods one player's step adds, in the terms the loop needs. */
  lemma MovePlayerDrops(w: World, env: Env, dt: real, now: int, id: PlayerId)
    ensures var r := MovePlayer(w, env, dt, now, id);
      var due := id in w.players && DropDue(w.cfg, now, w.players[id]);
      && r.nextFoodId == w.nextFoodId + (if due then 1 else 0)
      && (forall f :: f in r.foods <==> f in w.foods || (due && f == w.nextFoodId))
      && (due ==> var pt := StepPlayer(w.cfg, env, dt, now, w.players[id]).1.value;
            r.foods[w.nextFoodId] == Food(w.nextFoodId, pt.x, pt.y, 1.0))
  {
  }

  /** The food under id `f` is a unit food at `pt`. */
  ghost predicate UnitFoodAt(foods: map<FoodId, Food>, f: FoodId, pt: Point) {
    f in foods && foods[f] == Food(f, pt.x, pt.y, 1.0)
  }

  /** The foods under ids `base`, `base + 1`, ... are unit foods at the
      points `d` lists, in order. */
  ghost predicate DroppedAt(foods: map<FoodId, Food>, base: nat, d: seq<Point>) {
    forall j :: 0 <= j < |d| ==> UnitFoodAt(foods, base + j, d[j])
  }

  lemma DroppedCons(foods: map<FoodId, Food>, base: nat, next: nat, pt: Point, d: seq<Point>)
    requires next == base + 1
    requires UnitFoodAt(foods, base, pt)
    requires DroppedAt(foods, next, d)
    ensures DroppedAt(foods, base, [pt] + d)
  {
    forall j | 0 <= j < |[pt] + d|
      ensures UnitFoodAt(foods, base + j, ([pt] + d)[j])
    {
      if j > 0 {
        assert ([pt] + d)[j] == d[j - 1] && base + j == next + (j - 1);
      }
    }
  }

  /** The foods the movement loop adds: one unit food per due drop, under
      consecutive fresh ids, at the points `Drops` lists, and nothing else. */
  lemma {:induction false} MoveAllDrops(w: World, env: Env, dt: real, now: int, ids: seq<PlayerId>)
    requires Distinct(ids)
    ensures var r := MoveAll(w, env, dt, now, ids);
      var d := Drops(w.cfg, env, dt, now, w.players, ids);
      && r.nextFoodId == w.nextFoodId + |d|
      && (forall f :: f in r.foods <==> f in w.foods || w.nextFoodId <= f < r.nextFoodId)
      && DroppedAt(r.foods, w.nextFoodId, d)
    decreases |ids|
  {
    if ids != [] {
      DistinctSplit(ids);
      var w1 := MovePlayer(w, env, dt, now, ids[0]);
      var r := MoveAll(w1, env, dt, now, ids[1..]);
      var due := ids[0] in w.players && DropDue(w.cfg, now, w.players[ids[0]]);
      var d1 := Drops(w.cfg, env, dt, now, w1.players, ids[1..]);
      MovePlayerDrops(w, env, dt, now, ids[0]);
      DropsFrame(w.cfg, env, dt, now, w1.players, w.players, ids[1..]);
      MoveAllDrops(w1, env, dt, now, ids[1..]);
      if due {
        var pt := StepPlayer(w.cfg, env, dt, now, w.players[ids[0]]).1.value;
        assert Drops(w.cfg, env, dt, now, w.players, ids) == [pt] + d1;
        assert w.nextFoodId in w1.foods && w1.foods[w.nextFoodId] == Food(w.nextFoodId, pt.x, pt.y, 1.0);
        assert UnitFoodAt(r.foods, w.nextFoodId, pt);
        DroppedCons(r.foods, w.nextFoodId, w1.nextFoodId, pt, d1);
      } else {
        assert Drops(w.cfg, env, dt, now, w.players, ids) == d1;
      }
    }
  }

  lemma {:induction false} MoveAllKeeps(w: World, env: Env, dt: real, now: int, ids: seq<PlayerId>)
    requires Registry(w) && Distinct(ids)
    ensures Registry(MoveAll(w, env, dt, now, ids))
    decreases |ids|
  {
    if ids != [] {
      DistinctSplit(ids);
      MovePlayerKeeps(w, env, dt, now, ids[0]);
      MoveAllKeeps(MovePlayer(w, env, dt, now, ids[0]), env, dt, now, ids[1..]);
    }
  }

  /** `stepMovement(dt)`. */
  function StepMovement(w: World, env: Env, dt: real, now: int): (r: World)
    requires OrderValid(w)
    ensures r.players.Keys == w.players.Keys
    ensures forall o :: o in w.players ==>
      r.players[o] == (if w.players[o].alive then StepPlayer(w.cfg, env, dt, now, w.players[o]).0 else w.players[o])
    ensures r.cfg == w.cfg && r.order == w.order && r.playerCells == w.playerCells && r.playerSpatial == w.playerSpatial
    ensures r.tickId == w.tickId && r.draws == w.draws
    ensures var d := Drops(w.cfg, env, dt, now, w.players, w.order);
      && r.nextFoodId == w.nextFoodId + |d|
      && DroppedAt(r.foods, w.nextFoodId, d)
    ensures forall f :: f in r.foods <==> f in w.foods || w.nextFoodId <= f < r.nextFoodId
    ensures forall f :: f in w.foods && f < w.nextFoodId ==> f in r.foods && r.foods[f] == w.foods[f]
  {
    MoveAllDrops(w, env, dt, now, w.order);
    MoveAll(w, env, dt, now, w.order)
  }
}
