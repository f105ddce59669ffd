/** `stepFoodPickup()` of `World`: every living player queries the food
    hash around its head, and every candidate food still registered and
    within `foodPickupRadius` of the head is removed from `foods`,
    `foodCells` and `foodSpatial`, its value is added to the player's
    length, and a replacement is spawned while the population is below
    `targetFood`. A player's candidates are visited in ascending id order;
    which foods it eats and what it gains do not depend on that order. */
module Pickup {
  import opened Wrappers
  import opened Numeric
  import opened GameConfig
  import opened Environment
  import opened Spatial
  import opened WorldState
  import opened FoodRegistry

  /** The ids of `s` in `[lo, hi)`, ascending. */
  function Ascending(s: set<FoodId>, lo: nat, hi: nat): (r: seq<FoodId>)
    ensures forall id :: id in r <==> id in s && lo <= id < hi
    ensures forall i, j :: 0 <= i < j < |r| ==> r[i] < r[j]
    decreases hi - lo
  {
    if lo >= hi then []
    else
      var rest := Ascending(s, lo + 1, hi);
      var r := (if lo in s then [lo] else []) + rest;
      assert forall i :: 0 <= i < |rest| ==> lo < rest[i] by {
        forall i | 0 <= i < |rest| ensures lo < rest[i] {
          assert rest[i] in rest;
        }
      }
      r
  }

  /** The exact pickup test. */
  predicate Reaches(cfg: Config, p: Player, f: Food) {
    Dist2(p.x, p.y, f.x, f.y) <= cfg.foodPickupRadius * cfg.foodPickupRadius
  }

  /** The total value of the foods `ids` names in `foods`. */
  ghost function SumValues(foods: map<FoodId, Food>, ids: seq<FoodId>): real
    decreases |ids|
  {
    if ids == [] then 0.0
    else (if ids[0] in foods then foods[ids[0]].v else 0.0) + SumValues(foods, ids[1..])
  }

  lemma {:induction false} SumValuesFrame(a: map<FoodId, Food>, b: map<FoodId, Food>, ids: seq<FoodId>)
    requires forall id :: id in ids ==> id in a && id in b && a[id] == b[id]
    ensures SumValues(a, ids) == SumValues(b, ids)
    decreases |ids|
  {
    if ids != [] {
      assert ids[0] in ids;
      assert forall id :: id in ids[1..] ==> id in ids;
      SumValuesFrame(a, b, ids[1..]);
    }
  }

  /** Removes food `fid` from every food table and adds its value to the
      length of player `pid`. */
  function Eat(w: World, pid: PlayerId, fid: FoodId): (r: World)
    requires pid in w.players && fid in w.foods
    ensures r.foods == w.foods - {fid} && r.foodCells == w.foodCells - {fid}
    ensures r.foodSpatial.cellSize == w.foodSpatial.cellSize
    ensures fid in w.foodCells ==>
      Bucket(r.foodSpatial, w.foodCells[fid]) == Bucket(w.foodSpatial, w.foodCells[fid]) - {fid}
    ensures forall k :: fid !in w.foodCells || k != w.foodCells[fid] ==> Bucket(r.foodSpatial, k) == Bucket(w.foodSpatial, k)
    ensures r.players == w.players[pid := w.players[pid].(length := w.players[pid].length + w.foods[fid].v)]
    ensures r.nextFoodId == w.nextFoodId && r.draws == w.draws
    ensures r.cfg == w.cfg && r.order == w.order && r.playerCells == w.playerCells && r.playerSpatial == w.playerSpatial
    ensures r.tickId == w.tickId
  {
    var p := w.players[pid];
    w.(foodSpatial := RemoveKey(w.foodSpatial, fid, Get(w.foodCells, fid)),
       foodCells := w.foodCells - {fid},
       foods := w.foods - {fid},
       players := w.players[pid := p.(length := p.length + w.foods[fid].v)])
  }

  lemma EatKeeps(w: World, pid: PlayerId, fid: FoodId)
    requires Registry(w) && pid in w.players && fid in w.foods
    ensures Registry(Eat(w, pid, fid))
  {
    TracksRemove(w.foodSpatial, w.foodCells, fid);
    var r := Eat(w, pid, fid);
    assert FoodsIndexed(r);
  }

  /** The replacement spawn after a food is eaten: one new food while the
      population is below `targetFood`. */
  function Replenish(w: World, env: Env): (r: World)
    ensures |w.foods| >= w.cfg.targetFood ==> r == w
    ensures |w.foods| < w.cfg.targetFood ==>
      && r.nextFoodId == w.nextFoodId + 1
      && r.foods.Keys == w.foods.Keys + {w.nextFoodId}
      && r.foods[w.nextFoodId].v == 1.0
    ensures forall g :: g in w.foods && g < w.nextFoodId ==> g in r.foods && r.foods[g] == w.foods[g]
    ensures SamePlayerSide(w, r)
  {
    if |w.foods| < w.cfg.targetFood then SpawnFood(w, env) else w
  }

  lemma ReplenishKeeps(w: World, env: Env)
    requires Registry(w)
    ensures Registry(Replenish(w, env))
  {
    if |w.foods| < w.cfg.targetFood {
      SpawnFoodKeeps(w, env);
    }
  }

  /** One iteration of the candidate loop: the food is eaten when it is
      still registered and within reach, and a replacement is spawned while
      the population is below target; the flag says whether it was eaten. */
  function EatOne(w: World, env: Env, pid: PlayerId, fid: FoodId): (r: (World, bool))
    ensures r.1 <==> pid in w.players && fid in w.foods && Reaches(w.cfg, w.players[pid], w.foods[fid])
    ensures r.1 && fid < w.nextFoodId ==> fid !in r.0.foods
    ensures !r.1 ==> r.0 == w
    ensures r.0.players.Keys == w.players.Keys
    ensures forall o :: o in w.players && o != pid ==> r.0.players[o] == w.players[o]
    ensures pid in w.players ==> r.0.players[pid] == w.players[pid].(length := r.0.players[pid].length)
    ensures pid in w.players ==>
      r.0.players[pid].length == w.players[pid].length + if r.1 then w.foods[fid].v else 0.0
    ensures forall g :: g in w.foods && g != fid && g < w.nextFoodId ==> g in r.0.foods && r.0.foods[g] == w.foods[g]
    ensures forall g :: g in r.0.foods && g !in w.foods ==> g >= w.nextFoodId
    ensures r.0.nextFoodId >= w.nextFoodId
    ensures r.0.cfg == w.cfg && r.0.order == w.order && r.0.playerCells == w.playerCells && r.0.playerSpatial == w.playerSpatial
    ensures r.0.tickId == w.tickId
  {
    if pid !in w.players || fid !in w.foods || !Reaches(w.cfg, w.players[pid], w.foods[fid]) then (w, false)
    else
      (Replenish(Eat(w, pid, fid), env), true)
  }

  lemma EatOneKeeps(w: World, env: Env, pid: PlayerId, fid: FoodId)
    requires Registry(w)
    ensures Registry(EatOne(w, env, pid, fid).0)
  {
    if pid in w.players && fid in w.foods && Reaches(w.cfg, w.players[pid], w.foods[fid]) {
      EatKeeps(w, pid, fid);
      ReplenishKeeps(Eat(w, pid, fid), env);
    }
  }

  /** The candidate loop of one player over `cands`; the second component
      lists the foods eaten, in order. */
  function EatAll(w: World, env: Env, pid: PlayerId, cands: seq<FoodId>): (r: (World, seq<FoodId>))
    ensures forall g :: g in r.1 ==> g in cands
    ensures r.0.players.Keys == w.players.Keys
    ensures forall o :: o in w.players && o != pid ==> r.0.players[o] == w.players[o]
    ensures pid in w.players ==> r.0.players[pid] == w.players[pid].(length := r.0.players[pid].length)
    ensures pid !in w.players ==> r.1 == []
    ensures forall g :: g in r.0.foods && g !in w.foods ==> g >= w.nextFoodId
    ensures r.0.nextFoodId >= w.nextFoodId
    ensures forall g :: g in w.foods && g !in r.1 && g < w.nextFoodId ==> g in r.0.foods && r.0.foods[g] == w.foods[g]
    ensures r.0.cfg == w.cfg && r.0.order == w.order && r.0.playerCells == w.playerCells && r.0.playerSpatial == w.playerSpatial
    ensures r.0.tickId == w.tickId
    decreases |cands|
  {
    if cands == [] then (w, [])
    else
      var one := EatOne(w, env, pid, cands[0]);
      var rest := EatAll(one.0, env, pid, cands[1..]);
      (rest.0, if one.1 then [cands[0]] + rest.1 else rest.1)
  }

  lemma {:induction false} EatAllKeeps(w: World, env: Env, pid: PlayerId, cands: seq<FoodId>)
    requires Registry(w)
    ensures Registry(EatAll(w, env, pid, cands).0)
    decreases |cands|
  {
    if cands != [] {
      EatOneKeeps(w, env, pid, cands[0]);
      EatAllKeeps(EatOne(w, env, pid, cands[0]).0, env, pid, cands[1..]);
    }
  }

  /** Over distinct candidates, each food is eaten at most once. */
  lemma {:induction false} EatAllDistinct(w: World, env: Env, pid: PlayerId, cands: seq<FoodId>)
    requires Distinct(cands)
    ensures Distinct(EatAll(w, env, pid, cands).1)
    decreases |cands|
  {
    if cands != [] {
      var c := cands[0];
      var one := EatOne(w, env, pid, c);
      var rest := EatAll(one.0, env, pid, cands[1..]);
      DistinctSplit(cands);
      EatAllDistinct(one.0, env, pid, cands[1..]);
      if one.1 {
        DistinctCons(c, rest.1);
      }
      assert EatAll(w, env, pid, cands) == (rest.0, if one.1 then [c] + rest.1 else rest.1);
    }
  }

  /** Over distinct candidates below `nextFoodId`, the loop eats exactly
      the candidates registered and within reach of the player. */
  lemma {:induction false} EatAllEaten(w: World, env: Env, pid: PlayerId, cands: seq<FoodId>)
    requires Distinct(cands) && pid in w.players
    requires forall c :: c in cands ==> c < w.nextFoodId
    ensures forall g :: g in EatAll(w, env, pid, cands).1 <==>
      g in cands && g in w.foods && Reaches(w.cfg, w.players[pid], w.foods[g])
    decreases |cands|
  {
    if cands != [] {
      var c := cands[0];
      var one := EatOne(w, env, pid, c);
      var rest := EatAll(one.0, env, pid, cands[1..]);
      DistinctSplit(cands);
      assert forall x :: x in cands[1..] ==> x in cands;
      EatAllEaten(one.0, env, pid, cands[1..]);
      // foods later in the list are untouched by this iteration
      assert forall g :: g in cands[1..] ==> (g in one.0.foods <==> g in w.foods);
      assert forall g :: g in cands[1..] && g in w.foods ==> one.0.foods[g] == w.foods[g];
      var eaten := EatAll(w, env, pid, cands).1;
      assert eaten == if one.1 then [c] + rest.1 else rest.1;
      forall g
        ensures g in eaten <==> g in cands && g in w.foods && Reaches(w.cfg, w.players[pid], w.foods[g])
      {
        if g == c {
          assert c !in rest.1;
        } else {
          assert g in cands <==> g in cands[1..];
        }
      }
    }
  }

  /** Every food the loop eats is gone from `foods` afterwards. */
  lemma {:induction false} EatAllRemoves(w: World, env: Env, pid: PlayerId, cands: seq<FoodId>)
    requires forall c :: c in cands ==> c < w.nextFoodId
    ensures forall g :: g in EatAll(w, env, pid, cands).1 ==> g !in EatAll(w, env, pid, cands).0.foods
    decreases |cands|
  {
    if cands != [] {
      var c := cands[0];
      var one := EatOne(w, env, pid, c);
      assert forall x :: x in cands[1..] ==> x in cands;
      EatAllRemoves(one.0, env, pid, cands[1..]);
      if one.1 {
        assert c in cands;
        assert c !in one.0.foods;
      }
    }
  }

  /** Over distinct candidates below `nextFoodId`, the player grows by
      exactly the total value of the foods it ate. */
  lemma {:induction false} EatAllGrowth(w: World, env: Env, pid: PlayerId, cands: seq<FoodId>)
    requires Distinct(cands) && pid in w.players
    requires forall c :: c in cands ==> c < w.nextFoodId
    ensures var r := EatAll(w, env, pid, cands);
      r.0.players[pid].length == w.players[pid].length + SumValues(w.foods, r.1)
    decreases |cands|
  {
    if cands != [] {
      var c := cands[0];
      var one := EatOne(w, env, pid, c);
      var rest := EatAll(one.0, env, pid, cands[1..]);
      DistinctSplit(cands);
      assert forall x :: x in cands[1..] ==> x in cands;
      EatAllGrowth(one.0, env, pid, cands[1..]);
      EatAllEaten(one.0, env, pid, cands[1..]);
      assert forall g :: g in rest.1 ==> g in w.foods && one.0.foods[g] == w.foods[g];
      SumValuesFrame(one.0.foods, w.foods, rest.1);
      SumValuesStep(w.foods, c, rest.1, one.1);
      assert EatAll(w, env, pid, cands) == (rest.0, if one.1 then [c] + rest.1 else rest.1);
    }
  }

  lemma SumValuesStep(foods: map<FoodId, Food>, c: FoodId, rest: seq<FoodId>, ate: bool)
    requires ate ==> c in foods
    ensures SumValues(foods, if ate then [c] + rest else rest) == (if ate then foods[c].v else 0.0) + SumValues(foods, rest)
  {
    if ate {
      assert ([c] + rest)[0] == c && ([c] + rest)[1..] == rest;
    }
  }

  /** The food ids the food hash reports around `p`, in visiting order. */
  function Candidates(w: World, p: Player): (cs: seq<FoodId>)
    ensures Distinct(cs)
    ensures forall c :: c in cs ==> c < w.nextFoodId
    ensures forall c :: c in cs <==> c in Query(w.foodSpatial, p.x, p.y, w.cfg.foodPickupRadius) && c < w.nextFoodId
  {
    Ascending(Query(w.foodSpatial, p.x, p.y, w.cfg.foodPickupRadius), 0, w.nextFoodId)
  }

  /** The pickup of one player id: dead and unknown players eat nothing. */
  function PickupFor(w: World, env: Env, pid: PlayerId): (r: (World, seq<FoodId>))
    ensures pid !in w.players || !w.players[pid].alive ==> r == (w, [])
    ensures r.0.players.Keys == w.players.Keys
    ensures forall o :: o in w.players && o != pid ==> r.0.players[o] == w.players[o]
    ensures pid in w.players ==> r.0.players[pid] == w.players[pid].(length := r.0.players[pid].length)
    ensures r.0.cfg == w.cfg && r.0.order == w.order && r.0.playerCells == w.playerCells && r.0.playerSpatial == w.playerSpatial
    ensures r.0.tickId == w.tickId
    ensures forall g :: g in r.0.foods && g !in w.foods ==> g >= w.nextFoodId
    ensures r.0.nextFoodId >= w.nextFoodId
  {
    if pid !in w.players || !w.players[pid].alive then (w, [])
    else EatAll(w, env, pid, Candidates(w, w.players[pid]))
  }

  /** The broad phase misses nothing: every registered food within reach of
      a player is among its candidates. */
  lemma CandidatesComplete(w: World, p: Player)
    requires FoodsIndexed(w) && w.cfg.foodPickupRadius >= 0.0
    ensures forall g :: g in w.foods && Reaches(w.cfg, p, w.foods[g]) ==> g in Candidates(w, p)
  {
    forall g | g in w.foods && Reaches(w.cfg, p, w.foods[g]) ensures g in Candidates(w, p) {
      var f := w.foods[g];
      TracksBucket(w.foodSpatial, w.foodCells);
      QuerySoundCircle(w.foodSpatial, p.x, p.y, w.cfg.foodPickupRadius, g, f.x, f.y);
    }
  }

  /** A living player eats exactly the registered foods within reach of its
      head, each once, and they are gone afterwards. */
  lemma PickupForEaten(w: World, env: Env, pid: PlayerId)
    requires Registry(w) && w.cfg.foodPickupRadius >= 0.0
    requires pid in w.players && w.players[pid].alive
    ensures var r := PickupFor(w, env, pid);
      && Distinct(r.1)
      && (forall g :: g in r.1 <==> g in w.foods && Reaches(w.cfg, w.players[pid], w.foods[g]))
      && (forall g :: g in r.1 ==> g !in r.0.foods)
  {
    var cs := Candidates(w, w.players[pid]);
    CandidatesComplete(w, w.players[pid]);
    EatAllEaten(w, env, pid, cs);
    EatAllDistinct(w, env, pid, cs);
    EatAllRemoves(w, env, pid, cs);
  }

  /** A living player grows by exactly the total value of what it ate;
      every other player, and every food it did not eat, is unchanged. */
  lemma PickupForGrowth(w: World, env: Env, pid: PlayerId)
    requires Registry(w)
    requires pid in w.players && w.players[pid].alive
    ensures var r := PickupFor(w, env, pid);
      && r.0.players[pid].length == w.players[pid].length + SumValues(w.foods, r.1)
      && (forall g :: g in w.foods && g !in r.1 ==> g in r.0.foods && r.0.foods[g] == w.foods[g])
  {
    EatAllGrowth(w, env, pid, Candidates(w, w.players[pid]));
  }

  /** The loop of `stepFoodPickup` over the players in `ids`. */
  function PickupAll(w: World, env: Env, ids: seq<PlayerId>): (r: World)
    ensures r.players.Keys == w.players.Keys
    ensures forall o :: o in w.players ==> r.players[o] == w.players[o].(length := r.players[o].length)
    ensures forall o :: o in w.players && !w.players[o].alive ==> r.players[o] == w.players[o]
    ensures forall o :: o in w.players && o !in ids ==> r.players[o] == w.players[o]
    ensures forall g :: g in r.foods && g !in w.foods ==> g >= w.nextFoodId
    ensures r.nextFoodId >= w.nextFoodId
    ensures r.cfg == w.cfg && r.order == w.order && r.playerCells == w.playerCells && r.playerSpatial == w.playerSpatial
    ensures r.tickId == w.tickId
    decreases |ids|
  {
    if ids == [] then w
    else
      var w1 := PickupFor(w, env, ids[0]).0;
      var r := PickupAll(w1, env, ids[1..]);
      assert forall o :: o in w.players ==> r.players[o] == w.players[o].(length := r.players[o].length) by {
        forall o | o in w.players
          ensures r.players[o] == w.players[o].(length := r.players[o].length)
        {
          if o == ids[0] {
            LengthOnlyTrans(w.players[o], w1.players[o], r.players[o]);
          } else {
            assert w1.players[o] == w.players[o];
          }
        }
      }
      r
  }

  /** Two updates of the length amount to one. */
  lemma LengthOnlyTrans(a: Player, b: Player, c: Player)
    requires b == a.(length := b.length) && c == b.(length := c.length)
    ensures c == a.(length := c.length)
  {
  }

  lemma {:induction false} PickupAllKeeps(w: World, env: Env, ids: seq<PlayerId>)
    requires Registry(w)
    ensures Registry(PickupAll(w, env, ids))
    decreases |ids|
  {
    if ids != [] {
      var pid := ids[0];
      if pid in w.players && w.players[pid].alive {
        EatAllKeeps(w, env, pid, Candidates(w, w.players[pid]));
      }
      PickupAllKeeps(PickupFor(w, env, pid).0, env, ids[1..]);
    }
  }

  lemma {:induction false} PickupAllAppend(w: World, env: Env, a: seq<PlayerId>, b: seq<PlayerId>)
    ensures PickupAll(w, env, a + b) == PickupAll(PickupAll(w, env, a), env, b)
    decreases |a|
  {
    if a == [] {
      assert a + b == b;
    } else {
      var w1 := PickupFor(w, env, a[0]).0;
      assert (a + b)[0] == a[0] && (a + b)[1..] == a[1..] + b;
      assert PickupAll(w, env, a + b) == PickupAll(w1, env, a[1..] + b);
      assert PickupAll(w, env, a) == PickupAll(w1, env, a[1..]);
      PickupAllAppend(w1, env, a[1..], b);
    }
  }

  lemma PickupAllSplit(w: World, env: Env, ids: seq<PlayerId>, k: nat)
    requires k < |ids|
    ensures PickupAll(w, env, ids) ==
      PickupAll(PickupFor(PickupAll(w, env, ids[..k]), env, ids[k]).0, env, ids[k + 1..])
  {
    var after := [ids[k]] + ids[k + 1..];
    assert ids == ids[..k] + after;
    PickupAllAppend(w, env, ids[..k], after);
    assert after[0] == ids[k] && after[1..] == ids[k + 1..];
  }

  /** The growth of the `k`-th player of the loop: it eats exactly the
      registered foods of the world its predecessors left that lie within
      reach of its head, and its final length is its length before the
      loop plus the total value of those foods. */
  lemma PickupGrowthAt(w: World, env: Env, ids: seq<PlayerId>, k: nat)
    requires Registry(w) && w.cfg.foodPickupRadius >= 0.0
    requires Distinct(ids) && k < |ids| && ids[k] in w.players && w.players[ids[k]].alive
    ensures var wk := PickupAll(w, env, ids[..k]);
      var eaten := PickupFor(wk, env, ids[k]).1;
      && (forall g :: g in eaten <==> g in wk.foods && Reaches(w.cfg, w.players[ids[k]], wk.foods[g]))
      && PickupAll(w, env, ids).players[ids[k]].length == w.players[ids[k]].length + SumValues(wk.foods, eaten)
  {
    var pid := ids[k];
    var wk := PickupAll(w, env, ids[..k]);
    var w1 := PickupFor(wk, env, pid).0;
    PickupAllSplit(w, env, ids, k);
    DistinctAt(ids, k);
    assert wk.players[pid] == w.players[pid];
    PickupAllKeeps(w, env, ids[..k]);
    PickupForEaten(wk, env, pid);
    PickupForGrowth(wk, env, pid);
    assert PickupAll(w1, env, ids[k + 1..]).players[pid] == w1.players[pid];
  }

  /** Some living player among `ids` has `f` within reach of its head. */
  ghost predicate ReachedBySome(cfg: Config, players: map<PlayerId, Player>, ids: seq<PlayerId>, f: Food) {
    exists i :: 0 <= i < |ids| && ids[i] in players && players[ids[i]].alive && Reaches(cfg, players[ids[i]], f)
  }

  /** Every food of `before` that is gone or changed in `after` was within
      reach of a living player among `ids`. */
  ghost predicate EatenInReach(cfg: Config, players: map<PlayerId, Player>, ids: seq<PlayerId>,
                               before: map<FoodId, Food>, after: map<FoodId, Food>) {
    forall g :: g in before && !(g in after && after[g] == before[g]) ==> ReachedBySome(cfg, players, ids, before[g])
  }

  /** One turn of the loop followed by the rest: what the first player ate
      was in its reach, the rest is accounted for by the later turns, and
      lengths are all a turn changes about the players. */
  lemma EatenInReachStep(cfg: Config, p0: map<PlayerId, Player>, p1: map<PlayerId, Player>, ids: seq<PlayerId>,
                         f0: map<FoodId, Food>, f1: map<FoodId, Food>, f2: map<FoodId, Food>, eaten: seq<FoodId>)
    requires ids != []
    requires forall o :: o in p1 ==> o in p0 && p1[o] == p0[o].(length := p1[o].length)
    requires forall g :: g in eaten ==> ids[0] in p0 && p0[ids[0]].alive && g in f0 && Reaches(cfg, p0[ids[0]], f0[g])
    requires forall g :: g in f0 && g !in eaten ==> g in f1 && f1[g] == f0[g]
    requires EatenInReach(cfg, p1, ids[1..], f1, f2)
    ensures EatenInReach(cfg, p0, ids, f0, f2)
  {
    forall g | g in f0 && !(g in f2 && f2[g] == f0[g])
      ensures ReachedBySome(cfg, p0, ids, f0[g])
    {
      if g in eaten {
        assert ids[0] in p0 && p0[ids[0]].alive && Reaches(cfg, p0[ids[0]], f0[g]);
      } else {
        var i :| 0 <= i < |ids[1..]| && ids[1..][i] in p1 && p1[ids[1..][i]].alive && Reaches(cfg, p1[ids[1..][i]], f1[g]);
        assert ids[i + 1] == ids[1..][i];
      }
    }
  }

  /** One turn of the loop, in the terms `EatenInReachStep` needs. */
  lemma PickupForFate(w: World, env: Env, pid: PlayerId)
    requires Registry(w) && w.cfg.foodPickupRadius >= 0.0
    ensures var r := PickupFor(w, env, pid);
      && Registry(r.0)
      && (forall g :: g in r.1 ==> pid in w.players && w.players[pid].alive && g in w.foods && Reaches(w.cfg, w.players[pid], w.foods[g]))
      && (forall g :: g in w.foods && g !in r.1 ==> g in r.0.foods && r.0.foods[g] == w.foods[g])
  {
    if pid in w.players && w.players[pid].alive {
      EatAllKeeps(w, env, pid, Candidates(w, w.players[pid]));
      PickupForEaten(w, env, pid);
      PickupForGrowth(w, env, pid);
    }
  }

  /** A turn changes no player but in its length. */
  lemma PickupForLengths(w: World, env: Env, pid: PlayerId)
    ensures var r := PickupFor(w, env, pid);
      forall o :: o in r.0.players ==> o in w.players && r.0.players[o] == w.players[o].(length := r.0.players[o].length)
  {
    var r := PickupFor(w, env, pid);
    forall o | o in r.0.players
      ensures o in w.players && r.0.players[o] == w.players[o].(length := r.0.players[o].length)
    {
      assert o in w.players;
    }
  }

  /** What the loop does to the foods: a food that is gone or changed was
      within reach of a living listed player. */
  lemma {:induction false} PickupAllFoods(w: World, env: Env, ids: seq<PlayerId>)
    requires Registry(w) && w.cfg.foodPickupRadius >= 0.0
    ensures EatenInReach(w.cfg, w.players, ids, w.foods, PickupAll(w, env, ids).foods)
    decreases |ids|
  {
    if ids != [] {
      var step := PickupFor(w, env, ids[0]);
      PickupForFate(w, env, ids[0]);
      PickupForLengths(w, env, ids[0]);
      PickupAllFoods(step.0, env, ids[1..]);
      EatenInReachStep(w.cfg, w.players, step.0.players, ids, w.foods, step.0.foods, PickupAll(step.0, env, ids[1..]).foods, step.1);
    }
  }

  /** `stepFoodPickup()`. */
  function StepFoodPickup(w: World, env: Env): (r: World)
    ensures r.players.Keys == w.players.Keys
    ensures forall o :: o in w.players ==> r.players[o] == w.players[o].(length := r.players[o].length)
    ensures forall o :: o in w.players && !w.players[o].alive ==> r.players[o] == w.players[o]
    ensures r.cfg == w.cfg && r.order == w.order && r.playerCells == w.playerCells && r.playerSpatial == w.playerSpatial
    ensures r.tickId == w.tickId
    ensures forall g :: g in r.foods && g !in w.foods ==> g >= w.nextFoodId
    ensures r.nextFoodId >= w.nextFoodId
  {
    PickupAll(w, env, w.order)
  }
}
