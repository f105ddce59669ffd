/** The player registry of `World`: `addPlayer`, `removePlayer`, `respawn`
    and `handleInput`. A player record handed to `respawn` or `handleInput`
    is named here by its id; an id that is no longer registered stands for a
    record the world has dropped, whose mutation the world never sees. */
module PlayerRegistry {
  import opened Wrappers
  import opened Numeric
  import opened GameConfig
  import opened Environment
  import opened Spatial
  import opened WorldState

  /** The fresh record `addPlayer` registers, on draws `n`, `n+1`, `n+2`. */
  function NewPlayer(cfg: Config, env: Env, n: nat, id: PlayerId, name: string, skin: string): (p: Player)
    ensures p.id == id && p.name == name
    ensures skin != "" ==> p.skin == skin
    ensures skin == "" ==> p.skin == "default"
    ensures cfg.Valid() ==> InArena(cfg, p.x, p.y)
    ensures 0.0 <= p.angle <= 2.0 * Pi
    ensures p.alive && !p.boost && p.path == []
    ensures p.length == cfg.baseLength && p.r == cfg.headRadius
    ensures p.lastDrop == 0 && p.lastInputTs == 0
  {
    Player(
      id, name, if skin == "" then "default" else skin,
      Rnd(env, n, 0.0, cfg.width), Rnd(env, n + 1, 0.0, cfg.height), Rnd(env, n + 2, 0.0, 2.0 * Pi),
      cfg.baseLength, true, false, [], 0, 0, cfg.headRadius)
  }

  /** `addPlayer(ws, name, skin)`. The id is the fresh UUID the source draws;
      it is assumed not to collide with a registered one. */
  function AddPlayer(w: World, env: Env, id: PlayerId, name: string, skin: string): (r: World)
    requires id !in w.players
    ensures r.players.Keys == w.players.Keys + {id}
    ensures r.players[id] == NewPlayer(w.cfg, env, w.draws, id, name, skin)
    ensures forall o :: o in w.players ==> r.players[o] == w.players[o]
    ensures r.order == w.order + [id]
    ensures id in r.playerCells && id in Bucket(r.playerSpatial, r.playerCells[id])
    ensures r.playerCells[id] == Key(w.playerSpatial.cellSize, r.players[id].x, r.players[id].y)
    ensures SameFoodSide(w, r) && r.draws == w.draws + 3
  {
    var p := NewPlayer(w.cfg, env, w.draws, id, name, skin);
    var (h, k) := Add(w.playerSpatial, id, p.x, p.y);
    w.(
      players := w.players[id := p],
      order := w.order + [id],
      playerSpatial := h,
      playerCells := w.playerCells[id := k],
      draws := w.draws + 3)
  }

  /** A new player is registered consistently; since it is indexed at its own
      position, recorded cells stay current. */
  lemma AddPlayerKeeps(w: World, env: Env, id: PlayerId, name: string, skin: string)
    requires Registry(w) && id !in w.players
    ensures Registry(AddPlayer(w, env, id, name, skin))
    ensures CellsCurrent(w) ==> CellsCurrent(AddPlayer(w, env, id, name, skin))
  {
    var r := AddPlayer(w, env, id, name, skin);
    AddPlayerIndexed(w, env, id, name, skin);
    assert CellsCurrent(w) ==> CellsCurrent(r) by {
      if CellsCurrent(w) {
        AddPlayerCurrent(w, env, id, name, skin);
      }
    }
    assert id !in w.order;
    DistinctSnoc(w.order, id);
    assert forall o :: o in r.order <==> o in w.order || o == id;
    assert OrderValid(r);
    FoodSideKeeps(w, r);
  }

  lemma AddPlayerCurrent(w: World, env: Env, id: PlayerId, name: string, skin: string)
    requires PlayersIndexed(w) && CellsCurrent(w) && id !in w.players
    requires PlayersIndexed(AddPlayer(w, env, id, name, skin))
    ensures CellsCurrent(AddPlayer(w, env, id, name, skin))
  {
  }

  lemma AddPlayerIndexed(w: World, env: Env, id: PlayerId, name: string, skin: string)
    requires PlayersIndexed(w) && id !in w.players
    ensures PlayersIndexed(AddPlayer(w, env, id, name, skin))
  {
    var r := AddPlayer(w, env, id, name, skin);
    var p := r.players[id];
    TracksAdd(w.playerSpatial, w.playerCells, id, p.x, p.y);
    assert r.playerSpatial == Add(w.playerSpatial, id, p.x, p.y).0;
  }

  /** `removePlayer(id)`. */
  function RemovePlayer(w: World, id: PlayerId): (r: World)
    ensures id !in w.players ==> r == w
    ensures id in w.players ==> id !in r.players && id !in r.playerCells
    ensures r.players.Keys == w.players.Keys - {id}
    ensures forall o :: o in w.players && o != id ==> r.players[o] == w.players[o]
    ensures SameFoodSide(w, r) && r.draws == w.draws
    ensures id in w.players ==> r.order == Without(w.order, id) && r.playerCells == w.playerCells - {id}
    ensures id in w.players && id in w.playerCells ==>
      Bucket(r.playerSpatial, w.playerCells[id]) == Bucket(w.playerSpatial, w.playerCells[id]) - {id}
    ensures forall k :: id !in w.playerCells || k != w.playerCells[id] ==> Bucket(r.playerSpatial, k) == Bucket(w.playerSpatial, k)
    ensures r.playerSpatial.cellSize == w.playerSpatial.cellSize
  {
    if id !in w.players then w
    else
      w.(
        playerSpatial := RemoveKey(w.playerSpatial, id, Get(w.playerCells, id)),
        playerCells := w.playerCells - {id},
        players := w.players - {id},
        order := Without(w.order, id))
  }

  /** Removal keeps the registry, leaves no trace of the id in any bucket,
      and keeps recorded cells current. */
  lemma RemovePlayerKeeps(w: World, id: PlayerId)
    requires Registry(w)
    ensures Registry(RemovePlayer(w, id))
    ensures forall k :: id !in Bucket(RemovePlayer(w, id).playerSpatial, k)
    ensures CellsCurrent(w) ==> CellsCurrent(RemovePlayer(w, id))
  {
    if id in w.players {
      TracksRemove(w.playerSpatial, w.playerCells, id);
    } else {
      assert forall k :: id !in Bucket(w.playerSpatial, k);
    }
  }

  /** `respawn(p)`: three draws place and orient the player again and its
      body is reset. The source neither checks whether the player is dead nor
      re-indexes it: its recorded cell stays stale until the next rebuild. */
  function Respawn(w: World, env: Env, id: PlayerId): (r: World)
    ensures r.draws == w.draws + 3
    ensures r.players.Keys == w.players.Keys
    ensures forall o :: o in w.players && o != id ==> r.players[o] == w.players[o]
    ensures id in w.players ==>
      var p := w.players[id];
      var q := r.players[id];
      && q.alive && !q.boost && q.path == []
      && q.length == w.cfg.baseLength && q.r == w.cfg.headRadius
      && (w.cfg.Valid() ==> InArena(w.cfg, q.x, q.y))
      && 0.0 <= q.angle <= 2.0 * Pi
      && q.id == p.id && q.name == p.name && q.skin == p.skin
      && q.lastDrop == p.lastDrop && q.lastInputTs == p.lastInputTs
    ensures r.order == w.order && r.playerCells == w.playerCells && r.playerSpatial == w.playerSpatial
    ensures SameFoodSide(w, r)
  {
    var x := Rnd(env, w.draws, 0.0, w.cfg.width);
    var y := Rnd(env, w.draws + 1, 0.0, w.cfg.height);
    var a := Rnd(env, w.draws + 2, 0.0, 2.0 * Pi);
    var w1 := w.(draws := w.draws + 3);
    if id !in w.players then w1
    else
      var p := w.players[id];
      var q := p.(x := x, y := y, angle := a, length := w.cfg.baseLength, alive := true, boost := false, path := [], r := w.cfg.headRadius);
      SetPlayer(w1, id, q)
  }

  /** Respawning keeps the registry, although the player's recorded cell
      goes stale until the next rebuild. */
  lemma RespawnKeeps(w: World, env: Env, id: PlayerId)
    requires Registry(w)
    ensures Registry(Respawn(w, env, id))
  {
    var r := Respawn(w, env, id);
    FoodSideKeeps(w, r);
    assert PlayersIndexed(r) && OrderValid(r);
  }

  /** The turn rule of `handleInput`: the heading moves toward `target` by the
      raw difference, clamped to `maxTurn` either way. */
  function TurnToward(heading: real, target: real, maxTurn: real): (a: real)
    ensures maxTurn >= 0.0 ==> heading - maxTurn <= a <= heading + maxTurn
    ensures heading - maxTurn <= target <= heading + maxTurn ==> a == target
    ensures target < heading - maxTurn ==> a == heading - maxTurn
    ensures maxTurn >= 0.0 && target > heading + maxTurn ==> a == heading + maxTurn
  {
    heading + Clamp(target - heading, -maxTurn, maxTurn)
  }

  /** `k` whole turns, in radians. */
  function Turns(k: int): real {
    2.0 * Pi * k as real
  }

  /** Angles `a` and `b` name the same direction. */
  ghost predicate SameDirection(a: real, b: real) {
    exists k: int :: a == b + Turns(k)
  }

  /** `d` wrapped into `(-Pi, Pi]` by a whole number of turns. */
  function Wrap(d: real): (e: real)
    ensures -Pi < e <= Pi
    ensures SameDirection(e, d)
  {
    var m := CellIndex(2.0 * Pi, Pi - d);
    d + Turns(m)
  }

  /** The turn rule `handleInput` evidently intends: the heading moves
      toward `target` the short way round, by the wrapped difference
      clamped to `maxTurn` either way. */
  function TurnShortest(heading: real, target: real, maxTurn: real): (a: real)
    ensures maxTurn >= 0.0 ==> heading - maxTurn <= a <= heading + maxTurn
    ensures Wrap(target - heading) > 0.0 && maxTurn >= 0.0 ==> a >= heading
    ensures Wrap(target - heading) < 0.0 && maxTurn >= 0.0 ==> a <= heading
    ensures -maxTurn <= Wrap(target - heading) <= maxTurn ==> SameDirection(a, target)
  {
    var e := Wrap(target - heading);
    var a := heading + Clamp(e, -maxTurn, maxTurn);
    assert -maxTurn <= e <= maxTurn ==> SameDirection(a, target) by {
      if -maxTurn <= e <= maxTurn {
        var k :| e == target - heading + Turns(k);
        assert a == target + Turns(k);
      }
    }
    a
  }

  /** The raw rule turns the long way round: a heading of `6.2` aimed at
      `0`, which lies `0.083` ahead the short way, turns back by the full
      `0.18`, while the wrapped rule turns forward. */
  lemma TurnTowardLongWay()
    ensures Wrap(0.0 - 6.2) > 0.0
    ensures TurnToward(6.2, 0.0, 0.18) < 6.2
    ensures TurnShortest(6.2, 0.0, 0.18) > 6.2
  {
    assert Wrap(0.0 - 6.2) == 0.0 - 6.2 + Turns(1) by {
      assert CellIndex(2.0 * Pi, Pi + 6.2) == 1;
    }
  }

  /** An accepted input: the time stamp moves, a supplied angle steers by
      the raw-difference rule of the source and a supplied boost flag is
      taken as is; nothing else changes. */
  function ApplyInput(p: Player, now: int, maxTurn: real, angle: Option<real>, boost: Option<bool>): (q: Player)
    ensures q == p.(lastInputTs := now, angle := q.angle, boost := q.boost)
    ensures angle.None? ==> q.angle == p.angle
    ensures angle.Some? ==> q.angle == TurnToward(p.angle, angle.value, maxTurn)
    ensures boost.None? ==> q.boost == p.boost
    ensures boost.Some? ==> q.boost == boost.value
  {
    var a := match angle
      case Some(t) => TurnToward(p.angle, t, maxTurn)
      case None => p.angle;
    var b := match boost
      case Some(v) => v
      case None => p.boost;
    p.(lastInputTs := now, angle := a, boost := b)
  }

  /** The accepted input as `handleInput` evidently intends it: the same
      record, except that a supplied angle steers the short way round. */
  function ApplyInputCorrected(p: Player, now: int, maxTurn: real, angle: Option<real>, boost: Option<bool>): (q: Player)
    ensures q == ApplyInput(p, now, maxTurn, angle, boost).(angle := q.angle)
    ensures angle.None? ==> q.angle == p.angle
    ensures angle.Some? ==> q.angle == TurnShortest(p.angle, angle.value, maxTurn)
  {
    var q := ApplyInput(p, now, maxTurn, angle, boost);
    match angle
    case Some(t) => q.(angle := TurnShortest(p.angle, t, maxTurn))
    case None => q
  }

  /** The two rules agree whenever the raw difference already lies in
      `(-Pi, Pi]`; the as-written rule goes wrong only across the seam. */
  lemma TurnRulesAgree(heading: real, target: real, maxTurn: real)
    requires -Pi < target - heading <= Pi
    ensures TurnShortest(heading, target, maxTurn) == TurnToward(heading, target, maxTurn)
  {
    var d := target - heading;
    CellIndexUnique(2.0 * Pi, Pi - d, 0);
    assert Wrap(d) == d;
  }

  /** `handleInput(p, data)` at wall-clock time `now`: ignored within
      `inputMinIntervalMs` of the last accepted input. */
  function HandleInput(w: World, id: PlayerId, now: int, angle: Option<real>, boost: Option<bool>): (r: World)
    ensures id !in w.players || now - w.players[id].lastInputTs < w.cfg.inputMinIntervalMs ==> r == w
    ensures r.players.Keys == w.players.Keys
    ensures id in w.players && now - w.players[id].lastInputTs >= w.cfg.inputMinIntervalMs ==>
      r.players[id] == ApplyInput(w.players[id], now, w.cfg.maxTurn, angle, boost)
    ensures forall o :: o in w.players && o != id ==> r.players[o] == w.players[o]
    ensures SameFoodSide(w, r) && r.draws == w.draws
    ensures r.order == w.order && r.playerCells == w.playerCells && r.playerSpatial == w.playerSpatial
  {
    if id !in w.players then w
    else
      var p := w.players[id];
      if now - p.lastInputTs < w.cfg.inputMinIntervalMs then w
      else SetPlayer(w, id, ApplyInput(p, now, w.cfg.maxTurn, angle, boost))
  }

  /** Input keeps the registry and, since it moves nobody, current cells. */
  lemma HandleInputKeeps(w: World, id: PlayerId, now: int, angle: Option<real>, boost: Option<bool>)
    requires Registry(w)
    ensures Registry(HandleInput(w, id, now, angle, boost))
    ensures CellsCurrent(w) ==> CellsCurrent(HandleInput(w, id, now, angle, boost))
  {
    if id in w.players && now - w.players[id].lastInputTs >= w.cfg.inputMinIntervalMs {
      SetPlayerKeeps(w, id, ApplyInput(w.players[id], now, w.cfg.maxTurn, angle, boost));
    }
  }
}
