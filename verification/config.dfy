/** The world's configuration record. `Default` holds the literal the server
    builds the world with (`src/server.js`); every operation takes the
    configuration from the world it is given. */
module GameConfig {
  import opened Numeric

  /** The collision sampling stride; the sampling loop only ends when it is positive. */
  type Stride = n: nat | n >= 1 witness 1

  datatype Config = Config(
    width: real,
    height: real,
    sectorSize: PosReal,
    initialFood: nat,
    targetFood: nat,
    foodSpawnChance: real,
    foodPickupRadius: real,
    deathScatterRadius: real,
    headRadius: real,
    bodyRadius: real,
    baseLength: real,
    minLength: real,
    baseSpeed: real,
    boostMultiplier: real,
    boostLengthDrain: real,
    boostDropIntervalMs: int,
    pathPointSpacing: real,
    maxPathPoints: nat,
    segmentSpacing: PosReal,
    collisionQueryRadius: real,
    segmentSampleStep: Stride,
    viewRadius: real,
    maxTurn: real,
    inputMinIntervalMs: int)
  {
    /** The arena is a (possibly degenerate) rectangle, turning is bounded by
        a non-negative amount, and boosting drains rather than feeds. */
    predicate Valid() {
      && width >= 0.0 && height >= 0.0
      && maxTurn >= 0.0
      && boostLengthDrain >= 0.0
    }
  }

  const Default: Config := Config(
    4000.0, 4000.0, 128.0,
    800, 1200, 0.5, 18.0, 80.0,
    8.0, 6.0, 20.0, 10.0, 160.0, 1.7, 3.0, 120,
    6.0, 1200, 6.0, 300.0, 3,
    900.0, 0.18, 10)

  /** The server's configuration meets every assumption the lemmas of this
      model make: it is `Valid`, the pickup, collision and view radii are
      non-negative, and the floor a boost drains to lies below the length a
      player spawns with. */
  lemma DefaultValid()
    ensures Default.Valid()
    ensures Default.foodPickupRadius >= 0.0 && Default.collisionQueryRadius >= 0.0 && Default.viewRadius >= 0.0
    ensures Default.minLength < Default.baseLength
  {
  }
}
