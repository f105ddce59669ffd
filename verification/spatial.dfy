/** The uniform-grid spatial hash of `src/spatial.js`: points are mapped to
    integer cells by floor division, every cell keeps a bucket of ids, empty
    buckets are dropped, and circle queries scan every cell of the circle's
    bounding box. The source's string key `cx + ":" + cy` is the pair
    `(cx, cy)` here. */
module Spatial {
  import opened Wrappers
  import opened Numeric

  type Cell = (int, int)

  datatype SpatialHash<Id(==)> = SpatialHash(cellSize: PosReal, cells: map<Cell, set<Id>>)

  /** A fresh hash, as built by the constructor. */
  function Empty<Id(==)>(cellSize: PosReal): (h: SpatialHash<Id>)
    ensures h.cellSize == cellSize && NoEmptyBuckets(h)
    ensures forall k :: k !in h.cells
  {
    SpatialHash(cellSize, map[])
  }

  /** The source never stores an empty bucket. */
  ghost predicate NoEmptyBuckets<Id>(h: SpatialHash<Id>) {
    forall k :: k in h.cells ==> h.cells[k] != {}
  }

  /** The ids stored at `k`, empty when there is no bucket. */
  function Bucket<Id(==)>(h: SpatialHash<Id>, k: Cell): set<Id> {
    if k in h.cells then h.cells[k] else {}
  }

  /** `key(x, y)`: the cell whose square `[cx*c, (cx+1)*c) x [cy*c, (cy+1)*c)`
      holds the point. */
  function Key(c: PosReal, x: real, y: real): (k: Cell)
    ensures k.0 as real <= x / c < (k.0 + 1) as real
    ensures k.1 as real <= y / c < (k.1 + 1) as real
  {
    (CellIndex(c, x), CellIndex(c, y))
  }

  /** The cells the bounding box of the circle `(x, y, r)` touches. */
  ghost predicate InBox(c: PosReal, x: real, y: real, r: real, k: Cell) {
    && CellIndex(c, x - r) <= k.0 <= CellIndex(c, x + r)
    && CellIndex(c, y - r) <= k.1 <= CellIndex(c, y + r)
  }

  /** `keysForAABB(x, y, r)`: the outer loop runs over columns, the inner one
      over rows. */
  function KeysForAABB(c: PosReal, x: real, y: real, r: real): (ks: seq<Cell>)
    ensures forall k :: k in ks <==> InBox(c, x, y, r, k)
  {
    Grid(CellIndex(c, x - r), CellIndex(c, x + r), CellIndex(c, y - r), CellIndex(c, y + r))
  }

  /** Columns `x0..x1`, each listing rows `y0..y1`. */
  function Grid(x0: int, x1: int, y0: int, y1: int): (ks: seq<Cell>)
    ensures forall k :: k in ks <==> x0 <= k.0 <= x1 && y0 <= k.1 <= y1
    ensures x0 <= x1 && y0 <= y1 ==> |ks| == (x1 - x0 + 1) * (y1 - y0 + 1)
    decreases x1 - x0
  {
    if x0 > x1 then [] else Column(x0, y0, y1) + Grid(x0 + 1, x1, y0, y1)
  }

  function Column(cx: int, y0: int, y1: int): (ks: seq<Cell>)
    ensures forall k :: k in ks <==> k.0 == cx && y0 <= k.1 <= y1
    ensures y0 <= y1 ==> |ks| == y1 - y0 + 1
    decreases y1 - y0
  {
    if y0 > y1 then [] else [(cx, y0)] + Column(cx, y0 + 1, y1)
  }

  /** `add(id, x, y)`: returns the updated hash and the key the id went to. */
  function Add<Id(==)>(h: SpatialHash<Id>, id: Id, x: real, y: real): (r: (SpatialHash<Id>, Cell))
    ensures r.1 == Key(h.cellSize, x, y)
    ensures r.0.cellSize == h.cellSize
    ensures r.1 in r.0.cells && r.0.cells[r.1] == Bucket(h, r.1) + {id}
    ensures forall k :: k != r.1 ==> Bucket(r.0, k) == Bucket(h, k) && (k in r.0.cells <==> k in h.cells)
    ensures NoEmptyBuckets(h) ==> NoEmptyBuckets(r.0)
  {
    var k := Key(h.cellSize, x, y);
    (h.(cells := h.cells[k := Bucket(h, k) + {id}]), k)
  }

  /** `removeKey(id, key)`: a missing key (`None`) or a key without a bucket
      leaves the hash as it is; otherwise `id` leaves that bucket, and the
      bucket goes when it becomes empty. */
  function RemoveKey<Id(==)>(h: SpatialHash<Id>, id: Id, key: Option<Cell>): (r: SpatialHash<Id>)
    ensures r.cellSize == h.cellSize
    ensures key.None? || key.value !in h.cells ==> r == h
    ensures key.Some? ==> Bucket(r, key.value) == Bucket(h, key.value) - {id}
    ensures key.Some? && key.value in h.cells ==> (key.value in r.cells <==> h.cells[key.value] - {id} != {})
    ensures forall k :: key != Some(k) ==> Bucket(r, k) == Bucket(h, k) && (k in r.cells <==> k in h.cells)
    ensures NoEmptyBuckets(h) ==> NoEmptyBuckets(r)
  {
    match key
    case None => h
    case Some(k) =>
      if k !in h.cells then h
      else
        var s := h.cells[k] - {id};
        if s == {} then h.(cells := h.cells - {k}) else h.(cells := h.cells[k := s])
  }

  /** The union of the buckets at `ks` (`query`'s accumulation loop). */
  function Gather<Id(==,!new)>(cells: map<Cell, set<Id>>, ks: seq<Cell>): (res: set<Id>)
    ensures forall id :: id in res <==> exists k :: k in ks && k in cells && id in cells[k]
  {
    if ks == [] then {}
    else
      var rest := Gather(cells, ks[1..]);
      assert forall k :: k in ks[1..] ==> k in ks;
      assert forall k :: k in ks ==> k == ks[0] || k in ks[1..];
      (if ks[0] in cells then cells[ks[0]] else {}) + rest
  }

  /** `query(x, y, r)`: every id stored in a cell of the bounding box. */
  function Query<Id(==,!new)>(h: SpatialHash<Id>, x: real, y: real, r: real): (res: set<Id>)
    ensures forall id :: id in res <==> exists k :: InBox(h.cellSize, x, y, r, k) && id in Bucket(h, k)
  {
    var ks := KeysForAABB(h.cellSize, x, y, r);
    var res := Gather(h.cells, ks);
    assert forall id :: id in res ==> exists k :: InBox(h.cellSize, x, y, r, k) && id in Bucket(h, k) by {
      forall id | id in res ensures exists k :: InBox(h.cellSize, x, y, r, k) && id in Bucket(h, k) {
        var k :| k in ks && k in h.cells && id in h.cells[k];
        assert InBox(h.cellSize, x, y, r, k) && id in Bucket(h, k);
      }
    }
    res
  }

  /** `recorded` is the side table that says, for every id in the hash, which
      key it was stored under (the world's `playerCells` / `foodCells`). */
  ghost predicate Tracks<Id>(h: SpatialHash<Id>, recorded: map<Id, Cell>) {
    && NoEmptyBuckets(h)
    && (forall id :: id in recorded ==> id in Bucket(h, recorded[id]))
    && (forall k, id :: k in h.cells && id in h.cells[k] ==> id in recorded && recorded[id] == k)
  }

  /** Adding an id that is not yet in its bucket and then removing it with
      the returned key gives back the original hash. */
  lemma AddRemoveRoundTrip<Id>(h: SpatialHash<Id>, id: Id, x: real, y: real)
    requires NoEmptyBuckets(h)
    requires id !in Bucket(h, Key(h.cellSize, x, y))
    ensures RemoveKey(Add(h, id, x, y).0, id, Some(Add(h, id, x, y).1)) == h
  {
    var (h1, k) := Add(h, id, x, y);
    var h2 := RemoveKey(h1, id, Some(k));
    assert h1.cells[k] - {id} == Bucket(h, k);
    forall c | c in h2.cells || c in h.cells
      ensures c in h2.cells && c in h.cells && h2.cells[c] == h.cells[c]
    {
      if c == k {
        assert Bucket(h2, k) == Bucket(h, k);
      }
    }
    assert h2.cells == h.cells;
  }

  /** Broad-phase soundness: an id stored at the key of a point that lies in
      the query circle's bounding box is in the query result. */
  lemma QuerySound<Id(!new)>(h: SpatialHash<Id>, x: real, y: real, r: real, id: Id, px: real, py: real)
    requires id in Bucket(h, Key(h.cellSize, px, py))
    requires x - r <= px <= x + r && y - r <= py <= y + r
    ensures id in Query(h, x, y, r)
  {
    var c := h.cellSize;
    var k := Key(c, px, py);
    CellIndexMonotone(c, x - r, px);
    CellIndexMonotone(c, px, x + r);
    CellIndexMonotone(c, y - r, py);
    CellIndexMonotone(c, py, y + r);
    assert InBox(c, x, y, r, k);
  }

  /** Soundness for the Euclidean circle the callers actually mean. */
  lemma QuerySoundCircle<Id(!new)>(h: SpatialHash<Id>, x: real, y: real, r: real, id: Id, px: real, py: real)
    requires r >= 0.0 && Dist2(x, y, px, py) <= r * r
    requires id in Bucket(h, Key(h.cellSize, px, py))
    ensures id in Query(h, x, y, r)
  {
    Dist2Box(x, y, px, py, r);
    QuerySound(h, x, y, r, id, px, py);
  }

  /** When the side table tracks the hash, an id found by a query was recorded
      under a key of the scanned box. */
  lemma QueryTracked<Id(!new)>(h: SpatialHash<Id>, recorded: map<Id, Cell>, x: real, y: real, r: real, id: Id)
    requires Tracks(h, recorded)
    requires id in Query(h, x, y, r)
    ensures id in recorded && InBox(h.cellSize, x, y, r, recorded[id])
  {
  }

  /** Under a tracking side table, bucket membership is exactly what the
      table records. */
  lemma TracksBucket<Id>(h: SpatialHash<Id>, recorded: map<Id, Cell>)
    requires Tracks(h, recorded)
    ensures forall id, k :: id in Bucket(h, k) <==> id in recorded && recorded[id] == k
  {
  }

  /** Registering a new id keeps the side table in step with the hash. */
  lemma TracksAdd<Id>(h: SpatialHash<Id>, recorded: map<Id, Cell>, id: Id, x: real, y: real)
    requires Tracks(h, recorded) && id !in recorded
    ensures Tracks(Add(h, id, x, y).0, recorded[id := Add(h, id, x, y).1])
  {
  }

  /** Removing an id under its recorded key keeps the side table in step. */
  lemma TracksRemove<Id>(h: SpatialHash<Id>, recorded: map<Id, Cell>, id: Id)
    requires Tracks(h, recorded) && id in recorded
    ensures Tracks(RemoveKey(h, id, Some(recorded[id])), recorded - {id})
    ensures forall k :: id !in Bucket(RemoveKey(h, id, Some(recorded[id])), k)
  {
  }

  /** A hash whose side table is empty holds no bucket at all. */
  lemma TracksNothing<Id>(h: SpatialHash<Id>)
    requires Tracks(h, map[])
    ensures h.cells == map[]
  {
    if h.cells != map[] {
      var k :| k in h.cells;
      assert h.cells[k] != {};
      var id :| id in h.cells[k];
      var none: map<Id, Cell> := map[];
      var recordedThere := id in none;
      assert false;
    }
  }

  /** `removeKey` for every id of `ids` under the key `recorded` names. */
  function RemoveAll<Id(==,!new)>(h: SpatialHash<Id>, recorded: map<Id, Cell>, ids: seq<Id>): (r: SpatialHash<Id>)
    ensures r.cellSize == h.cellSize
    decreases |ids|
  {
    if ids == [] then h else RemoveAll(RemoveKey(h, ids[0], Get(recorded, ids[0])), recorded, ids[1..])
  }

  /** The removal loop only shrinks buckets, takes every listed id out of
      the bucket it is recorded under, and leaves no empty bucket behind. */
  lemma {:induction false} RemoveAllRemoves<Id(!new)>(h: SpatialHash<Id>, recorded: map<Id, Cell>, ids: seq<Id>)
    ensures forall k :: Bucket(RemoveAll(h, recorded, ids), k) <= Bucket(h, k)
    ensures forall id :: id in ids && id in recorded ==> id !in Bucket(RemoveAll(h, recorded, ids), recorded[id])
    ensures NoEmptyBuckets(h) ==> NoEmptyBuckets(RemoveAll(h, recorded, ids))
    decreases |ids|
  {
    if ids != [] {
      var h1 := RemoveKey(h, ids[0], Get(recorded, ids[0]));
      RemoveAllRemoves(h1, recorded, ids[1..]);
      assert forall id :: id in ids <==> id == ids[0] || id in ids[1..];
    }
  }

  ghost predicate Distinct<T>(s: seq<T>) {
    forall i, j :: 0 <= i < j < |s| ==> s[i] != s[j]
  }

  lemma DistinctSplit<T>(s: seq<T>)
    requires Distinct(s) && s != []
    ensures s[0] !in s[1..] && Distinct(s[1..])
  {
  }

  lemma DistinctAt<T>(s: seq<T>, k: nat)
    requires Distinct(s) && k < |s|
    ensures s[k] !in s[..k] && s[k] !in s[k + 1..]
  {
    assert forall i :: 0 <= i < k ==> s[..k][i] == s[i];
    assert forall i :: k + 1 <= i < |s| ==> s[k + 1..][i - (k + 1)] == s[i];
  }

  lemma DistinctSnoc<T>(s: seq<T>, x: T)
    requires Distinct(s) && x !in s
    ensures Distinct(s + [x])
  {
    var t := s + [x];
    forall i, j | 0 <= i < j < |t| ensures t[i] != t[j] {
      assert t[i] == s[i];
      if j < |s| {
        assert t[j] == s[j];
      }
    }
  }

  lemma DistinctCons<T>(x: T, s: seq<T>)
    requires Distinct(s) && x !in s
    ensures Distinct([x] + s)
  {
    var t := [x] + s;
    forall i, j | 0 <= i < j < |t| ensures t[i] != t[j] {
      if i == 0 {
        assert t[j] == s[j - 1];
      } else {
        assert t[i] == s[i - 1] && t[j] == s[j - 1];
      }
    }
  }

  /** Removing every tracked id under its recorded key empties the hash. */
  lemma {:induction false} RemoveAllEmpties<Id(!new)>(h: SpatialHash<Id>, recorded: map<Id, Cell>, live: map<Id, Cell>, ids: seq<Id>)
    requires Tracks(h, live) && Distinct(ids)
    requires forall id :: id in live <==> id in ids
    requires forall id :: id in live ==> id in recorded && recorded[id] == live[id]
    ensures RemoveAll(h, recorded, ids).cells == map[]
    decreases |ids|
  {
    if ids == [] {
      TracksNothing(h);
    } else {
      var id := ids[0];
      TracksRemove(h, live, id);
      var live' := live - {id};
      forall x | x in live' ensures x in ids[1..] {
        var i :| 0 <= i < |ids| && ids[i] == x;
        assert i != 0;
        assert ids[1..][i - 1] == x;
      }
      forall x | x in ids[1..] ensures x in live' {
        var i :| 0 <= i < |ids[1..]| && ids[1..][i] == x;
        assert ids[i + 1] == x;
      }
      RemoveAllEmpties(RemoveKey(h, id, Some(live[id])), recorded, live', ids[1..]);
    }
  }
}
