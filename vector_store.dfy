/**
 * The vector database, reduced to what the engine relies on: one named
 * collection that either exists or not, whose points are addressed by id
 * and overwritten by id on upsert, and a ranking the database computes
 * (approximate cosine nearest neighbours) that is left opaque.
 */
module VectorIndex {
  import opened Embedding

  datatype Payload = Payload(pdfId: string, pageNum: int, text: string, imagePath: string)

  /** A stored point: an id, one vector under each of the names "text" and "image", and a payload. */
  datatype Point = Point(id: string, textVector: Vector, imageVector: Vector, payload: Payload)

  /** A similarity query on one named vector field. */
  datatype Query = Query(using: string, vector: Vector, limit: int)

  /** A ranked hit as the database returns it. */
  datatype Hit = Hit(id: string, payload: Payload, score: real)

  datatype Option<T> = None | Some(value: T)

  /** Everything observable about the collection. */
  datatype StoreState = StoreState(hasCollection: bool, textSize: nat, imageSize: nat, points: map<string, Point>)

  /** The ids of a list of points. */
  function Ids(pts: seq<Point>): set<string>
    decreases |pts|
  {
    if pts == [] then {} else {pts[0].id} + Ids(pts[1..])
  }

  /** Upsert: each point in turn is written under its id, replacing what was there. */
  function Upsert(m: map<string, Point>, pts: seq<Point>): (r: map<string, Point>)
    ensures r.Keys == m.Keys + Ids(pts)
    decreases |pts|
  {
    if pts == [] then m else Upsert(m[pts[0].id := pts[0]], pts[1..])
  }

  /** Upserting two lists one after the other is upserting their concatenation. */
  lemma {:induction false} UpsertAppend(m: map<string, Point>, a: seq<Point>, b: seq<Point>)
    ensures Upsert(m, a + b) == Upsert(Upsert(m, a), b)
    decreases |a|
  {
    if a != [] {
      var m' := m[a[0].id := a[0]];
      assert (a + b)[0] == a[0];
      assert (a + b)[1..] == a[1..] + b;
      calc {
        Upsert(m, a + b);
        Upsert(m', a[1..] + b);
        { UpsertAppend(m', a[1..], b); }
        Upsert(Upsert(m', a[1..]), b);
        Upsert(Upsert(m, a), b);
      }
    } else {
      assert a + b == b;
    }
  }

  /** Some point of `pts` carries `id`. */
  predicate HasId(pts: seq<Point>, id: string) {
    exists k :: 0 <= k < |pts| && pts[k].id == id
  }

  /** Upsert keeps every id already present and adds exactly the ids of the new points. */
  lemma {:induction false} UpsertKeys(m: map<string, Point>, pts: seq<Point>)
    ensures forall id :: id in Upsert(m, pts) <==> id in m || HasId(pts, id)
    decreases |pts|
  {
    if pts != [] {
      var rest := pts[1..];
      UpsertKeys(m[pts[0].id := pts[0]], rest);
      forall id | HasId(rest, id)
        ensures HasId(pts, id)
      {
        var k :| 0 <= k < |rest| && rest[k].id == id;
        assert pts[k + 1].id == id;
      }
      forall id | HasId(pts, id) && id != pts[0].id
        ensures HasId(rest, id)
      {
        var k :| 0 <= k < |pts| && pts[k].id == id;
        assert rest[k - 1].id == id;
      }
    }
  }

  /** An id that none of the new points carries keeps its old entry (or its absence). */
  lemma {:induction false} UpsertUntouched(m: map<string, Point>, pts: seq<Point>, id: string)
    requires forall k :: 0 <= k < |pts| ==> pts[k].id != id
    ensures id in Upsert(m, pts) <==> id in m
    ensures id in m ==> Upsert(m, pts)[id] == m[id]
    decreases |pts|
  {
    if pts != [] {
      UpsertUntouched(m[pts[0].id := pts[0]], pts[1..], id);
    }
  }

  /** The last point written under an id is the one stored under it. */
  lemma {:induction false} UpsertLastWins(m: map<string, Point>, pts: seq<Point>, j: nat)
    requires j < |pts|
    requires forall k :: j < k < |pts| ==> pts[k].id != pts[j].id
    ensures pts[j].id in Upsert(m, pts)
    ensures Upsert(m, pts)[pts[j].id] == pts[j]
    decreases |pts|
  {
    if j == 0 {
      UpsertUntouched(m[pts[0].id := pts[0]], pts[1..], pts[0].id);
    } else {
      UpsertLastWins(m[pts[0].id := pts[0]], pts[1..], j - 1);
    }
  }

  /** Whatever holds of every old entry and every new point holds of every entry afterwards. */
  lemma {:induction false} UpsertPreserves(m: map<string, Point>, pts: seq<Point>, p: Point -> bool)
    requires forall id :: id in m ==> p(m[id])
    requires forall k :: 0 <= k < |pts| ==> p(pts[k])
    ensures forall id :: id in Upsert(m, pts) ==> p(Upsert(m, pts)[id])
    decreases |pts|
  {
    if pts != [] {
      UpsertPreserves(m[pts[0].id := pts[0]], pts[1..], p);
    }
  }

  /** The state a create-if-absent call leaves behind. */
  function AfterEnsure(s: StoreState, textSize: nat, imageSize: nat): (t: StoreState)
    ensures t.hasCollection
    ensures s.hasCollection ==> t == s
    ensures !s.hasCollection ==> t.points == map[] && t.textSize == textSize && t.imageSize == imageSize
  {
    if s.hasCollection then s else StoreState(true, textSize, imageSize, map[])
  }

  /** Create-if-absent is idempotent. */
  lemma EnsureIdempotent(s: StoreState, textSize: nat, imageSize: nat)
    ensures AfterEnsure(AfterEnsure(s, textSize, imageSize), textSize, imageSize) == AfterEnsure(s, textSize, imageSize)
  {
  }

  class VectorStore {
    /** The database's ranking of the points for a query, best first. */
    const rank: (map<string, Point>, Query) -> seq<Hit>

    var hasCollection: bool
    var textSize: nat
    var imageSize: nat
    var points: map<string, Point>

    ghost predicate Valid()
      reads this
    {
      !hasCollection ==> points == map[]
    }

    function State(): StoreState
      reads this
    {
      StoreState(hasCollection, textSize, imageSize, points)
    }

    /** A database server on which the collection has not been created. */
    constructor (rank: (map<string, Point>, Query) -> seq<Hit>)
      ensures Valid() && this.rank == rank
      ensures !hasCollection && points == map[]
    {
      this.rank := rank;
      hasCollection := false;
      textSize, imageSize := 0, 0;
      points := map[];
    }

    method CollectionExists() returns (present: bool)
      ensures present == hasCollection
    {
      present := hasCollection;
    }

    /** Creating a collection that already exists is refused and changes nothing. */
    method CreateCollection(textSize: nat, imageSize: nat) returns (ok: bool)
      requires Valid()
      modifies this
      ensures Valid()
      ensures ok == !old(hasCollection)
      ensures State() == if ok then StoreState(true, textSize, imageSize, map[]) else old(State())
    {
      ok := !hasCollection;
      if ok {
        hasCollection := true;
        this.textSize, this.imageSize := textSize, imageSize;
        points := map[];
      }
    }

    /** Writes the points by id; refused, changing nothing, when there is no collection. */
    method UpsertPoints(pts: seq<Point>) returns (ok: bool)
      requires Valid()
      modifies this
      ensures Valid()
      ensures ok == old(hasCollection)
      ensures State() == if ok then old(State()).(points := Upsert(old(points), pts)) else old(State())
    {
      ok := hasCollection;
      if ok {
        points := Upsert(points, pts);
      }
    }

    /** The database's ranked hits for `q`; refused when there is no collection. */
    method Search(q: Query) returns (hits: Option<seq<Hit>>)
      ensures hits == if hasCollection then Some(rank(points, q)) else None
    {
      if hasCollection {
        hits := Some(rank(points, q));
      } else {
        hits := None;
      }
    }
  }
}
