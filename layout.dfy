/**
 * The deterministic layout of the galaxy (frontend/src/App.jsx, `Galaxy`):
 * each fetched record keeps its fields and gains a position computed from
 * its id alone. `Math.sin` and `Math.cos` are parameters of the model;
 * coordinates are reals.
 */
module Layout {
  import opened Records

  datatype Vec3 = Vec3(x: real, y: real, z: real)

  /** The square of the Euclidean distance. */
  function SqDist(p: Vec3, q: Vec3): real
  {
    (p.x - q.x) * (p.x - q.x) + (p.y - q.y) * (p.y - q.y) + (p.z - q.z) * (p.z - q.z)
  }

  /** A record placed in space: the fetched fields and the derived position. */
  datatype Star = Star(memory: Memory, position: Vec3)

  /** The position of the record with id `id`: (6 sin(123.45 id), 4 cos(67.89 id), 6 sin(91.23 id)). */
  function PositionFor(sin: real -> real, cos: real -> real, id: int): (p: Vec3)
    ensures UnitBounded(sin) && UnitBounded(cos) ==> InBox(p)
  {
    var t := id as real;
    Vec3(sin(t * 123.45) * 6.0, cos(t * 67.89) * 4.0, sin(t * 91.23) * 6.0)
  }

  /** `f` takes its values in [-1, 1], as sine and cosine do. */
  ghost predicate UnitBounded(f: real -> real)
  {
    forall t :: -1.0 <= f(t) <= 1.0
  }

  /** The box [-6, 6] x [-4, 4] x [-6, 6] that the scale factors 6, 4 and 6 allow. */
  predicate InBox(p: Vec3)
  {
    -6.0 <= p.x <= 6.0 && -4.0 <= p.y <= 4.0 && -6.0 <= p.z <= 6.0
  }

  /**
   * `data.map(mem => ({ ...mem, position }))`: same length, same records in
   * the same order, and a position that depends on the id only.
   */
  function Place(sin: real -> real, cos: real -> real, data: seq<Memory>): (stars: seq<Star>)
    ensures |stars| == |data|
    ensures forall i :: 0 <= i < |data| ==> stars[i].memory == data[i]
    ensures forall i :: 0 <= i < |data| ==> stars[i].position == PositionFor(sin, cos, data[i].id)
    ensures forall i, j :: 0 <= i < |data| && 0 <= j < |data| && data[i].id == data[j].id ==>
      stars[i].position == stars[j].position
  {
    seq(|data|, i requires 0 <= i < |data| => Star(data[i], PositionFor(sin, cos, data[i].id)))
  }

  /** With bounded trigonometry every placed star lies in the box. */
  lemma PlacedInBox(sin: real -> real, cos: real -> real, data: seq<Memory>)
    requires UnitBounded(sin) && UnitBounded(cos)
    ensures forall i :: 0 <= i < |data| ==> InBox(Place(sin, cos, data)[i].position)
  {
  }

  /**
   * Recomputing the layout of another list with the same ids in the same
   * order puts the stars at the same places: positions do not depend on
   * texts, categories or fetch history.
   */
  lemma PlaceDependsOnIdsOnly(sin: real -> real, cos: real -> real, a: seq<Memory>, b: seq<Memory>)
    requires |a| == |b| && forall i :: 0 <= i < |a| ==> a[i].id == b[i].id
    ensures forall i :: 0 <= i < |a| ==> Place(sin, cos, a)[i].position == Place(sin, cos, b)[i].position
  {
  }
}
