/**
 * The proximity graph and the record set of the `Galaxy` component
 * (frontend/src/App.jsx): every ordered pair of distinct stars closer than
 * 4 units becomes a line, and the record set is replaced wholesale by each
 * successful fetch of `/galaxy`.
 */
module Galaxy {
  import opened Wrappers
  import opened Records
  import opened Layout

  /** `p.distanceTo(q) < 4`, compared squared: the distance is below 4 exactly when its square is below 16. */
  predicate Close(p: Vec3, q: Vec3)
  {
    SqDist(p, q) < 16.0
  }

  lemma CloseSymmetric(p: Vec3, q: Vec3)
    ensures Close(p, q) <==> Close(q, p)
  {
  }

  /** A connection: the two positions a line is drawn between. */
  type Line = (Vec3, Vec3)

  /** Index pairs (i, j') emitted by the inner loop for j' < j. */
  function RowPairs(stars: seq<Star>, i: nat, j: nat): (ps: seq<(nat, nat)>)
    requires i < |stars| && j <= |stars|
  {
    if j == 0 then []
    else
      var step := if i != j - 1 && Close(stars[i].position, stars[j - 1].position) then [(i, j - 1)] else [];
      RowPairs(stars, i, j - 1) + step
  }

  /** Index pairs emitted by the outer loop for rows i' < i. */
  function PairsUpTo(stars: seq<Star>, i: nat): (ps: seq<(nat, nat)>)
    requires i <= |stars|
  {
    if i == 0 then [] else PairsUpTo(stars, i - 1) + RowPairs(stars, i - 1, |stars|)
  }

  /** All emitted index pairs, in emission order. */
  function ClosePairs(stars: seq<Star>): (ps: seq<(nat, nat)>)
  {
    PairsUpTo(stars, |stars|)
  }

  predicate InRange(stars: seq<Star>, ps: seq<(nat, nat)>)
  {
    forall k :: 0 <= k < |ps| ==> ps[k].0 < |stars| && ps[k].1 < |stars|
  }

  function LineOf(stars: seq<Star>, p: (nat, nat)): Line
    requires p.0 < |stars| && p.1 < |stars|
  {
    (stars[p.0].position, stars[p.1].position)
  }

  function LinesOf(stars: seq<Star>, ps: seq<(nat, nat)>): (lines: seq<Line>)
    requires InRange(stars, ps)
    ensures |lines| == |ps|
    ensures forall k :: 0 <= k < |ps| ==> lines[k] == LineOf(stars, ps[k])
  {
    seq(|ps|, k requires 0 <= k < |ps| => LineOf(stars, ps[k]))
  }

  /** The connections of a record set, as the nested `forEach` builds them. */
  function Connections(stars: seq<Star>): (lines: seq<Line>)
    ensures |lines| == |ClosePairs(stars)|
    ensures forall k :: 0 <= k < |lines| ==> Close(lines[k].0, lines[k].1)
  {
    PairsAreInRange(stars, |stars|);
    ClosePairsAreClose(stars);
    LinesOf(stars, ClosePairs(stars))
  }

  /** Every emitted pair joins two distinct stars that are close. */
  lemma ClosePairsAreClose(stars: seq<Star>)
    ensures forall k :: 0 <= k < |ClosePairs(stars)| ==>
      var p := ClosePairs(stars)[k];
      p.0 < |stars| && p.1 < |stars| && p.0 != p.1 && Close(stars[p.0].position, stars[p.1].position)
  {
    var ps := ClosePairs(stars);
    forall k | 0 <= k < |ps|
      ensures ps[k].0 < |stars| && ps[k].1 < |stars| && ps[k].0 != ps[k].1
      ensures Close(stars[ps[k].0].position, stars[ps[k].1].position)
    {
      ClosePairsExact(stars, ps[k].0, ps[k].1);
      assert ps[k] in ps;
    }
  }

  lemma {:induction false} RowMembership(stars: seq<Star>, i: nat, j: nat, a: nat, b: nat)
    requires i < |stars| && j <= |stars|
    ensures (a, b) in RowPairs(stars, i, j) <==>
      a == i && b < j && a != b && Close(stars[a].position, stars[b].position)
  {
    if j > 0 {
      RowMembership(stars, i, j - 1, a, b);
    }
  }

  lemma {:induction false} PairsUpToMembership(stars: seq<Star>, i: nat, a: nat, b: nat)
    requires i <= |stars|
    ensures (a, b) in PairsUpTo(stars, i) <==>
      a < i && b < |stars| && a != b && Close(stars[a].position, stars[b].position)
  {
    if i > 0 {
      PairsUpToMembership(stars, i - 1, a, b);
      RowMembership(stars, i - 1, |stars|, a, b);
    }
  }

  lemma {:induction false} PairsAreInRange(stars: seq<Star>, i: nat)
    requires i <= |stars|
    ensures InRange(stars, PairsUpTo(stars, i))
  {
    var ps := PairsUpTo(stars, i);
    forall k | 0 <= k < |ps|
      ensures ps[k].0 < |stars| && ps[k].1 < |stars|
    {
      assert ps[k] in ps;
      PairsUpToMembership(stars, i, ps[k].0, ps[k].1);
    }
  }

  /**
   * Sound and complete: (i, j) is emitted exactly when i and j are distinct
   * indices of stars less than 4 units apart. In particular no index is
   * paired with itself.
   */
  lemma ClosePairsExact(stars: seq<Star>, a: nat, b: nat)
    ensures (a, b) in ClosePairs(stars) <==>
      a < |stars| && b < |stars| && a != b && Close(stars[a].position, stars[b].position)
  {
    PairsUpToMembership(stars, |stars|, a, b);
  }

  /** Every close unordered pair is emitted twice, once per orientation. */
  lemma ClosePairsSymmetric(stars: seq<Star>, a: nat, b: nat)
    requires (a, b) in ClosePairs(stars)
    ensures (b, a) in ClosePairs(stars)
  {
    ClosePairsExact(stars, a, b);
    ClosePairsExact(stars, b, a);
    CloseSymmetric(stars[a].position, stars[b].position);
  }

  /** Lexicographic order on index pairs: i-major, j-minor. */
  predicate Before(p: (nat, nat), q: (nat, nat))
  {
    p.0 < q.0 || (p.0 == q.0 && p.1 < q.1)
  }

  predicate StrictlyOrdered(ps: seq<(nat, nat)>)
  {
    forall k, l :: 0 <= k < l < |ps| ==> Before(ps[k], ps[l])
  }

  lemma {:induction false} RowOrdered(stars: seq<Star>, i: nat, j: nat)
    requires i < |stars| && j <= |stars|
    ensures StrictlyOrdered(RowPairs(stars, i, j))
    ensures forall k :: 0 <= k < |RowPairs(stars, i, j)| ==> RowPairs(stars, i, j)[k].0 == i
    ensures forall k :: 0 <= k < |RowPairs(stars, i, j)| ==> RowPairs(stars, i, j)[k].1 < j
  {
    if j > 0 {
      RowOrdered(stars, i, j - 1);
    }
  }

  lemma {:induction false} PairsUpToOrdered(stars: seq<Star>, i: nat)
    requires i <= |stars|
    ensures StrictlyOrdered(PairsUpTo(stars, i))
    ensures forall k :: 0 <= k < |PairsUpTo(stars, i)| ==> PairsUpTo(stars, i)[k].0 < i
  {
    if i > 0 {
      PairsUpToOrdered(stars, i - 1);
      RowOrdered(stars, i - 1, |stars|);
      var a, b := PairsUpTo(stars, i - 1), RowPairs(stars, i - 1, |stars|);
      var c := a + b;
      assert PairsUpTo(stars, i) == c;
      forall k, l | 0 <= k < l < |c|
        ensures Before(c[k], c[l])
      {
        if l < |a| {
          assert c[k] == a[k] && c[l] == a[l];
        } else if k >= |a| {
          assert c[k] == b[k - |a|] && c[l] == b[l - |a|];
        } else {
          assert c[k] == a[k] && c[l] == b[l - |a|];
        }
      }
      forall k | 0 <= k < |c|
        ensures c[k].0 < i
      {
        if k < |a| {
          assert c[k] == a[k];
        } else {
          assert c[k] == b[k - |a|];
        }
      }
    }
  }

  /** Emission order is i-major, j-minor; in particular no pair is emitted twice in the same orientation. */
  lemma ClosePairsOrdered(stars: seq<Star>)
    ensures StrictlyOrdered(ClosePairs(stars))
  {
    PairsUpToOrdered(stars, |stars|);
  }

  lemma {:induction false} RowCount(stars: seq<Star>, i: nat, j: nat)
    requires i < |stars| && j <= |stars|
    ensures |RowPairs(stars, i, j)| <= if i < j then j - 1 else j
  {
    if j > 0 {
      RowCount(stars, i, j - 1);
    }
  }

  lemma {:induction false} PairsUpToCount(stars: seq<Star>, i: nat)
    requires i <= |stars|
    ensures |PairsUpTo(stars, i)| <= i * (|stars| - 1)
  {
    if i > 0 {
      var m := |stars| - 1;
      PairsUpToCount(stars, i - 1);
      RowCount(stars, i - 1, |stars|);
      assert |PairsUpTo(stars, i)| <= (i - 1) * m + m;
      MultiplyStep(i, m);
    }
  }

  lemma MultiplyStep(i: int, m: int)
    ensures (i - 1) * m + m == i * m
  {
  }

  /** At most n(n-1) connections for n stars. */
  lemma ConnectionCount(stars: seq<Star>)
    ensures |Connections(stars)| <= |stars| * (|stars| - 1)
  {
    PairsUpToCount(stars, |stars|);
  }

  /**
   * A line is a connection exactly when it joins the positions of two
   * distinct stars less than 4 units apart; no line joins points 4 or more
   * units apart.
   */
  lemma ConnectionsExact(stars: seq<Star>, line: Line)
    ensures line in Connections(stars) <==>
      exists a, b :: 0 <= a < |stars| && 0 <= b < |stars| && a != b &&
        Close(stars[a].position, stars[b].position) && line == (stars[a].position, stars[b].position)
    ensures line in Connections(stars) ==> Close(line.0, line.1)
  {
    var ps := ClosePairs(stars);
    var lines := Connections(stars);
    if line in lines {
      var k :| 0 <= k < |lines| && lines[k] == line;
      ClosePairsExact(stars, ps[k].0, ps[k].1);
      assert ps[k] in ps;
    }
    if exists a, b :: 0 <= a < |stars| && 0 <= b < |stars| && a != b &&
        Close(stars[a].position, stars[b].position) && line == (stars[a].position, stars[b].position)
    {
      var a, b :| 0 <= a < |stars| && 0 <= b < |stars| && a != b &&
        Close(stars[a].position, stars[b].position) && line == (stars[a].position, stars[b].position);
      ClosePairsExact(stars, a, b);
      var k :| 0 <= k < |ps| && ps[k] == (a, b);
      assert lines[k] == line;
    }
  }

  /** The `connections` memo: the nested `forEach` over ordered index pairs pushing into `lines`. */
  method BuildConnections(stars: seq<Star>) returns (lines: seq<Line>)
    ensures lines == Connections(stars)
  {
    var n := |stars|;
    lines := [];
    ghost var emitted: seq<(nat, nat)> := [];
    var i := 0;
    while i < n
      invariant 0 <= i <= n
      invariant emitted == PairsUpTo(stars, i)
      invariant InRange(stars, emitted) && lines == LinesOf(stars, emitted)
    {
      var j := 0;
      while j < n
        invariant 0 <= j <= n
        invariant emitted == PairsUpTo(stars, i) + RowPairs(stars, i, j)
        invariant InRange(stars, emitted) && lines == LinesOf(stars, emitted)
      {
        if i != j && Close(stars[i].position, stars[j].position) {
          lines := lines + [(stars[i].position, stars[j].position)];
          emitted := emitted + [(i, j)];
        }
        j := j + 1;
      }
      i := i + 1;
    }
  }

  /**
   * The record set of `Galaxy`: replaced wholesale by every successful
   * fetch, refetched whenever the refresh trigger changes.
   */
  class Galaxy {
    const sin: real -> real
    const cos: real -> real
    var memories: seq<Star>
    /** The refresh trigger the last fetch was issued for. */
    var fetchedFor: int

    /** Mounting: the record set starts empty and the first fetch is issued for `trigger`. */
    constructor (sin: real -> real, cos: real -> real, trigger: int)
      ensures this.sin == sin && this.cos == cos
      ensures memories == [] && fetchedFor == trigger
    {
      this.sin, this.cos := sin, cos;
      memories, fetchedFor := [], trigger;
    }

    /** The effect keyed on `refreshTrigger`: a new value issues a new fetch, the same value none. */
    method Rerender(trigger: int) returns (fetch: bool)
      modifies this`fetchedFor
      ensures fetch <==> trigger != old(fetchedFor)
      ensures fetchedFor == trigger
    {
      fetch := trigger != fetchedFor;
      fetchedFor := trigger;
    }

    /**
     * The fetch settles: a list replaces the record set with its layout; a
     * failure (logged only) leaves the record set as it was.
     */
    method Receive(result: Option<seq<Memory>>)
      modifies this`memories
      ensures result.Some? ==> memories == Place(sin, cos, result.value)
      ensures result.None? ==> memories == old(memories)
    {
      if result.Some? {
        memories := Place(sin, cos, result.value);
      }
    }

    /** The lines drawn for the current record set. */
    method CurrentConnections() returns (lines: seq<Line>)
      ensures lines == Connections(memories)
    {
      lines := BuildConnections(memories);
    }
  }
}
