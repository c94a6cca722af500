/** Grid positions, the four moves shared by solver.py and diamond_rush.py, and the
    Manhattan distance both heuristics are built from. */
module GridGeometry {

  /** A `(row, column)` tuple.  Coordinates are plain integers: a neighbour of a border
      cell is -1 before the bounds test rejects it. */
  type Pos = (int, int)

  /** The moves, in the order both programs try them. */
  datatype Dir = Arriba | Abajo | Izquierda | Derecha

  const Moves: seq<Dir> := [Arriba, Abajo, Izquierda, Derecha]

  /** `(dr, dc)` of a move. */
  function Delta(d: Dir): (delta: (int, int))
    ensures Abs(delta.0) + Abs(delta.1) == 1
  {
    match d
    case Arriba => (-1, 0)
    case Abajo => (1, 0)
    case Izquierda => (0, -1)
    case Derecha => (0, 1)
  }

  function Neighbor(p: Pos, d: Dir): Pos
  {
    (p.0 + Delta(d).0, p.1 + Delta(d).1)
  }

  function Abs(x: int): nat
  {
    if x < 0 then -x else x
  }

  function Manhattan(a: Pos, b: Pos): nat
  {
    Abs(a.0 - b.0) + Abs(a.1 - b.1)
  }

  /** Neighbours are at distance 1 and the four moves reach four different cells. */
  lemma NeighborFacts(p: Pos)
    ensures forall d :: Manhattan(p, Neighbor(p, d)) == 1
    ensures forall d, e | d != e :: Neighbor(p, d) != Neighbor(p, e)
  {
  }

  /** The Manhattan distance is a metric on positions. */
  lemma ManhattanMetric(a: Pos, b: Pos, c: Pos)
    ensures Manhattan(a, b) == Manhattan(b, a)
    ensures Manhattan(a, b) == 0 <==> a == b
    ensures Manhattan(a, c) <= Manhattan(a, b) + Manhattan(b, c)
  {
  }

  /** Python's ordering of coordinate tuples: by row, then by column. */
  predicate PosLess(a: Pos, b: Pos)
  {
    a.0 < b.0 || (a.0 == b.0 && a.1 < b.1)
  }

  /** `m` is `min(dist(q, d) for d in s)`. */
  predicate IsMinDistance(s: set<Pos>, q: Pos, m: nat)
  {
    (exists d | d in s :: m == Manhattan(q, d)) && forall d | d in s :: m <= Manhattan(q, d)
  }

  lemma {:induction false} MinDistanceExists(s: set<Pos>, q: Pos)
    requires s != {}
    ensures exists m: nat :: IsMinDistance(s, q, m)
    decreases |s|
  {
    var x :| x in s;
    if s == {x} {
      assert IsMinDistance(s, q, Manhattan(q, x));
    } else {
      MinDistanceExists(s - {x}, q);
      var m: nat :| IsMinDistance(s - {x}, q, m);
      if Manhattan(q, x) < m {
        assert IsMinDistance(s, q, Manhattan(q, x));
      } else {
        assert IsMinDistance(s, q, m);
      }
    }
  }

  /** A Python `min` over the distances from `q` to a non-empty set of cells. */
  function MinDistance(s: set<Pos>, q: Pos): (m: nat)
    requires s != {}
    ensures exists d | d in s :: m == Manhattan(q, d)
    ensures forall d | d in s :: m <= Manhattan(q, d)
  {
    MinDistanceExists(s, q);
    var m: nat :| IsMinDistance(s, q, m);
    m
  }

  /** The least element of a set of cells in Python's tuple order. */
  predicate IsLeast(s: set<Pos>, p: Pos)
  {
    p in s && forall q | q in s && q != p :: PosLess(p, q)
  }

  lemma {:induction false} LeastExists(s: set<Pos>)
    requires s != {}
    ensures exists p :: IsLeast(s, p)
    decreases |s|
  {
    var x :| x in s;
    if s == {x} {
      assert IsLeast(s, x);
    } else {
      LeastExists(s - {x});
      var p :| IsLeast(s - {x}, p);
      if PosLess(x, p) {
        forall q | q in s && q != x
          ensures PosLess(x, q)
        {
          if q != p {
            assert PosLess(p, q);
          }
        }
        assert IsLeast(s, x);
      } else {
        assert IsLeast(s, p);
      }
    }
  }

  function Least(s: set<Pos>): (p: Pos)
    requires s != {}
    ensures p in s
    ensures forall q | q in s && q != p :: PosLess(p, q)
  {
    LeastExists(s);
    var p :| IsLeast(s, p);
    p
  }
}
