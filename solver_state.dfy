/** solver.py's `Estado`: the nine compared fields, which its `__eq__` and `__hash__`
    look at, plus the parent link and the action that led here, which they ignore. */
module SolverState {
  import opened Wrappers
  import opened GridGeometry

  /** `tuple(sorted(botones.items()))`: button and statue cells with their flags. */
  type Items = seq<(Pos, bool)>

  /** The fields `__eq__` compares and `__hash__` hashes, in that order.  Python keeps
      the button dictionary as the tuple `SortedItems(botones)`; the model keeps the
      dictionary itself, which `SortedItemsInjective` shows is the same comparison. */
  datatype Core = Core(
    jugador: Pos,
    diamantes: set<Pos>,
    llavesPos: set<Pos>,
    keys: int,
    puertas: set<Pos>,
    pinchosActivados: set<Pos>,
    rocas: set<Pos>,
    huecosRellenos: set<Pos>,
    botones: map<Pos, bool>)

  /** An `Estado`.  Two states are equal in Python exactly when their `core`s are. */
  datatype Estado = Estado(core: Core, parent: Option<Estado>, accion: Option<Dir>)

  predicate SortedKeys(items: Items)
  {
    forall p, q | 0 <= p < q < |items| :: PosLess(items[p].0, items[q].0)
  }

  /** `dict(items)`: later pairs override earlier ones. */
  function ItemsToMap(items: Items): map<Pos, bool>
  {
    if items == [] then map[]
    else
      var rest := ItemsToMap(items[1..]);
      if items[0].0 in rest then rest else rest[items[0].0 := items[0].1]
  }

  /** `tuple(sorted(m.items()))`. */
  function SortedItems(m: map<Pos, bool>): (items: Items)
    ensures |items| == |m|
    ensures SortedKeys(items)
    ensures forall i | 0 <= i < |items| :: items[i].0 in m && m[items[i].0] == items[i].1
    decreases |m|
  {
    if |m| == 0 then []
    else
      var k := Least(m.Keys);
      [(k, m[k])] + SortedItems(m - {k})
  }

  /** `dict(estado.botones)` gives back the dictionary the state was built from. */
  lemma {:induction false} SortedItemsRoundTrip(m: map<Pos, bool>)
    ensures ItemsToMap(SortedItems(m)) == m
    decreases |m|
  {
    if |m| > 0 {
      var k := Least(m.Keys);
      var rest := m - {k};
      SortedItemsRoundTrip(rest);
      ConsFresh(k, m[k], SortedItems(rest));
      RestoreKey(m, k);
    }
  }

  lemma ConsFresh(k: Pos, v: bool, items: Items)
    requires k !in ItemsToMap(items)
    ensures ItemsToMap([(k, v)] + items) == ItemsToMap(items)[k := v]
  {
    assert ([(k, v)] + items)[1..] == items;
  }

  lemma RestoreKey(m: map<Pos, bool>, k: Pos)
    requires k in m
    ensures (m - {k})[k := m[k]] == m
  {
  }

  /** Equal dictionaries give equal tuples and, by the round trip, only they do. */
  lemma SortedItemsInjective(a: map<Pos, bool>, b: map<Pos, bool>)
    ensures SortedItems(a) == SortedItems(b) <==> a == b
  {
    SortedItemsRoundTrip(a);
    SortedItemsRoundTrip(b);
  }

  /** `Estado(...)`: the nine fields, the parent and the action. */
  function NewEstado(
    jugador: Pos, diamantes: set<Pos>, llavesPos: set<Pos>, keys: int, puertas: set<Pos>,
    pinchosActivados: set<Pos>, rocas: set<Pos>, huecosRellenos: set<Pos>,
    botones: map<Pos, bool>, parent: Option<Estado>, accion: Option<Dir>): Estado
  {
    Estado(Core(jugador, diamantes, llavesPos, keys, puertas, pinchosActivados, rocas, huecosRellenos, botones),
           parent, accion)
  }

  /** Two constructed states are equal (in the `__eq__` sense) exactly when their nine
      arguments are, whatever their parents and actions; with the button dictionaries
      compared as Python compares them, as sorted tuples. */
  lemma EqualityIgnoresHistory(
    j1: Pos, d1: set<Pos>, l1: set<Pos>, k1: int, p1: set<Pos>, s1: set<Pos>, r1: set<Pos>, h1: set<Pos>,
    b1: map<Pos, bool>, parent1: Option<Estado>, accion1: Option<Dir>,
    j2: Pos, d2: set<Pos>, l2: set<Pos>, k2: int, p2: set<Pos>, s2: set<Pos>, r2: set<Pos>, h2: set<Pos>,
    b2: map<Pos, bool>, parent2: Option<Estado>, accion2: Option<Dir>)
    ensures NewEstado(j1, d1, l1, k1, p1, s1, r1, h1, b1, parent1, accion1).core
         == NewEstado(j2, d2, l2, k2, p2, s2, r2, h2, b2, parent2, accion2).core
        <==> j1 == j2 && d1 == d2 && l1 == l2 && k1 == k2 && p1 == p2 && s1 == s2 && r1 == r2
             && h1 == h2 && SortedItems(b1) == SortedItems(b2)
  {
    SortedItemsInjective(b1, b2);
  }

  /** es_meta */
  predicate IsGoal(e: Estado, salida: Pos)
  {
    e.core.diamantes == {} && e.core.jugador == salida
  }

  // ----------------------------------------------------------------- routes

  /** The actions along the parent chain, root first; the walk stops at the first state
      without an action. */
  function Route(e: Estado): (r: seq<Dir>)
    ensures r == [] <==> e.accion.None?
    ensures e.accion.Some? ==> r[|r| - 1] == e.accion.value
    decreases e
  {
    match e.accion
    case None => []
    case Some(d) => RouteFrom(e.parent) + [d]
  }

  function RouteFrom(est: Option<Estado>): seq<Dir>
    decreases est
  {
    match est
    case None => []
    case Some(x) => Route(x)
  }

  function Reversed(s: seq<Dir>): (r: seq<Dir>)
    ensures |r| == |s|
    ensures forall i | 0 <= i < |s| :: r[i] == s[|s| - 1 - i]
  {
    if s == [] then [] else [s[|s| - 1]] + Reversed(s[..|s| - 1])
  }

  /** reconstruir_ruta: append the action of each state up the chain, then reverse. */
  method ReconstructRoute(e: Estado) returns (acciones: seq<Dir>)
    ensures acciones == Route(e)
  {
    var rev: seq<Dir> := [];
    var est: Option<Estado> := Some(e);
    while est.Some? && est.value.accion.Some?
      invariant Route(e) == RouteFrom(est) + Reversed(rev)
      decreases est
    {
      var d := est.value.accion.value;
      assert (rev + [d])[..|rev|] == rev;
      rev := rev + [d];
      est := est.value.parent;
    }
    acciones := Reversed(rev);
  }
}
