/**
 The draw engine: drawing without replacement, reset, and inspecting a
 filled grid cell.
 */
module DrawEngine {

  import opened Options
  import opened Elements
  import opened Sequences
  import opened AppState

  /** Number of cells of the grid; cell `index` shows the item whose id is `index + 1`. */
  const GridCells: nat := 16

  /**
   The draw engine's invariant relative to a catalog with distinct ids:
   the pool is exactly the catalog items not yet drawn, in catalog order;
   every filled cell holds the catalog item with that id; the item on display
   is one that has been drawn; and every catalog item is counted once, either
   in the pool or in the grid.
   */
  ghost predicate Consistent(catalog: seq<Element>, s: State)
  {
    && DistinctIds(catalog)
    && s.pool == Undrawn(catalog, s.filled.Keys)
    && (forall k :: k in s.filled ==> s.filled[k] in catalog && s.filled[k].id == k)
    && (s.current.Some? ==> s.current.value.id in s.filled && s.filled[s.current.value.id] == s.current.value)
    && |s.filled| + |s.pool| == |catalog|
  }

  /**
   A click on the machine once the random index `i` has been chosen:
   an empty pool makes it inert; otherwise the item at `i` leaves the pool,
   goes on display and fills the cell keyed by its id.
   */
  function Draw(s: State, i: nat): (r: State)
    requires s.pool == [] || i < |s.pool|
    ensures s.pool == [] ==> r == s
    ensures s.pool != [] ==>
      && r.pool == s.pool[..i] + s.pool[i + 1..]
      && |r.pool| == |s.pool| - 1
      && r.current == Some(s.pool[i])
      && r.filled.Keys == s.filled.Keys + {s.pool[i].id}
      && r.filled[s.pool[i].id] == s.pool[i]
      && (forall k :: k in s.filled && k != s.pool[i].id ==> r.filled[k] == s.filled[k])
    ensures r.position == s.position && r.dragging == s.dragging
  {
    if s.pool == [] then s
    else
      var drawn := s.pool[i];
      FilterOutIndexIsSplice(s.pool, i);
      s.(pool := FilterOutIndex(s.pool, i), current := Some(drawn), filled := s.filled[drawn.id := drawn])
  }

  /**
   The random index: `r` stands for the value of the platform's uniform
   generator in [0, 1), scaled by the pool size and rounded down.
   */
  function PickIndex(r: real, n: nat): (i: nat)
    requires 0.0 <= r < 1.0 && n > 0
    ensures i < n
  {
    var x := r * n as real;
    assert x < n as real by {
      assert (1.0 - r) * n as real > 0.0;
    }
    x.Floor
  }

  /**
   Every index is picked by exactly the random values of one interval of
   width `1/n`, so with a uniform generator every pool item is equally likely.
   */
  lemma PickIndexInterval(r: real, n: nat, i: nat)
    requires 0.0 <= r < 1.0 && n > 0 && i < n
    ensures PickIndex(r, n) == i <==> i as real / n as real <= r < (i + 1) as real / n as real
  {
  }

  /** The click handler with the generator's value `r` as input. */
  function HandleClick(s: State, r: real): (t: State)
    requires 0.0 <= r < 1.0
    ensures s.pool == [] ==> t == s
    ensures s.pool != [] ==>
      && |t.pool| == |s.pool| - 1
      && t.current.Some?
      && multiset(t.pool) + multiset{t.current.value} == multiset(s.pool)
      && t.filled == s.filled[t.current.value.id := t.current.value]
    ensures t.position == s.position && t.dragging == s.dragging
  {
    if s.pool == [] then s
    else
      var i := PickIndex(r, |s.pool|);
      SpliceMultiset(s.pool, i);
      Draw(s, i)
  }

  /** The reset handler: the pool is the catalog again, nothing is displayed, no cell is filled. */
  function Reset(s: State, catalog: seq<Element>): (r: State)
    ensures r.pool == catalog && r.current == None && r.filled == map[]
    ensures r.position == s.position && r.dragging == s.dragging
  {
    s.(pool := catalog, current := None, filled := map[])
  }

  /** What grid cell `index` shows: the item filed under id `index + 1`, if any. */
  function Cell(s: State, index: nat): (c: Option<Element>)
    requires index < GridCells
    ensures c.Some? <==> index + 1 in s.filled
    ensures c.Some? ==> c.value == s.filled[index + 1]
  {
    if index + 1 in s.filled then Some(s.filled[index + 1]) else None
  }

  /** A click on grid cell `index`: an empty cell is inert, a filled one goes on display. */
  function Inspect(s: State, index: nat): (r: State)
    requires index < GridCells
    ensures index + 1 !in s.filled ==> r == s
    ensures index + 1 in s.filled ==> r.current == Some(s.filled[index + 1])
    ensures r.pool == s.pool && r.filled == s.filled
    ensures r.position == s.position && r.dragging == s.dragging
  {
    match Cell(s, index)
    case None => s
    case Some(e) => s.(current := Some(e))
  }

  // ---------------------------------------------------------------------------
  // Properties of the draw engine

  /** A reset puts the draw engine in its invariant whatever state it came from. */
  lemma ResetEstablishesConsistency(s: State, catalog: seq<Element>)
    requires DistinctIds(catalog)
    ensures Consistent(catalog, Reset(s, catalog))
  {
    UndrawnNothing(catalog);
  }

  /** Resetting twice is resetting once. */
  lemma ResetIdempotent(s: State, catalog: seq<Element>)
    ensures Reset(Reset(s, catalog), catalog) == Reset(s, catalog)
  {
  }

  /** After mounting, the draw engine is in its invariant with nothing drawn. */
  lemma MountedConsistent(catalog: seq<Element>)
    requires DistinctIds(catalog)
    ensures Consistent(catalog, Mounted(catalog))
    ensures Mounted(catalog) == Reset(Initial(), catalog)
  {
    UndrawnNothing(catalog);
  }

  /** Under the invariant the pool and the grid never share an item. */
  lemma PoolItemsUndrawn(catalog: seq<Element>, s: State)
    requires Consistent(catalog, s)
    ensures forall e :: e in s.pool ==> e in catalog && e.id !in s.filled
    ensures forall k :: k in s.filled ==> s.filled[k] !in s.pool
  {
  }

  /** A draw keeps the invariant: the drawn item moves from the pool to the grid. */
  lemma DrawPreservesConsistency(catalog: seq<Element>, s: State, i: nat)
    requires Consistent(catalog, s)
    requires s.pool == [] || i < |s.pool|
    ensures Consistent(catalog, Draw(s, i))
  {
    if s.pool != [] {
      var x := s.pool[i];
      var r := Draw(s, i);
      UndrawnDrawOne(catalog, s.filled.Keys, i);
      assert r.filled.Keys == s.filled.Keys + {x.id};
      assert x.id !in s.filled.Keys;
      assert |r.filled.Keys| == |s.filled.Keys| + 1;
    }
  }

  /** Inspecting a cell keeps the invariant. */
  lemma InspectPreservesConsistency(catalog: seq<Element>, s: State, index: nat)
    requires Consistent(catalog, s)
    requires index < GridCells
    ensures Consistent(catalog, Inspect(s, index))
  {
  }

  /**
   What the grid shows under the invariant: cell `index` is filled exactly
   when the catalog item with id `index + 1` has been drawn, and then it
   shows that item.
   */
  lemma CellShowsDrawnItem(catalog: seq<Element>, s: State, index: nat, e: Element)
    requires Consistent(catalog, s)
    requires index < GridCells
    requires e in catalog && e.id == index + 1
    ensures Cell(s, index) == Some(e) <==> e !in s.pool
    ensures Cell(s, index) == None <==> e in s.pool
  {
    var k :| 0 <= k < |catalog| && catalog[k] == e;
    if index + 1 in s.filled {
      var f := s.filled[index + 1];
      var j :| 0 <= j < |catalog| && catalog[j] == f;
      assert j == k;
    }
  }
}
