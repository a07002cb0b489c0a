/**
 A session of the component: the user events it reacts to, their effect on
 the state, and what holds over any sequence of them.
 */
module Session {

  import opened Options
  import opened Elements
  import opened AppState
  import opened DrawEngine
  import opened LeverGesture
  import opened Sequences

  /** A user event, with the value the platform supplies for it. */
  datatype Event =
    | MachineClick(random: real)   // click on the machine; `random` is the generator's value
    | CellClick(index: nat)        // click on grid cell `index`
    | LeverDown
    | LeverMove(raw: real)         // pointer movement; `raw` is the position before clamping
    | LeverUp

  /** The values the platform can supply: a generator value in [0, 1) and an existing grid cell. */
  predicate WellFormed(e: Event)
  {
    match e
    case MachineClick(r) => 0.0 <= r < 1.0
    case CellClick(index) => index < GridCells
    case _ => true
  }

  predicate AllWellFormed(es: seq<Event>)
  {
    forall k :: 0 <= k < |es| ==> WellFormed(es[k])
  }

  /** The handler the event is dispatched to. */
  function Step(s: State, catalog: seq<Element>, e: Event): (r: State)
    requires WellFormed(e)
    ensures e.MachineClick? || e.LeverUp? || r.pool == s.pool
    ensures e.CellClick? || e.MachineClick? || e.LeverUp? || r.current == s.current
    ensures e.LeverDown? || e.LeverMove? || e.LeverUp? || (r.position == s.position && r.dragging == s.dragging)
  {
    match e
    case MachineClick(x) => HandleClick(s, x)
    case CellClick(index) => Inspect(s, index)
    case LeverDown => Press(s)
    case LeverMove(raw) => Move(s, raw)
    case LeverUp => Release(s, catalog)
  }

  /** The events handled one at a time, in order. */
  function Run(s: State, catalog: seq<Element>, es: seq<Event>): State
    requires AllWellFormed(es)
    decreases |es|
  {
    if es == [] then s else Run(Step(s, catalog, es[0]), catalog, es[1..])
  }

  /** The whole component's invariant: the draw engine's and the lever's. */
  ghost predicate Invariant(catalog: seq<Element>, s: State)
  {
    Consistent(catalog, s) && LeverSane(s)
  }

  /** The state the user first sees satisfies the invariant. */
  lemma MountedInvariant(catalog: seq<Element>)
    requires DistinctIds(catalog)
    ensures Invariant(catalog, Mounted(catalog))
  {
    MountedConsistent(catalog);
  }

  /** Before the mount effect has run the pool is empty, so a click on the machine is inert. */
  lemma ClickBeforeMountInert(catalog: seq<Element>, x: real)
    requires 0.0 <= x < 1.0
    ensures Step(Initial(), catalog, MachineClick(x)) == Initial()
    ensures LeverSane(Initial())
  {
  }

  /** Every event keeps the invariant. */
  lemma StepPreservesInvariant(catalog: seq<Element>, s: State, e: Event)
    requires Invariant(catalog, s) && WellFormed(e)
    ensures Invariant(catalog, Step(s, catalog, e))
  {
    match e
    case MachineClick(x) =>
      if s.pool != [] {
        DrawPreservesConsistency(catalog, s, PickIndex(x, |s.pool|));
      }
    case CellClick(index) =>
      InspectPreservesConsistency(catalog, s, index);
    case LeverDown =>
    case LeverMove(raw) =>
    case LeverUp =>
      if s.dragging && s.position > ResetThreshold {
        ResetEstablishesConsistency(s, catalog);
      }
  }

  /** Any sequence of events keeps the invariant. */
  lemma {:induction false} RunPreservesInvariant(catalog: seq<Element>, s: State, es: seq<Event>)
    requires Invariant(catalog, s) && AllWellFormed(es)
    ensures Invariant(catalog, Run(s, catalog, es))
    decreases |es|
  {
    if es != [] {
      StepPreservesInvariant(catalog, s, es[0]);
      RunPreservesInvariant(catalog, Step(s, catalog, es[0]), es[1..]);
    }
  }

  /**
   Filled cells only ever grow, keeping their items, and once something is
   displayed the display is never emptied, except by a release of the lever
   beyond the threshold, which empties the grid and the display together.
   */
  lemma StepOnlyResetForgets(catalog: seq<Element>, s: State, e: Event)
    requires Invariant(catalog, s) && WellFormed(e)
    ensures var r := Step(s, catalog, e);
            if e.LeverUp? && s.dragging && s.position > ResetThreshold then
              r.filled == map[] && r.current.None?
            else
              && s.filled.Keys <= r.filled.Keys
              && (forall k :: k in s.filled ==> r.filled[k] == s.filled[k])
              && (s.current.Some? ==> r.current.Some?)
  {
  }

  // ---------------------------------------------------------------------------
  // Repeated draws

  /**
   Indices the generator can produce for successive clicks starting from a
   pool of `n` items: the `k`-th pick is below the pool size at that moment,
   `n - k`, as long as the pool is not yet empty.
   */
  predicate ValidPicks(n: nat, picks: seq<nat>)
  {
    forall k :: 0 <= k < |picks| && k < n ==> picks[k] < n - k
  }

  /** After one click the remaining picks are valid for the remaining pool. */
  lemma ValidPicksStep(s: State, picks: seq<nat>)
    requires picks != [] && ValidPicks(|s.pool|, picks)
    ensures ValidPicks(|Draw(s, picks[0]).pool|, picks[1..])
  {
    var t := Draw(s, picks[0]);
    if s.pool != [] {
      forall k | 0 <= k < |picks[1..]| && k < |t.pool|
        ensures picks[1..][k] < |t.pool| - k
      {
        assert picks[1..][k] == picks[k + 1];
      }
    }
  }

  /** Clicking the machine once per pick. */
  function Draws(s: State, picks: seq<nat>): (t: State)
    requires ValidPicks(|s.pool|, picks)
    ensures |t.pool| == if |picks| >= |s.pool| then 0 else |s.pool| - |picks|
    ensures t.position == s.position && t.dragging == s.dragging
    decreases |picks|
  {
    if picks == [] then s
    else
      var t := Draw(s, picks[0]);
      ValidPicksStep(s, picks);
      Draws(t, picks[1..])
  }

  /** The items those clicks put on display, in the order they were drawn: one per click until the pool is empty. */
  function Trace(s: State, picks: seq<nat>): (drawn: seq<Element>)
    requires ValidPicks(|s.pool|, picks)
    ensures |drawn| == if |picks| >= |s.pool| then |s.pool| else |picks|
    decreases |picks|
  {
    if picks == [] then []
    else
      var t := Draw(s, picks[0]);
      ValidPicksStep(s, picks);
      if s.pool == [] then Trace(t, picks[1..])
      else [s.pool[picks[0]]] + Trace(t, picks[1..])
  }

  /** The displayed items together with what is left in the pool are exactly the original pool. */
  lemma {:induction false} TraceIsPermutation(s: State, picks: seq<nat>)
    requires ValidPicks(|s.pool|, picks)
    ensures multiset(Trace(s, picks)) + multiset(Draws(s, picks).pool) == multiset(s.pool)
    decreases |picks|
  {
    if picks != [] {
      var t := Draw(s, picks[0]);
      ValidPicksStep(s, picks);
      TraceIsPermutation(t, picks[1..]);
      if s.pool != [] {
        var rest := Trace(t, picks[1..]);
        var left := multiset(Draws(t, picks[1..]).pool);
        assert t.pool == s.pool[..picks[0]] + s.pool[picks[0] + 1..];
        ConsOntoSplice(s.pool, picks[0], rest, left);
      }
    }
  }

  /** Repeated draws keep the draw engine's invariant. */
  lemma {:induction false} DrawsPreserveConsistency(catalog: seq<Element>, s: State, picks: seq<nat>)
    requires Consistent(catalog, s) && ValidPicks(|s.pool|, picks)
    ensures Consistent(catalog, Draws(s, picks))
    decreases |picks|
  {
    if picks != [] {
      DrawPreservesConsistency(catalog, s, picks[0]);
      DrawsPreserveConsistency(catalog, Draw(s, picks[0]), picks[1..]);
    }
  }

  /** In a consistent state with an empty pool every catalog item fills its own cell. */
  lemma ExhaustedFillsCatalog(catalog: seq<Element>, s: State)
    requires Consistent(catalog, s) && s.pool == []
    ensures s.filled.Keys == Ids(catalog)
    ensures forall e :: e in catalog ==> e.id in s.filled && s.filled[e.id] == e
    ensures |s.filled| == |catalog|
  {
    forall e | e in catalog
      ensures e.id in s.filled && s.filled[e.id] == e
    {
      var a :| 0 <= a < |catalog| && catalog[a] == e;
      var f := s.filled[e.id];
      var b :| 0 <= b < |catalog| && catalog[b] == f;
      assert a == b;
    }
    forall k | k in s.filled
      ensures k in Ids(catalog)
    {
      IdOfMember(catalog, s.filled[k]);
    }
  }

  /**
   Drawing at least as many times as there are items left empties the pool
   and fills one cell per catalog item with that item; from then on a click
   on the machine changes nothing.
   */
  lemma Exhaustion(catalog: seq<Element>, s: State, picks: seq<nat>)
    requires Consistent(catalog, s) && ValidPicks(|s.pool|, picks) && |picks| >= |s.pool|
    ensures var t := Draws(s, picks);
            && t.pool == []
            && t.filled.Keys == Ids(catalog)
            && (forall e :: e in catalog ==> t.filled[e.id] == e)
            && |t.filled| == |catalog|
            && (forall i: nat :: Draw(t, i) == t)
  {
    DrawsPreserveConsistency(catalog, s, picks);
    ExhaustedFillsCatalog(catalog, Draws(s, picks));
  }

  /**
   A session of as many clicks as catalog items draws every catalog item
   exactly once and leaves the pool empty.
   */
  lemma SessionDrawsEachItemOnce(catalog: seq<Element>, picks: seq<nat>)
    requires DistinctIds(catalog) && ValidPicks(|catalog|, picks) && |picks| == |catalog|
    ensures multiset(Trace(Mounted(catalog), picks)) == multiset(catalog)
    ensures Draws(Mounted(catalog), picks).pool == []
    ensures Draws(Mounted(catalog), picks).filled.Keys == Ids(catalog)
  {
    MountedConsistent(catalog);
    Exhaustion(catalog, Mounted(catalog), picks);
    TraceIsPermutation(Mounted(catalog), picks);
  }

  /** In every state a session can reach, no item is both in the pool and in the grid. */
  lemma PoolAndGridDisjoint(catalog: seq<Element>, es: seq<Event>)
    requires DistinctIds(catalog) && AllWellFormed(es)
    ensures var t := Run(Mounted(catalog), catalog, es);
            forall k :: k in t.filled ==> t.filled[k] !in t.pool && t.filled[k].id == k
  {
    MountedInvariant(catalog);
    RunPreservesInvariant(catalog, Mounted(catalog), es);
    PoolItemsUndrawn(catalog, Run(Mounted(catalog), catalog, es));
  }

  // ---------------------------------------------------------------------------
  // Worked scenarios

  const ItemA: Element := Element(1, "A", "", "", "")
  const ItemB: Element := Element(2, "B", "", "", "")
  const ItemC: Element := Element(3, "C", "", "", "")

  /** Three clicks empty a three-item machine and fill cells 1, 2 and 3; a fourth changes nothing. */
  lemma ThreeItemScenario(picks: seq<nat>, i: nat)
    requires |picks| == 3 && ValidPicks(3, picks)
    ensures var t := Draws(Mounted([ItemA, ItemB, ItemC]), picks);
            && t.pool == []
            && t.filled == map[1 := ItemA, 2 := ItemB, 3 := ItemC]
            && Draw(t, i) == t
  {
    var catalog := [ItemA, ItemB, ItemC];
    assert DistinctIds(catalog);
    MountedConsistent(catalog);
    Exhaustion(catalog, Mounted(catalog), picks);
    var t := Draws(Mounted(catalog), picks);
    ThreeItemIds();
    assert ItemA in catalog && ItemB in catalog && ItemC in catalog;
    assert t.filled[1] == ItemA && t.filled[2] == ItemB && t.filled[3] == ItemC;
    ThreeKeyMap(t.filled, ItemA, ItemB, ItemC);
  }

  /** A map with keys 1, 2 and 3 is determined by its three values. */
  lemma ThreeKeyMap(m: map<int, Element>, a: Element, b: Element, c: Element)
    requires m.Keys == {1, 2, 3} && m[1] == a && m[2] == b && m[3] == c
    ensures m == map[1 := a, 2 := b, 3 := c]
  {
  }

  /** The ids of the three-item catalog. */
  lemma ThreeItemIds()
    ensures Ids([ItemA, ItemB, ItemC]) == {1, 2, 3}
  {
  }

  /** Pulling the lever to 85 and letting go restores the pool and clears the rest. */
  lemma LeverPastThresholdScenario(catalog: seq<Element>, s: State)
    requires Invariant(catalog, s) && !s.dragging
    ensures var t := Run(s, catalog, [LeverDown, LeverMove(85.0), LeverUp]);
            && t.pool == catalog && t.current.None? && t.filled == map[]
            && t.position == 0.0 && !t.dragging
  {
  }

  /** Pulling the lever only to 50 and letting go leaves the draws alone. */
  lemma LeverShortOfThresholdScenario(catalog: seq<Element>, s: State)
    requires Invariant(catalog, s) && !s.dragging
    ensures var t := Run(s, catalog, [LeverDown, LeverMove(50.0), LeverUp]);
            && t.pool == s.pool && t.current == s.current && t.filled == s.filled
            && t.position == 0.0 && !t.dragging
  {
  }
}
