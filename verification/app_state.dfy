/**
 The component's whole state as one record: the draw engine's pool, display
 and grid, and the lever's gesture state.
 */
module AppState {

  import opened Options
  import opened Elements

  /**
   Everything the component keeps: the available pool, the item on display,
   the filled grid cells keyed by item id, and the lever's gesture state.
   */
  datatype State = State(
    pool: seq<Element>,
    current: Option<Element>,
    filled: map<int, Element>,
    position: real,
    dragging: bool)

  /** The state right after the component is created, before its mount effect has run. */
  function Initial(): (r: State)
    ensures r.pool == [] && r.current.None? && r.filled == map[]
    ensures r.position == 0.0 && !r.dragging
  {
    State([], None, map[], 0.0, false)
  }

  /** The mount effect: load a copy of the catalog into the pool and touch nothing else. */
  function Mount(s: State, catalog: seq<Element>): (r: State)
    ensures r.pool == catalog
    ensures r.current == s.current && r.filled == s.filled
    ensures r.position == s.position && r.dragging == s.dragging
  {
    s.(pool := catalog)
  }

  /** The state the user first interacts with. */
  function Mounted(catalog: seq<Element>): State
  {
    Mount(Initial(), catalog)
  }
}
