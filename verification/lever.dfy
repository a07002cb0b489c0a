/**
 The reset lever: a press/drag/release gesture whose position is a
 percentage of the track, and which resets the draw engine when released
 beyond a threshold.
 */
module LeverGesture {

  import opened Elements
  import opened AppState
  import DrawEngine

  /** The far end of the track, in percent of its length. */
  const MaxPosition: real := 100.0

  /** A release strictly beyond this position triggers a reset. */
  const ResetThreshold: real := 80.0

  function Min(a: real, b: real): real
  {
    if a <= b then a else b
  }

  function Max(a: real, b: real): real
  {
    if a <= b then b else a
  }

  function Abs(x: real): real
  {
    if x < 0.0 then -x else x
  }

  /** The raw pointer-derived position, clamped into the track. */
  function Clamp(x: real): (r: real)
    ensures 0.0 <= r <= MaxPosition
    ensures 0.0 <= x <= MaxPosition ==> r == x
    ensures x < 0.0 ==> r == 0.0
    ensures x > MaxPosition ==> r == MaxPosition
  {
    Max(0.0, Min(MaxPosition, x))
  }

  /** The clamped value is the point of the track nearest to the raw value. */
  lemma ClampIsNearest(x: real, y: real)
    requires 0.0 <= y <= MaxPosition
    ensures Abs(Clamp(x) - x) <= Abs(y - x)
  {
  }

  /** Clamping a clamped value changes nothing. */
  lemma ClampIdempotent(x: real)
    ensures Clamp(Clamp(x)) == Clamp(x)
  {
  }

  /** Clamping never reverses the order of two raw values. */
  lemma ClampMonotone(x: real, y: real)
    requires x <= y
    ensures Clamp(x) <= Clamp(y)
  {
  }

  /**
   The lever's own invariant: the position lies on the track, and the lever
   sits at rest whenever no drag is in progress.
   */
  predicate LeverSane(s: State)
  {
    0.0 <= s.position <= MaxPosition && (!s.dragging ==> s.position == 0.0)
  }

  /** Pressing the lever starts a drag and changes nothing else. */
  function Press(s: State): (r: State)
    ensures r.dragging
    ensures r.position == s.position
    ensures r.pool == s.pool && r.current == s.current && r.filled == s.filled
  {
    s.(dragging := true)
  }

  /**
   A pointer movement yielding the raw position `raw`: ignored unless a drag
   is in progress, otherwise the position becomes `raw` clamped into the track.
   */
  function Move(s: State, raw: real): (r: State)
    ensures !s.dragging ==> r == s
    ensures s.dragging ==> r.dragging && 0.0 <= r.position <= MaxPosition
    ensures s.dragging && 0.0 <= raw <= MaxPosition ==> r.position == raw
    ensures s.dragging && raw < 0.0 ==> r.position == 0.0
    ensures s.dragging && raw > MaxPosition ==> r.position == MaxPosition
    ensures r.pool == s.pool && r.current == s.current && r.filled == s.filled
  {
    if !s.dragging then s
    else s.(position := Clamp(raw))
  }

  /**
   Releasing the lever: ignored unless a drag is in progress; otherwise the
   draw engine is reset when the position is strictly beyond the threshold,
   and in every case the lever returns to rest.
   */
  function Release(s: State, catalog: seq<Element>): (r: State)
    ensures !s.dragging ==> r == s
    ensures s.dragging ==> r.position == 0.0 && !r.dragging
    ensures s.dragging && s.position > ResetThreshold ==>
      r.pool == catalog && r.current.None? && r.filled == map[]
    ensures s.dragging && s.position <= ResetThreshold ==>
      r.pool == s.pool && r.current == s.current && r.filled == s.filled
  {
    if !s.dragging then s
    else
      var s1 := if s.position > ResetThreshold then DrawEngine.Reset(s, catalog) else s;
      s1.(position := 0.0, dragging := false)
  }

  /** Every lever transition keeps the lever's invariant. */
  lemma LeverTransitionsKeepSanity(s: State, raw: real, catalog: seq<Element>)
    requires LeverSane(s)
    ensures LeverSane(Move(s, raw))
    ensures LeverSane(Release(s, catalog))
    ensures Press(s).dragging && 0.0 <= Press(s).position <= MaxPosition
  {
  }

  /** A release at exactly the threshold leaves the draw engine alone. */
  lemma ReleaseAtThresholdKeepsDraws(s: State, catalog: seq<Element>)
    requires s.dragging && s.position == ResetThreshold
    ensures Release(s, catalog) == s.(position := 0.0, dragging := false)
  {
  }

  /**
   A full gesture from rest, press then one move then release, resets the
   draw engine exactly when the clamped raw value is beyond the threshold,
   and ends at rest in both cases.
   */
  lemma GestureResetsIffPulledPastThreshold(s: State, raw: real, catalog: seq<Element>)
    requires LeverSane(s) && !s.dragging
    ensures var r := Release(Move(Press(s), raw), catalog);
            && r.position == 0.0 && !r.dragging
            && (raw > ResetThreshold ==> r == DrawEngine.Reset(s, catalog))
            && (raw <= ResetThreshold ==> r == s)
  {
  }
}
