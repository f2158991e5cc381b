/**
 * The two rules of `State::update` that decide how continuous input is
 * handled: the 300 ms throttle on slider-driven preview renders, and the
 * accumulation of the pan offset from pointer moves. The viewer's methods
 * apply them one event at a time; the lemmas here follow a whole stream.
 */
module Interaction {
  import opened Wrappers
  import opened Geometry

  /** SliderChanged renders a preview only this long after the last one. */
  const THROTTLE_MS: nat := 300
  /** SliderReleased waits this long before sending FinalizeDragging. */
  const FINALIZE_DELAY_MS: nat := 300

  /** `now.duration_since(last).as_millis()` on a millisecond clock; a clock that went back reads 0. */
  function ElapsedMs(last: int, now: int): (e: nat)
    ensures now >= last ==> last + e == now
    ensures now < last ==> e == 0
  {
    if now >= last then now - last else 0
  }

  /** Whether a SliderChanged at `now` renders a preview, given the last render time. */
  predicate Admits(last: int, now: int)
    ensures Admits(last, now) <==> now - last >= THROTTLE_MS
  {
    ElapsedMs(last, now) >= THROTTLE_MS
  }

  /**
   * The number of preview renders that SliderChanged events at the given
   * times start, when the last render was at `last`: each admitted event
   * renders and becomes the new last render time.
   */
  function PreviewRenders(last: int, times: seq<int>): (n: nat)
    ensures n <= |times|
    decreases |times|
  {
    if times == [] then 0
    else if Admits(last, times[0]) then 1 + PreviewRenders(times[0], times[1..])
    else PreviewRenders(last, times[1..])
  }

  predicate Ascending(times: seq<int>) {
    forall i, j :: 0 <= i < j < |times| ==> times[i] <= times[j]
  }

  /**
   * However dense the stream, previews are at least 300 ms apart: over a
   * span of `T` milliseconds since the last render, at most `T / 300` of them.
   */
  lemma {:induction false} PreviewRendersBounded(last: int, times: seq<int>)
    requires Ascending(times) && times != [] && last <= times[0]
    ensures PreviewRenders(last, times) * THROTTLE_MS <= times[|times| - 1] - last
    decreases |times|
  {
    var rest := times[1..];
    if rest == [] {
    } else if Admits(last, times[0]) {
      PreviewRendersBounded(times[0], rest);
    } else {
      PreviewRendersBounded(last, rest);
    }
  }

  /** A stream whose whole span is under 300 ms after the last render renders nothing. */
  lemma QuickStreamRendersNothing(last: int, times: seq<int>)
    requires Ascending(times) && times != [] && last <= times[0]
    requires times[|times| - 1] - last < THROTTLE_MS
    ensures PreviewRenders(last, times) == 0
  {
    PreviewRendersBounded(last, times);
  }

  /** The pan fields: where the pointer last was, if known, and the accumulated offset. */
  datatype Pan = Pan(start: Option<Vec2>, offset: Vec2)

  /**
   * MouseMoved while panning: the first move after a press only records the
   * position; later moves add the displacement since the recorded position.
   */
  function Moved(s: Pan, pos: Vec2): (r: Pan)
    ensures r.start == Some(pos)
    ensures s.start.None? ==> r.offset == s.offset
    ensures s.start.Some? ==>
              && r.offset.x - s.offset.x == pos.x - s.start.value.x
              && r.offset.y - s.offset.y == pos.y - s.start.value.y
  {
    match s.start
    case None => Pan(Some(pos), s.offset)
    case Some(last) => Pan(Some(pos), s.offset.Plus(pos.Minus(last)))
  }

  /** The pan fields after a sequence of moves. */
  function MovedAll(s: Pan, moves: seq<Vec2>): (r: Pan)
    ensures moves == [] ==> r == s
    ensures moves != [] ==> r.start == Some(moves[|moves| - 1])
    decreases |moves|
  {
    if moves == [] then s else MovedAll(Moved(s, moves[0]), moves[1..])
  }

  /** From a recorded position `q`, the offset grows by the displacement from `q` to the final position. */
  lemma {:induction false} PanFrom(offset: Vec2, q: Vec2, moves: seq<Vec2>)
    ensures var final := if moves == [] then q else moves[|moves| - 1];
      MovedAll(Pan(Some(q), offset), moves) == Pan(Some(final), offset.Plus(final.Minus(q)))
    decreases |moves|
  {
    if moves == [] {
      assert offset.Plus(q.Minus(q)) == offset;
    } else {
      var next := offset.Plus(moves[0].Minus(q));
      PanFrom(next, moves[0], moves[1..]);
      var final := moves[|moves| - 1];
      assert next.Plus(final.Minus(moves[0])) == offset.Plus(final.Minus(q));
    }
  }

  /**
   * After a press, the offset moves by exactly the pointer's displacement
   * between the first move and the last one.
   */
  lemma PanFollowsPointer(offset: Vec2, moves: seq<Vec2>)
    requires moves != []
    ensures MovedAll(Pan(None, offset), moves)
      == Pan(Some(moves[|moves| - 1]), offset.Plus(moves[|moves| - 1].Minus(moves[0])))
  {
    PanFrom(offset, moves[0], moves[1..]);
    if |moves| == 1 {
      assert offset.Plus(moves[0].Minus(moves[0])) == offset;
    }
  }
}
