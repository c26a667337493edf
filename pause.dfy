/** StepToolsPause.create_pause (step_tools.py:512-542): for each marker read from
    the pause file, cut the image sequence at the marker's frame, push the rest of
    the sequence back by the pause length, and put a still image into the gap.

    The strips are host objects. Only their bounds matter to the arithmetic, so a
    strip is its `(frame_final_start, frame_final_end)` pair, and the two host calls
    are replaced by this assumption about them:
    - `split(f)` succeeds exactly when `start < f < end`. The strip it was called on
      keeps `(start, f)`. The returned right part `(f, end)` becomes the last
      selected strip. On any other frame `split` returns None and changes nothing.
    - `frame_start += d` moves the whole strip by `d`, keeping its length. */
module Pause {
  import opened MarkerFile

  datatype Strip = Strip(start: int, end: int)

  /** The strip moved by `d` frames. */
  function Shift(s: Strip, d: int): (r: Strip)
    ensures r.end - r.start == s.end - s.start
    ensures r.start == s.start + d
  {
    Strip(s.start + d, s.end + d)
  }

  /** The planner's state between markers: the accumulated `step`, the strip at the
      end of the selection (`selected_sequences[-1]`) and the start frames of the
      still images added so far. Each image lasts the pause length. */
  datatype Plan = Plan(step: int, tail: Strip, images: seq<int>)

  /** Whether a marker's offset lies in the tail strip, both bounds included. */
  predicate Accepts(plan: Plan, offset: int)
    ensures plan.tail.start < offset < plan.tail.end ==> Accepts(plan, offset)
    ensures Accepts(plan, offset) ==> plan.tail.start <= plan.tail.end
  {
    plan.tail.start <= offset <= plan.tail.end
  }

  /** One iteration of the loop of create_pause. `origin` is the start frame of the
      active strip and `last` the value of `markers[-1]`. When the split fails,
      `end_strip` and `next_strip` are the same strip, so the undo test compares
      against the end of the strip that has just been shifted. */
  function PauseStep(plan: Plan, marker: nat, last: nat, origin: int, pause: int): (r: Plan)
    ensures var offset := marker + origin + plan.step;
            if Accepts(plan, offset) then r.step == plan.step + pause && r.images == plan.images + [offset]
            else r == plan
  {
    var offset := marker + origin + plan.step;
    var tail := plan.tail;
    if !Accepts(plan, offset) then plan
    else
      var split := tail.start < offset < tail.end;
      var next := if split then Strip(offset, tail.end) else tail;
      var shifted := Shift(next, pause);
      var endStripEnd := if split then offset else shifted.end;
      var placed := if marker == last && offset == endStripEnd - pause then Shift(shifted, -pause) else shifted;
      Plan(plan.step + pause, placed, plan.images + [offset])
  }

  /** The plan after the first `n` markers, starting from the active strip alone. */
  function PauseRun(markers: seq<nat>, n: nat, active: Strip, pause: int): (r: Plan)
    requires n <= |markers|
    ensures |r.images| <= n
  {
    if n == 0 then Plan(0, active, [])
    else
      PauseStep(PauseRun(markers, n - 1, active, pause), markers[n - 1], markers[|markers| - 1], active.start, pause)
  }

  /** create_pause: the plan, and the scene's new `frame_start` and `frame_end`. */
  method CreatePause(markers: seq<nat>, active: Strip, pause: int)
    returns (plan: Plan, frameStart: int, frameEnd: int)
    requires 5 <= pause <= 50
    ensures plan == PauseRun(markers, |markers|, active, pause)
    ensures plan.step == pause * |plan.images|
    ensures frameStart == active.start
    ensures frameEnd == active.end + plan.step - 1
  {
    var step := 0;
    var startFrame := active.start;
    var activeStripLength := active.end;
    var tail := active;
    var images := [];
    for i := 0 to |markers|
      invariant Plan(step, tail, images) == PauseRun(markers, i, active, pause)
    {
      ghost var prev := Plan(step, tail, images);
      var marker := markers[i];
      var offset := marker + startFrame + step;
      if tail.start <= offset <= tail.end {
        var split := tail.start < offset < tail.end;
        var endStrip := tail;
        var nextStrip;
        if split {
          endStrip := Strip(tail.start, offset);
          nextStrip := Strip(offset, tail.end);
        } else {
          nextStrip := tail;
        }
        nextStrip := Shift(nextStrip, pause);
        if !split {
          // no split: end_strip is next_strip itself, so it moved as well
          endStrip := nextStrip;
        }
        if marker == markers[|markers| - 1] && offset == endStrip.end - pause {
          nextStrip := Shift(nextStrip, -pause);
        }
        tail := nextStrip;
        images := images + [offset];
        step := step + pause;
      }
      assert Plan(step, tail, images) == PauseStep(prev, marker, markers[|markers| - 1], active.start, pause);
    }
    plan := Plan(step, tail, images);
    StepCountsImages(markers, |markers|, active, pause);
    frameEnd := activeStripLength + step - 1;
    frameStart := startFrame;
  }

  // ---------------------------------------------------------------- one step

  /** What one marker does. Outside the tail strip it changes nothing. Inside, it
      adds one pause to `step` and one image at its offset. Strictly inside, the
      strip is cut there: the left part ends at the offset, the image fills the
      next `pause` frames, and the right part starts right after the image. The
      shift is undone, and the tail left where it was, exactly when the marker has
      the value of the last one and sits on the tail's end frame. */
  lemma PauseStepCases(plan: Plan, marker: nat, last: nat, origin: int, pause: int)
    requires pause > 0
    ensures var offset := marker + origin + plan.step;
            var r := PauseStep(plan, marker, last, origin, pause);
            var t := plan.tail;
            && (!Accepts(plan, offset) ==> r == plan)
            && (Accepts(plan, offset) ==> r.step == plan.step + pause && r.images == plan.images + [offset])
            && (t.start < offset < t.end ==> r.tail == Strip(offset + pause, t.end + pause))
            && (Accepts(plan, offset) ==> (r.tail == t <==> marker == last && offset == t.end))
            && (Accepts(plan, offset) && r.tail != t ==> r.tail.end == t.end + pause)
  {
  }

  // ---------------------------------------------------------------- whole run

  lemma MultiplySuccessor(a: int, k: nat)
    ensures a * (k + 1) == a * k + a
  {
  }

  /** `step` is always the pause length times the number of images added. */
  lemma {:induction false} StepCountsImages(markers: seq<nat>, n: nat, active: Strip, pause: int)
    requires n <= |markers|
    ensures var plan := PauseRun(markers, n, active, pause);
            plan.step == pause * |plan.images| && |plan.images| <= n
  {
    if n > 0 {
      StepCountsImages(markers, n - 1, active, pause);
      var prev := PauseRun(markers, n - 1, active, pause);
      var plan := PauseRun(markers, n, active, pause);
      if Accepts(prev, markers[n - 1] + active.start + prev.step) {
        var k := |prev.images|;
        assert plan.step == prev.step + pause && |plan.images| == k + 1;
        MultiplySuccessor(pause, k);
      } else {
        assert plan == prev;
      }
    }
  }

  /** One marker that is not the last: it either changes nothing, or it adds one
      pause to `step`, moves the tail's end back by the pause, and leaves the tail
      starting no later than the offset plus the pause. */
  lemma TailAfterStep(plan: Plan, marker: nat, last: nat, origin: int, pause: int)
    requires pause > 0 && marker != last
    requires plan.tail.start <= marker + origin + plan.step
    ensures var offset := marker + origin + plan.step;
            var r := PauseStep(plan, marker, last, origin, pause);
            || r == plan
            || (&& r.step == plan.step + pause
                && r.tail.end == plan.tail.end + pause
                && r.tail.start <= offset + pause)
  {
  }

  /** Strictly ascending markers, as the save operator writes them: before the
      last marker the tail strip ends `step` frames after the active strip did,
      and starts no later than the offset of any marker still to come. */
  lemma {:induction false} AscendingTail(markers: seq<nat>, n: nat, active: Strip, pause: int)
    requires StrictlyAscending(markers) && pause > 0 && n <= |markers|
    ensures var plan := PauseRun(markers, n, active, pause);
            && (n < |markers| ==> plan.tail.end == active.end + plan.step)
            && (forall j :: n <= j < |markers| ==> plan.tail.start <= markers[j] + active.start + plan.step)
  {
    if n > 0 {
      var i := n - 1;
      AscendingTail(markers, i, active, pause);
      var prev := PauseRun(markers, i, active, pause);
      var plan := PauseRun(markers, n, active, pause);
      var m := markers[i];
      assert prev.tail.start <= m + active.start + prev.step;
      if n < |markers| {
        assert m < markers[|markers| - 1];
        TailAfterStep(prev, m, markers[|markers| - 1], active.start, pause);
        forall j | n <= j < |markers|
          ensures plan.tail.start <= markers[j] + active.start + plan.step
        {
          assert m < markers[j];
        }
      }
    }
  }

  /** Strictly ascending markers: a marker is acted on exactly when it is no later
      than the length of the active strip, so those markers form a prefix, and the
      k-th image starts at its marker plus the strip start plus k pauses. */
  lemma {:induction false} AscendingAccepts(markers: seq<nat>, n: nat, active: Strip, pause: int)
    requires StrictlyAscending(markers) && pause > 0 && n <= |markers|
    ensures var plan := PauseRun(markers, n, active, pause);
            && (forall k :: 0 <= k < n ==> (k < |plan.images| <==> markers[k] <= active.end - active.start))
            && (forall k :: 0 <= k < |plan.images| ==> plan.images[k] == markers[k] + active.start + pause * k)
  {
    if n > 0 {
      var i := n - 1;
      AscendingAccepts(markers, i, active, pause);
      AscendingTail(markers, i, active, pause);
      StepCountsImages(markers, i, active, pause);
      var prev := PauseRun(markers, i, active, pause);
      var plan := PauseRun(markers, n, active, pause);
      var m := markers[i];
      var offset := m + active.start + prev.step;
      assert prev.tail.start <= offset && prev.tail.end == active.end + prev.step;
      if m <= active.end - active.start {
        assert Accepts(prev, offset);
        forall k | 0 <= k < i
          ensures markers[k] <= active.end - active.start
        {
          assert markers[k] < m;
        }
        assert |prev.images| == i;
        assert plan.images == prev.images + [offset];
        assert plan.images[i] == markers[i] + active.start + pause * i;
      } else {
        assert !Accepts(prev, offset);
        assert plan == prev;
      }
    }
  }

  /** Strictly ascending markers: the planner acts on exactly the markers no later
      than the active strip's length, puts the k-th image at its marker plus the
      strip start plus k pauses, and the scene then ends on the last frame of the
      material: the pushed-back tail strip, or, when the last marker sat on the
      tail's end, the image appended after it. */
  lemma AcceptedMarkers(markers: seq<nat>, active: Strip, pause: int)
    requires StrictlyAscending(markers) && pause > 0
    ensures var plan := PauseRun(markers, |markers|, active, pause);
            && plan.step == pause * |plan.images|
            && |plan.images| <= |markers|
            && (forall k :: 0 <= k < |markers| ==> (k < |plan.images| <==> markers[k] <= active.end - active.start))
            && (forall k :: 0 <= k < |plan.images| ==> plan.images[k] == markers[k] + active.start + pause * k)
            && (plan.tail.end == active.end + plan.step
                || (plan.images != [] && plan.images[|plan.images| - 1] == plan.tail.end
                    && plan.tail.end + pause == active.end + plan.step))
  {
    var n := |markers|;
    StepCountsImages(markers, n, active, pause);
    AscendingAccepts(markers, n, active, pause);
    if n > 0 {
      AscendingTail(markers, n - 1, active, pause);
      StepCountsImages(markers, n - 1, active, pause);
      var prev := PauseRun(markers, n - 1, active, pause);
      PauseStepCases(prev, markers[n - 1], markers[n - 1], active.start, pause);
    }
  }

  /** The markers the reader returns from a file the save operator wrote are
      strictly ascending, negative frames or not, so AcceptedMarkers applies. */
  lemma SavedMarkersAscending(frames: seq<int>)
    requires StrictlyAscending(frames)
    ensures StrictlyAscending(ParseMarkers(Serialize(frames)))
  {
    RoundTrip(frames);
    NonNegativesAscending(frames);
  }

  /** Two markers 5 and 20 on a strip over frames 0 to 100, with 24-frame pauses:
      the images start at 5 and 44 (20 + 24), and the scene ends at 147. */
  lemma TwoPauses()
    ensures PauseRun([5, 20], 2, Strip(0, 100), 24) == Plan(48, Strip(68, 148), [5, 44])
  {
    var ms: seq<nat> := [5, 20];
    var p0 := PauseRun(ms, 0, Strip(0, 100), 24);
    assert p0 == Plan(0, Strip(0, 100), []);
    var p1 := PauseRun(ms, 1, Strip(0, 100), 24);
    assert p1.step == 24 && p1.tail == Strip(29, 124) && p1.images == [5];
    var p2 := PauseRun(ms, 2, Strip(0, 100), 24);
    assert p2.step == 48 && p2.tail == Strip(68, 148) && p2.images == [5, 44];
  }

  /** A single marker on the strip's end frame: the tail is not moved, the image
      follows it, and the scene ends on the image's last frame. */
  lemma PauseAtEnd()
    ensures PauseRun([100], 1, Strip(0, 100), 10) == Plan(10, Strip(0, 100), [100])
  {
    var ms: seq<nat> := [100];
    var p0 := PauseRun(ms, 0, Strip(0, 100), 10);
    assert p0 == Plan(0, Strip(0, 100), []);
    var p1 := PauseRun(ms, 1, Strip(0, 100), 10);
    assert p1.step == 10 && p1.tail == Strip(0, 100) && p1.images == [100];
  }
}
