/** The keyframe schedules of the Blink and Transparent operators
    (step_tools.py:336-394): for the current frame and the add-on settings, the
    ordered (frame, value) keys each selected object receives, and the frame the
    operator leaves in `curent_frame` for the cursor. */
module Schedule {

  /** A keyed value. The operators only choose between values and never compute
      with them: Zero is 0.0, BlinkBlend is `blend_blink`, TransparentBlend is
      `blend_transparent` (both at least 0.5, so never 0.0) and Colour is
      `color_blink`. The two blends are separate settings. */
  datatype Value = Zero | BlinkBlend | TransparentBlend | Colour

  /** One keyframe: the frame it is inserted at and the value keyed there. */
  datatype Key = Key(frame: int, value: Value)

  /** The four choices of `transparent_type`. */
  datatype Mode = Blink | FadeIn | FadeOut | FadeInOut

  /** The value keyed at loop index `i`: `even` on even indices, `odd` on odd ones. */
  function Alternate(i: nat, even: Value, odd: Value): Value
  {
    if i % 2 == 0 then even else odd
  }

  predicate StrictlyIncreasingFrames(s: seq<Key>)
  {
    forall i, j :: 0 <= i < j < |s| ==> s[i].frame < s[j].frame
  }

  lemma StepsIncrease(start: int, duration: int, i: int, j: int)
    requires duration > 0 && i < j
    ensures start + i * duration < start + j * duration
  {
  }

  // ---------------------------------------------------------------- Blink

  /** Key `i` of the blink loop: 0.0 on even and blend on odd steps, `duration` apart. */
  function BlinkKey(start: int, duration: int, i: nat): Key
  {
    Key(start + i * duration, Alternate(i, Zero, BlinkBlend))
  }

  /** The first `n` keys of the blink loop, in insertion order. */
  function BlinkKeys(start: int, duration: int, n: nat): (s: seq<Key>)
    ensures |s| == n
  {
    if n == 0 then [] else BlinkKeys(start, duration, n - 1) + [BlinkKey(start, duration, n - 1)]
  }

  /** The whole blink loop: `count * 2 + 1` steps. */
  function BlinkSchedule(start: int, duration: int, count: nat): seq<Key>
  {
    BlinkKeys(start, duration, 2 * count + 1)
  }

  lemma {:induction false} BlinkKeysAt(start: int, duration: int, n: nat, i: nat)
    requires i < n
    ensures BlinkKeys(start, duration, n)[i] == BlinkKey(start, duration, i)
  {
    if i < n - 1 {
      BlinkKeysAt(start, duration, n - 1, i);
    }
  }

  /** The blink schedule has 2*count+1 keys; key i lies at start + i*duration and
      holds 0.0 on even and blend on odd i, so it opens and closes on 0.0 and its
      frames strictly increase. */
  lemma BlinkScheduleShape(start: int, duration: int, count: nat)
    requires duration > 0
    ensures |BlinkSchedule(start, duration, count)| == 2 * count + 1
    ensures forall i :: 0 <= i < 2 * count + 1 ==>
      BlinkSchedule(start, duration, count)[i].frame == start + i * duration &&
      BlinkSchedule(start, duration, count)[i].value == (if i % 2 == 0 then Zero else BlinkBlend)
    ensures BlinkSchedule(start, duration, count)[0].value == Zero
    ensures BlinkSchedule(start, duration, count)[2 * count].value == Zero
    ensures StrictlyIncreasingFrames(BlinkSchedule(start, duration, count))
  {
    var s := BlinkSchedule(start, duration, count);
    forall i | 0 <= i < 2 * count + 1
      ensures s[i] == BlinkKey(start, duration, i)
    {
      BlinkKeysAt(start, duration, 2 * count + 1, i);
    }
    forall i, j | 0 <= i < j < |s|
      ensures s[i].frame < s[j].frame
    {
      StepsIncrease(start, duration, i, j);
    }
  }

  /** The last blink key is the largest frame of the schedule: start + 2*count*duration. */
  lemma BlinkLastIsLatest(start: int, duration: int, count: nat)
    requires duration > 0
    ensures BlinkSchedule(start, duration, count)[2 * count].frame == start + 2 * count * duration
    ensures forall k :: 0 <= k < 2 * count + 1 ==>
      BlinkSchedule(start, duration, count)[k].frame <= start + 2 * count * duration
  {
    BlinkScheduleShape(start, duration, count);
  }

  /** Two blinks of 12 frames from frame 10: keys at 10, 22, 34, 46 and 58. */
  lemma BlinkExample()
    ensures BlinkSchedule(10, 12, 2)
         == [Key(10, Zero), Key(22, BlinkBlend), Key(34, Zero), Key(46, BlinkBlend), Key(58, Zero)]
  {
  }

  // ---------------------------------------------------------------- Transparent

  /** `range_data`: the number of keys and the values of even and odd keys. */
  datatype RangeData = RangeData(keys: nat, even: Value, odd: Value)

  /** The mode table of step_tools.py:367-375. */
  function ModeRange(mode: Mode, count: nat): (r: RangeData)
    ensures {r.even, r.odd} == {Zero, TransparentBlend}
    ensures r.keys >= 1 && (r.keys % 2 == 1 <==> mode == Blink)
    ensures r.even == Zero <==> mode == Blink || mode == FadeOut
  {
    match mode
    case Blink => RangeData(count * 2 + 1, Zero, TransparentBlend)
    case FadeIn => RangeData(2, TransparentBlend, Zero)
    case FadeOut => RangeData(2, Zero, TransparentBlend)
    case FadeInOut => RangeData(4, TransparentBlend, Zero)
  }

  /** Frame of key `i`: start + i*duration, except that in fade_inout key 2 is
      pushed out by `delay` steps and key 3 by `delay - 2` steps. */
  function TransparentFrame(mode: Mode, start: int, duration: int, delay: int, i: nat): (r: int)
    ensures mode != FadeInOut || i < 2 || i > 3 ==> r == start + i * duration
    ensures mode == FadeInOut && i == 2 ==> r == start + duration * (delay + 2)
    ensures mode == FadeInOut && i == 3 ==> r == start + duration * (delay + 1)
  {
    var frame := start + i * duration;
    if mode == FadeInOut && i == 2 then frame + duration * delay
    else if mode == FadeInOut && i == 3 then frame + duration * (delay - 2)
    else frame
  }

  function TransparentKey(mode: Mode, start: int, duration: int, count: nat, delay: int, i: nat): Key
  {
    var range := ModeRange(mode, count);
    Key(TransparentFrame(mode, start, duration, delay, i), Alternate(i, range.even, range.odd))
  }

  /** The first `n` keys of the transparent loop, in insertion order. */
  function TransparentKeys(mode: Mode, start: int, duration: int, count: nat, delay: int, n: nat): (s: seq<Key>)
    ensures |s| == n
  {
    if n == 0 then []
    else TransparentKeys(mode, start, duration, count, delay, n - 1)
         + [TransparentKey(mode, start, duration, count, delay, n - 1)]
  }

  function TransparentSchedule(mode: Mode, start: int, duration: int, count: nat, delay: int): seq<Key>
  {
    TransparentKeys(mode, start, duration, count, delay, ModeRange(mode, count).keys)
  }

  /** `curent_frame` after step `i` of the transparent loop: the un-pushed frame,
      except after fade_inout's key 3, where it is that key's frame plus one step. */
  function CursorAfter(mode: Mode, start: int, duration: int, delay: int, i: int): (r: int)
    ensures mode == FadeInOut && i == 3 ==> r == TransparentFrame(mode, start, duration, delay, 2)
    ensures mode != FadeInOut && i >= 0 ==> r == TransparentFrame(mode, start, duration, delay, i)
  {
    if mode == FadeInOut && i == 3 then start + 3 * duration + duration * (delay - 2) + duration
    else start + i * duration
  }

  /** `curent_frame` when the transparent loop is done: the frame of the last key,
      except in fade_inout, where it is the frame of the third key. */
  function TransparentCursor(mode: Mode, start: int, duration: int, count: nat, delay: int): (r: int)
    ensures mode != FadeInOut
        ==> r == TransparentFrame(mode, start, duration, delay, ModeRange(mode, count).keys - 1)
    ensures mode == FadeInOut ==> r == TransparentFrame(mode, start, duration, delay, 2)
  {
    CursorAfter(mode, start, duration, delay, ModeRange(mode, count).keys - 1)
  }

  lemma {:induction false} TransparentKeysAt(mode: Mode, start: int, duration: int, count: nat, delay: int, n: nat, i: nat)
    requires i < n
    ensures TransparentKeys(mode, start, duration, count, delay, n)[i]
         == TransparentKey(mode, start, duration, count, delay, i)
  {
    if i < n - 1 {
      TransparentKeysAt(mode, start, duration, count, delay, n - 1, i);
    }
  }

  /** The key the transparent loop's blink mode puts where the blink loop puts
      `k`: the same frame and the same 0.0, with `blend_transparent` in place of
      `blend_blink`. */
  function WithTransparentBlend(k: Key): Key
  {
    Key(k.frame, if k.value == BlinkBlend then TransparentBlend else k.value)
  }

  /** In blink mode the transparent loop keys the blink loop's pattern: for equal
      start, duration and count, the same frames and the same alternation, each
      loop keying its own blend. */
  lemma TransparentBlinkKeys(start: int, duration: int, count: nat, delay: int, n: nat)
    ensures forall i :: 0 <= i < n ==>
      TransparentKeys(Blink, start, duration, count, delay, n)[i]
        == WithTransparentBlend(BlinkKeys(start, duration, n)[i])
  {
    forall i | 0 <= i < n
      ensures TransparentKeys(Blink, start, duration, count, delay, n)[i]
           == WithTransparentBlend(BlinkKeys(start, duration, n)[i])
    {
      TransparentKeysAt(Blink, start, duration, count, delay, n, i);
      BlinkKeysAt(start, duration, n, i);
    }
  }

  /** The mode table: blink mode keys 2*count+1 keys alternating 0.0 and
      blend_transparent, fade_in keys blend then 0.0, fade_out 0.0 then blend,
      and fade_inout blend, 0.0, blend, 0.0 with its last two keys pushed out. */
  lemma ModeTable(start: int, duration: int, count: nat, delay: int)
    ensures |TransparentSchedule(Blink, start, duration, count, delay)| == 2 * count + 1
    ensures forall i :: 0 <= i < 2 * count + 1 ==>
      TransparentSchedule(Blink, start, duration, count, delay)[i]
        == Key(start + i * duration, Alternate(i, Zero, TransparentBlend))
    ensures TransparentSchedule(FadeIn, start, duration, count, delay)
         == [Key(start, TransparentBlend), Key(start + duration, Zero)]
    ensures TransparentSchedule(FadeOut, start, duration, count, delay)
         == [Key(start, Zero), Key(start + duration, TransparentBlend)]
    ensures TransparentSchedule(FadeInOut, start, duration, count, delay)
         == [Key(start, TransparentBlend), Key(start + duration, Zero),
             Key(start + duration * (delay + 2), TransparentBlend), Key(start + duration * (delay + 1), Zero)]
  {
    forall i | 0 <= i < 2 * count + 1
      ensures TransparentSchedule(Blink, start, duration, count, delay)[i]
           == Key(start + i * duration, Alternate(i, Zero, TransparentBlend))
    {
      TransparentKeysAt(Blink, start, duration, count, delay, 2 * count + 1, i);
    }
    FadeKeys(FadeIn, start, duration, count, delay);
    FadeKeys(FadeOut, start, duration, count, delay);
    FadeInOutKeys(start, duration, count, delay);
  }

  /** fade_in and fade_out: two keys, `duration` apart. */
  lemma FadeKeys(mode: Mode, start: int, duration: int, count: nat, delay: int)
    requires mode == FadeIn || mode == FadeOut
    ensures TransparentSchedule(mode, start, duration, count, delay)
         == [Key(start, ModeRange(mode, count).even), Key(start + duration, ModeRange(mode, count).odd)]
  {
    var s := TransparentSchedule(mode, start, duration, count, delay);
    TransparentKeysAt(mode, start, duration, count, delay, 2, 0);
    TransparentKeysAt(mode, start, duration, count, delay, 2, 1);
    assert s[0] == Key(start, ModeRange(mode, count).even);
    assert s[1] == Key(start + duration, ModeRange(mode, count).odd);
  }

  /** fade_inout: four keys, the last two pushed out by the delay. */
  lemma FadeInOutKeys(start: int, duration: int, count: nat, delay: int)
    ensures TransparentSchedule(FadeInOut, start, duration, count, delay)
         == [Key(start, TransparentBlend), Key(start + duration, Zero),
             Key(start + duration * (delay + 2), TransparentBlend), Key(start + duration * (delay + 1), Zero)]
  {
    var s := TransparentSchedule(FadeInOut, start, duration, count, delay);
    forall i | 0 <= i < 4
      ensures s[i] == TransparentKey(FadeInOut, start, duration, count, delay, i)
    {
      TransparentKeysAt(FadeInOut, start, duration, count, delay, 4, i);
    }
    assert s[2].frame == start + duration * (delay + 2);
    assert s[3].frame == start + duration * (delay + 1);
  }

  /** fade_in and fade_out key the same two frames with their values in reverse order. */
  lemma FadeInMirrorsFadeOut(start: int, duration: int, count: nat, delay: int)
    ensures |TransparentSchedule(FadeIn, start, duration, count, delay)| == 2
    ensures |TransparentSchedule(FadeOut, start, duration, count, delay)| == 2
    ensures forall i :: 0 <= i < 2 ==>
      TransparentSchedule(FadeIn, start, duration, count, delay)[i].frame
        == TransparentSchedule(FadeOut, start, duration, count, delay)[i].frame &&
      TransparentSchedule(FadeIn, start, duration, count, delay)[i].value
        == TransparentSchedule(FadeOut, start, duration, count, delay)[1 - i].value
  {
    ModeTable(start, duration, count, delay);
  }

  /** fade_inout: the fourth key is inserted one step before the third; read in
      frame order the keys are blend, 0.0, 0.0, blend (fade in, hold, fade out) at
      four distinct frames. */
  lemma FadeInOutTimeline(start: int, duration: int, count: nat, delay: int)
    requires duration > 0 && delay >= 2
    ensures |TransparentSchedule(FadeInOut, start, duration, count, delay)| == 4
    ensures TransparentSchedule(FadeInOut, start, duration, count, delay)[3].frame + duration
         == TransparentSchedule(FadeInOut, start, duration, count, delay)[2].frame
    ensures TransparentSchedule(FadeInOut, start, duration, count, delay)[0].frame
          < TransparentSchedule(FadeInOut, start, duration, count, delay)[1].frame
          < TransparentSchedule(FadeInOut, start, duration, count, delay)[3].frame
          < TransparentSchedule(FadeInOut, start, duration, count, delay)[2].frame
    ensures TransparentSchedule(FadeInOut, start, duration, count, delay)[0].value == TransparentBlend
    ensures TransparentSchedule(FadeInOut, start, duration, count, delay)[1].value == Zero
    ensures TransparentSchedule(FadeInOut, start, duration, count, delay)[3].value == Zero
    ensures TransparentSchedule(FadeInOut, start, duration, count, delay)[2].value == TransparentBlend
  {
    ModeTable(start, duration, count, delay);
    StepsIncrease(start, duration, 1, delay + 1);
    StepsIncrease(start, duration, delay + 1, delay + 2);
    assert duration * (delay + 1) == (delay + 1) * duration;
    assert duration * (delay + 2) == (delay + 2) * duration;
  }

  /** In every mode the cursor target is the latest keyed frame: the last key in
      blink, fade_in and fade_out, whose frames strictly increase, and the third
      key, start + duration*(delay+2), in fade_inout. */
  lemma CursorIsLatestKey(mode: Mode, start: int, duration: int, count: nat, delay: int)
    requires duration > 0 && delay >= 2
    ensures mode != FadeInOut ==>
      StrictlyIncreasingFrames(TransparentSchedule(mode, start, duration, count, delay)) &&
      TransparentCursor(mode, start, duration, count, delay)
        == TransparentSchedule(mode, start, duration, count, delay)[ModeRange(mode, count).keys - 1].frame
    ensures mode == FadeInOut ==>
      TransparentCursor(mode, start, duration, count, delay) == start + duration * (delay + 2) &&
      TransparentCursor(mode, start, duration, count, delay)
        == TransparentSchedule(mode, start, duration, count, delay)[2].frame
    ensures forall k :: 0 <= k < ModeRange(mode, count).keys ==>
      TransparentSchedule(mode, start, duration, count, delay)[k].frame
        <= TransparentCursor(mode, start, duration, count, delay)
  {
    ModeTable(start, duration, count, delay);
    var s := TransparentSchedule(mode, start, duration, count, delay);
    match mode
    case Blink =>
      forall i, j | 0 <= i < j < |s|
        ensures s[i].frame < s[j].frame
      {
        StepsIncrease(start, duration, i, j);
      }
      assert TransparentCursor(mode, start, duration, count, delay) == start + (count * 2) * duration;
      assert s[2 * count].frame == start + (2 * count) * duration;
    case FadeIn =>
    case FadeOut =>
    case FadeInOut =>
      FadeInOutTimeline(start, duration, count, delay);
      assert start + 3 * duration + duration * (delay - 2) + duration == start + duration * (delay + 2);
  }
}
