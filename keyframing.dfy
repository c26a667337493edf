/** The keyframing operators: StepToolsBlink, StepToolsTransparent, the three
    fade operators and StepToolsCursor (step_tools.py:327-436). Each operator
    object keeps the selected objects (`self.objects`) and the frame it will move
    the cursor to (`self.curent_frame`); its loops append to the scene's log of
    keyframe insertions. */
module Keyframing {
  import opened Schedule
  import opened Timeline

  predicate Distinct(objects: seq<nat>)
  {
    forall i, j :: 0 <= i < j < |objects| ==> objects[i] != objects[j]
  }

  /** Every insertion in `log` is on object `obj`. */
  predicate Belongs(log: seq<Insertion>, obj: nat)
  {
    forall i :: 0 <= i < |log| ==> log[i].obj == obj
  }

  /** The keys inserted on `obj`'s property `path`, in insertion order. */
  function KeysOf(log: seq<Insertion>, obj: nat, path: Path): seq<Key>
  {
    if log == [] then []
    else
      var e := log[|log| - 1];
      KeysOf(log[..|log| - 1], obj, path) + (if e.obj == obj && e.path == path then [e.key] else [])
  }

  /** One block of insertions per object, in object order. */
  function PerObject(objects: seq<nat>, block: nat -> seq<Insertion>): (r: seq<Insertion>)
    ensures (forall x :: Belongs(block(x), x)) ==> forall k :: 0 <= k < |r| ==> r[k].obj in objects
  {
    if objects == [] then []
    else PerObject(objects[..|objects| - 1], block) + block(objects[|objects| - 1])
  }

  /** `keys`, each inserted on `obj`'s property `path`. */
  function Tagged(obj: nat, path: Path, keys: seq<Key>): seq<Insertion>
  {
    seq(|keys|, i requires 0 <= i < |keys| => Insertion(obj, path, keys[i]))
  }

  lemma TaggedSnoc(obj: nat, path: Path, keys: seq<Key>, key: Key)
    ensures Tagged(obj, path, keys + [key]) == Tagged(obj, path, keys) + [Insertion(obj, path, key)]
  {
  }

  // ---------------------------------------------------------------- what the loops insert

  /** Step `i` of the blink loop on `obj`: the factor key, and at the first and
      the last step also a colour key at the same frame. */
  function BlinkStep(obj: nat, start: int, duration: int, count: nat, i: nat): (r: seq<Insertion>)
    ensures Belongs(r, obj) && 1 <= |r| <= 2 && r[0].path == BlinkFactor
    ensures |r| == 2 <==> i == 0 || i == count * 2
    ensures |r| == 2 ==> r[1].path == BlinkColour && r[1].key.value == Colour
    ensures forall k :: 0 <= k < |r| ==> r[k].key.frame == BlinkKey(start, duration, i).frame
  {
    var key := BlinkKey(start, duration, i);
    [Insertion(obj, BlinkFactor, key)]
    + (if i == 0 || i == count * 2 then [Insertion(obj, BlinkColour, Key(key.frame, Colour))] else [])
  }

  /** The insertions of the first `n` steps of the blink loop on `obj`. */
  function BlinkSteps(obj: nat, start: int, duration: int, count: nat, n: nat): seq<Insertion>
  {
    if n == 0 then []
    else BlinkSteps(obj, start, duration, count, n - 1) + BlinkStep(obj, start, duration, count, n - 1)
  }

  function BlinkBlock(start: int, duration: int, count: nat): nat -> seq<Insertion>
  {
    (obj: nat) => BlinkSteps(obj, start, duration, count, count * 2 + 1)
  }

  function TransparentBlock(mode: Mode, start: int, duration: int, count: nat, delay: int): nat -> seq<Insertion>
  {
    (obj: nat) => Tagged(obj, TransparentFactor, TransparentSchedule(mode, start, duration, count, delay))
  }

  // ---------------------------------------------------------------- lemmas on logs

  lemma {:induction false} KeysOfAppend(a: seq<Insertion>, b: seq<Insertion>, obj: nat, path: Path)
    ensures KeysOf(a + b, obj, path) == KeysOf(a, obj, path) + KeysOf(b, obj, path)
    decreases |b|
  {
    if b != [] {
      assert (a + b)[..|a + b| - 1] == a + b[..|b| - 1];
      KeysOfAppend(a, b[..|b| - 1], obj, path);
    } else {
      assert a + b == a;
    }
  }

  lemma {:induction false} KeysOfForeign(log: seq<Insertion>, owner: nat, obj: nat, path: Path)
    requires Belongs(log, owner) && owner != obj
    ensures KeysOf(log, obj, path) == []
  {
    if log != [] {
      KeysOfForeign(log[..|log| - 1], owner, obj, path);
    }
  }

  lemma {:induction false} KeysOfTagged(obj: nat, path: Path, keys: seq<Key>, other: Path)
    ensures KeysOf(Tagged(obj, path, keys), obj, other) == if other == path then keys else []
  {
    if keys != [] {
      assert Tagged(obj, path, keys)[..|keys| - 1] == Tagged(obj, path, keys[..|keys| - 1]);
      KeysOfTagged(obj, path, keys[..|keys| - 1], other);
    }
  }

  lemma {:induction false} PerObjectAbsent(objects: seq<nat>, block: nat -> seq<Insertion>, obj: nat, path: Path)
    requires forall x :: Belongs(block(x), x)
    requires obj !in objects
    ensures KeysOf(PerObject(objects, block), obj, path) == []
  {
    if objects != [] {
      var init, last := objects[..|objects| - 1], objects[|objects| - 1];
      PerObjectAbsent(init, block, obj, path);
      KeysOfAppend(PerObject(init, block), block(last), obj, path);
      KeysOfForeign(block(last), last, obj, path);
    }
  }

  /** With distinct objects, what an object receives in the whole log is exactly its own block. */
  lemma {:induction false} PerObjectKeysOf(objects: seq<nat>, block: nat -> seq<Insertion>, obj: nat, path: Path)
    requires forall x :: Belongs(block(x), x)
    requires Distinct(objects) && obj in objects
    ensures KeysOf(PerObject(objects, block), obj, path) == KeysOf(block(obj), obj, path)
  {
    var init, last := objects[..|objects| - 1], objects[|objects| - 1];
    KeysOfAppend(PerObject(init, block), block(last), obj, path);
    if last == obj {
      assert obj !in init by {
        forall i | 0 <= i < |init| ensures init[i] != obj {
          assert init[i] == objects[i];
        }
      }
      PerObjectAbsent(init, block, obj, path);
    } else {
      assert obj in init by {
        var i :| 0 <= i < |objects| && objects[i] == obj;
        assert init[i] == obj;
      }
      PerObjectKeysOf(init, block, obj, path);
      KeysOfForeign(block(last), last, obj, path);
    }
  }

  lemma {:induction false} BlinkStepsBelong(obj: nat, start: int, duration: int, count: nat, n: nat)
    ensures Belongs(BlinkSteps(obj, start, duration, count, n), obj)
  {
    if n > 0 {
      BlinkStepsBelong(obj, start, duration, count, n - 1);
    }
  }

  /** What one step of the blink loop keys on each of the object's properties. */
  lemma BlinkStepKeys(obj: nat, start: int, duration: int, count: nat, i: nat, path: Path)
    ensures KeysOf(BlinkStep(obj, start, duration, count, i), obj, path)
         == if path == BlinkFactor then [BlinkKey(start, duration, i)]
            else if path == BlinkColour && (i == 0 || i == count * 2)
            then [Key(BlinkKey(start, duration, i).frame, Colour)]
            else []
  {
    var key := BlinkKey(start, duration, i);
    var factor := Insertion(obj, BlinkFactor, key);
    assert [factor][..0] == [];
    assert KeysOf([factor], obj, path) == if path == BlinkFactor then [key] else [];
    if i == 0 || i == count * 2 {
      var colour := Insertion(obj, BlinkColour, Key(key.frame, Colour));
      assert [factor, colour][..1] == [factor];
      assert KeysOf([factor, colour], obj, path)
          == KeysOf([factor], obj, path) + if path == BlinkColour then [colour.key] else [];
    }
  }

  /** The factor keys of the blink loop on an object are the blink schedule. */
  lemma {:induction false} BlinkFactorKeys(obj: nat, start: int, duration: int, count: nat, n: nat)
    ensures KeysOf(BlinkSteps(obj, start, duration, count, n), obj, BlinkFactor) == BlinkKeys(start, duration, n)
  {
    if n > 0 {
      var prev := BlinkSteps(obj, start, duration, count, n - 1);
      var step := BlinkStep(obj, start, duration, count, n - 1);
      BlinkFactorKeys(obj, start, duration, count, n - 1);
      KeysOfAppend(prev, step, obj, BlinkFactor);
      BlinkStepKeys(obj, start, duration, count, n - 1, BlinkFactor);
      assert BlinkSteps(obj, start, duration, count, n) == prev + step;
      assert KeysOf(step, obj, BlinkFactor) == [BlinkKey(start, duration, n - 1)];
      assert BlinkKeys(start, duration, n) == BlinkKeys(start, duration, n - 1) + [BlinkKey(start, duration, n - 1)];
    }
  }

  /** Colour keys after the first `n` steps of the blink loop, 1 <= n <= 2*count:
      only the one at the first step. */
  lemma {:induction false} BlinkColourKeysSoFar(obj: nat, start: int, duration: int, count: nat, n: nat)
    requires 1 <= n <= count * 2
    ensures KeysOf(BlinkSteps(obj, start, duration, count, n), obj, BlinkColour) == [Key(start, Colour)]
  {
    var step := BlinkStep(obj, start, duration, count, n - 1);
    KeysOfAppend(BlinkSteps(obj, start, duration, count, n - 1), step, obj, BlinkColour);
    BlinkStepKeys(obj, start, duration, count, n - 1, BlinkColour);
    if n > 1 {
      BlinkColourKeysSoFar(obj, start, duration, count, n - 1);
    }
  }

  /** Exactly two colour keys per object: at the first and at the last blink frame. */
  lemma BlinkColourKeys(obj: nat, start: int, duration: int, count: nat)
    requires count >= 1
    ensures KeysOf(BlinkSteps(obj, start, duration, count, count * 2 + 1), obj, BlinkColour)
         == [Key(start, Colour), Key(start + 2 * count * duration, Colour)]
  {
    var n := count * 2 + 1;
    var prev := BlinkSteps(obj, start, duration, count, n - 1);
    var step := BlinkStep(obj, start, duration, count, n - 1);
    assert BlinkSteps(obj, start, duration, count, n) == prev + step;
    KeysOfAppend(prev, step, obj, BlinkColour);
    BlinkColourKeysSoFar(obj, start, duration, count, n - 1);
    LastBlinkColour(obj, start, duration, count);
  }

  /** The colour key of the last blink step. */
  lemma LastBlinkColour(obj: nat, start: int, duration: int, count: nat)
    ensures KeysOf(BlinkStep(obj, start, duration, count, count * 2), obj, BlinkColour)
         == [Key(start + 2 * count * duration, Colour)]
  {
    BlinkStepKeys(obj, start, duration, count, count * 2, BlinkColour);
    assert BlinkKey(start, duration, count * 2).frame == start + 2 * count * duration;
  }

  /** Every selected object gets the identical blink schedule on its factor, the
      same two colour keys, and nothing on its transparency. */
  lemma BlinkEveryObject(objects: seq<nat>, start: int, duration: int, count: nat, obj: nat)
    requires Distinct(objects) && obj in objects && count >= 1
    ensures KeysOf(PerObject(objects, BlinkBlock(start, duration, count)), obj, BlinkFactor)
         == BlinkSchedule(start, duration, count)
    ensures KeysOf(PerObject(objects, BlinkBlock(start, duration, count)), obj, BlinkColour)
         == [Key(start, Colour), Key(start + 2 * count * duration, Colour)]
    ensures KeysOf(PerObject(objects, BlinkBlock(start, duration, count)), obj, TransparentFactor) == []
  {
    var block := BlinkBlock(start, duration, count);
    forall x ensures Belongs(block(x), x) {
      BlinkStepsBelong(x, start, duration, count, count * 2 + 1);
    }
    PerObjectKeysOf(objects, block, obj, BlinkFactor);
    PerObjectKeysOf(objects, block, obj, BlinkColour);
    PerObjectKeysOf(objects, block, obj, TransparentFactor);
    BlinkFactorKeys(obj, start, duration, count, count * 2 + 1);
    BlinkColourKeys(obj, start, duration, count);
    BlinkNoTransparentKeys(obj, start, duration, count);
  }

  /** The blink loop never keys the transparency property. */
  lemma BlinkNoTransparentKeys(obj: nat, start: int, duration: int, count: nat)
    ensures KeysOf(BlinkSteps(obj, start, duration, count, count * 2 + 1), obj, TransparentFactor) == []
  {
    var log := BlinkSteps(obj, start, duration, count, count * 2 + 1);
    forall i | 0 <= i < |log| ensures log[i].path != TransparentFactor {
      BlinkStepsNeverTransparent(obj, start, duration, count, count * 2 + 1, i);
    }
    KeysOfNoPath(log, obj, TransparentFactor);
  }

  lemma {:induction false} BlinkStepsNeverTransparent(obj: nat, start: int, duration: int, count: nat, n: nat, i: nat)
    requires i < |BlinkSteps(obj, start, duration, count, n)|
    ensures BlinkSteps(obj, start, duration, count, n)[i].path != TransparentFactor
  {
    var prev := BlinkSteps(obj, start, duration, count, n - 1);
    if i < |prev| {
      BlinkStepsNeverTransparent(obj, start, duration, count, n - 1, i);
    }
  }

  lemma {:induction false} KeysOfNoPath(log: seq<Insertion>, obj: nat, path: Path)
    requires forall i :: 0 <= i < |log| ==> log[i].path != path
    ensures KeysOf(log, obj, path) == []
  {
    if log != [] {
      KeysOfNoPath(log[..|log| - 1], obj, path);
    }
  }

  /** Every selected object gets the identical transparent schedule, and nothing on its blink properties. */
  lemma TransparentEveryObject(objects: seq<nat>, mode: Mode, start: int, duration: int, count: nat, delay: int, obj: nat)
    requires Distinct(objects) && obj in objects
    ensures KeysOf(PerObject(objects, TransparentBlock(mode, start, duration, count, delay)), obj, TransparentFactor)
         == TransparentSchedule(mode, start, duration, count, delay)
    ensures KeysOf(PerObject(objects, TransparentBlock(mode, start, duration, count, delay)), obj, BlinkFactor) == []
    ensures KeysOf(PerObject(objects, TransparentBlock(mode, start, duration, count, delay)), obj, BlinkColour) == []
  {
    var block := TransparentBlock(mode, start, duration, count, delay);
    var keys := TransparentSchedule(mode, start, duration, count, delay);
    forall x ensures Belongs(block(x), x) {
    }
    forall path: Path
      ensures KeysOf(PerObject(objects, block), obj, path) == if path == TransparentFactor then keys else []
    {
      PerObjectKeysOf(objects, block, obj, path);
      KeysOfTagged(obj, TransparentFactor, keys, path);
    }
  }

  // ---------------------------------------------------------------- the operators

  class KeyframeOperator {
    /** `self.objects`: the selected objects that have a material, each once;
        StepToolsMain.execute collects them, which is not part of this model. */
    var objects: seq<nat>
    /** `self.curent_frame`: where StepToolsCursor moves the cursor to. */
    var curentFrame: int

    /** StepToolsMain.execute adds each object to `self.objects` at most once. */
    predicate Valid()
      reads this
    {
      Distinct(objects)
    }

    constructor (objects: seq<nat>, frame: int)
      requires Distinct(objects)
      ensures this.objects == objects && curentFrame == frame
      ensures Valid()
    {
      this.objects := objects;
      curentFrame := frame;
    }

    /** StepToolsCursor.execute: when some object was processed and `move_cursor`
        is on, move the current frame to `curent_frame`, and with `set_marker`
        also on, drop a "P" marker there. */
    method Cursor(scene: Scene)
      requires Valid()
      modifies scene`frameCurrent, scene`markers
      ensures Valid()
      ensures scene.frameCurrent
           == if objects != [] && scene.settings.moveCursor then curentFrame else old(scene.frameCurrent)
      ensures scene.markers
           == if objects != [] && scene.settings.moveCursor && scene.settings.setMarker
              then old(scene.markers) + [Marker("P", curentFrame)]
              else old(scene.markers)
    {
      if objects != [] && scene.settings.moveCursor {
        scene.frameCurrent := curentFrame;
        if scene.settings.setMarker {
          scene.AddMarker();
        }
      }
    }

    /** StepToolsBlink.execute after the object collection: every object gets the
        blink loop, then the cursor rule runs. */
    method Blink(scene: Scene)
      requires Valid() && scene.settings.Valid()
      modifies this`curentFrame, scene`frameCurrent, scene`markers, scene`keyframes
      ensures Valid()
      ensures scene.keyframes == old(scene.keyframes)
        + PerObject(objects, BlinkBlock(old(scene.frameCurrent), scene.settings.durationBlink, scene.settings.countBlink as nat))
      ensures curentFrame == if objects == [] then old(scene.frameCurrent)
        else BlinkSchedule(old(scene.frameCurrent), scene.settings.durationBlink, scene.settings.countBlink as nat)
               [scene.settings.countBlink * 2].frame
      ensures scene.frameCurrent
           == if objects != [] && scene.settings.moveCursor then curentFrame else old(scene.frameCurrent)
      ensures scene.markers
           == if objects != [] && scene.settings.moveCursor && scene.settings.setMarker
              then old(scene.markers) + [Marker("P", curentFrame)]
              else old(scene.markers)
    {
      ghost var block := BlinkBlock(scene.frameCurrent, scene.settings.durationBlink, scene.settings.countBlink as nat);
      ghost var last := BlinkSchedule(scene.frameCurrent, scene.settings.durationBlink, scene.settings.countBlink as nat)
                          [scene.settings.countBlink * 2].frame;
      curentFrame := scene.frameCurrent;
      for k := 0 to |objects|
        invariant scene.frameCurrent == old(scene.frameCurrent) && scene.markers == old(scene.markers)
        invariant scene.keyframes == old(scene.keyframes) + PerObject(objects[..k], block)
        invariant curentFrame == if k == 0 then old(scene.frameCurrent) else last
      {
        BlinkObject(scene, objects[k]);
        assert objects[..k + 1][..k] == objects[..k];
      }
      assert objects[..|objects|] == objects;
      Cursor(scene);
    }

    /** The body of StepToolsBlink's object loop: for i in 0 .. 2*count, key 0.0
        (even i) or the blend (odd i) at frame_current + i*duration, and at the
        first and last i also the colour; `curent_frame` follows the frame. */
    method BlinkObject(scene: Scene, obj: nat)
      requires Valid() && scene.settings.Valid()
      modifies this`curentFrame, scene`keyframes
      ensures Valid()
      ensures scene.keyframes == old(scene.keyframes)
        + BlinkSteps(obj, scene.frameCurrent, scene.settings.durationBlink,
                     scene.settings.countBlink as nat, scene.settings.countBlink * 2 + 1)
      ensures curentFrame == BlinkSchedule(scene.frameCurrent, scene.settings.durationBlink,
                                           scene.settings.countBlink as nat)[scene.settings.countBlink * 2].frame
    {
      var duration, count := scene.settings.durationBlink, scene.settings.countBlink;
      for i := 0 to count * 2 + 1
        invariant scene.keyframes == old(scene.keyframes) + BlinkSteps(obj, scene.frameCurrent, duration, count as nat, i)
        invariant i > 0 ==> curentFrame == scene.frameCurrent + (i - 1) * duration
      {
        var value := if i % 2 == 0 then Zero else BlinkBlend;
        var frame := scene.frameCurrent + i * duration;
        curentFrame := frame;
        scene.keyframes := scene.keyframes + [Insertion(obj, BlinkFactor, Key(frame, value))];
        if i == 0 || i == count * 2 {
          scene.keyframes := scene.keyframes + [Insertion(obj, BlinkColour, Key(frame, Colour))];
        }
      }
      BlinkKeysAt(scene.frameCurrent, duration, count * 2 + 1, count * 2);
    }

    /** StepToolsTransparent.execute after the object collection: every object
        gets the transparent loop, then the cursor rule runs. */
    method Transparent(scene: Scene)
      requires Valid() && scene.settings.Valid()
      modifies this`curentFrame, scene`frameCurrent, scene`markers, scene`keyframes
      ensures Valid()
      ensures scene.keyframes == old(scene.keyframes)
        + PerObject(objects, TransparentBlock(scene.settings.transparentType, old(scene.frameCurrent),
            scene.settings.durationFade, scene.settings.countTransparentBlink as nat, scene.settings.delayLength))
      ensures curentFrame == if objects == [] then old(scene.frameCurrent)
        else TransparentCursor(scene.settings.transparentType, old(scene.frameCurrent),
          scene.settings.durationFade, scene.settings.countTransparentBlink as nat, scene.settings.delayLength)
      ensures scene.frameCurrent
           == if objects != [] && scene.settings.moveCursor then curentFrame else old(scene.frameCurrent)
      ensures scene.markers
           == if objects != [] && scene.settings.moveCursor && scene.settings.setMarker
              then old(scene.markers) + [Marker("P", curentFrame)]
              else old(scene.markers)
    {
      ghost var block := TransparentBlock(scene.settings.transparentType, scene.frameCurrent,
        scene.settings.durationFade, scene.settings.countTransparentBlink as nat, scene.settings.delayLength);
      ghost var last := TransparentCursor(scene.settings.transparentType, scene.frameCurrent,
        scene.settings.durationFade, scene.settings.countTransparentBlink as nat, scene.settings.delayLength);
      curentFrame := scene.frameCurrent;
      for k := 0 to |objects|
        invariant scene.frameCurrent == old(scene.frameCurrent) && scene.markers == old(scene.markers)
        invariant scene.keyframes == old(scene.keyframes) + PerObject(objects[..k], block)
        invariant curentFrame == if k == 0 then old(scene.frameCurrent) else last
      {
        TransparentObject(scene, objects[k]);
        assert objects[..k + 1][..k] == objects[..k];
      }
      assert objects[..|objects|] == objects;
      Cursor(scene);
    }

    /** The body of StepToolsTransparent's object loop: pick `range_data` from the
        mode table, key its values `duration_fade` apart, and in fade_inout push
        key 2 out by `delay_length` steps and key 3 by `delay_length - 2` steps,
        leaving `curent_frame` one step after key 3. */
    method TransparentObject(scene: Scene, obj: nat)
      requires Valid() && scene.settings.Valid()
      modifies this`curentFrame, scene`keyframes
      ensures Valid()
      ensures scene.keyframes == old(scene.keyframes)
        + Tagged(obj, TransparentFactor, TransparentSchedule(scene.settings.transparentType, scene.frameCurrent,
            scene.settings.durationFade, scene.settings.countTransparentBlink as nat, scene.settings.delayLength))
      ensures curentFrame == TransparentCursor(scene.settings.transparentType, scene.frameCurrent,
            scene.settings.durationFade, scene.settings.countTransparentBlink as nat, scene.settings.delayLength)
    {
      var mode, duration, delay := scene.settings.transparentType, scene.settings.durationFade, scene.settings.delayLength;
      var count := scene.settings.countTransparentBlink;
      var range: RangeData;
      if mode == Mode.Blink {
        range := RangeData(count * 2 + 1, Zero, TransparentBlend);
      } else if mode == FadeIn {
        range := RangeData(2, TransparentBlend, Zero);
      } else if mode == FadeOut {
        range := RangeData(2, Zero, TransparentBlend);
      } else {
        range := RangeData(4, TransparentBlend, Zero);
      }
      assert range == ModeRange(mode, count as nat);
      for i := 0 to range.keys
        invariant scene.keyframes == old(scene.keyframes)
          + Tagged(obj, TransparentFactor, TransparentKeys(mode, scene.frameCurrent, duration, count as nat, delay, i))
        invariant i > 0 ==> curentFrame == CursorAfter(mode, scene.frameCurrent, duration, delay, i - 1)
      {
        var value := if i % 2 == 0 then range.even else range.odd;
        var frame := scene.frameCurrent + i * duration;
        curentFrame := frame;
        if mode == FadeInOut {
          if i == 2 {
            frame := frame + duration * delay;
          } else if i == 3 {
            frame := frame + duration * (delay - 2);
            curentFrame := frame + duration;
          }
        }
        assert Key(frame, value) == TransparentKey(mode, scene.frameCurrent, duration, count as nat, delay, i);
        TaggedSnoc(obj, TransparentFactor, TransparentKeys(mode, scene.frameCurrent, duration, count as nat, delay, i),
                   Key(frame, value));
        scene.keyframes := scene.keyframes + [Insertion(obj, TransparentFactor, Key(frame, value))];
      }
    }

    /** StepToolsFadeIn, StepToolsFadeOut and StepToolsFadeInOut: each stores its
        mode in `transparent_type`, which stays set afterwards, then runs the
        Transparent operator. */
    method Fade(scene: Scene, mode: Mode)
      requires Valid() && mode != Mode.Blink && scene.settings.Valid()
      modifies this`curentFrame, scene`frameCurrent, scene`markers, scene`keyframes, scene`settings
      ensures Valid()
      ensures scene.settings == old(scene.settings).(transparentType := mode)
      ensures scene.keyframes == old(scene.keyframes)
        + PerObject(objects, TransparentBlock(mode, old(scene.frameCurrent),
            scene.settings.durationFade, scene.settings.countTransparentBlink as nat, scene.settings.delayLength))
      ensures curentFrame == if objects == [] then old(scene.frameCurrent)
        else TransparentCursor(mode, old(scene.frameCurrent),
          scene.settings.durationFade, scene.settings.countTransparentBlink as nat, scene.settings.delayLength)
      ensures scene.frameCurrent
           == if objects != [] && scene.settings.moveCursor then curentFrame else old(scene.frameCurrent)
      ensures scene.markers
           == if objects != [] && scene.settings.moveCursor && scene.settings.setMarker
              then old(scene.markers) + [Marker("P", curentFrame)]
              else old(scene.markers)
    {
      scene.settings := scene.settings.(transparentType := mode);
      Transparent(scene);
    }
  }
}
