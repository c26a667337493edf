/** The host scene state the operators read and change: the current frame, the
    timeline markers, the keyframes inserted on object properties, and the
    add-on's scene properties (step_tools.py:45-153). */
module Timeline {
  import opened Schedule

  /** A timeline marker: its name and frame. */
  datatype Marker = Marker(name: string, frame: int)

  /** The custom object properties the operators key: "StepTools_Blink",
      "StepTools_Blink_Color" and "StepTools_Transparent". */
  datatype Path = BlinkFactor | BlinkColour | TransparentFactor

  /** One `keyframe_insert` call: the object, the property path and the key. */
  datatype Insertion = Insertion(obj: nat, path: Path, key: Key)

  /** The integer, enum and boolean scene properties the modelled operators read.
      The blends and the colour are not here: they are only ever copied into a
      key, as Value.BlinkBlend, Value.TransparentBlend and Value.Colour. */
  datatype Settings = Settings(
    durationBlink: int,
    countBlink: int,
    transparentType: Mode,
    durationFade: int,
    countTransparentBlink: int,
    delayLength: int,
    durationPause: int,
    moveCursor: bool,
    setMarker: bool)
  {
    /** The bounds the property declarations impose (step_tools.py:64, 71, 106,
        113, 120-121, 129-130); the operators themselves check none of them. */
    predicate Valid()
      ensures Valid() ==> durationBlink > 0 && durationFade > 0 && countBlink > 0 && delayLength >= 2
    {
      && durationBlink >= 2
      && countBlink >= 1
      && durationFade >= 3
      && countTransparentBlink >= 1
      && 2 <= delayLength <= 10
      && 5 <= durationPause <= 50
    }
  }

  class Scene {
    /** `frame_current` */
    var frameCurrent: int
    /** `timeline_markers`, in creation order */
    var markers: seq<Marker>
    /** every `keyframe_insert` call made so far, in call order */
    var keyframes: seq<Insertion>
    /** `scene.property` */
    var settings: Settings

    constructor (frame: int, markers: seq<Marker>, settings: Settings)
      ensures frameCurrent == frame && this.markers == markers
      ensures keyframes == [] && this.settings == settings
    {
      frameCurrent := frame;
      this.markers := markers;
      keyframes := [];
      this.settings := settings;
    }

    /** StepToolsMarker.execute: a marker named "P" at the current frame. */
    method AddMarker()
      modifies this`markers
      ensures markers == old(markers) + [Marker("P", frameCurrent)]
    {
      markers := markers + [Marker("P", frameCurrent)];
    }
  }
}
