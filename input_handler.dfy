/**
 * The input layer of src/utils/input_handler.ts: keyboard and first-gamepad
 * readings become the rocket and camera input vectors, and the primary and tab
 * buttons are turned into just-pressed flags by edge detection.
 *
 * Polling the devices is not modelled: each update receives what the keyboard
 * and the gamepad report for that frame as a RawInput.
 */
module InputHandling {
  import opened Wrappers
  import opened Geometry
  import opened Rockets

  /** Axis and trigger values at or below this, in absolute value, are ignored. */
  const JoystickThreshold: real := 0.1

  datatype Button = Button(value: real, pressed: bool)

  datatype Gamepad = Gamepad(axes: seq<real>, buttons: seq<Button>)

  /**
   * One frame of raw input: the cursor keys and space bar, whether the Tab key
   * went down this frame (Phaser's JustDown), and the first gamepad if any.
   */
  datatype RawInput = RawInput(
    up: bool, down: bool, left: bool, right: bool, space: bool,
    tabKeyJustDown: bool,
    pad: Option<Gamepad>)

  /** A keyboard axis from its two keys: the positive key wins over the negative one. */
  function KeyboardAxis(positive: bool, negative: bool): (a: real)
    ensures a == 1.0 || a == 0.0 || a == -1.0
    ensures a == 1.0 <==> positive
    ensures a == -1.0 <==> !positive && negative
  {
    if positive then 1.0 else if negative then -1.0 else 0.0
  }

  /** The joystick deadzone. */
  function Deadzone(v: real): (r: real)
    ensures Abs(v) > JoystickThreshold ==> r == v
    ensures Abs(v) <= JoystickThreshold ==> r == 0.0
  {
    if Abs(v) > JoystickThreshold then v else 0.0
  }

  /** Axis i of the pad, or 0 when the pad has no such axis. */
  function AxisValue(pad: Gamepad, i: nat): real
  {
    if |pad.axes| > i then pad.axes[i] else 0.0
  }

  /** Button i exists and its analogue value is above the threshold. */
  predicate ButtonAbove(pad: Gamepad, i: nat)
  {
    |pad.buttons| > i && pad.buttons[i].value > JoystickThreshold
  }

  /** What update derives from the gamepad, or the defaults when there is none. */
  datatype PadReading = PadReading(
    xJoystick: real, yJoystick: real, triggerAxis: real,
    rightTriggerPressed: bool, primaryPressed: bool)

  function ReadPad(raw: RawInput): (r: PadReading)
    ensures raw.pad.None? ==> r == PadReading(0.0, 0.0, 0.0, false, raw.space)
    ensures r.xJoystick == 0.0 || Abs(r.xJoystick) > JoystickThreshold
    ensures r.yJoystick == 0.0 || Abs(r.yJoystick) > JoystickThreshold
    ensures r.triggerAxis == -1.0 || r.triggerAxis == 0.0 || r.triggerAxis == 1.0
    ensures r.rightTriggerPressed ==> r.triggerAxis != 0.0
    ensures r.primaryPressed <==>
      raw.space || (raw.pad.Some? && |raw.pad.value.buttons| > 0 && raw.pad.value.buttons[0].pressed)
  {
    match raw.pad
    case None => PadReading(0.0, 0.0, 0.0, false, raw.space)
    case Some(pad) =>
      var trigger :=
        if ButtonAbove(pad, 6) then -1.0
        else if ButtonAbove(pad, 7) then 1.0
        else 0.0;
      PadReading(
        Deadzone(AxisValue(pad, 0)),
        -Deadzone(AxisValue(pad, 1)),
        trigger,
        ButtonAbove(pad, 7),
        raw.space || (|pad.buttons| > 0 && pad.buttons[0].pressed))
  }

  /** A non-zero joystick (or trigger) value overrides the keyboard value. */
  function Prefer(primary: real, fallback: real): real
  {
    if primary != 0.0 then primary else fallback
  }

  function KeyboardX(raw: RawInput): real { KeyboardAxis(raw.right, raw.left) }
  function KeyboardY(raw: RawInput): real { KeyboardAxis(raw.up, raw.down) }

  /** The rotational rocket input: steering from x, thrust from the triggers or up/down. */
  function RotationalInput(raw: RawInput): (v: Vec)
    ensures v.x == DirectionalInput(raw).x
    ensures v.y == -1.0 || v.y == 0.0 || v.y == 1.0
  {
    var r := ReadPad(raw);
    Vec(Prefer(r.xJoystick, KeyboardX(raw)), Prefer(r.triggerAxis, KeyboardY(raw)))
  }

  /** The directional rocket input; the camera input is the same vector. */
  function DirectionalInput(raw: RawInput): (v: Vec)
    ensures raw.pad.None? ==> v == Vec(KeyboardX(raw), KeyboardY(raw))
    ensures v == Vec(0.0, 0.0) <==>
      && ReadPad(raw).xJoystick == 0.0 && ReadPad(raw).yJoystick == 0.0
      && !raw.left && !raw.right && !raw.up && !raw.down
  {
    var r := ReadPad(raw);
    Vec(Prefer(r.xJoystick, KeyboardX(raw)), Prefer(r.yJoystick, KeyboardY(raw)))
  }

  /** A stick axis beyond the deadzone overrides the keyboard; the Y axis is negated. */
  lemma JoystickOverridesKeyboard(raw: RawInput)
    requires raw.pad.Some?
    ensures var pad := raw.pad.value;
      && (Abs(AxisValue(pad, 0)) > JoystickThreshold ==>
            RotationalInput(raw).x == AxisValue(pad, 0) && DirectionalInput(raw).x == AxisValue(pad, 0))
      && (Abs(AxisValue(pad, 1)) > JoystickThreshold ==> DirectionalInput(raw).y == -AxisValue(pad, 1))
  {
  }

  /** Inside the deadzone, or with no pad, the keyboard decides. */
  lemma DeadzoneFallsBackToKeyboard(raw: RawInput)
    ensures (raw.pad.None? || Abs(AxisValue(raw.pad.value, 0)) <= JoystickThreshold) ==>
      RotationalInput(raw).x == KeyboardX(raw) && DirectionalInput(raw).x == KeyboardX(raw)
    ensures (raw.pad.None? || Abs(AxisValue(raw.pad.value, 1)) <= JoystickThreshold) ==>
      DirectionalInput(raw).y == KeyboardY(raw)
  {
  }

  /**
   * The rotational thrust comes from the triggers: button 6 gives −1 and wins over
   * button 7, which gives +1; only with neither above the threshold does the
   * keyboard decide. The stick's Y axis is never used for it.
   */
  lemma TriggerMapping(raw: RawInput)
    ensures raw.pad.Some? && ButtonAbove(raw.pad.value, 6) ==> RotationalInput(raw).y == -1.0
    ensures raw.pad.Some? && !ButtonAbove(raw.pad.value, 6) && ButtonAbove(raw.pad.value, 7)
         ==> RotationalInput(raw).y == 1.0
    ensures (raw.pad.None? || (!ButtonAbove(raw.pad.value, 6) && !ButtonAbove(raw.pad.value, 7)))
         ==> RotationalInput(raw).y == KeyboardY(raw)
  {
  }

  /** Every input axis lies in [−1, 1] when the gamepad's values do. */
  lemma InputsBounded(raw: RawInput)
    requires raw.pad.Some? ==> forall i :: 0 <= i < |raw.pad.value.axes| ==> -1.0 <= raw.pad.value.axes[i] <= 1.0
    ensures -1.0 <= RotationalInput(raw).x <= 1.0 && -1.0 <= RotationalInput(raw).y <= 1.0
    ensures -1.0 <= DirectionalInput(raw).x <= 1.0 && -1.0 <= DirectionalInput(raw).y <= 1.0
  {
  }

  /** The just-pressed flags that successive updates produce from the pressed states. */
  function RisingEdges(previous: bool, pressed: seq<bool>): (edges: seq<bool>)
    ensures |edges| == |pressed|
    decreases |pressed|
  {
    if pressed == [] then []
    else [pressed[0] && !previous] + RisingEdges(pressed[0], pressed[1..])
  }

  /** A flag is raised exactly when the button is down and was up at the update before. */
  lemma {:induction false} RisingEdgeAt(previous: bool, pressed: seq<bool>, i: nat)
    requires i < |pressed|
    ensures RisingEdges(previous, pressed)[i]
        <==> pressed[i] && !(if i == 0 then previous else pressed[i - 1])
    decreases i
  {
    if i > 0 {
      RisingEdgeAt(pressed[0], pressed[1..], i - 1);
    }
  }

  /** So a just-pressed flag is never raised on two consecutive updates. */
  lemma NoConsecutiveEdges(previous: bool, pressed: seq<bool>, i: nat)
    requires i + 1 < |pressed|
    ensures !(RisingEdges(previous, pressed)[i] && RisingEdges(previous, pressed)[i + 1])
  {
    RisingEdgeAt(previous, pressed, i);
    RisingEdgeAt(previous, pressed, i + 1);
  }

  class InputHandler {
    var rocketRotationalInput: Vec
    var rocketDirectionalInput: Vec
    var cameraInput: Vec
    var primaryJustDown: bool
    var tabJustDown: bool
    var prevPrimaryPressed: bool
    var prevRightTriggerPressed: bool

    constructor ()
      ensures rocketRotationalInput == Vec(0.0, 0.0) && rocketDirectionalInput == Vec(0.0, 0.0)
      ensures cameraInput == Vec(0.0, 0.0)
      ensures !primaryJustDown && !tabJustDown && !prevPrimaryPressed && !prevRightTriggerPressed
    {
      rocketRotationalInput := Vec(0.0, 0.0);
      rocketDirectionalInput := Vec(0.0, 0.0);
      cameraInput := Vec(0.0, 0.0);
      primaryJustDown := false;
      tabJustDown := false;
      prevPrimaryPressed := false;
      prevRightTriggerPressed := false;
    }

    /**
     * update: stores this frame's input vectors; primaryJustDown is a rising edge
     * of the primary button, tabJustDown the Tab key's just-down or a rising edge
     * of the right trigger.
     */
    method Update(raw: RawInput)
      modifies this
      ensures rocketRotationalInput == RotationalInput(raw)
      ensures rocketDirectionalInput == DirectionalInput(raw)
      ensures cameraInput == DirectionalInput(raw)
      ensures primaryJustDown == (ReadPad(raw).primaryPressed && !old(prevPrimaryPressed))
      ensures prevPrimaryPressed == ReadPad(raw).primaryPressed
      ensures tabJustDown == (raw.tabKeyJustDown || (ReadPad(raw).rightTriggerPressed && !old(prevRightTriggerPressed)))
      ensures prevRightTriggerPressed == ReadPad(raw).rightTriggerPressed
    {
      var reading := ReadPad(raw);
      var xKeyboard, yKeyboard := KeyboardX(raw), KeyboardY(raw);
      rocketRotationalInput := Vec(Prefer(reading.xJoystick, xKeyboard), Prefer(reading.triggerAxis, yKeyboard));
      rocketDirectionalInput := Vec(Prefer(reading.xJoystick, xKeyboard), Prefer(reading.yJoystick, yKeyboard));
      cameraInput := rocketDirectionalInput;

      primaryJustDown := reading.primaryPressed && !prevPrimaryPressed;
      prevPrimaryPressed := reading.primaryPressed;

      tabJustDown := raw.tabKeyJustDown || (reading.rightTriggerPressed && !prevRightTriggerPressed);
      prevRightTriggerPressed := reading.rightTriggerPressed;
    }

    /** getRocketControlInput: the rotational vector for ROTATIONAL, else the directional one. */
    function GetRocketControlInput(controlType: ControlType): (v: Vec)
      reads this
      ensures controlType == Rotational ==> v == rocketRotationalInput
      ensures controlType == Directional ==> v == rocketDirectionalInput
    {
      if controlType == Rotational then rocketRotationalInput else rocketDirectionalInput
    }
  }
}
