/**
 * The recorder of src/rockets/player_rocket.ts: it drives the player's rocket
 * with live input and records every input it applies, one per tick.
 */
module PlayerRockets {
  import opened Geometry
  import opened Rockets
  import opened RecordedRockets

  class PlayerRocket {
    const rocket: BaseRocket
    const cycleSteps: int
    var recordedInputs: seq<RecordedInput>

    /** A recorder with nothing recorded yet. */
    constructor (rocket: BaseRocket, cycleSteps: int)
      ensures this.rocket == rocket && this.cycleSteps == cycleSteps
      ensures recordedInputs == []
    {
      this.rocket := rocket;
      this.cycleSteps := cycleSteps;
      recordedInputs := [];
    }

    /** applyInput: forwards (x, y) unchanged to the rocket and appends it to the recording. */
    method ApplyInput(x: real, y: real) returns (cmd: ForceCommand)
      modifies this`recordedInputs, rocket`linearVelocityAbs, rocket`angularVelocityAbs
      ensures recordedInputs == old(recordedInputs) + [RecordedInput(x, y)]
      ensures cmd == ControlCommand(rocket.controlType, x, y, rocket.rotation)
      ensures rocket.linearVelocityAbs == rocket.bodySpeed
      ensures rocket.angularVelocityAbs == Abs(rocket.bodyAngularVelocity)
    {
      cmd := rocket.ApplyInput(x, y);
      recordedInputs := recordedInputs + [RecordedInput(x, y)];
    }

    /**
     * shouldFinishRecording: exactly cycleSteps inputs have been recorded; so a
     * finished recording of a positive cycle has something to replay.
     */
    predicate ShouldFinishRecording()
      reads this
      ensures ShouldFinishRecording() && cycleSteps > 0 ==> |recordedInputs| > 0
    {
      |recordedInputs| == cycleSteps
    }

    /**
     * finishRecording: a new replayer for the same rocket and the same inputs.
     * The source makes one for an empty recording too, which then cannot replay.
     */
    method FinishRecording() returns (replayer: RecordedRocketController)
      requires |recordedInputs| > 0
      ensures fresh(replayer) && replayer.Valid()
      ensures replayer.rocket == rocket && replayer.recordedInputs == recordedInputs
      ensures replayer.cursor == 0
    {
      replayer := new RecordedRocketController(rocket, recordedInputs);
    }

    /** getFootPosition: the foot of the rocket being recorded. */
    function FootPosition(): (f: Vec)
      reads rocket`position, rocket`rotation
      ensures rocket.rotation == ZeroRotation ==> f == Add(rocket.position, rocket.footLocal)
    {
      rocket.FootPosition()
    }
  }
}
