/**
 * The session controller of src/play_scene.ts. Each update reads the input,
 * runs the landing checks, advances the session (record, finish, spawn), steps
 * every replayer once and advances the cycle counter modulo the cycle length.
 *
 * What the engine or undefined members supply is passed in: the frame's raw
 * input, the elapsed milliseconds, the stationary rockets, the selected
 * spawner's spawn point, the random choice of rocket type and the new rocket's
 * foot offset and body id. What the scene asks of them is returned: the landing
 * snaps, whether to select the next spawner, and the player rocket's force.
 */
module PlayScenes {
  import opened Wrappers
  import opened Geometry
  import opened Rockets
  import opened RecordedRockets
  import opened PlayerRockets
  import opened InputHandling
  import opened IslandManagement
  import opened Islands

  /** The rockets the replayers drive, in order. */
  function RocketsOf(replayers: seq<RecordedRocketController>): (rockets: seq<BaseRocket>)
    ensures |rockets| == |replayers|
    ensures forall i :: 0 <= i < |replayers| ==> rockets[i] == replayers[i].rocket
    decreases |replayers|
  {
    if replayers == [] then [] else [replayers[0].rocket] + RocketsOf(replayers[1..])
  }

  /** The rockets' foot positions, in order. */
  function Feet(rockets: seq<BaseRocket>): (feet: seq<Vec>)
    reads rockets
    ensures |feet| == |rockets|
    ensures forall i :: 0 <= i < |rockets| ==> feet[i] == rockets[i].FootPosition()
    decreases |rockets|
  {
    if rockets == [] then [] else [rockets[0].FootPosition()] + Feet(rockets[1..])
  }

  /** No replayer is listed twice. */
  predicate Distinct(replayers: seq<RecordedRocketController>)
  {
    forall i, j :: 0 <= i < j < |replayers| ==> replayers[i] != replayers[j]
  }

  /** The filter of onRocketDestroyed: the replayers that do not drive rocket. */
  function WithoutRocket(replayers: seq<RecordedRocketController>, rocket: BaseRocket)
      : (kept: seq<RecordedRocketController>)
    ensures |kept| <= |replayers|
    decreases |replayers|
  {
    if replayers == [] then []
    else if replayers[0].rocket == rocket then WithoutRocket(replayers[1..], rocket)
    else [replayers[0]] + WithoutRocket(replayers[1..], rocket)
  }

  /** A replayer survives the filter exactly when it was listed and drives another rocket. */
  lemma {:induction false} WithoutRocketMembers(replayers: seq<RecordedRocketController>, rocket: BaseRocket,
                                                r: RecordedRocketController)
    ensures r in WithoutRocket(replayers, rocket) <==> r in replayers && r.rocket != rocket
    decreases |replayers|
  {
    if replayers != [] {
      WithoutRocketMembers(replayers[1..], rocket, r);
      assert replayers == [replayers[0]] + replayers[1..];
    }
  }

  /** The filter keeps the survivors' order: it distributes over concatenation. */
  lemma {:induction false} WithoutRocketAppend(a: seq<RecordedRocketController>, b: seq<RecordedRocketController>,
                                               rocket: BaseRocket)
    ensures WithoutRocket(a + b, rocket) == WithoutRocket(a, rocket) + WithoutRocket(b, rocket)
    decreases |a|
  {
    if a == [] {
      assert a + b == b;
    } else {
      WithoutRocketAppend(a[1..], b, rocket);
      assert (a + b)[1..] == a[1..] + b;
    }
  }

  /** Removing the replayers of a rocket no replayer drives changes nothing. */
  lemma {:induction false} WithoutAbsentRocket(replayers: seq<RecordedRocketController>, rocket: BaseRocket)
    requires forall i :: 0 <= i < |replayers| ==> replayers[i].rocket != rocket
    ensures WithoutRocket(replayers, rocket) == replayers
    decreases |replayers|
  {
    if replayers != [] {
      WithoutAbsentRocket(replayers[1..], rocket);
      assert replayers == [replayers[0]] + replayers[1..];
    }
  }

  /** The filter keeps a list without repetitions free of them. */
  lemma {:induction false} WithoutRocketDistinct(replayers: seq<RecordedRocketController>, rocket: BaseRocket)
    requires Distinct(replayers)
    ensures Distinct(WithoutRocket(replayers, rocket))
    decreases |replayers|
  {
    if replayers != [] {
      var rest := replayers[1..];
      assert Distinct(rest) by {
        forall i, j | 0 <= i < j < |rest| ensures rest[i] != rest[j] {
          assert rest[i] == replayers[i + 1] && rest[j] == replayers[j + 1];
        }
      }
      WithoutRocketDistinct(rest, rocket);
      if replayers[0].rocket != rocket {
        var kept := WithoutRocket(rest, rocket);
        WithoutRocketMembers(rest, rocket, replayers[0]);
        assert replayers[0] !in rest by {
          forall j | 0 <= j < |rest| ensures rest[j] != replayers[0] {
            assert rest[j] == replayers[j + 1];
          }
        }
        forall i, j | 0 <= i < j < |[replayers[0]] + kept|
          ensures ([replayers[0]] + kept)[i] != ([replayers[0]] + kept)[j]
        {
          if i == 0 {
            assert ([replayers[0]] + kept)[j] == kept[j - 1];
            assert kept[j - 1] in kept;
          } else {
            assert ([replayers[0]] + kept)[i] == kept[i - 1];
            assert ([replayers[0]] + kept)[j] == kept[j - 1];
          }
        }
      }
    }
  }

  /** distance(foot, spawnPoint) == 0, compared squared: the foot is exactly at the spawn point. */
  method AtSpawnPoint(foot: Vec, spawnPoint: Vec) returns (at: bool)
    ensures at <==> foot == spawnPoint
  {
    at := DistSq(foot, spawnPoint) == 0.0;
    DistSqZeroIffEqual(foot, spawnPoint);
  }

  class PlayScene {
    /** CYCLE_STEPS: the length of one recording, in updates. */
    const cycleSteps: nat
    const inputHandler: InputHandler
    const islandManager: IslandManager

    var player: PlayerRocket?
    var recordedRockets: seq<RecordedRocketController>
    var currentCycleStep: nat
    var cycleWhenRecordingStarted: nat
    var lastSpawnPoint: Option<Vec>
    var allowCameraMovement: bool

    /**
     * The scene's invariant: the cycle step is in range; a player exists only
     * with a spawn point and a recording no longer than one cycle; every replayer
     * has a non-empty recording and a cursor in range, and none is listed twice.
     */
    ghost predicate Valid()
      reads this, player, recordedRockets
    {
      && cycleSteps > 0
      && currentCycleStep < cycleSteps
      && (player != null ==>
            player.cycleSteps == cycleSteps && |player.recordedInputs| <= cycleSteps && lastSpawnPoint.Some?)
      && (forall i :: 0 <= i < |recordedRockets| ==> recordedRockets[i].Valid())
      && Distinct(recordedRockets)
    }

    /** The player's controller, when there is a player. */
    ghost function PlayerControllers(): set<PlayerRocket>
      reads this
    {
      if player != null then {player} else {}
    }

    /** The player's rocket, when there is a player. */
    ghost function PlayerRockets(): set<BaseRocket>
      reads this
    {
      if player != null then {player.rocket} else {}
    }

    /** The order of the landing checks: the replayers' rockets, then the player's. */
    function LandingOrder(): seq<BaseRocket>
      reads this
    {
      RocketsOf(recordedRockets) + (if player != null then [player.rocket] else [])
    }

    /** create(): no player, no replayers, the cycle at step 0 and the camera locked. */
    constructor (cycleSteps: nat, islands: seq<Island>)
      requires cycleSteps > 0
      ensures Valid()
      ensures this.cycleSteps == cycleSteps && islandManager.islands == islands
      ensures fresh(inputHandler) && fresh(islandManager)
      ensures islandManager.Current() == Maps(map[], map[])
      ensures player == null && recordedRockets == []
      ensures currentCycleStep == 0 && cycleWhenRecordingStarted == 0
      ensures lastSpawnPoint == None && !allowCameraMovement
    {
      this.cycleSteps := cycleSteps;
      inputHandler := new InputHandler();
      islandManager := new IslandManager(islands);
      player := null;
      recordedRockets := [];
      currentCycleStep := 0;
      cycleWhenRecordingStarted := 0;
      lastSpawnPoint := None;
      allowCameraMovement := false;
    }

    /**
     * The forEach of update's landing checks: the replayers' rockets in order,
     * each checked against the maps the previous check left.
     */
    method CheckReplayerLandings(stationary: set<BaseRocket>, deltaMs: real)
        returns (snaps: seq<Option<LandingSnap>>, ghost trace: seq<Maps>)
      modifies islandManager`candidateMap, islandManager`lastLandedMap
      ensures IsRun(islandManager.islands, trace, snaps, old(RocketsOf(recordedRockets)),
                    old(Feet(RocketsOf(recordedRockets))), stationary, deltaMs)
      ensures trace[0] == old(islandManager.Current()) && trace[|recordedRockets|] == islandManager.Current()
    {
      var order := RocketsOf(recordedRockets);
      var feet := Feet(order);
      snaps, trace := [], [islandManager.Current()];
      for i := 0 to |recordedRockets|
        invariant IsRun(islandManager.islands, trace, snaps, order[..i], feet[..i], stationary, deltaMs)
        invariant trace[0] == old(islandManager.Current()) && trace[i] == islandManager.Current()
      {
        var rocket := recordedRockets[i].rocket;
        var snap := islandManager.CheckLandingStatus(rocket, rocket in stationary, deltaMs);
        RunExtend(islandManager.islands, trace, snaps, order, feet, i, stationary, deltaMs, islandManager.Current(), snap);
        snaps, trace := snaps + [snap], trace + [islandManager.Current()];
      }
      assert order[..|recordedRockets|] == order && feet[..|recordedRockets|] == feet;
    }

    /**
     * The landing checks of update: each replayer's rocket in order, then the
     * player's, each against the maps the previous check left; so the maps end
     * as CheckAll says.
     */
    method CheckLandings(stationary: set<BaseRocket>, deltaMs: real)
        returns (snaps: seq<Option<LandingSnap>>, ghost trace: seq<Maps>)
      modifies islandManager`candidateMap, islandManager`lastLandedMap
      ensures IsRun(islandManager.islands, trace, snaps, old(LandingOrder()), old(Feet(LandingOrder())),
                    stationary, deltaMs)
      ensures trace[0] == old(islandManager.Current()) && trace[|old(LandingOrder())|] == islandManager.Current()
    {
      ghost var order := LandingOrder();
      ghost var feet := Feet(order);
      var n := |recordedRockets|;
      assert order[..n] == RocketsOf(recordedRockets);
      assert feet[..n] == Feet(RocketsOf(recordedRockets));
      snaps, trace := CheckReplayerLandings(stationary, deltaMs);
      if player != null {
        var rocket := player.rocket;
        var snap := islandManager.CheckLandingStatus(rocket, rocket in stationary, deltaMs);
        RunExtend(islandManager.islands, trace, snaps, order, feet, n, stationary, deltaMs, islandManager.Current(), snap);
        snaps, trace := snaps + [snap], trace + [islandManager.Current()];
        assert order[..n + 1] == order && feet[..n + 1] == feet;
      } else {
        assert order[..n] == order && feet[..n] == feet;
      }
    }

    /**
     * A finished recording whose rocket is back at the spawn point: the player
     * becomes a replayer of its recording, appended to the replayers; the player
     * and its spawn point are gone and the camera is locked.
     */
    method ConvertRecording()
      requires Valid() && player != null && player.ShouldFinishRecording()
      modifies this`player, this`recordedRockets, this`lastSpawnPoint, this`allowCameraMovement
      ensures Valid()
      ensures player == null && lastSpawnPoint == None && !allowCameraMovement
      ensures |recordedRockets| == |old(recordedRockets)| + 1
      ensures recordedRockets[..|old(recordedRockets)|] == old(recordedRockets)
      ensures var replayer := recordedRockets[|old(recordedRockets)|];
        && fresh(replayer) && replayer.rocket == old(player.rocket)
        && replayer.recordedInputs == old(player.recordedInputs) && replayer.cursor == 0
    {
      var replayer := player.FinishRecording();
      recordedRockets := recordedRockets + [replayer];
      forall j | 0 <= j < |recordedRockets| - 1 ensures recordedRockets[j] != replayer {
        assert recordedRockets[j] == old(recordedRockets)[j];
      }
      player := null;
      allowCameraMovement := false;
      lastSpawnPoint := None;
    }

    /**
     * A finished recording whose rocket is anywhere else: the rocket explodes; the
     * player and its spawn point are gone and the camera is locked.
     */
    method ExplodeRecording()
      requires Valid() && player != null && player.ShouldFinishRecording()
      modifies this`player, this`lastSpawnPoint, this`allowCameraMovement, player.rocket`isDestroyed
      ensures Valid()
      ensures player == null && lastSpawnPoint == None && !allowCameraMovement
      ensures old(player.rocket).isDestroyed
    {
      player.rocket.Explode();
      player := null;
      allowCameraMovement := false;
      lastSpawnPoint := None;
    }

    /** A recording in progress: this frame's control input drives the rocket and is recorded. */
    method ApplyLiveInput() returns (cmd: ForceCommand)
      requires Valid() && player != null && !player.ShouldFinishRecording()
      modifies player`recordedInputs, player.rocket`linearVelocityAbs, player.rocket`angularVelocityAbs
      ensures Valid()
      ensures var v := inputHandler.GetRocketControlInput(player.rocket.controlType);
        && player.recordedInputs == old(player.recordedInputs) + [RecordedInput(v.x, v.y)]
        && cmd == ControlCommand(player.rocket.controlType, v.x, v.y, player.rocket.rotation)
    {
      var input := inputHandler.GetRocketControlInput(player.rocket.controlType);
      cmd := player.ApplyInput(input.x, input.y);
    }

    /**
     * No player: the camera is re-armed by a frame with zero camera input, and the
     * primary button spawns a new rocket, of the chosen type, at the selected
     * spawner's point and starts recording it.
     */
    method AwaitSpawn(spawnPoint: Vec, rotational: bool, footDy: real, bodyId: int)
      requires Valid() && player == null
      modifies this`player, this`lastSpawnPoint, this`allowCameraMovement, this`cycleWhenRecordingStarted
      ensures Valid()
      ensures allowCameraMovement == (old(allowCameraMovement) || inputHandler.cameraInput == Vec(0.0, 0.0))
      ensures inputHandler.primaryJustDown ==>
        && player != null && fresh(player) && fresh(player.rocket)
        && player.recordedInputs == []
        && player.rocket.controlType == (if rotational then ReversibleControl else OminControl)
        && player.rocket.FootPosition() == spawnPoint && !player.rocket.isDestroyed
        && player.rocket.loadedGood == NoGood
        && lastSpawnPoint == Some(spawnPoint)
        && cycleWhenRecordingStarted == currentCycleStep
      ensures !inputHandler.primaryJustDown ==>
        player == null && lastSpawnPoint == old(lastSpawnPoint)
        && cycleWhenRecordingStarted == old(cycleWhenRecordingStarted)
    {
      var cameraInput := inputHandler.cameraInput;
      if !allowCameraMovement {
        if cameraInput.x == 0.0 && cameraInput.y == 0.0 {
          allowCameraMovement := true;
        }
      }
      if inputHandler.primaryJustDown {
        lastSpawnPoint := Some(spawnPoint);
        var controlType := if rotational then ReversibleControl else OminControl;
        var rocket := new BaseRocket(controlType, spawnPoint, footDy, bodyId);
        player := new PlayerRocket(rocket, cycleSteps);
        cycleWhenRecordingStarted := currentCycleStep;
      }
    }

    /** The forEach over recordedRockets: every replayer applies its next input once. */
    method AdvanceReplayers()
      requires forall i :: 0 <= i < |recordedRockets| ==> recordedRockets[i].Valid()
      requires Distinct(recordedRockets)
      modifies recordedRockets`cursor, RocketsOf(recordedRockets)`linearVelocityAbs,
               RocketsOf(recordedRockets)`angularVelocityAbs
      ensures forall i :: 0 <= i < |recordedRockets| ==>
        && recordedRockets[i].Valid()
        && recordedRockets[i].cursor == NextCursor(old(recordedRockets[i].cursor), |recordedRockets[i].recordedInputs|)
    {
      var rockets := RocketsOf(recordedRockets);
      for i := 0 to |recordedRockets|
        invariant forall j :: 0 <= j < |recordedRockets| ==> recordedRockets[j].Valid()
        invariant forall j :: 0 <= j < i ==>
          recordedRockets[j].cursor == NextCursor(old(recordedRockets[j].cursor), |recordedRockets[j].recordedInputs|)
        invariant forall j :: i <= j < |recordedRockets| ==> recordedRockets[j].cursor == old(recordedRockets[j].cursor)
      {
        var replayer := recordedRockets[i];
        assert replayer.rocket == rockets[i];
        var _, _ := replayer.ApplyNextRecordedInput();
      }
    }

    /**
     * The first half of update: the landing checks, replayers before the player,
     * each against the maps the previous check left, and the input handler's read
     * of this frame's input. The source reads the input first; the checks touch
     * only the manager's maps and the read only the handler's fields, so the order
     * does not change the resulting state.
     */
    method SenseAndLand(raw: RawInput, stationary: set<BaseRocket>, deltaMs: real)
        returns (snaps: seq<Option<LandingSnap>>, ghost trace: seq<Maps>)
      requires Valid()
      modifies inputHandler, islandManager`candidateMap, islandManager`lastLandedMap
      ensures Valid()
      ensures inputHandler.rocketRotationalInput == RotationalInput(raw)
      ensures inputHandler.rocketDirectionalInput == DirectionalInput(raw)
      ensures inputHandler.cameraInput == DirectionalInput(raw)
      ensures inputHandler.primaryJustDown == (ReadPad(raw).primaryPressed && !old(inputHandler.prevPrimaryPressed))
      ensures inputHandler.prevPrimaryPressed == ReadPad(raw).primaryPressed
      ensures inputHandler.tabJustDown ==
        (raw.tabKeyJustDown || (ReadPad(raw).rightTriggerPressed && !old(inputHandler.prevRightTriggerPressed)))
      ensures inputHandler.prevRightTriggerPressed == ReadPad(raw).rightTriggerPressed
      ensures IsRun(islandManager.islands, trace, snaps, old(LandingOrder()), old(Feet(LandingOrder())),
                    stationary, deltaMs)
      ensures trace[0] == old(islandManager.Current()) && trace[|old(LandingOrder())|] == islandManager.Current()
    {
      snaps, trace := CheckLandings(stationary, deltaMs);
      inputHandler.Update(raw);
    }

    /** The replay step and the cycle counter that close update. */
    method AdvanceCycle()
      requires Valid()
      modifies this`currentCycleStep, recordedRockets`cursor, RocketsOf(recordedRockets)`linearVelocityAbs,
               RocketsOf(recordedRockets)`angularVelocityAbs
      ensures Valid()
      ensures currentCycleStep == (old(currentCycleStep) + 1) % cycleSteps
      ensures forall i :: 0 <= i < |recordedRockets| ==>
        recordedRockets[i].cursor == NextCursor(old(recordedRockets[i].cursor), |recordedRockets[i].recordedInputs|)
    {
      AdvanceReplayers();
      currentCycleStep := (currentCycleStep + 1) % cycleSteps;
    }

    /**
     * A finished recording back at the spawn point, then the replay step, which
     * already advances the new replayer, and the cycle counter.
     */
    method ReturnAndAdvance()
      requires Valid() && player != null && player.ShouldFinishRecording()
      modifies this`player, this`recordedRockets, this`lastSpawnPoint, this`allowCameraMovement,
               this`currentCycleStep, recordedRockets`cursor, RocketsOf(recordedRockets)`linearVelocityAbs,
               RocketsOf(recordedRockets)`angularVelocityAbs, player.rocket`linearVelocityAbs,
               player.rocket`angularVelocityAbs
      ensures Valid()
      ensures currentCycleStep == (old(currentCycleStep) + 1) % cycleSteps
      ensures player == null && lastSpawnPoint == None && !allowCameraMovement
      ensures |recordedRockets| == |old(recordedRockets)| + 1
      ensures forall i :: 0 <= i < |old(recordedRockets)| ==>
        && recordedRockets[i] == old(recordedRockets[i])
        && recordedRockets[i].cursor == NextCursor(old(recordedRockets[i].cursor), |recordedRockets[i].recordedInputs|)
      ensures var replayer := recordedRockets[|old(recordedRockets)|];
        && fresh(replayer) && replayer.rocket == old(player.rocket)
        && replayer.recordedInputs == old(player.recordedInputs)
        && replayer.cursor == NextCursor(0, |replayer.recordedInputs|)
    {
      ConvertRecording();
      AdvanceCycle();
    }

    /** A finished recording away from the spawn point, then the replay step and the cycle counter. */
    method CrashAndAdvance()
      requires Valid() && player != null && player.ShouldFinishRecording()
      modifies this`player, this`lastSpawnPoint, this`allowCameraMovement, player.rocket`isDestroyed,
               this`currentCycleStep, recordedRockets`cursor, RocketsOf(recordedRockets)`linearVelocityAbs,
               RocketsOf(recordedRockets)`angularVelocityAbs
      ensures Valid()
      ensures currentCycleStep == (old(currentCycleStep) + 1) % cycleSteps
      ensures player == null && lastSpawnPoint == None && !allowCameraMovement
      ensures old(player.rocket).isDestroyed
      ensures forall i :: 0 <= i < |recordedRockets| ==>
        recordedRockets[i].cursor == NextCursor(old(recordedRockets[i].cursor), |recordedRockets[i].recordedInputs|)
    {
      ExplodeRecording();
      AdvanceCycle();
    }

    /**
     * A recording in progress fed one input, then the replay step and the cycle
     * counter; the camera flag, the spawn point, the recording's start and the
     * rocket's destroyed flag stay as they were.
     */
    method LiveAndAdvance() returns (cmd: ForceCommand)
      requires Valid() && player != null && !player.ShouldFinishRecording()
      modifies this`currentCycleStep, player`recordedInputs, player.rocket`linearVelocityAbs,
               player.rocket`angularVelocityAbs, recordedRockets`cursor,
               RocketsOf(recordedRockets)`linearVelocityAbs, RocketsOf(recordedRockets)`angularVelocityAbs
      ensures Valid()
      ensures currentCycleStep == (old(currentCycleStep) + 1) % cycleSteps
      ensures forall i :: 0 <= i < |recordedRockets| ==>
        recordedRockets[i].cursor == NextCursor(old(recordedRockets[i].cursor), |recordedRockets[i].recordedInputs|)
      ensures player == old(player) && recordedRockets == old(recordedRockets)
      ensures allowCameraMovement == old(allowCameraMovement) && lastSpawnPoint == old(lastSpawnPoint)
      ensures cycleWhenRecordingStarted == old(cycleWhenRecordingStarted)
      ensures player.rocket.isDestroyed == old(player.rocket.isDestroyed)
      ensures var v := inputHandler.GetRocketControlInput(player.rocket.controlType);
        && player.recordedInputs == old(player.recordedInputs) + [RecordedInput(v.x, v.y)]
        && cmd == ControlCommand(player.rocket.controlType, v.x, v.y, old(player.rocket.rotation))
    {
      cmd := ApplyLiveInput();
      AdvanceCycle();
    }

    /**
     * No player: the camera and spawn logic, then the replay step and the cycle
     * counter. A press spawns a fresh, intact and empty rocket of the chosen type at
     * the spawn point; without one the spawn point and the recording's start stay.
     */
    method SpawnAndAdvance(spawnPoint: Vec, rotational: bool, footDy: real, bodyId: int)
      requires Valid() && player == null
      modifies this`player, this`lastSpawnPoint, this`allowCameraMovement, this`cycleWhenRecordingStarted,
               this`currentCycleStep, recordedRockets`cursor, RocketsOf(recordedRockets)`linearVelocityAbs,
               RocketsOf(recordedRockets)`angularVelocityAbs
      ensures Valid()
      ensures currentCycleStep == (old(currentCycleStep) + 1) % cycleSteps
      ensures forall i :: 0 <= i < |recordedRockets| ==>
        recordedRockets[i].cursor == NextCursor(old(recordedRockets[i].cursor), |recordedRockets[i].recordedInputs|)
      ensures allowCameraMovement == (old(allowCameraMovement) || inputHandler.cameraInput == Vec(0.0, 0.0))
      ensures recordedRockets == old(recordedRockets)
      ensures inputHandler.primaryJustDown ==>
        && player != null && fresh(player) && fresh(player.rocket)
        && player.recordedInputs == []
        && player.rocket.controlType == (if rotational then ReversibleControl else OminControl)
        && player.rocket.FootPosition() == spawnPoint && !player.rocket.isDestroyed
        && player.rocket.loadedGood == NoGood
        && lastSpawnPoint == Some(spawnPoint) && cycleWhenRecordingStarted == old(currentCycleStep)
      ensures !inputHandler.primaryJustDown ==>
        && player == null && lastSpawnPoint == old(lastSpawnPoint)
        && cycleWhenRecordingStarted == old(cycleWhenRecordingStarted)
    {
      AwaitSpawn(spawnPoint, rotational, footDy, bodyId);
      AdvanceCycle();
    }

    /**
     * The second half of update: complete a finished recording, else feed a
     * recording in progress, else wait for a spawn (and report a Tab press); then
     * one replay step of every replayer (the one just made included) and the cycle
     * counter modulo CYCLE_STEPS.
     */
    method Act(spawnPoint: Vec, rotational: bool, footDy: real, bodyId: int)
        returns (selectNextSpawner: bool, playerCommand: Option<ForceCommand>)
      requires Valid()
      modifies this`player, this`recordedRockets, this`lastSpawnPoint, this`allowCameraMovement,
               this`cycleWhenRecordingStarted, this`currentCycleStep, PlayerControllers()`recordedInputs,
               PlayerRockets()`isDestroyed, PlayerRockets()`linearVelocityAbs, PlayerRockets()`angularVelocityAbs,
               recordedRockets`cursor, RocketsOf(recordedRockets)`linearVelocityAbs,
               RocketsOf(recordedRockets)`angularVelocityAbs
      ensures Valid()
      ensures currentCycleStep == (old(currentCycleStep) + 1) % cycleSteps
      ensures old(player != null) ==> !selectNextSpawner
      ensures old(player != null && player.ShouldFinishRecording()) ==>
        && player == null && lastSpawnPoint == None && !allowCameraMovement && playerCommand == None
        && cycleWhenRecordingStarted == old(cycleWhenRecordingStarted)
      ensures old(player != null && player.ShouldFinishRecording() && player.FootPosition() == lastSpawnPoint.value) ==>
        && |recordedRockets| == |old(recordedRockets)| + 1
        && recordedRockets[..|old(recordedRockets)|] == old(recordedRockets)
        && old(player.rocket).isDestroyed == old(player.rocket.isDestroyed)
        && (var replayer := recordedRockets[|old(recordedRockets)|];
            fresh(replayer) && replayer.rocket == old(player.rocket)
            && replayer.recordedInputs == old(player.recordedInputs)
            && replayer.cursor == NextCursor(0, |replayer.recordedInputs|))
      ensures old(player != null && player.ShouldFinishRecording() && player.FootPosition() != lastSpawnPoint.value) ==>
        recordedRockets == old(recordedRockets) && old(player.rocket).isDestroyed
      ensures old(player != null && !player.ShouldFinishRecording()) ==>
        && player == old(player) && recordedRockets == old(recordedRockets)
        && allowCameraMovement == old(allowCameraMovement) && lastSpawnPoint == old(lastSpawnPoint)
        && cycleWhenRecordingStarted == old(cycleWhenRecordingStarted)
        && player.rocket.isDestroyed == old(player.rocket.isDestroyed)
        && (var v := inputHandler.GetRocketControlInput(player.rocket.controlType);
            && player.recordedInputs == old(player.recordedInputs) + [RecordedInput(v.x, v.y)]
            && playerCommand == Some(ControlCommand(player.rocket.controlType, v.x, v.y, old(player.rocket.rotation))))
      ensures old(player == null) ==>
        && selectNextSpawner == inputHandler.tabJustDown && playerCommand == None
        && allowCameraMovement == (old(allowCameraMovement) || inputHandler.cameraInput == Vec(0.0, 0.0))
        && recordedRockets == old(recordedRockets)
        && (inputHandler.primaryJustDown ==>
              && player != null && fresh(player) && fresh(player.rocket)
              && player.recordedInputs == []
              && player.rocket.controlType == (if rotational then ReversibleControl else OminControl)
              && player.rocket.FootPosition() == spawnPoint && !player.rocket.isDestroyed
              && player.rocket.loadedGood == NoGood
              && lastSpawnPoint == Some(spawnPoint) && cycleWhenRecordingStarted == old(currentCycleStep))
        && (!inputHandler.primaryJustDown ==>
              && player == null && lastSpawnPoint == old(lastSpawnPoint)
              && cycleWhenRecordingStarted == old(cycleWhenRecordingStarted))
      ensures forall i :: 0 <= i < |old(recordedRockets)| ==>
        && recordedRockets[i] == old(recordedRockets[i])
        && recordedRockets[i].cursor == NextCursor(old(recordedRockets[i].cursor), |recordedRockets[i].recordedInputs|)
    {
      selectNextSpawner, playerCommand := false, None;
      if player != null && player.ShouldFinishRecording() {
        var returned := AtSpawnPoint(player.FootPosition(), lastSpawnPoint.value);
        if returned {
          ReturnAndAdvance();
        } else {
          CrashAndAdvance();
        }
      } else if player != null {
        var cmd := LiveAndAdvance();
        playerCommand := Some(cmd);
      } else {
        selectNextSpawner := inputHandler.tabJustDown;
        SpawnAndAdvance(spawnPoint, rotational, footDy, bodyId);
      }
    }

    /**
     * update: the landing checks (replayers before the player) and the input
     * handler's read of the frame, in the order SenseAndLand explains, then the
     * session logic, one replay step of every replayer (the one just made
     * included), and the cycle counter modulo CYCLE_STEPS.
     */
    method Update(raw: RawInput, deltaMs: real, stationary: set<BaseRocket>, spawnPoint: Vec,
                  rotational: bool, footDy: real, bodyId: int)
        returns (snaps: seq<Option<LandingSnap>>, ghost trace: seq<Maps>,
                 selectNextSpawner: bool, playerCommand: Option<ForceCommand>)
      requires Valid()
      modifies this`player, this`recordedRockets, this`lastSpawnPoint, this`allowCameraMovement,
               this`cycleWhenRecordingStarted, this`currentCycleStep, PlayerControllers()`recordedInputs,
               PlayerRockets()`isDestroyed, PlayerRockets()`linearVelocityAbs, PlayerRockets()`angularVelocityAbs,
               recordedRockets`cursor, RocketsOf(recordedRockets)`linearVelocityAbs,
               RocketsOf(recordedRockets)`angularVelocityAbs,
               inputHandler, islandManager`candidateMap, islandManager`lastLandedMap
      ensures Valid()
      ensures currentCycleStep == (old(currentCycleStep) + 1) % cycleSteps
      ensures inputHandler.rocketRotationalInput == RotationalInput(raw)
      ensures inputHandler.rocketDirectionalInput == DirectionalInput(raw)
      ensures inputHandler.cameraInput == DirectionalInput(raw)
      ensures inputHandler.primaryJustDown == (ReadPad(raw).primaryPressed && !old(inputHandler.prevPrimaryPressed))
      ensures inputHandler.prevPrimaryPressed == ReadPad(raw).primaryPressed
      ensures inputHandler.tabJustDown ==
        (raw.tabKeyJustDown || (ReadPad(raw).rightTriggerPressed && !old(inputHandler.prevRightTriggerPressed)))
      ensures inputHandler.prevRightTriggerPressed == ReadPad(raw).rightTriggerPressed
      ensures IsRun(islandManager.islands, trace, snaps, old(LandingOrder()), old(Feet(LandingOrder())),
                    stationary, deltaMs)
      ensures trace[0] == old(islandManager.Current()) && trace[|old(LandingOrder())|] == islandManager.Current()
      ensures old(player != null) ==> !selectNextSpawner
      ensures old(player != null && player.ShouldFinishRecording()) ==>
        && player == null && lastSpawnPoint == None && !allowCameraMovement && playerCommand == None
        && cycleWhenRecordingStarted == old(cycleWhenRecordingStarted)
      ensures old(player != null && player.ShouldFinishRecording() && player.FootPosition() == lastSpawnPoint.value) ==>
        && |recordedRockets| == |old(recordedRockets)| + 1
        && recordedRockets[..|old(recordedRockets)|] == old(recordedRockets)
        && old(player.rocket).isDestroyed == old(player.rocket.isDestroyed)
        && (var replayer := recordedRockets[|old(recordedRockets)|];
            fresh(replayer) && replayer.rocket == old(player.rocket)
            && replayer.recordedInputs == old(player.recordedInputs)
            && replayer.cursor == NextCursor(0, |replayer.recordedInputs|))
      ensures old(player != null && player.ShouldFinishRecording() && player.FootPosition() != lastSpawnPoint.value) ==>
        recordedRockets == old(recordedRockets) && old(player.rocket).isDestroyed
      ensures old(player != null && !player.ShouldFinishRecording()) ==>
        && player == old(player) && recordedRockets == old(recordedRockets)
        && allowCameraMovement == old(allowCameraMovement) && lastSpawnPoint == old(lastSpawnPoint)
        && cycleWhenRecordingStarted == old(cycleWhenRecordingStarted)
        && player.rocket.isDestroyed == old(player.rocket.isDestroyed)
        && (var v := if player.rocket.controlType == Rotational then RotationalInput(raw) else DirectionalInput(raw);
            && player.recordedInputs == old(player.recordedInputs) + [RecordedInput(v.x, v.y)]
            && playerCommand == Some(ControlCommand(player.rocket.controlType, v.x, v.y, old(player.rocket.rotation))))
      ensures old(player == null) ==>
        && selectNextSpawner == inputHandler.tabJustDown && playerCommand == None
        && allowCameraMovement == (old(allowCameraMovement) || DirectionalInput(raw) == Vec(0.0, 0.0))
        && recordedRockets == old(recordedRockets)
        && (inputHandler.primaryJustDown ==>
              && player != null && fresh(player) && fresh(player.rocket)
              && player.recordedInputs == []
              && player.rocket.controlType == (if rotational then ReversibleControl else OminControl)
              && player.rocket.FootPosition() == spawnPoint && !player.rocket.isDestroyed
              && player.rocket.loadedGood == NoGood
              && lastSpawnPoint == Some(spawnPoint) && cycleWhenRecordingStarted == old(currentCycleStep))
        && (!inputHandler.primaryJustDown ==>
              && player == null && lastSpawnPoint == old(lastSpawnPoint)
              && cycleWhenRecordingStarted == old(cycleWhenRecordingStarted))
      ensures forall i :: 0 <= i < |old(recordedRockets)| ==>
        && recordedRockets[i] == old(recordedRockets[i])
        && recordedRockets[i].cursor == NextCursor(old(recordedRockets[i].cursor), |recordedRockets[i].recordedInputs|)
    {
      snaps, trace := SenseAndLand(raw, stationary, deltaMs);
      selectNextSpawner, playerCommand := Act(spawnPoint, rotational, footDy, bodyId);
    }

    /**
     * onRocketDestroyed: the replayers driving the rocket are dropped, the rest
     * kept in order; the player is dropped, and the camera locked, only if the
     * rocket is the player's.
     */
    method OnRocketDestroyed(rocket: BaseRocket)
      requires Valid()
      modifies this`player, this`allowCameraMovement, this`recordedRockets
      ensures Valid()
      ensures recordedRockets == WithoutRocket(old(recordedRockets), rocket)
      ensures old(player != null && player.rocket == rocket) ==> player == null && !allowCameraMovement
      ensures !old(player != null && player.rocket == rocket) ==>
        player == old(player) && allowCameraMovement == old(allowCameraMovement)
    {
      if player != null && player.rocket == rocket {
        player := null;
        allowCameraMovement := false;
      }
      ghost var before := recordedRockets;
      recordedRockets := WithoutRocket(recordedRockets, rocket);
      WithoutRocketDistinct(before, rocket);
      forall i | 0 <= i < |recordedRockets| ensures recordedRockets[i].Valid() {
        WithoutRocketMembers(before, rocket, recordedRockets[i]);
      }
    }
  }
}
