# Loop rockets: a Dafny model of the game's tick logic

The game is a 2D rocket game built on a looping clock. The player flies one rocket for exactly one cycle of `CYCLE_STEPS` updates, and every input is recorded. If the rocket's foot is back exactly at its spawn point when the cycle ends, the recording becomes a *replayer*. A replayer drives the same rocket by feeding it the recorded inputs over and over. Otherwise the rocket explodes.

Rockets land on islands. A landing detector watches each rocket's foot against every island's landing line. After 500 ms of stationary dwell it snaps the rocket to that line's midpoint:

- it never snaps the same rocket twice to the island it last landed on;
- it forgets that island once the foot is more than 50 units away.

Other parts of the game are modelled too:

- **Rockets:** steering and thrust rules, a one-slot cargo, and a collision rule that makes a rocket explode.
- **Islands:** shops take one kind of good, lakes fill empty rockets with water, and flags and spawner islands are one-way switches.
- **Input:** the input handler turns keyboard and gamepad readings into input vectors and just-pressed flags.

The project is one Dafny module per source file:

| module | file | source |
|---|---|---|
| `Wrappers` | wrappers.dfy | `Option` and `Result` |
| `Geometry` | geometry.dfy | `src/utils/geometry.ts` |
| `Rockets` | base_rocket.dfy | `src/rockets/base_rocket.ts`; the rocket tags of `reversible_rocket.ts` and `omin_rocket.ts` |
| `PolygonBody` | polygon_body.dfy | `src/utils/polygon_body.ts` |
| `Islands` | island.dfy | `src/islands/island.ts` |
| `IslandManagement` | island_manager.dfy | `src/islands/island_manager.ts` |
| `RecordedRockets` | recorded_rocket.dfy | `src/rockets/recorded_rocket.ts` |
| `PlayerRockets` | player_rocket.dfy | `src/rockets/player_rocket.ts` |
| `InputHandling` | input_handler.dfy | `src/utils/input_handler.ts` |
| `PlayScenes` | play_scene.dfy | `src/play_scene.ts` |
| `IslandShops`, `IslandLakes`, `CaptureFlags`, `SpawnerIslands` | island_shop.dfy, island_lake.dfy, capture_flag.dfy, island_spawner.dfy | the island files of the same names |

## How the model is built

- **Classes where the source mutates state.** These are:
  - the rocket, its recorder and its replayer;
  - the landing detector, with its two maps as `map` fields;
  - the input handler, the scene, and the small islands.

  Their methods carry `modifies` clauses that name individual fields. Pure logic is written as functions, and properties are proved as lemmas about those functions.
- **Landing detector: one rocket.** One `checkLandingStatus` call, for one rocket, is the function `CheckStep`. It works on that rocket's two map entries. `IslandManager.CheckLandingStatus` is proved to update both maps exactly as `CheckStep` says, and to leave other rockets' entries alone. The properties of the state machine are lemmas about `CheckStep`.
- **Landing detector: all rockets in one update.** The checks for all rockets run in sequence, which is the function `CheckAll`. A ghost trace, with the predicates `IsRun` and `StepAt`, ties the loop in the scene to `CheckAll`.
- **Scene update, first half.** `PlayScene.Update` is split into `SenseAndLand` and `Act`:
  - `SenseAndLand`: the input handler's update and the landing checks.
  - `Act`: the session logic, the replay step and the cycle counter.
- **Scene update, second half.** In the source, the replay step and the cycle counter follow the three-way `if` of the session logic. The model moves them into each branch: `ReturnAndAdvance`, `CrashAndAdvance`, `LiveAndAdvance` and `SpawnAndAdvance`. The effect is the same.
- **Order of the landing checks and the input update.** The model runs the landing checks before the input handler's update. The source does it the other way round. The two touch disjoint state: the landing maps on one side, the input handler's fields on the other. So the resulting state is the same.
- **Distances are squared.** `Geometry.SegmentDistSq` is the square of `distancePointToSegment`. Every threshold is compared squared: `< 2`, `> 50`, and `== 0` for the spawn point.
- **Rotation.** A rotation is carried as its cosine and sine, so no trigonometry is needed. `UnitRotation` says that the pair lies on the unit circle, as the cosine and sine of a real angle do. The lemmas about thrust and foot distance at any angle assume it.

### Where the model follows the code rather than the design

- **Landing line and spawn point.** An island's landing line and spawn point are computed as the code computes them. Phaser's `add` and `scale` change the vector they are called on, so after construction:
  - the stored landing line runs from the translated midpoint to the second point;
  - the spawn point adds the sprite offset a second time.

  A landing strip whose midpoint is both the snap target and the spawn point is a different, idealised design.
- **Landing rule.** Readiness to land is the code's dwell rule: stationary over the same island for 500 ms, at most once per last-landed island. The model does not use an idle-input test or a sticky landed flag.
- **No self-destruct input.** The scene has none. The replayer passes `false` for self-destruct, and the rocket does not read it.
- **Replay timing.** A replayer made from a finished recording is advanced once on the tick it is made. The forEach over `recordedRockets` comes after the push, so when the next update begins the new replayer has already applied its first input.
- **Rocket–rocket collisions.** They always explode the rocket. Otherwise a rocket explodes only when `15·angular + linear > 1.5` strictly, using the speeds cached at the last `applyInput`.

## Model

| member | source | states |
|---|---|---|
| Geometry.Clamp | src/utils/geometry.ts:15 | the result lies in [lo, hi]: the value itself when it already lies there, lo for a value below lo and hi for a value above hi |
| Geometry.ProjectionParam | src/utils/geometry.ts:6-15 | the segment parameter t lies in [0, 1], and is 0 for a degenerate segment (no division) |
| Geometry.ProjectionParamCases | src/utils/geometry.ts:10-15 | t is 0 when len(ab)² is 0, and Clamp(ap·ab / len(ab)², 0, 1) otherwise |
| Geometry.DistSqZeroIffEqual | src/utils/geometry.ts:18 | the distance between two points is non-negative, and zero exactly when they are equal |
| Geometry.DegenerateSegment | src/utils/geometry.ts:10-14 | for a == b the result is the distance from the point to a |
| Geometry.ClosestOnSegment | src/utils/geometry.ts:15-17 | the measured point is a + s·(b − a) for some s in [0, 1], so it lies on the segment |
| Geometry.ClosestIsMinimal | src/utils/geometry.ts:15-18 | no point of the segment is closer to p than the measured one: the result is the distance to the segment |
| Geometry.ZeroOnSegment | src/utils/geometry.ts:15-18 | the result is 0 for every point of the segment |
| Geometry.ZeroAtEndpoints | src/utils/geometry.ts:15-18 | the result is 0 at both endpoints |
| Geometry.NoFartherThanEndpoints | src/utils/geometry.ts:1-19 | the result is non-negative and at most the distance to a and to b |
| Geometry.PerpendicularInside | src/utils/geometry.ts:13-18 | when the projection falls inside a proper segment, the result is the perpendicular distance to line ab (len(ab)²·d² == cross(ap, ab)²) |
| Rockets.Abs | src/rockets/base_rocket.ts:95 | Math.abs: non-negative, and either v or −v |
| Rockets.RotationalCommand | src/rockets/base_rocket.ts:103-115 | a thrust command with torque x·0.005 and signed acceleration y·limit, where the limit is 0.0005 for y > 0 and 0.00025 otherwise |
| Rockets.ThrustBounds | src/rockets/base_rocket.ts:108-111 | for y in [−1, 1] the thrust lies in [−0.00025, 0.0005], has the sign of y, and the backward limit is half the forward one |
| Rockets.BackwardHalfOfForward | src/rockets/base_rocket.ts:11-13 | full backward input gives minus half of the full forward thrust |
| Rockets.RotationalAtZeroRotation | src/rockets/base_rocket.ts:112-115 | at rotation 0 the force is (0, −acceleration), straight up the screen |
| Rockets.RotationalThrustMagnitude | src/rockets/base_rocket.ts:112-115 | at any real angle (cos² + sin² == 1) the thrust force's squared length is the signed acceleration squared |
| Rockets.ClampedMagnitudeSq | src/rockets/base_rocket.ts:132-133 | the clamped magnitude, squared, lies in [0, 1]; it is len(v)² inside the unit disc, 1 outside it, and 0 exactly for the zero vector |
| Rockets.DirectionalCommand | src/rockets/base_rocket.ts:131-143 | no force exactly for zero input; otherwise a push along (x, −y) whose squared magnitude is the clamped squared length times 0.0005²: len(x, −y)²·0.0005² inside the unit disc and exactly 0.0005² outside it, so positive and at most 0.0005²; never a thrust |
| Rockets.DirectionalUnclamped | src/rockets/base_rocket.ts:132-140 | a non-zero input inside the unit disc is applied unclamped: the force is the input vector times 0.0005 |
| Rockets.ControlCommand | src/rockets/base_rocket.ts:84-92 | applyInput's switch: the rotational rule for ROTATIONAL, the directional rule for DIRECTIONAL |
| Rockets.SetPositionZeroRotationFoot | src/rockets/base_rocket.ts:145-149 | moving the body to p minus the foot offset, unrotated, puts the foot exactly at p |
| Rockets.RotatePreservesLength | src/rockets/base_rocket.ts:193-199 | turning a vector by a real angle keeps its length |
| Rockets.FootUnrotated | src/rockets/base_rocket.ts:193-199 | at rotation 0 the foot is the body centre plus the foot offset |
| Rockets.FootDistance | src/rockets/base_rocket.ts:193-199 | at any real angle the foot lies exactly as far from the body centre as the foot offset is long |
| Rockets.StoreGood | src/rockets/base_rocket.ts:157-165 | tryStoreGood succeeds exactly on an empty slot, which then holds the good; otherwise the slot is unchanged |
| Rockets.TakeGood | src/rockets/base_rocket.ts:167-175 | tryTakeGood succeeds exactly when the slot holds that good, which leaves it empty; otherwise the slot is unchanged |
| Rockets.StoreThenTake | src/rockets/base_rocket.ts:157-175 | storing a good in an empty slot and taking it back succeeds and leaves the slot empty |
| Rockets.TakeThenStore | src/rockets/base_rocket.ts:157-175 | taking the loaded good and storing it again restores the slot |
| Rockets.SecondStoreFails | src/rockets/base_rocket.ts:157-161 | after storing a real good, a second store of anything fails and changes nothing |
| Rockets.SecondTakeFails | src/rockets/base_rocket.ts:167-171 | after a successful take of a real good, taking it again fails on the empty slot |
| Rockets.StoreNothing | src/rockets/base_rocket.ts:157-161 | storing NONE in an empty slot reports success and leaves the slot empty |
| Rockets.ExplosionThreshold | src/rockets/base_rocket.ts:65-75 | rocket–rocket contact always explodes; otherwise exactly 15·angular + linear == 1.5 does not |
| Rockets.BaseRocket.constructor | src/rockets/base_rocket.ts:20-51 | a fresh rocket is undestroyed, empty, at rest and unrotated, with its foot exactly at the spawn point |
| Rockets.BaseRocket.ApplyInput | src/rockets/base_rocket.ts:84-95 | the force asked for is ControlCommand of the rocket's type, and the cached speeds become the body's speed and abs(angular velocity) |
| Rockets.BaseRocket.SetPositionAndRotation | src/rockets/base_rocket.ts:145-149 | the body moves to p minus the foot offset with rotation r, both velocities become 0, and for r == 0 the foot is exactly at p |
| Rockets.BaseRocket.FootPosition | src/rockets/base_rocket.ts:193-200 | getFootPosition: the foot offset turned with the body and added to its centre; unrotated, the plain offset from the centre |
| Rockets.BaseRocket.TryStoreGood | src/rockets/base_rocket.ts:157-165 | the result and the new slot are what StoreGood gives for the old slot |
| Rockets.BaseRocket.TryTakeGood | src/rockets/base_rocket.ts:167-175 | the result and the new slot are what TakeGood gives for the old slot |
| Rockets.BaseRocket.Explode | src/rockets/base_rocket.ts:177-178 | the rocket is destroyed |
| Rockets.BaseRocket.HandleCollisionEvent | src/rockets/base_rocket.ts:57-79 | for one collision event, the scene is notified at most once. It is notified exactly when the rocket was not already destroyed and some pair explodes it by the rule. The rocket ends destroyed exactly when it was before or was notified |
| PolygonBody.FindLandingFrom | src/utils/polygon_body.ts:36-38 | the first index, from i on, of a polygon named "landing"; none only when there is no such polygon |
| PolygonBody.FindLanding | src/utils/polygon_body.ts:36-38 | Array.find: the first polygon named "landing", with none before it |
| PolygonBody.GetLandingLine | src/utils/polygon_body.ts:32-45 | "no polygons" exactly when the shape or its polygons field is missing. Success exactly when the first "landing" polygon exists and has exactly two points, which are returned in order |
| PolygonBody.FirstLandingPolygonWins | src/utils/polygon_body.ts:36-44 | a landing polygon before any other one decides the line, whatever later polygons hold |
| PolygonBody.CollisionPolygons | src/utils/polygon_body.ts:11-13 | the filter never adds polygons |
| PolygonBody.CollisionPolygonsMembers | src/utils/polygon_body.ts:11-13 | a polygon is kept exactly when it is in the shape and not named "landing" |
| PolygonBody.CollisionPolygonsAppend | src/utils/polygon_body.ts:11-13 | the filter keeps order: it distributes over concatenation |
| PolygonBody.CollisionPolygonsIdempotent | src/utils/polygon_body.ts:11-13 | filtering twice is filtering once |
| PolygonBody.BodyPolygons | src/utils/polygon_body.ts:9-13 | no polygon that setPolygonBody turns into a collision part is named "landing" |
| Islands.TranslationIsOffset | src/islands/island.ts:18-24 | each translated landing point is the shape point plus the sprite offset |
| Islands.StoredLineIsSecondHalf | src/islands/island.ts:25 | after construction the stored line runs from the translated midpoint to the unchanged second point |
| Islands.SpawnPointHasOffsetTwice | src/islands/island.ts:25-29 | the spawn point is the shape line's midpoint plus twice the sprite offset |
| Islands.SnapPointIsThreeQuarters | src/islands/island.ts:25 | the midpoint of the stored line, where rockets are snapped, is three quarters of the way along the translated line |
| Islands.Island.constructor | src/islands/island.ts:18-29 | the stored landing line and spawn point are those the in-place add and scale leave |
| Islands.NewIsland | src/islands/island.ts:11-29 | building an island fails exactly when getLandingLine fails, with its error; otherwise the island holds the stored line and spawn point of that line and the sprite offset |
| IslandManagement.FirstOver | src/islands/island_manager.ts:33-40 | the first island in order whose landing line is strictly within 2 of the foot; none only when no island is |
| IslandManagement.SnapToIsland | src/islands/island_manager.ts:74-78 | the snap target is the midpoint of the island's landing line, with rotation 0 |
| IslandManagement.DwellStep | src/islands/island_manager.ts:45-64 | the candidate phase: off an island or moving, the candidate is removed and nothing snaps; a candidate left is always for the island under the foot; a snap is to the midpoint of that island, never the last-landed one, and clears the candidate while recording the island as last landed; without a snap the last-landed entry is kept |
| IslandManagement.CheckStep | src/islands/island_manager.ts:27-72 | one call for one rocket: a snap needs a stationary rocket over an island; a candidate left is for the island under the foot; without a snap the last-landed entry is kept or forgotten, never replaced |
| IslandManagement.NotCandidateClears | src/islands/island_manager.ts:45-64 | off every island, or not stationary, the rocket has no candidate afterwards and is not snapped |
| IslandManagement.NewCandidateRestarts | src/islands/island_manager.ts:46-48 | over an island with no candidate, or with a candidate for another island, the candidate restarts there with this call's milliseconds and nothing snaps |
| IslandManagement.SnapCondition | src/islands/island_manager.ts:45-56 | a call snaps exactly when the rocket is stationary over its candidate's island, the accumulated dwell reaches 500, and that island is not the last-landed one. It snaps to that island's midpoint and records the island as last landed |
| IslandManagement.DelayReachedClearsCandidate | src/islands/island_manager.ts:50-56 | once the dwell reaches 500 the candidate is removed, whether or not the call snapped |
| IslandManagement.DwellAccumulates | src/islands/island_manager.ts:49-59 | below 500 the candidate keeps its island and its elapsed time grows by deltaMs, without a snap |
| IslandManagement.NoSnapToLastLanded | src/islands/island_manager.ts:52-56 | a rocket is never snapped to the island it last landed on, and that entry stays |
| IslandManagement.LastLandedChanges | src/islands/island_manager.ts:66-71 | the last-landed island is forgotten exactly when the foot is over no island and strictly farther than 50 from that island's line. Without a snap, the entry otherwise stays |
| IslandManagement.FirstCallNeverSnaps | src/islands/island_manager.ts:46-48 | a rocket without a candidate is not snapped, so a snap needs two qualifying calls |
| IslandManagement.TwoStationaryCallsSnap | src/islands/island_manager.ts:45-56 | two stationary calls of at least 250 ms over the same island that is not the last-landed one snap on the second call |
| IslandManagement.Get | src/islands/island_manager.ts:13-14 | WeakMap.get: present exactly for a key of the map, with its value |
| IslandManagement.Put | src/islands/island_manager.ts:13-14 | WeakMap.set or delete: afterwards the rocket's entry is the one given, and the keys grow or shrink by that rocket only |
| IslandManagement.PutLeavesOthers | src/islands/island_manager.ts:13-14 | setting or deleting one rocket's entry leaves every other rocket's entry as it was |
| IslandManagement.CheckOne | src/islands/island_manager.ts:27-72 | one call on the maps: neither map gains a key other than this rocket, and a snap is asked only for a stationary rocket |
| IslandManagement.CheckOneLeavesOthers | src/islands/island_manager.ts:27-72 | a check of one rocket leaves every other rocket's candidate and last-landed entries unchanged |
| IslandManagement.CheckAll | src/play_scene.ts:79-84 | the checks of several rockets in order give one snap entry per rocket, and a snap only for a stationary rocket |
| IslandManagement.RunIsCheckAll | src/play_scene.ts:79-84 | a run of landing checks, each against the maps the previous one left, ends where CheckAll says, with the snaps it lists |
| IslandManagement.CheckAllLeavesOthers | src/play_scene.ts:79-84 | the landing checks of one update leave the entries of rockets that were not checked unchanged |
| IslandManagement.IslandManager.constructor | src/islands/island_manager.ts:11-21 | a manager over the given islands, with both maps empty |
| IslandManagement.IslandManager.FindLandedIsland | src/islands/island_manager.ts:33-40 | the for … break scan returns the first island the foot is over, exactly FirstOver |
| IslandManagement.IslandManager.CheckLandingStatus | src/islands/island_manager.ts:27-72 | both maps change only at this rocket, exactly as CheckStep says for its old entries, and the snap returned is CheckStep's |
| IslandManagement.IslandManager.UpdateCandidate | src/islands/island_manager.ts:42-64 | the candidate phase: the rocket's entries and the snap are those of DwellStep |
| IslandManagement.IslandManager.ForgetFarIsland | src/islands/island_manager.ts:66-71 | the last-landed entry is removed exactly when the foot is over no island and strictly farther than 50 from it; otherwise the map is unchanged |
| RecordedRockets.NextCursor | src/rockets/recorded_rocket.ts:20-21 | the next cursor is in range: cursor + 1, or 0 after the last input |
| RecordedRockets.CursorAfterIsModular | src/rockets/recorded_rocket.ts:17-22 | k replay steps move the cursor to (cursor + k) mod length |
| RecordedRockets.CursorStaysInRange | src/rockets/recorded_rocket.ts:20-21 | the cursor stays in [0, length) for any number of steps |
| RecordedRockets.PeriodIsLength | src/rockets/recorded_rocket.ts:20-21 | after exactly length steps the cursor is back where it started |
| RecordedRockets.PeriodIsExact | src/rockets/recorded_rocket.ts:20-21 | no positive number of steps below the length brings it back |
| RecordedRockets.Replayed | src/rockets/recorded_rocket.ts:17-22 | k replay calls apply exactly k inputs |
| RecordedRockets.ReplayedAt | src/rockets/recorded_rocket.ts:17-22 | the j-th replayed input is the recording's entry at (cursor + j) mod length |
| RecordedRockets.FullCycleReplaysRecording | src/rockets/recorded_rocket.ts:17-22 | one full cycle from cursor 0 replays the recording exactly, in order |
| RecordedRockets.RecordedRocketController.constructor | src/rockets/recorded_rocket.ts:10-15 | a replayer of that rocket and recording, starting at cursor 0 |
| RecordedRockets.RecordedRocketController.ApplyNextRecordedInput | src/rockets/recorded_rocket.ts:17-22 | applies the input under the cursor to the rocket, with the command of the rocket's type. The cursor moves to (cursor + 1) mod length and stays in range. The recording does not change |
| PlayerRockets.PlayerRocket.constructor | src/rockets/player_rocket.ts:15-20 | a recorder of that rocket with nothing recorded |
| PlayerRockets.PlayerRocket.ApplyInput | src/rockets/player_rocket.ts:35-38 | (x, y) goes unchanged to the rocket, and exactly one input (x, y) is appended at the end of the recording |
| PlayerRockets.PlayerRocket.ShouldFinishRecording | src/rockets/player_rocket.ts:40-42 | the recording is finished when it holds exactly CYCLE_STEPS inputs, so a finished recording of a positive cycle is never empty |
| PlayerRockets.PlayerRocket.FinishRecording | src/rockets/player_rocket.ts:49-52 | a fresh replayer of the same rocket and the same inputs, at cursor 0 |
| PlayerRockets.PlayerRocket.FootPosition | src/rockets/player_rocket.ts:58-60 | the foot of the recorded rocket; unrotated, the rocket's centre plus its foot offset |
| InputHandling.KeyboardAxis | src/utils/input_handler.ts:30-31 | a keyboard axis is 1, 0 or −1; 1 exactly when the positive key is down, −1 exactly when only the negative one is |
| InputHandling.Deadzone | src/utils/input_handler.ts:41-44 | values at or below 0.1 in absolute value become 0; others pass unchanged |
| InputHandling.ReadPad | src/utils/input_handler.ts:27-59 | without a pad: zero stick, no trigger and the space bar as primary. A stick axis is 0 or beyond the deadzone; the trigger axis is −1, 0 or 1 and non-zero whenever the right trigger counts as pressed; the primary button is pressed exactly for space or the pad's button 0 |
| InputHandling.RotationalInput | src/utils/input_handler.ts:56-68 | the rotational input steers with the same x as the directional input, and its thrust is always −1, 0 or 1 |
| InputHandling.DirectionalInput | src/utils/input_handler.ts:56-68 | without a pad it is the keyboard's (x, y); it is zero exactly when both stick axes are in the deadzone and no cursor key is down |
| InputHandling.JoystickOverridesKeyboard | src/utils/input_handler.ts:56-68 | a stick axis beyond the deadzone overrides the keyboard; the stick's y axis is negated |
| InputHandling.DeadzoneFallsBackToKeyboard | src/utils/input_handler.ts:39-68 | with no pad, or a stick axis inside the deadzone, the keyboard decides that axis |
| InputHandling.TriggerMapping | src/utils/input_handler.ts:46-59 | the rotational thrust is −1 for button 6, else +1 for button 7, else the keyboard's up/down |
| InputHandling.InputsBounded | src/utils/input_handler.ts:30-68 | every input axis lies in [−1, 1] when the pad's axes do |
| InputHandling.RisingEdges | src/utils/input_handler.ts:70-71 | successive updates give one just-pressed flag per update |
| InputHandling.RisingEdgeAt | src/utils/input_handler.ts:70-71 | a just-pressed flag is raised exactly when the button is down now and was up at the update before |
| InputHandling.NoConsecutiveEdges | src/utils/input_handler.ts:70-71 | a just-pressed flag is never raised on two consecutive updates |
| InputHandling.InputHandler.constructor | src/utils/input_handler.ts:10-18 | all vectors zero and all flags false |
| InputHandling.InputHandler.Update | src/utils/input_handler.ts:26-76 | the stored vectors are the rotational and directional inputs of the frame, and the camera input is the directional one. primaryJustDown is a rising edge of the primary button. tabJustDown is Tab's just-down or a rising edge of the right trigger. The previous-press fields are updated |
| InputHandling.InputHandler.GetRocketControlInput | src/utils/input_handler.ts:78-82 | the rotational vector for ROTATIONAL, the directional one otherwise |
| PlayScenes.WithoutRocket | src/play_scene.ts:174 | the filter never adds replayers |
| PlayScenes.WithoutRocketMembers | src/play_scene.ts:174 | a replayer is kept exactly when it was listed and drives another rocket |
| PlayScenes.WithoutRocketAppend | src/play_scene.ts:174 | the filter keeps the survivors' order: it distributes over concatenation |
| PlayScenes.WithoutAbsentRocket | src/play_scene.ts:174 | removing a rocket no replayer drives changes nothing |
| PlayScenes.WithoutRocketDistinct | src/play_scene.ts:174 | a list without repeated replayers stays without them |
| PlayScenes.AtSpawnPoint | src/play_scene.ts:87 | the distance from the foot to the spawn point is 0 exactly when they are equal |
| PlayScenes.PlayScene.constructor | src/play_scene.ts:17-23 | no player, no replayers, the cycle and recording start at step 0, no spawn point and the camera locked |
| PlayScenes.PlayScene.CheckReplayerLandings | src/play_scene.ts:79-81 | every replayer's rocket is checked once, in order, each against the maps the previous check left |
| PlayScenes.PlayScene.CheckLandings | src/play_scene.ts:79-84 | the replayers' rockets are checked, then the player's, in a run that ends at the manager's new maps |
| PlayScenes.PlayScene.ConvertRecording | src/play_scene.ts:86-95 | the finished recording becomes a fresh replayer of the same rocket and inputs at cursor 0, appended after the old replayers. The player and spawn point are cleared and the camera is locked |
| PlayScenes.PlayScene.ExplodeRecording | src/play_scene.ts:86-95 | the finished rocket is destroyed; the player and spawn point are cleared and the camera is locked |
| PlayScenes.PlayScene.ApplyLiveInput | src/play_scene.ts:96-100 | the control input of the rocket's type drives the player's rocket and is appended to its recording |
| PlayScenes.PlayScene.AwaitSpawn | src/play_scene.ts:101-146 | the camera is re-armed only by a frame with zero camera input. The primary button spawns a fresh rocket of the chosen type with its foot at the spawn point, an empty recording, that spawn point, and the recording start at the current cycle step; without it nothing spawns |
| PlayScenes.PlayScene.AdvanceReplayers | src/play_scene.ts:148-150 | every replayer applies its next input exactly once: each cursor moves one step modulo its length and stays in range |
| PlayScenes.PlayScene.SenseAndLand | src/play_scene.ts:77-84 | the input handler's new state is that of its update on the frame: both rocket vectors, the camera vector, the two just-pressed flags and the two previous-press fields. The landing checks form a run from the old maps to the new ones |
| PlayScenes.PlayScene.AdvanceCycle | src/play_scene.ts:148-155 | every replayer advances once, and the cycle step becomes (step + 1) mod CYCLE_STEPS |
| PlayScenes.PlayScene.ReturnAndAdvance | src/play_scene.ts:86-155 | a finished recording back at the spawn point becomes a replayer, already advanced once, after the old replayers, which each advance once; the cycle step advances |
| PlayScenes.PlayScene.CrashAndAdvance | src/play_scene.ts:86-155 | a finished rocket away from the spawn point is destroyed, the session is cleared, every replayer advances once and the cycle step advances |
| PlayScenes.PlayScene.LiveAndAdvance | src/play_scene.ts:96-155 | a recording in progress gets this frame's input, and the force returned is that input's command. The player and replayers stay, and so do the camera flag, the spawn point, the recording's start and the rocket's destroyed flag; every replayer and the cycle step advance |
| PlayScenes.PlayScene.SpawnAndAdvance | src/play_scene.ts:101-155 | without a player: the camera rule, and a spawn exactly on a primary press of a fresh, intact, empty rocket of the chosen type with its foot at the spawn point. Without a press the spawn point and the recording's start stay. The replayers stay and advance; the cycle step advances |
| PlayScenes.PlayScene.Act | src/play_scene.ts:86-155 | on a finished recording, the player, spawn point and camera are cleared, the recording's start is kept and no live input is applied. Then the recording becomes a replayer when the foot is exactly at the spawn point, and the rocket explodes otherwise. A recording in progress is fed one input and nothing else of the session changes. No spawner is selected while there is a player. Without a player the Tab press, camera and spawn rules apply, as in SpawnAndAdvance. Every old replayer advances once; the cycle step advances modulo CYCLE_STEPS |
| PlayScenes.PlayScene.Update | src/play_scene.ts:76-164 | the whole update. The input handler's new state is that of the frame, previous-press fields included, so edges chain across updates. Replayers' landings are checked before the player's. The session logic follows as in Act, with the live input and the camera rule stated on the frame's input, then one replay step of every replayer and the cycle step modulo CYCLE_STEPS. The scene invariant is kept: the cycle step is in range, and a recording is never longer than CYCLE_STEPS |
| PlayScenes.PlayScene.OnRocketDestroyed | src/play_scene.ts:166-175 | exactly the replayers driving the rocket are removed, the rest kept in order. The player is cleared and the camera locked only when the rocket is the player's; otherwise both stay |
| IslandShops.IslandShop.constructor | src/islands/island_shop.ts:15-20 | a shop for its good, starting closed |
| IslandShops.IslandShop.InteractWithRocket | src/islands/island_shop.ts:22-27 | tries to take exactly the shop's good (TakeGood), and opens only when that succeeded |
| IslandShops.ShopTakesOnlyItsGood | src/islands/island_shop.ts:24 | a rocket with a different good, or none, is left as it was; one with the shop's good is emptied |
| IslandShops.SecondSaleTakesNothing | src/islands/island_shop.ts:24 | right after a successful sale a second interaction takes nothing |
| IslandLakes.IslandLake.constructor | src/islands/island_lake.ts:9-12 | a lake on its island |
| IslandLakes.IslandLake.InteractWithRocket | src/islands/island_lake.ts:14-17 | tries to store WATER in the rocket (StoreGood) |
| IslandLakes.LakeFillsOnlyEmptyRockets | src/islands/island_lake.ts:16 | an empty rocket ends up holding water; a loaded one keeps its good |
| IslandLakes.LakeIdempotent | src/islands/island_lake.ts:16 | a second interaction fails and leaves the slot as the first left it |
| CaptureFlags.CaptureFlag.constructor | src/islands/capture_flag.ts:11-16 | the flag starts captured exactly when asked to |
| CaptureFlags.CaptureFlag.Capture | src/islands/capture_flag.ts:18-25 | afterwards the flag is captured, and the capture animation plays exactly when it was not captured before |
| SpawnerIslands.SpawnerIsland.constructor | src/islands/island_spawner.ts:10-18 | the island starts discovered exactly when asked to; otherwise the unset field reads as false |
| SpawnerIslands.SpawnerIsland.DiscoverIsland | src/islands/island_spawner.ts:24-30 | afterwards the island is discovered, and the call changes something exactly when it was not discovered before |

No member sets `captured` or `isDiscovered` back to false. Those fields change only in `Capture` and `DiscoverIsland`, and both methods only set them.

## Left out

- **Rendering, animation, camera and UI.**
  - Sprites and animations: the Open/Closed, Capture and Idle animations are reduced to the shop's `isOpen` flag and `Capture`'s `played` result.
  - Cargo sprites.
  - The camera's follow, pan and scroll, and the background layers.
  - `GameUI.update`.
- **The physics engine.**
  - Matter bodies and the building of collision parts. `setPolygonBody` is modelled only up to its "landing" filter.
  - `applyForce` and torque integration. A force is returned as a `ForceCommand`.
  - The subscription to collision events. One event is a parameter of `HandleCollisionEvent`.
  - The engine's changes to position, rotation and speed are `BaseRocket.EngineStep`.
- **The foot-offset scan over body vertices.** The foot offset is a constructor parameter, `footDy`.
- **Trigonometry.** A rotation is carried as its cosine and sine.
- **Square roots.** Distances are squared.
- **Floating point.** Numbers are reals. IEEE rounding is not modelled.
- **Input polling.** The keyboard and gamepad reading each frame is a `RawInput` parameter. That includes Phaser's `JustDown` for Tab.
- **Nondeterminism and timers.**
  - The scene's `Math.random` choice of rocket type is the `rotational` parameter.
  - `setTimeout` after an explosion is dropped.
  - `console.log` is dropped.
- **Members the source calls but does not define.** Each becomes a parameter or a result:
  - `finalizeLanding`: the snaps `CheckLandingStatus` and `Update` return.
  - `isStationary`: the `stationary` set.
  - `getSelectedSpawnerIsland().getSpawnPoint()`: the `spawnPoint` parameter.
  - `selectNextSpawnerIsland`: the `selectNextSpawner` result.
  - `checkLandingStatus`'s `deltaMs`, which the scene does not pass: a parameter of `Update`. As written, `elapsed` then starts undefined and becomes NaN once `deltaMs` is added (island_manager.ts:48,50), so `elapsed >= 500` never holds and the game never snaps. The parameter models the evident intent.
  - `getRocket()` on the player controller, which player_rocket.ts does not define: the `rocket` field of `PlayerRocket`.
- **Other undefined members that are not modelled at all:**
  - `isLanded`;
  - `processCycleStep`, `getOutstandingGoals` and `hasMultipleSpawners`;
  - `super.interactWithRocket`.
- **island_manager.ts constructor and getMainIsland.** The island list is a constructor parameter. The concrete islands that the constructor builds at fixed positions are not modelled, and neither is `getMainIsland`.
- **Goods.** `goods.ts` is not part of this model; a good is `NoGood`, `Water` or another named good.
- **Taking nothing.** `TakeGood(NoGood, NoGood)` reports success and leaves the slot empty, so a shop for NONE would open. The source instead throws on `goodsSprite.destroy` (base_rocket.ts:172), because an empty rocket has no cargo sprite: on a fresh rocket, or after a take. The model reports success where the source throws, because sprites are not modelled and no shop is configured with NONE.
- AdvanceReplayers: the force command each replayer's `applyInput` produces is discarded, so the scene states nothing about the forces replayers apply; `RecordedRocketController.ApplyNextRecordedInput` states each one.
- **The remaining source files:**
  - the trivial island subclasses;
  - the obstacles and signs;
  - the asset loader and the entry point;
  - the declaration-only files `rocket.ts`, `recorded_state.ts` and `Landable.ts`.
- **Empty recordings.** A replayer requires a non-empty recording. The source would read an undefined element and compute `0 % 0`. `PlayerRocket.FinishRecording` therefore requires at least one recorded input. The scene meets this as long as `CYCLE_STEPS > 0`, which `PlayScene.Valid` demands.
- **The island getters.** `getLandingLine` and `getSpawnPoint` are the constant fields `landingLine` and `spawnPoint`, so they return the stored values and never recompute them.
