/**
 * The landing detector of src/islands/island_manager.ts. For every rocket it
 * keeps two entries: a landing candidate (an island and the milliseconds the
 * rocket has stood still over it) and the island it last landed on.
 *
 * Distances are compared squared (see Geometry). What snapToIsland hands to the
 * rocket's finalizeLanding, which is not part of this model, is returned as a
 * LandingSnap.
 */
module IslandManagement {
  import opened Wrappers
  import opened Geometry
  import opened Rockets
  import opened Islands

  /** The foot must be strictly closer than this to a landing line. */
  const Tolerance: real := 2.0
  /** The last-landed island is forgotten once the foot is strictly farther than this. */
  const LeaveDistance: real := 50.0
  /** The stationary dwell, in milliseconds, after which a rocket is snapped. */
  const SnapDelayMs: real := 500.0

  datatype Candidate = Candidate(island: Island, elapsed: real)

  /** rocket.finalizeLanding(position, rotation). */
  datatype LandingSnap = LandingSnap(position: Vec, rotation: real)

  /** The foot is within the tolerance of the island's landing line. */
  predicate OverIsland(island: Island, foot: Vec)
  {
    WithinDistance(foot, island.landingLine.0, island.landingLine.1, Tolerance)
  }

  /** The foot is beyond the leave distance from the island's landing line. */
  predicate FarFromIsland(island: Island, foot: Vec)
  {
    BeyondDistance(foot, island.landingLine.0, island.landingLine.1, LeaveDistance)
  }

  /** The first island, from index i on, that the foot is over. */
  function FirstOver(islands: seq<Island>, foot: Vec, i: nat): (r: Option<nat>)
    requires i <= |islands|
    ensures r.Some? ==> i <= r.value < |islands| && OverIsland(islands[r.value], foot)
    ensures r.Some? ==> forall j :: i <= j < r.value ==> !OverIsland(islands[j], foot)
    ensures r.None? ==> forall j :: i <= j < |islands| ==> !OverIsland(islands[j], foot)
    decreases |islands| - i
  {
    if i == |islands| then None
    else if OverIsland(islands[i], foot) then Some(i)
    else FirstOver(islands, foot, i + 1)
  }

  /** snapToIsland: the midpoint of the island's landing line, with rotation 0. */
  function SnapToIsland(island: Island): (s: LandingSnap)
    ensures s.rotation == 0.0
    ensures s.position == PointAt(island.landingLine.0, island.landingLine.1, 0.5)
  {
    var (a, b) := island.landingLine;
    LandingSnap(Vec((a.x + b.x) * 0.5, (a.y + b.y) * 0.5), 0.0)
  }

  /** One rocket's entries in the candidate and last-landed maps. */
  datatype LandingState = LandingState(candidate: Option<Candidate>, lastLanded: Option<Island>)

  datatype LandingStep = LandingStep(state: LandingState, snap: Option<LandingSnap>)

  /** The candidate phase of checkLandingStatus, which may snap. */
  function DwellStep(islands: seq<Island>, st: LandingState, landed: Option<nat>,
                     stationary: bool, deltaMs: real): (r: LandingStep)
    requires landed.Some? ==> landed.value < |islands|
    ensures !(landed.Some? && stationary) ==> r == LandingStep(st.(candidate := None), None)
    ensures r.state.candidate.Some? ==> landed.Some? && r.state.candidate.value.island == islands[landed.value]
    ensures r.snap.Some? ==>
      && landed.Some? && st.lastLanded != Some(islands[landed.value])
      && r.snap.value == SnapToIsland(islands[landed.value])
      && r.state == LandingState(None, Some(islands[landed.value]))
    ensures r.snap.None? ==> r.state.lastLanded == st.lastLanded
  {
    if landed.Some? && stationary then
      var island := islands[landed.value];
      if st.candidate.None? || st.candidate.value.island != island then
        LandingStep(st.(candidate := Some(Candidate(island, deltaMs))), None)
      else
        var elapsed := st.candidate.value.elapsed + deltaMs;
        if elapsed >= SnapDelayMs then
          if Some(island) != st.lastLanded then
            LandingStep(LandingState(None, Some(island)), Some(SnapToIsland(island)))
          else
            LandingStep(st.(candidate := None), None)
        else
          LandingStep(st.(candidate := Some(Candidate(island, elapsed))), None)
    else
      LandingStep(st.(candidate := None), None)
  }

  /** checkLandingStatus for one rocket, as a function of its entries before the call. */
  function CheckStep(islands: seq<Island>, st: LandingState, foot: Vec, stationary: bool,
                     deltaMs: real): (r: LandingStep)
    ensures r.snap.Some? ==> stationary && FirstOver(islands, foot, 0).Some?
    ensures r.state.candidate.Some? ==>
      && FirstOver(islands, foot, 0).Some?
      && r.state.candidate.value.island == islands[FirstOver(islands, foot, 0).value]
    ensures r.snap.None? ==> r.state.lastLanded == st.lastLanded || r.state.lastLanded.None?
  {
    var landed := FirstOver(islands, foot, 0);
    var dwell := DwellStep(islands, st, landed, stationary, deltaMs);
    if landed.None? && st.lastLanded.Some? && FarFromIsland(st.lastLanded.value, foot) then
      LandingStep(dwell.state.(lastLanded := None), dwell.snap)
    else
      dwell
  }

  /** Off every island, or moving, the rocket has no candidate afterwards and is not snapped. */
  lemma NotCandidateClears(islands: seq<Island>, st: LandingState, foot: Vec, stationary: bool, deltaMs: real)
    requires FirstOver(islands, foot, 0).None? || !stationary
    ensures CheckStep(islands, st, foot, stationary, deltaMs).state.candidate.None?
    ensures CheckStep(islands, st, foot, stationary, deltaMs).snap.None?
  {
  }

  /**
   * Over a new island (no candidate, or one for another island) while stationary,
   * the candidate restarts there with this call's milliseconds and nothing snaps.
   */
  lemma NewCandidateRestarts(islands: seq<Island>, st: LandingState, foot: Vec, deltaMs: real)
    requires FirstOver(islands, foot, 0).Some?
    requires var island := islands[FirstOver(islands, foot, 0).value];
      st.candidate.None? || st.candidate.value.island != island
    ensures var step := CheckStep(islands, st, foot, true, deltaMs);
      && step.state == LandingState(Some(Candidate(islands[FirstOver(islands, foot, 0).value], deltaMs)), st.lastLanded)
      && step.snap.None?
  {
  }

  /**
   * A call snaps exactly when the rocket is stationary over the same island as its
   * candidate, the accumulated dwell reaches 500 ms, and that island is not its
   * last-landed one. It snaps to that island's landing-line midpoint and records
   * the island as last landed.
   */
  lemma SnapCondition(islands: seq<Island>, st: LandingState, foot: Vec, stationary: bool, deltaMs: real)
    ensures var step := CheckStep(islands, st, foot, stationary, deltaMs);
      var landed := FirstOver(islands, foot, 0);
      step.snap.Some? <==>
        && landed.Some? && stationary
        && st.candidate.Some? && st.candidate.value.island == islands[landed.value]
        && st.candidate.value.elapsed + deltaMs >= SnapDelayMs
        && st.lastLanded != Some(islands[landed.value])
    ensures var step := CheckStep(islands, st, foot, stationary, deltaMs);
      var landed := FirstOver(islands, foot, 0);
      step.snap.Some? ==>
        && landed.Some?
        && step.snap.value == SnapToIsland(islands[landed.value])
        && step.state.lastLanded == Some(islands[landed.value])
  {
  }

  /** Reaching the delay removes the candidate, whether or not the call snapped. */
  lemma DelayReachedClearsCandidate(islands: seq<Island>, st: LandingState, foot: Vec, deltaMs: real)
    requires FirstOver(islands, foot, 0).Some?
    requires st.candidate.Some? && st.candidate.value.island == islands[FirstOver(islands, foot, 0).value]
    requires st.candidate.value.elapsed + deltaMs >= SnapDelayMs
    ensures CheckStep(islands, st, foot, true, deltaMs).state.candidate.None?
  {
  }

  /** Below the delay the dwell time accumulates. */
  lemma DwellAccumulates(islands: seq<Island>, st: LandingState, foot: Vec, deltaMs: real)
    requires FirstOver(islands, foot, 0).Some?
    requires st.candidate.Some? && st.candidate.value.island == islands[FirstOver(islands, foot, 0).value]
    requires st.candidate.value.elapsed + deltaMs < SnapDelayMs
    ensures CheckStep(islands, st, foot, true, deltaMs).state.candidate
         == Some(Candidate(st.candidate.value.island, st.candidate.value.elapsed + deltaMs))
    ensures CheckStep(islands, st, foot, true, deltaMs).snap.None?
  {
  }

  /** A rocket is never snapped to the island it last landed on. */
  lemma NoSnapToLastLanded(islands: seq<Island>, st: LandingState, foot: Vec, stationary: bool, deltaMs: real)
    requires FirstOver(islands, foot, 0).Some?
    requires st.lastLanded == Some(islands[FirstOver(islands, foot, 0).value])
    ensures CheckStep(islands, st, foot, stationary, deltaMs).snap.None?
    ensures CheckStep(islands, st, foot, stationary, deltaMs).state.lastLanded == st.lastLanded
  {
    SnapCondition(islands, st, foot, stationary, deltaMs);
  }

  /**
   * The last-landed island is forgotten exactly when the foot is over no island
   * and strictly farther than 50 from that island's line; otherwise it changes
   * only by a snap.
   */
  lemma LastLandedChanges(islands: seq<Island>, st: LandingState, foot: Vec, stationary: bool, deltaMs: real)
    ensures var step := CheckStep(islands, st, foot, stationary, deltaMs);
      (st.lastLanded.Some? && step.state.lastLanded.None?) <==>
        (FirstOver(islands, foot, 0).None? && st.lastLanded.Some?
         && FarFromIsland(st.lastLanded.value, foot))
    ensures var step := CheckStep(islands, st, foot, stationary, deltaMs);
      step.snap.None? ==> step.state.lastLanded == st.lastLanded || step.state.lastLanded.None?
  {
  }

  /** A rocket without a candidate is not snapped by this call: a snap needs two qualifying calls. */
  lemma FirstCallNeverSnaps(islands: seq<Island>, lastLanded: Option<Island>, foot: Vec,
                            stationary: bool, deltaMs: real)
    ensures CheckStep(islands, LandingState(None, lastLanded), foot, stationary, deltaMs).snap.None?
  {
  }

  /**
   * Two stationary calls over the same new island, each at least 250 ms long,
   * snap the rocket to it on the second call.
   */
  lemma TwoStationaryCallsSnap(islands: seq<Island>, lastLanded: Option<Island>, foot: Vec, deltaMs: real)
    requires FirstOver(islands, foot, 0).Some?
    requires lastLanded != Some(islands[FirstOver(islands, foot, 0).value])
    requires deltaMs >= SnapDelayMs / 2.0
    ensures var first := CheckStep(islands, LandingState(None, lastLanded), foot, true, deltaMs);
      var second := CheckStep(islands, first.state, foot, true, deltaMs);
      && first.snap.None?
      && second.snap == Some(SnapToIsland(islands[FirstOver(islands, foot, 0).value]))
      && second.state == LandingState(None, Some(islands[FirstOver(islands, foot, 0).value]))
  {
    var first := CheckStep(islands, LandingState(None, lastLanded), foot, true, deltaMs);
    NewCandidateRestarts(islands, LandingState(None, lastLanded), foot, deltaMs);
    SnapCondition(islands, first.state, foot, true, deltaMs);
  }

  /** A rocket's entry in a map, if any. */
  function Get<V>(m: map<BaseRocket, V>, rocket: BaseRocket): (r: Option<V>)
    ensures r.Some? <==> rocket in m
    ensures r.Some? ==> r.value == m[rocket]
  {
    if rocket in m then Some(m[rocket]) else None
  }

  /** Map.set for Some, Map.delete for None. */
  function Put<V>(m: map<BaseRocket, V>, rocket: BaseRocket, entry: Option<V>): (r: map<BaseRocket, V>)
    ensures Get(r, rocket) == entry
    ensures entry.Some? ==> r.Keys == m.Keys + {rocket}
    ensures entry.None? ==> r.Keys == m.Keys - {rocket}
  {
    if entry.Some? then m[rocket := entry.value] else m - {rocket}
  }

  /** Putting one rocket's entry leaves every other rocket's entry as it was. */
  lemma PutLeavesOthers<V>(m: map<BaseRocket, V>, rocket: BaseRocket, entry: Option<V>, other: BaseRocket)
    requires other != rocket
    ensures Get(Put(m, rocket, entry), other) == Get(m, other)
  {
  }

  /** The two maps of the manager. */
  datatype Maps = Maps(candidates: map<BaseRocket, Candidate>, lastLanded: map<BaseRocket, Island>)

  /** One checkLandingStatus call on the maps: the rocket's two entries are put back as CheckStep says. */
  function CheckOne(islands: seq<Island>, maps: Maps, rocket: BaseRocket, foot: Vec, stationary: bool,
                    deltaMs: real): (r: (Maps, Option<LandingSnap>))
    ensures r.0.candidates.Keys <= maps.candidates.Keys + {rocket}
    ensures r.0.lastLanded.Keys <= maps.lastLanded.Keys + {rocket}
    ensures r.1.Some? ==> stationary
  {
    var st := LandingState(Get(maps.candidates, rocket), Get(maps.lastLanded, rocket));
    var step := CheckStep(islands, st, foot, stationary, deltaMs);
    (Maps(Put(maps.candidates, rocket, step.state.candidate), Put(maps.lastLanded, rocket, step.state.lastLanded)),
     step.snap)
  }

  /** A check of one rocket leaves every other rocket's entries as they were. */
  lemma CheckOneLeavesOthers(islands: seq<Island>, maps: Maps, rocket: BaseRocket, foot: Vec,
                             stationary: bool, deltaMs: real, other: BaseRocket)
    requires other != rocket
    ensures var after := CheckOne(islands, maps, rocket, foot, stationary, deltaMs).0;
      Get(after.candidates, other) == Get(maps.candidates, other)
      && Get(after.lastLanded, other) == Get(maps.lastLanded, other)
  {
    var st := LandingState(Get(maps.candidates, rocket), Get(maps.lastLanded, rocket));
    var step := CheckStep(islands, st, foot, stationary, deltaMs);
    PutLeavesOthers(maps.candidates, rocket, step.state.candidate, other);
    PutLeavesOthers(maps.lastLanded, rocket, step.state.lastLanded, other);
  }

  /** The landing checks of several rockets in order, each against the maps the previous one left. */
  function CheckAll(islands: seq<Island>, maps: Maps, rockets: seq<BaseRocket>, feet: seq<Vec>,
                    stationary: set<BaseRocket>, deltaMs: real): (r: (Maps, seq<Option<LandingSnap>>))
    requires |feet| == |rockets|
    ensures |r.1| == |rockets|
    ensures forall i :: 0 <= i < |rockets| && r.1[i].Some? ==> rockets[i] in stationary
    decreases |rockets|
  {
    if rockets == [] then (maps, [])
    else
      var n := |rockets| - 1;
      var before := CheckAll(islands, maps, rockets[..n], feet[..n], stationary, deltaMs);
      var last := CheckOne(islands, before.0, rockets[n], feet[n], rockets[n] in stationary, deltaMs);
      (last.0, before.1 + [last.1])
  }

  /**
   * A run of checks: trace[k] holds the maps before the check of rockets[k] and
   * trace[k + 1] those after it, and snaps[k] is what that check asked for.
   */
  ghost predicate IsRun(islands: seq<Island>, trace: seq<Maps>, snaps: seq<Option<LandingSnap>>,
                        rockets: seq<BaseRocket>, feet: seq<Vec>, stationary: set<BaseRocket>, deltaMs: real)
  {
    && |trace| == |rockets| + 1 && |snaps| == |rockets| && |feet| == |rockets|
    && forall k :: 0 <= k < |rockets| ==> StepAt(islands, trace, snaps, rockets, feet, stationary, deltaMs, k)
  }

  /** Step k of a run: the check of rockets[k] takes trace[k] to trace[k + 1] and asks for snaps[k]. */
  ghost predicate StepAt(islands: seq<Island>, trace: seq<Maps>, snaps: seq<Option<LandingSnap>>,
                         rockets: seq<BaseRocket>, feet: seq<Vec>, stationary: set<BaseRocket>, deltaMs: real, k: nat)
  {
    && k + 1 < |trace| && k < |snaps| && k < |rockets| && k < |feet|
    && (trace[k + 1], snaps[k]) == CheckOne(islands, trace[k], rockets[k], feet[k], rockets[k] in stationary, deltaMs)
  }

  /** A run over a prefix extends, by the next check, to a run over one more rocket. */
  lemma RunExtend(islands: seq<Island>, trace: seq<Maps>, snaps: seq<Option<LandingSnap>>,
                  rockets: seq<BaseRocket>, feet: seq<Vec>, i: nat, stationary: set<BaseRocket>, deltaMs: real,
                  after: Maps, snap: Option<LandingSnap>)
    requires |feet| == |rockets| && i < |rockets|
    requires IsRun(islands, trace, snaps, rockets[..i], feet[..i], stationary, deltaMs)
    requires (after, snap) == CheckOne(islands, trace[i], rockets[i], feet[i], rockets[i] in stationary, deltaMs)
    ensures IsRun(islands, trace + [after], snaps + [snap], rockets[..i + 1], feet[..i + 1], stationary, deltaMs)
  {
    var trace', snaps', rockets', feet' := trace + [after], snaps + [snap], rockets[..i + 1], feet[..i + 1];
    forall k | 0 <= k < i + 1
      ensures StepAt(islands, trace', snaps', rockets', feet', stationary, deltaMs, k)
    {
      if k < i {
        assert StepAt(islands, trace, snaps, rockets[..i], feet[..i], stationary, deltaMs, k);
        assert rockets[..i][k] == rockets[k] && feet[..i][k] == feet[k];
      }
    }
  }

  /** A run of checks ends where CheckAll says, with the snaps CheckAll lists. */
  lemma {:induction false} RunIsCheckAll(islands: seq<Island>, trace: seq<Maps>, snaps: seq<Option<LandingSnap>>,
                                         rockets: seq<BaseRocket>, feet: seq<Vec>, stationary: set<BaseRocket>,
                                         deltaMs: real)
    requires IsRun(islands, trace, snaps, rockets, feet, stationary, deltaMs)
    ensures CheckAll(islands, trace[0], rockets, feet, stationary, deltaMs) == (trace[|rockets|], snaps)
    decreases |rockets|
  {
    if rockets != [] {
      var n := |rockets| - 1;
      var trace', snaps', rockets', feet' := trace[..n + 1], snaps[..n], rockets[..n], feet[..n];
      assert IsRun(islands, trace', snaps', rockets', feet', stationary, deltaMs) by {
        forall k | 0 <= k < n
          ensures StepAt(islands, trace', snaps', rockets', feet', stationary, deltaMs, k)
        {
          assert StepAt(islands, trace, snaps, rockets, feet, stationary, deltaMs, k);
        }
      }
      RunIsCheckAll(islands, trace[..n + 1], snaps[..n], rockets[..n], feet[..n], stationary, deltaMs);
      assert StepAt(islands, trace, snaps, rockets, feet, stationary, deltaMs, n);
      assert snaps == snaps[..n] + [snaps[n]];
    }
  }

  /** Entries of rockets that are not checked are left as they were. */
  lemma {:induction false} CheckAllLeavesOthers(islands: seq<Island>, maps: Maps, rockets: seq<BaseRocket>,
                                                feet: seq<Vec>, stationary: set<BaseRocket>, deltaMs: real,
                                                other: BaseRocket)
    requires |feet| == |rockets|
    requires other !in rockets
    ensures var after := CheckAll(islands, maps, rockets, feet, stationary, deltaMs).0;
      Get(after.candidates, other) == Get(maps.candidates, other)
      && Get(after.lastLanded, other) == Get(maps.lastLanded, other)
    decreases |rockets|
  {
    if rockets != [] {
      var n := |rockets| - 1;
      var rockets', feet' := rockets[..n], feet[..n];
      assert rockets == rockets' + [rockets[n]];
      CheckAllLeavesOthers(islands, maps, rockets', feet', stationary, deltaMs, other);
      var before := CheckAll(islands, maps, rockets', feet', stationary, deltaMs);
      CheckOneLeavesOthers(islands, before.0, rockets[n], feet[n], rockets[n] in stationary, deltaMs, other);
    }
  }

  class IslandManager {
    const islands: seq<Island>
    var candidateMap: map<BaseRocket, Candidate>
    var lastLandedMap: map<BaseRocket, Island>

    constructor (islands: seq<Island>)
      ensures this.islands == islands
      ensures candidateMap == map[] && lastLandedMap == map[]
    {
      this.islands := islands;
      candidateMap := map[];
      lastLandedMap := map[];
    }

    /** Both maps as a value. */
    function Current(): Maps
      reads this
    {
      Maps(candidateMap, lastLandedMap)
    }

    /** The for … break scan: the index of the first island whose landing line the foot is over. */
    method FindLandedIsland(foot: Vec) returns (landed: Option<nat>)
      ensures landed.Some? ==> landed.value < |islands| && OverIsland(islands[landed.value], foot)
      ensures landed.Some? ==> forall j :: 0 <= j < landed.value ==> !OverIsland(islands[j], foot)
      ensures landed.None? ==> forall j :: 0 <= j < |islands| ==> !OverIsland(islands[j], foot)
      ensures landed == FirstOver(islands, foot, 0)
    {
      landed := None;
      var i := 0;
      while i < |islands|
        invariant 0 <= i <= |islands|
        invariant forall j :: 0 <= j < i ==> !OverIsland(islands[j], foot)
      {
        var (a, b) := islands[i].landingLine;
        if SegmentDistSq(foot, a, b) < Tolerance * Tolerance {
          landed := Some(i);
          break;
        }
        i := i + 1;
      }
    }

    /**
     * checkLandingStatus: updates this rocket's two entries as CheckStep says and
     * returns the snap it asks for, if any; other rockets' entries stay.
     */
    method CheckLandingStatus(rocket: BaseRocket, isStationary: bool, deltaMs: real)
        returns (snap: Option<LandingSnap>)
      modifies this`candidateMap, this`lastLandedMap
      ensures var step := CheckStep(islands, LandingState(old(Get(candidateMap, rocket)), old(Get(lastLandedMap, rocket))),
                                    rocket.FootPosition(), isStationary, deltaMs);
        && snap == step.snap
        && candidateMap == Put(old(candidateMap), rocket, step.state.candidate)
        && lastLandedMap == Put(old(lastLandedMap), rocket, step.state.lastLanded)
      ensures (Current(), snap) == CheckOne(islands, old(Current()), rocket, rocket.FootPosition(), isStationary, deltaMs)
    {
      var foot := rocket.FootPosition();
      var landed := FindLandedIsland(foot);
      var lastIsland := Get(lastLandedMap, rocket);
      snap := UpdateCandidate(rocket, landed, lastIsland, isStationary, deltaMs);
      ForgetFarIsland(rocket, foot, landed, lastIsland);
    }

    /** The candidate phase: DwellStep applied to this rocket's entries. */
    method UpdateCandidate(rocket: BaseRocket, landed: Option<nat>, lastIsland: Option<Island>,
                           isStationary: bool, deltaMs: real)
        returns (snap: Option<LandingSnap>)
      requires landed.Some? ==> landed.value < |islands|
      requires lastIsland == Get(lastLandedMap, rocket)
      modifies this`candidateMap, this`lastLandedMap
      ensures var dwell := DwellStep(islands, LandingState(old(Get(candidateMap, rocket)), lastIsland),
                                     landed, isStationary, deltaMs);
        && snap == dwell.snap
        && candidateMap == Put(old(candidateMap), rocket, dwell.state.candidate)
        && lastLandedMap == Put(old(lastLandedMap), rocket, dwell.state.lastLanded)
    {
      snap := None;
      if landed.Some? && isStationary {
        var island := islands[landed.value];
        var candidate := Get(candidateMap, rocket);
        if candidate.None? || candidate.value.island != island {
          candidateMap := candidateMap[rocket := Candidate(island, deltaMs)];
        } else {
          var current := candidate.value;
          current := current.(elapsed := current.elapsed + deltaMs);
          if current.elapsed >= SnapDelayMs {
            if Some(island) != lastIsland {
              snap := Some(SnapToIsland(island));
              lastLandedMap := lastLandedMap[rocket := island];
            }
            candidateMap := candidateMap - {rocket};
          } else {
            candidateMap := candidateMap[rocket := current];
          }
        }
      } else {
        candidateMap := candidateMap - {rocket};
      }
    }

    /** The leave phase: off every island and beyond the leave distance, the last-landed entry goes. */
    method ForgetFarIsland(rocket: BaseRocket, foot: Vec, landed: Option<nat>, lastIsland: Option<Island>)
      modifies this`lastLandedMap
      ensures lastLandedMap ==
        if landed.None? && lastIsland.Some? && FarFromIsland(lastIsland.value, foot)
        then old(lastLandedMap) - {rocket} else old(lastLandedMap)
    {
      if landed.None? && lastIsland.Some? {
        var (a, b) := lastIsland.value.landingLine;
        if SegmentDistSq(foot, a, b) > LeaveDistance * LeaveDistance {
          lastLandedMap := lastLandedMap - {rocket};
        }
      }
    }
  }
}
