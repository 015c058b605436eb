/** The race manager as the object the controller mutates: it owns the lanes, steps the
    light tree, reads the player buttons, drains the button-event queue, hands out places
    and ends the race.  Every method is proved to leave exactly the state the matching
    function of `ManagerSpec` describes; the race-level promises are proved there. */
module Races {
  import opened LaneSpec
  import opened RaceSpec
  import opened Lanes
  import ManagerSpec

  class RaceManager {
    /** The lanes, in lane order; lane `i` reads player button `i`. */
    const lanes: seq<Lane>
    /** The build-time switches: staging lights, release-to-start, auto-sequence, delays. */
    const rc: RaceConfig

    var raceStarted: bool
    var tree: Sequencer
    var raceStartTime: int
    var placeCounter: int
    var playerBtnStates: seq<int>
    var buttonEvents: seq<ButtonEvent>
    var staging: StagingTimer

    /** The lanes' states, in lane order. */
    function States(): (s: seq<LaneState>)
      reads lanes
      ensures |s| == |lanes| && forall j :: 0 <= j < |lanes| ==> s[j] == lanes[j].State()
    {
      seq(|lanes|, j requires 0 <= j < |lanes| reads lanes => lanes[j].State())
    }

    /** The lanes' configurations, in lane order. */
    function Configs(): (c: seq<LaneConfig>)
      ensures |c| == |lanes| && forall j :: 0 <= j < |lanes| ==> c[j] == lanes[j].config
    {
      seq(|lanes|, j requires 0 <= j < |lanes| => lanes[j].config)
    }

    /** The whole state as one value. */
    function Snapshot(): ManagerSpec.Race
      reads this, lanes
    {
      ManagerSpec.Race(States(), raceStarted, tree, raceStartTime, placeCounter, playerBtnStates,
                       buttonEvents, staging)
    }

    /** Distinct lane objects, and the manager's own fields valid for that many lanes. */
    predicate Valid()
      reads this
    {
      Distinct()
      && ManagerSpec.ValidFields(|lanes|, playerBtnStates, buttonEvents, raceStarted, tree, staging)
    }

    /** No lane object appears twice. */
    predicate Distinct() {
      forall i, j :: 0 <= i < j < |lanes| ==> lanes[i] != lanes[j]
    }

    constructor(laneObjects: seq<Lane>, rc: RaceConfig)
      requires forall i, j :: 0 <= i < j < |laneObjects| ==> laneObjects[i] != laneObjects[j]
      ensures lanes == laneObjects && this.rc == rc
      ensures Valid() && Snapshot() == ManagerSpec.Fresh(States())
    {
      lanes := laneObjects;
      this.rc := rc;
      raceStarted := false;
      tree := ManagerSpec.IdleSequencer;
      raceStartTime := 0;
      placeCounter := 1;
      playerBtnStates := seq(|laneObjects|, _ => 1);
      buttonEvents := [];
      staging := IdleTimer;
    }

    // -------------------------------------------------------------------------------------
    // Reset and the light tree

    /** `reset_race`: every lane reset, then the manager's own fields. */
    method ResetRace()
      requires Valid()
      modifies this, lanes
      ensures Valid() && Snapshot() == ManagerSpec.ResetRace(old(Snapshot()))
    {
      ghost var before := Snapshot();
      ResetEveryLane();
      raceStarted := false;
      tree := ManagerSpec.IdleSequencer;
      raceStartTime := 0;
      placeCounter := 1;
      buttonEvents := [];
      staging := IdleTimer;
      assert States() == ManagerSpec.ResetRace(before).lanes;
    }

    /** The loop of `reset_race` over the lanes. */
    method ResetEveryLane()
      requires Distinct()
      modifies lanes
      ensures forall j :: 0 <= j < |lanes| ==> lanes[j].State() == LaneSpec.Reset(old(lanes[j].State()))
    {
      for i := 0 to |lanes|
        invariant forall j :: 0 <= j < i ==> lanes[j].State() == LaneSpec.Reset(old(lanes[j].State()))
        invariant forall j :: i <= j < |lanes| ==> lanes[j].State() == old(lanes[j].State())
      {
        lanes[i].Reset();
      }
    }

    /** `start_race`: the race lights of every lane off, then the sequencer armed. */
    method StartRace(now: int)
      requires Valid()
      modifies this, lanes
      ensures Valid() && Snapshot() == ManagerSpec.StartRace(old(Snapshot()), now)
    {
      ghost var before := Snapshot();
      if !raceStarted && !tree.running {
        SwitchOffLightsEverywhere(RACE_LIGHTS);
        tree := Armed(tree, now);
        raceStarted := true;
        raceStartTime := now;
        assert States() == ManagerSpec.StartRace(before, now).lanes;
      }
    }

    /** The loop of `start_race` over the lanes. */
    method SwitchOffLightsEverywhere(names: seq<string>)
      requires Distinct()
      modifies lanes
      ensures forall j :: 0 <= j < |lanes| ==>
                lanes[j].State() == old(lanes[j].State()).(treeState := ClearLights(old(lanes[j].treeState), names))
    {
      for i := 0 to |lanes|
        invariant forall j :: 0 <= j < i ==>
                    lanes[j].State() == old(lanes[j].State()).(treeState := ClearLights(old(lanes[j].treeState), names))
        invariant forall j :: i <= j < |lanes| ==> lanes[j].State() == old(lanes[j].State())
      {
        SwitchOffLights(lanes[i], names);
      }
    }

    /** The inner loop of `start_race`: `set_light(light, 0)` for each name in turn. */
    static method SwitchOffLights(lane: Lane, names: seq<string>)
      modifies lane
      ensures lane.State() == old(lane.State()).(treeState := ClearLights(old(lane.treeState), names))
    {
      for k := 0 to |names|
        invariant lane.treeState == ClearLights(old(lane.treeState), names[..k])
        invariant lane.State() == old(lane.State()).(treeState := lane.treeState)
      {
        lane.SetLight(names[k], 0);
        assert names[..k + 1][..k] == names[..k];
      }
      assert names[..|names|] == names;
    }

    /** `update_tree`: with the tree idle, starts the race once the staging delay has run
        out; with a stage pending, processes it once its deadline has come. */
    method UpdateTree(now: int)
      requires Valid()
      modifies this, lanes
      ensures Valid() && Snapshot() == ManagerSpec.UpdateTree(old(Snapshot()), now)
    {
      if !tree.running || tree.currentStage.None? {
        if !raceStarted && staging.allStaged && staging.startTime.Some? {
          if now - staging.startTime.value >= staging.delay.value {
            staging := staging.(startTime := None, delay := None);
            StartRace(now);
          }
        }
        return;
      }
      if now - tree.nextStageTime >= 0 {
        ProcessStage(now);
      }
    }

    /** `process_stage`: the pending stage's light on or off in every lane, the next stage
        and its deadline; at green, the shared green stamp on every lane without one. */
    method ProcessStage(now: int)
      requires Valid()
      modifies this, lanes
      ensures Valid() && Snapshot() == ManagerSpec.ProcessStage(old(Snapshot()), now)
    {
      ghost var before := Snapshot();
      if tree.currentStage.Some? {
        var st := tree.currentStage.value;
        SetLightEverywhere(StageLight(st), if TurnsOn(st) then 1 else 0);
        tree := Advanced(tree, st, now);
        if st == GreenOn {
          StampGreenEverywhere(now);
        }
        assert States() == ManagerSpec.ProcessStage(before, now).lanes;
      }
    }

    /** The loop of `green_on`: every lane whose `start_time` is unset gets `now`. */
    method StampGreenEverywhere(now: int)
      requires Distinct()
      modifies lanes
      ensures forall j :: 0 <= j < |lanes| ==> lanes[j].State() == GreenStamped(old(lanes[j].State()), now)
    {
      for i := 0 to |lanes|
        invariant forall j :: 0 <= j < i ==> lanes[j].State() == GreenStamped(old(lanes[j].State()), now)
        invariant forall j :: i <= j < |lanes| ==> lanes[j].State() == old(lanes[j].State())
      {
        if lanes[i].stamps.startTime.None? {
          lanes[i].stamps := lanes[i].stamps.(startTime := Some(now));
        }
      }
    }

    /** A lane after the green stamp: `now` if it had none. */
    static function GreenStamped(s: LaneState, now: int): LaneState {
      if s.stamps.startTime.None? then s.(stamps := s.stamps.(startTime := Some(now))) else s
    }

    /** `set_light_on`. */
    method SetLightOn(name: string)
      requires Valid()
      modifies this, lanes
      ensures Valid() && Snapshot() == ManagerSpec.SetLightAll(old(Snapshot()), name, 1)
    {
      ghost var before := Snapshot();
      SetLightEverywhere(name, 1);
      assert States() == ManagerSpec.SetLightAll(before, name, 1).lanes;
    }

    /** `set_light_off`. */
    method SetLightOff(name: string)
      requires Valid()
      modifies this, lanes
      ensures Valid() && Snapshot() == ManagerSpec.SetLightAll(old(Snapshot()), name, 0)
    {
      ghost var before := Snapshot();
      SetLightEverywhere(name, 0);
      assert States() == ManagerSpec.SetLightAll(before, name, 0).lanes;
    }

    /** The loop of `set_light_on` and `set_light_off` over the lanes. */
    method SetLightEverywhere(name: string, v: int)
      requires Distinct()
      modifies lanes
      ensures forall j :: 0 <= j < |lanes| ==> lanes[j].State() == LaneSpec.SetLight(old(lanes[j].State()), name, v)
    {
      for i := 0 to |lanes|
        invariant forall j :: 0 <= j < i ==> lanes[j].State() == LaneSpec.SetLight(old(lanes[j].State()), name, v)
        invariant forall j :: i <= j < |lanes| ==> lanes[j].State() == old(lanes[j].State())
      {
        lanes[i].SetLight(name, v);
      }
    }

    /** `is_light_on`: the first lane's light, false with no lanes. */
    function IsLightOn(name: string): (on: bool)
      reads this, lanes
      ensures on <==> ManagerSpec.IsLightOn(Snapshot(), name)
    {
      |lanes| > 0 && lanes[0].GetLightState(name) == 1
    }

    /** `reset_all_lights`: every light of every lane off (the LED strip itself is not part
        of the model). */
    method ResetAllLights()
      requires Valid()
      modifies this, lanes
      ensures Valid() && Snapshot() == ManagerSpec.ResetAllLights(old(Snapshot()))
    {
      ghost var before := Snapshot();
      SwitchOffAllEverywhere();
      assert States() == ManagerSpec.ResetAllLights(before).lanes;
    }

    /** The loop of `reset_all_lights` over the lanes. */
    method SwitchOffAllEverywhere()
      requires Distinct()
      modifies lanes
      ensures forall j :: 0 <= j < |lanes| ==>
                lanes[j].State() == old(lanes[j].State()).(treeState := AllOff(old(lanes[j].treeState)))
    {
      for i := 0 to |lanes|
        invariant forall j :: 0 <= j < i ==>
                    lanes[j].State() == old(lanes[j].State()).(treeState := AllOff(old(lanes[j].treeState)))
        invariant forall j :: i <= j < |lanes| ==> lanes[j].State() == old(lanes[j].State())
      {
        lanes[i].SwitchOffAllLights();
      }
    }

    // -------------------------------------------------------------------------------------
    // Buttons and staging

    /** `check_player_buttons`; `readings` are the player buttons' levels at `now` and
        `delay` is the random staging delay drawn should every lane become staged. */
    method CheckPlayerButtons(now: int, readings: seq<int>, delay: int)
      requires Valid() && |readings| == |lanes|
      requires rc.stagingDelayMin <= delay <= rc.stagingDelayMax
      modifies this, lanes
      ensures Valid()
      ensures Snapshot() == ManagerSpec.CheckPlayerButtons(old(Snapshot()), readings, now, delay, rc, Configs())
    {
      ghost var pre := Snapshot();
      ManagerSpec.ReadButtonsValid(pre, readings, now, delay, rc);
      ReadButtons(now, readings, delay);
      assert States() == ManagerSpec.ReadButtons(pre, readings, now, delay, rc).lanes;
      assert Snapshot() == ManagerSpec.ReadButtons(pre, readings, now, delay, rc);
      ProcessButtonEvents(now);
    }

    /** The loop of `check_player_buttons` over the lanes. */
    method ReadButtons(now: int, readings: seq<int>, delay: int)
      requires Distinct() && |playerBtnStates| == |lanes| && |readings| == |lanes|
      requires rc.stagingDelayMin <= delay <= rc.stagingDelayMax
      modifies this, lanes
      ensures var b := ButtonSweep(old(States()), old(playerBtnStates), readings, |lanes|, raceStarted,
                                   rc, now, delay, old(staging), old(buttonEvents));
        (forall j :: 0 <= j < |lanes| ==> lanes[j].State() == b.0[j])
        && staging == b.1 && buttonEvents == b.2
      ensures playerBtnStates == readings
      ensures raceStarted == old(raceStarted) && tree == old(tree)
      ensures raceStartTime == old(raceStartTime) && placeCounter == old(placeCounter)
    {
      ghost var states, previous := States(), playerBtnStates;
      ghost var b := (states, staging, buttonEvents);
      for i := 0 to |lanes|
        invariant |playerBtnStates| == |lanes|
        invariant b == ButtonSweep(states, previous, readings, i, raceStarted, rc, now, delay,
                                   old(staging), old(buttonEvents))
        invariant forall j :: 0 <= j < |lanes| ==> lanes[j].State() == b.0[j]
        invariant staging == b.1 && buttonEvents == b.2
        invariant forall j :: 0 <= j < i ==> playerBtnStates[j] == readings[j]
        invariant forall j :: i <= j < |lanes| ==> playerBtnStates[j] == previous[j]
        invariant raceStarted == old(raceStarted) && tree == old(tree)
        invariant raceStartTime == old(raceStartTime) && placeCounter == old(placeCounter)
      {
        ReadButton(i, readings[i], now, delay, b.0);
        b := ButtonStep(b.0, b.1, b.2, previous[i], readings[i], i, raceStarted, rc, now, delay);
      }
    }

    /** Lane `i` of `check_player_buttons`, with `states` the lanes' states before it: the
        lane, the staging timer and the queue change as `ButtonStep` says, and `current`
        becomes the lane's previous reading. */
    method ReadButton(i: nat, current: int, now: int, delay: int, ghost states: seq<LaneState>)
      requires Distinct() && i < |lanes| && |playerBtnStates| == |lanes| && |states| == |lanes|
      requires forall j :: 0 <= j < |lanes| ==> lanes[j].State() == states[j]
      requires rc.stagingDelayMin <= delay <= rc.stagingDelayMax
      modifies this, lanes[i]
      ensures var b := ButtonStep(states, old(staging), old(buttonEvents), old(playerBtnStates[i]),
                                  current, i, raceStarted, rc, now, delay);
        (forall j :: 0 <= j < |lanes| ==> lanes[j].State() == b.0[j])
        && staging == b.1 && buttonEvents == b.2
      ensures playerBtnStates == old(playerBtnStates)[i := current]
      ensures raceStarted == old(raceStarted) && tree == old(tree)
      ensures raceStartTime == old(raceStartTime) && placeCounter == old(placeCounter)
    {
      var previous := playerBtnStates[i];
      var becameStaged, queued := ApplyButton(lanes[i], previous, current, raceStarted, rc);
      if becameStaged {
        assert States() == ButtonStep(states, staging, buttonEvents, previous, current, i, raceStarted,
                                      rc, now, delay).0;
        CheckAllStaged(now, delay);
      }
      if queued {
        buttonEvents := buttonEvents + [Player(i)];
      }
      playerBtnStates := playerBtnStates[i := current];
    }

    /** The branches of `check_player_buttons` for one lane: a press before the race stages
        the lane (and reports whether it became staged), a press or, in release-to-start
        mode, a release during the race is to be queued, and a release before the race
        cancels the lane's staging. */
    static method ApplyButton(lane: Lane, previous: int, current: int, raceStarted: bool, rc: RaceConfig)
      returns (becameStaged: bool, queued: bool)
      modifies lane
      ensures lane.State() == ButtonEffect(old(lane.State()), previous, current, raceStarted, rc)
      ensures becameStaged == (PressStages(previous, current, raceStarted, rc)
                               && old(lane.prestaged) && !old(lane.staged))
      ensures queued == QueuesEvent(previous, current, raceStarted, rc)
    {
      becameStaged, queued := false, false;
      if current == 0 && previous == 1 {
        if !raceStarted && rc.stagingLightsEnabled {
          if !lane.prestaged {
            lane.prestaged := true;
            lane.SetLight("prestage", 1);
          } else if !lane.staged {
            lane.staged := true;
            lane.SetLight("stage", 1);
            becameStaged := true;
          }
        } else if raceStarted && !rc.releaseToStartMode {
          queued := true;
        }
      } else if current == 1 && previous == 0 {
        if raceStarted && rc.releaseToStartMode {
          queued := true;
        } else if !raceStarted {
          if lane.staged || lane.prestaged {
            lane.staged := false;
            lane.prestaged := false;
            lane.SetLight("stage", 0);
            lane.SetLight("prestage", 0);
          }
        }
      }
    }

    /** `check_all_staged`: arms the staging timer with `delay`, the random draw, when every
        lane is staged before the race with auto-sequencing on. */
    method CheckAllStaged(now: int, delay: int)
      requires rc.stagingDelayMin <= delay <= rc.stagingDelayMax
      modifies this
      ensures old(Valid()) ==> Valid()
      ensures staging == ArmStaging(old(staging), States(), raceStarted, rc, now, delay)
      ensures raceStarted == old(raceStarted) && tree == old(tree)
      ensures raceStartTime == old(raceStartTime) && placeCounter == old(placeCounter)
      ensures playerBtnStates == old(playerBtnStates) && buttonEvents == old(buttonEvents)
    {
      if raceStarted || !rc.stagingAutoSequence {
        return;
      }
      var allStaged := true;
      for i := 0 to |lanes|
        invariant allStaged <==> forall j :: 0 <= j < i ==> lanes[j].staged
      {
        if !lanes[i].staged {
          allStaged := false;
          break;
        }
      }
      assert allStaged <==> AllStaged(States());
      if allStaged && !staging.allStaged {
        staging := StagingTimer(true, Some(now), Some(delay));
      }
    }

    /** `process_button_events`: at most five events leave the front of the queue, each
        firing its lane's servo unless that lane's gate is already released. */
    method ProcessButtonEvents(now: int)
      requires Valid()
      modifies this, lanes
      ensures Valid() && Snapshot() == ManagerSpec.ProcessButtonEvents(old(Snapshot()), now, Configs())
    {
      ghost var pre := Snapshot();
      ManagerSpec.ProcessButtonEventsValid(pre, now, Configs());
      var rest := FireQueued(buttonEvents, EventsTaken(buttonEvents), now);
      buttonEvents := rest;
      assert States() == ManagerSpec.ProcessButtonEvents(pre, now, Configs()).lanes;
    }

    /** The loop of `process_button_events`: pops `count` events off the front of `queue`
        and fires each one's lane; returns what is left. */
    method FireQueued(queue: seq<ButtonEvent>, count: nat, now: int) returns (rest: seq<ButtonEvent>)
      requires Distinct() && count <= |queue|
      requires forall k :: 0 <= k < |queue| ==> queue[k].laneIndex < |lanes|
      modifies lanes
      ensures rest == queue[count..]
      ensures forall j :: 0 <= j < |lanes| ==>
                lanes[j].State() == AfterEvents(old(lanes[j].State()), queue, count, j, now, lanes[j].config)
    {
      rest := queue;
      for k := 0 to count
        invariant rest == queue[k..]
        invariant forall j :: 0 <= j < |lanes| ==>
                    lanes[j].State() == AfterEvents(old(lanes[j].State()), queue, k, j, now, lanes[j].config)
      {
        var event := rest[0];
        rest := rest[1..];
        assert event == queue[k];
        if !lanes[event.laneIndex].gate.released {
          lanes[event.laneIndex].FireServo(now);
        }
        forall j | 0 <= j < |lanes| {
          AfterOneMoreEvent(old(lanes[j].State()), queue, k, j, now, lanes[j].config);
        }
      }
    }

    // -------------------------------------------------------------------------------------
    // Sensors, completion and the end of the race

    /** `check_start_line_sensors`; `blocked` are the start beams' readings at `now`. */
    method CheckStartLineSensors(now: int, blocked: seq<bool>)
      requires Valid() && |blocked| == |lanes|
      modifies this, lanes
      ensures Valid() && Snapshot() == ManagerSpec.CheckStartLineSensors(old(Snapshot()), now, blocked, Configs())
    {
      ghost var before := Snapshot();
      CheckStartLineEverywhere(now, tree.running, blocked);
      assert States() == ManagerSpec.CheckStartLineSensors(before, now, blocked, Configs()).lanes;
    }

    /** The loop of `check_start_line_sensors` over the lanes. */
    method CheckStartLineEverywhere(now: int, treeRunning: bool, blocked: seq<bool>)
      requires Distinct() && |blocked| == |lanes|
      modifies lanes
      ensures forall j :: 0 <= j < |lanes| ==>
                lanes[j].State() == CheckStartLine(old(lanes[j].State()), now, treeRunning, blocked[j], lanes[j].config)
    {
      for i := 0 to |lanes|
        invariant forall j :: 0 <= j < i ==>
                    lanes[j].State() == CheckStartLine(old(lanes[j].State()), now, treeRunning, blocked[j], lanes[j].config)
        invariant forall j :: i <= j < |lanes| ==> lanes[j].State() == old(lanes[j].State())
      {
        lanes[i].CheckStartLine(now, treeRunning, blocked[i]);
      }
    }

    /** `check_finish_line_sensors`; `blocked` are the finish beams' readings at `now`. */
    method CheckFinishLineSensors(now: int, blocked: seq<bool>)
      requires Valid() && |blocked| == |lanes|
      modifies this, lanes
      ensures Valid() && Snapshot() == ManagerSpec.CheckFinishLineSensors(old(Snapshot()), now, blocked, Configs())
    {
      ghost var before := Snapshot();
      placeCounter := FinishEveryLane(now, blocked, placeCounter);
      assert States() == ManagerSpec.CheckFinishLineSensors(before, now, blocked, Configs()).lanes;
    }

    /** The loop of `check_finish_line_sensors` over the lanes, with the place counter. */
    method FinishEveryLane(now: int, blocked: seq<bool>, counter: int) returns (next: int)
      requires Distinct() && |blocked| == |lanes|
      modifies lanes
      ensures var f := FinishSweep(old(States()), counter, now, blocked, Configs());
        next == f.1 && forall j :: 0 <= j < |lanes| ==> lanes[j].State() == f.0[j]
    {
      ghost var states, configs := States(), Configs();
      ghost var p: (seq<LaneState>, int) := ([], counter);
      next := counter;
      for i := 0 to |lanes|
        invariant p == FinishSweep(states[..i], counter, now, blocked[..i], configs[..i])
        invariant |p.0| == i && next == p.1
        invariant forall j :: 0 <= j < i ==> lanes[j].State() == p.0[j]
        invariant forall j :: i <= j < |lanes| ==> lanes[j].State() == states[j]
      {
        next, p := FinishAt(i, next, now, blocked, counter, states, configs, p);
      }
      assert states[..|lanes|] == states && blocked[..|lanes|] == blocked && configs[..|lanes|] == configs;
    }

    /** Step `i` of `FinishEveryLane`: `FinishLane` on lane `i`, every other lane untouched,
        the sweep over the first `i` lanes extended by one. */
    method FinishAt(i: nat, current: int, now: int, blocked: seq<bool>, counter: int, ghost states: seq<LaneState>,
                    ghost configs: seq<LaneConfig>, ghost p: (seq<LaneState>, int))
      returns (next: int, ghost p': (seq<LaneState>, int))
      requires Distinct() && i < |lanes| && |blocked| == |lanes| && |states| == |lanes|
      requires configs == Configs() && lanes[i].State() == states[i]
      requires p == FinishSweep(states[..i], counter, now, blocked[..i], configs[..i]) && |p.0| == i && current == p.1
      modifies lanes[i]
      ensures p' == FinishSweep(states[..i + 1], counter, now, blocked[..i + 1], configs[..i + 1])
      ensures p'.0 == p.0 + [lanes[i].State()] && next == p'.1
      ensures forall j :: 0 <= j < |lanes| && j != i ==> lanes[j].State() == old(lanes[j].State())
    {
      FinishSweepPrefix(states, counter, now, blocked, configs, i);
      next := FinishLane(lanes[i], current, now, blocked[i]);
      p' := (p.0 + [lanes[i].State()], next);
    }

    /** One lane of `check_finish_line_sensors`: a lane that has not finished checks its
        finish and, if it just finished cleanly without a place, takes the counter's. */
    static method FinishLane(lane: Lane, counter: int, now: int, blocked: bool) returns (next: int)
      modifies lane
      ensures (lane.State(), next) == FinishStep(old(lane.State()), counter, now, blocked, lane.config)
    {
      next := counter;
      if !lane.finishLine.broken {
        lane.CheckFinish(now, blocked);
        if lane.finishLine.broken && !lane.outcome.falseStart && lane.outcome.place.None? {
          lane.outcome := lane.outcome.(place := Some(counter));
          next := counter + 1;
        }
      }
    }

    /** `is_race_complete`: timed out, or every lane finished or false-started. */
    method IsRaceComplete(now: int) returns (complete: bool)
      ensures complete <==> RaceComplete(States(), now, raceStartTime, RACE_TIMEOUT)
    {
      if now - raceStartTime > RACE_TIMEOUT {
        return true;
      }
      complete := true;
      for i := 0 to |lanes|
        invariant complete <==> forall j :: 0 <= j < i ==> lanes[j].finishLine.broken || lanes[j].outcome.falseStart
      {
        if !lanes[i].finishLine.broken && !lanes[i].outcome.falseStart {
          complete := false;
          break;
        }
      }
    }

    /** `get_position_text`. */
    function GetPositionText(lane: Lane): (text: string)
      reads lane
      ensures text == PositionText(lane.State())
    {
      PositionText(lane.State())
    }

    /** `monitor_race`: during the race, both sensor sweeps, then the end of the race if it
        is complete; `done` says whether it ended. */
    method MonitorRace(now: int, startBlocked: seq<bool>, finishBlocked: seq<bool>) returns (done: bool)
      requires Valid() && |startBlocked| == |lanes| && |finishBlocked| == |lanes|
      modifies this, lanes
      ensures Valid()
      ensures (Snapshot(), done)
              == ManagerSpec.MonitorRace(old(Snapshot()), now, startBlocked, finishBlocked, Configs())
    {
      if raceStarted {
        CheckStartLineSensors(now, startBlocked);
        CheckFinishLineSensors(now, finishBlocked);
        done := EndIfComplete(now);
      } else {
        done := false;
      }
    }

    /** The end of `monitor_race`: if the race is complete, false starts' reaction times are
        worked out and the race and the tree stop. */
    method EndIfComplete(now: int) returns (done: bool)
      requires Valid()
      modifies this, lanes
      ensures Valid()
      ensures done == ManagerSpec.IsRaceComplete(old(Snapshot()), now)
      ensures Snapshot() == if done then ManagerSpec.EndRace(old(Snapshot())) else old(Snapshot())
    {
      ghost var before := Snapshot();
      done := IsRaceComplete(now);
      if done {
        CalculateReactionTimes();
        tree := tree.(running := false);
        raceStarted := false;
        assert States() == ManagerSpec.EndRace(before).lanes;
      }
    }

    /** The loop of `monitor_race` that works out false starts' reaction times. */
    method CalculateReactionTimes()
      requires Distinct()
      modifies lanes
      ensures forall j :: 0 <= j < |lanes| ==>
                lanes[j].State() == CalculateReactionTime(old(lanes[j].State()))
    {
      for i := 0 to |lanes|
        invariant forall j :: 0 <= j < i ==> lanes[j].State() == CalculateReactionTime(old(lanes[j].State()))
        invariant forall j :: i <= j < |lanes| ==> lanes[j].State() == old(lanes[j].State())
      {
        lanes[i].CalculateReactionTime();
      }
    }

    /** `update_servos`. */
    method UpdateServos(now: int)
      requires Valid()
      modifies this, lanes
      ensures Valid() && Snapshot() == ManagerSpec.UpdateServos(old(Snapshot()), now, Configs())
    {
      ghost var before := Snapshot();
      UpdateServoEverywhere(now);
      assert States() == ManagerSpec.UpdateServos(before, now, Configs()).lanes;
    }

    /** The loop of `update_servos` over the lanes. */
    method UpdateServoEverywhere(now: int)
      requires Distinct()
      modifies lanes
      ensures forall j :: 0 <= j < |lanes| ==>
                lanes[j].State() == UpdateServo(old(lanes[j].State()), now, lanes[j].config)
    {
      for i := 0 to |lanes|
        invariant forall j :: 0 <= j < i ==>
                    lanes[j].State() == UpdateServo(old(lanes[j].State()), now, lanes[j].config)
        invariant forall j :: i <= j < |lanes| ==> lanes[j].State() == old(lanes[j].State())
      {
        lanes[i].UpdateServo(now);
      }
    }
  }
}
