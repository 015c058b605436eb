/** One lane of the drag strip as the object the controller mutates: its light tree, its
    staging flags, its gate servo, its start and finish beams, its time stamps and its race
    outcome.  Every method is proved to leave the fields exactly as the matching transition
    of `LaneSpec` describes. */
module Lanes {
  import opened LaneSpec

  class Lane {
    const config: LaneConfig

    var treeState: map<string, int>
    var prestaged: bool
    var staged: bool
    var gate: Gate
    var startLine: Beam
    var finishLine: Beam
    var stamps: Stamps
    var outcome: Outcome

    /** The duty values written to the gate servo, oldest first. */
    ghost var servoDuties: seq<int>

    /** The fields as one value. */
    function State(): LaneState
      reads this
    {
      LaneState(treeState, prestaged, staged, gate, startLine, finishLine, stamps, outcome)
    }

    constructor(laneId: int, hasServo: bool, simulationMode: bool)
      requires laneId >= 1
      ensures config == MakeConfig(laneId, hasServo, simulationMode)
      ensures State() == Initial() && servoDuties == []
    {
      config := MakeConfig(laneId, hasServo, simulationMode);
      treeState := map n | n in LIGHT_NAMES :: 0;
      prestaged, staged := false, false;
      gate := Gate(false, 0, false);
      startLine, finishLine := IdleBeam, IdleBeam;
      stamps, outcome := NoStamps, NoOutcome;
      servoDuties := [];
    }

    /** `set_light`: a configured light takes the new value; any other name is ignored. */
    method SetLight(name: string, v: int)
      modifies this
      ensures State() == LaneSpec.SetLight(old(State()), name, v)
      ensures servoDuties == old(servoDuties)
    {
      if name in treeState {
        treeState := treeState[name := v];
      }
    }

    /** `get_light_state`. */
    function GetLightState(name: string): (v: int)
      reads this
      ensures v == LaneSpec.GetLightState(State(), name)
    {
      if name in treeState then treeState[name] else 0
    }

    /** `fire_servo`: opens the gate once, schedules its close and, in simulation mode,
        schedules the simulated start break. */
    method FireServo(now: int)
      modifies this
      ensures State() == LaneSpec.FireServo(old(State()), now, config)
      ensures !old(gate.released) && config.hasServo ==>
                servoDuties == old(servoDuties) + [config.servoOpenPosition]
      ensures old(gate.released) || !config.hasServo ==> servoDuties == old(servoDuties)
    {
      if !gate.released && config.hasServo {
        servoDuties := servoDuties + [config.servoOpenPosition];
        gate := Gate(true, now + SERVO_HOLD_TIME, true);
        if config.simulationMode {
          stamps := stamps.(playerPressedTime := Some(now));
          startLine := startLine.(simScheduled := true);
        }
      }
    }

    /** `update_servo`: closes the gate once its hold time has passed. */
    method UpdateServo(now: int)
      modifies this
      ensures State() == LaneSpec.UpdateServo(old(State()), now, config)
      ensures ServoCloseDue(old(State()), now, config) ==>
                servoDuties == old(servoDuties) + [config.servoClosedPosition]
      ensures !ServoCloseDue(old(State()), now, config) ==> servoDuties == old(servoDuties)
    {
      if gate.closingPending && config.hasServo && now - gate.closeTime >= 0 {
        servoDuties := servoDuties + [config.servoClosedPosition];
        gate := gate.(closingPending := false);
      }
    }

    /** `reset`: clears the race fields and switches every light of the tree off. */
    method Reset()
      modifies this
      ensures State() == LaneSpec.Reset(old(State()))
      ensures servoDuties == old(servoDuties)
    {
      outcome := NoOutcome;
      gate := gate.(released := false);
      startLine := startLine.(broken := false, lastBlocked := false);
      finishLine := finishLine.(broken := false, lastBlocked := false);
      SwitchOffAllLights();
      stamps := NoStamps;
      startLine, finishLine := startLine.(simScheduled := false), finishLine.(simScheduled := false);
      gate := gate.(closingPending := false);
    }

    /** The loop of `reset` that calls `set_light(light, 0)` for every key of the tree. */
    method SwitchOffAllLights()
      modifies this
      ensures State() == old(State()).(treeState := AllOff(old(treeState)))
      ensures servoDuties == old(servoDuties)
    {
      var pending := treeState.Keys;
      while pending != {}
        invariant pending <= treeState.Keys && treeState.Keys == old(treeState).Keys
        invariant forall n :: n in treeState && n !in pending ==> treeState[n] == 0
        invariant State() == old(State()).(treeState := treeState)
        invariant servoDuties == old(servoDuties)
        decreases pending
      {
        var light :| light in pending;
        SetLight(light, 0);
        pending := pending - {light};
      }
      assert treeState == AllOff(old(treeState));
    }

    /** `_handle_start_beam_break`; `treeRunning` is the race manager's flag the lane reads. */
    method HandleStartBeamBreak(now: int, treeRunning: bool)
      modifies this
      ensures State() == LaneSpec.HandleStartBeamBreak(old(State()), now, treeRunning)
      ensures servoDuties == old(servoDuties)
    {
      startLine := startLine.(broken := true);
      stamps := stamps.(startBeamTime := Some(now));
      if treeRunning && GetLightState("green") == 0 {
        outcome := outcome.(falseStart := true);
        SetLight("red", 1);
      } else if stamps.startTime.Some? {
        outcome := outcome.(reactionTime := Some(now - stamps.startTime.value));
      }
    }

    /** `check_start_line`; `blocked` is the start beam's digital reading at `now`. */
    method CheckStartLine(now: int, treeRunning: bool, blocked: bool)
      modifies this
      ensures State() == LaneSpec.CheckStartLine(old(State()), now, treeRunning, blocked, config)
      ensures servoDuties == old(servoDuties)
    {
      if config.simulationMode && startLine.simScheduled && !startLine.broken {
        if stamps.playerPressedTime.Some? && stamps.playerPressedTime.value != 0
           && now - stamps.playerPressedTime.value >= config.simReactionTime
        {
          HandleStartBeamBreak(now, treeRunning);
          startLine := startLine.(simScheduled := false);
          finishLine := finishLine.(simScheduled := true);
          return;
        }
      }
      if !startLine.broken && blocked && !startLine.lastBlocked {
        HandleStartBeamBreak(now, treeRunning);
      }
      startLine := startLine.(lastBlocked := blocked);
    }

    /** `_handle_finish_beam_break`. */
    method HandleFinishBeamBreak(now: int)
      modifies this
      ensures State() == LaneSpec.HandleFinishBeamBreak(old(State()), now)
      ensures servoDuties == old(servoDuties)
    {
      finishLine := finishLine.(broken := true);
      if stamps.startTime.Some? {
        outcome := outcome.(finishTime := Some(now - stamps.startTime.value));
      }
    }

    /** `check_finish`; `blocked` is the finish beam's digital reading at `now`. */
    method CheckFinish(now: int, blocked: bool)
      modifies this
      ensures State() == LaneSpec.CheckFinish(old(State()), now, blocked, config)
      ensures servoDuties == old(servoDuties)
    {
      if config.simulationMode && finishLine.simScheduled && !finishLine.broken {
        if stamps.startBeamTime.Some? && stamps.startBeamTime.value != 0
           && now - stamps.startBeamTime.value >= config.simRaceTime
        {
          HandleFinishBeamBreak(now);
          finishLine := finishLine.(simScheduled := false);
          return;
        }
      }
      if !finishLine.broken && blocked && !finishLine.lastBlocked {
        HandleFinishBeamBreak(now);
      }
      finishLine := finishLine.(lastBlocked := blocked);
    }

    /** `calculate_reaction_time`. */
    method CalculateReactionTime()
      modifies this
      ensures State() == LaneSpec.CalculateReactionTime(old(State()))
      ensures servoDuties == old(servoDuties)
    {
      if outcome.falseStart && outcome.reactionTime.None? && stamps.startBeamTime.Some? {
        if stamps.startTime.Some? {
          outcome := outcome.(reactionTime := Some(stamps.startBeamTime.value - stamps.startTime.value));
        } else {
          outcome := outcome.(reactionTime := Some(-1));
        }
      }
    }
  }
}
