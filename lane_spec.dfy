/** The per-lane race state of the light tree as a value, and each operation of a lane as a
    pure transition on that value.  The class `Lanes.Lane` updates its fields in place and
    proves that every method leaves exactly the state these functions describe.

    Time is the millisecond counter as an unbounded integer: `ticks_diff(a, b)` is `a - b`
    and `ticks_add(a, d)` is `a + d`. */
module LaneSpec {

  datatype Option<T> = None | Some(value: T)

  /** Python's truthiness of an optional millisecond stamp: `None` and `0` are both false. */
  predicate Truthy(t: Option<int>) {
    t.Some? && t.value != 0
  }

  /** The seven lights of one lane's tree, the keys of `tree_state`. */
  const LIGHT_NAMES: set<string> := {"prestage", "stage", "amber1", "amber2", "amber3", "green", "red"}

  /** How long the gate servo stays open, in milliseconds. */
  const SERVO_HOLD_TIME := 500

  /** Simulated reaction and race times per lane, in milliseconds. */
  const SIMULATION_REACTION_TIMES: seq<int> := [200, 300, 250, 225, 275]
  const SIMULATION_RACE_TIMES: seq<int> := [4000, 3500, 3800, 4200, 3600]

  /** Servo PWM duty values: the defaults, and the per-lane overrides. */
  const SERVO_OPEN_POSITION := 8200
  const SERVO_CLOSED_POSITION := 2000
  const LANE_SERVO_OPEN: seq<int> := [8200, 8000, 8200, 8200, 8200]
  const LANE_SERVO_CLOSED: seq<int> := [2000, 2200, 2000, 2000, 2000]

  /** The per-lane table entry, falling back to the first lane's entry past the table's end. */
  function LaneEntry(table: seq<int>, laneId: int): int
    requires |table| > 0 && laneId >= 1
  {
    if laneId <= |table| then table[laneId - 1] else table[0]
  }

  /** What a lane is built with and never changes: its id, whether a servo is attached,
      whether the simulated beams are active, its simulated times and its servo positions. */
  datatype LaneConfig = LaneConfig(
    laneId: int,
    hasServo: bool,
    simulationMode: bool,
    simReactionTime: int,
    simRaceTime: int,
    servoOpenPosition: int,
    servoClosedPosition: int)

  /** The configuration the constructor derives from a lane id: the tables are indexed by
      `laneId - 1`; past their end the simulated times fall back to the first lane's and the
      servo positions to the defaults. */
  function MakeConfig(laneId: int, hasServo: bool, simulationMode: bool): (c: LaneConfig)
    requires laneId >= 1
    ensures c.laneId == laneId && c.hasServo == hasServo && c.simulationMode == simulationMode
    ensures laneId <= 5 ==> c.simReactionTime == SIMULATION_REACTION_TIMES[laneId - 1]
    ensures laneId <= 5 ==> c.simRaceTime == SIMULATION_RACE_TIMES[laneId - 1]
    ensures laneId > 5 ==> c.simReactionTime == 200 && c.simRaceTime == 4000
    ensures laneId <= 5 ==> c.servoOpenPosition == LANE_SERVO_OPEN[laneId - 1]
    ensures laneId <= 5 ==> c.servoClosedPosition == LANE_SERVO_CLOSED[laneId - 1]
    ensures laneId > 5 ==> c.servoOpenPosition == 8200 && c.servoClosedPosition == 2000
  {
    LaneConfig(laneId, hasServo, simulationMode,
               LaneEntry(SIMULATION_REACTION_TIMES, laneId), LaneEntry(SIMULATION_RACE_TIMES, laneId),
               if laneId <= |LANE_SERVO_OPEN| then LANE_SERVO_OPEN[laneId - 1] else SERVO_OPEN_POSITION,
               if laneId <= |LANE_SERVO_CLOSED| then LANE_SERVO_CLOSED[laneId - 1] else SERVO_CLOSED_POSITION)
  }

  /** The gate servo: `gate_released`, `servo_close_time`, `servo_closing_pending`. */
  datatype Gate = Gate(released: bool, closeTime: int, closingPending: bool)

  /** One light beam, start or finish: whether its break has been registered
      (`start_line_broken`), the last digital reading (`last_start_blocked`), and whether a
      simulated break is scheduled (`start_sim_scheduled`). */
  datatype Beam = Beam(broken: bool, lastBlocked: bool, simScheduled: bool)

  /** The millisecond stamps of a run: green (`start_time`), the player's press
      (`player_pressed_time`) and the start break (`start_beam_time`). */
  datatype Stamps = Stamps(startTime: Option<int>, playerPressedTime: Option<int>,
                           startBeamTime: Option<int>)

  /** What the lane's run produced: `false_start`, `reaction_time`, `finish_time`, `place`. */
  datatype Outcome = Outcome(falseStart: bool, reactionTime: Option<int>, finishTime: Option<int>,
                             place: Option<int>)

  /** Every field of a lane that changes during a race. */
  datatype LaneState = LaneState(
    treeState: map<string, int>,
    prestaged: bool,
    staged: bool,
    gate: Gate,
    startLine: Beam,
    finishLine: Beam,
    stamps: Stamps,
    outcome: Outcome)

  const IdleBeam := Beam(false, false, false)
  const NoStamps := Stamps(None, None, None)
  const NoOutcome := Outcome(false, None, None, None)

  /** The tree holds exactly the seven configured lights. */
  predicate WellFormed(s: LaneState) {
    s.treeState.Keys == LIGHT_NAMES
  }

  /** Every light of a tree switched off, keeping its keys. */
  function AllOff(tree: map<string, int>): (r: map<string, int>)
    ensures r.Keys == tree.Keys
    ensures forall n :: n in r ==> r[n] == 0
  {
    map n | n in tree :: 0
  }

  /** A lane as its constructor leaves it. */
  function Initial(): (s: LaneState)
    ensures WellFormed(s)
    ensures forall n :: n in s.treeState ==> s.treeState[n] == 0
  {
    LaneState(map n | n in LIGHT_NAMES :: 0, false, false, Gate(false, 0, false),
              IdleBeam, IdleBeam, NoStamps, NoOutcome)
  }

  // ---------------------------------------------------------------------------------------
  // Lights

  /** `set_light` on the tree: only a configured light changes, and only that one. */
  function SetTreeLight(tree: map<string, int>, name: string, v: int): (r: map<string, int>)
    ensures r.Keys == tree.Keys
    ensures name in tree ==> r[name] == v
    ensures forall n :: n in tree && n != name ==> r[n] == tree[n]
  {
    if name in tree then tree[name := v] else tree
  }

  /** `set_light` on a lane: nothing but the tree changes. */
  function SetLight(s: LaneState, name: string, v: int): (r: LaneState)
    ensures r.treeState.Keys == s.treeState.Keys
    ensures name in s.treeState ==> r.treeState[name] == v
    ensures name !in s.treeState ==> r == s
    ensures r.(treeState := s.treeState) == s
  {
    s.(treeState := SetTreeLight(s.treeState, name, v))
  }

  /** `get_light_state`: the stored value, or 0 for a name that is not a light of the tree. */
  function GetLightState(s: LaneState, name: string): (v: int)
    ensures name !in s.treeState ==> v == 0
    ensures name in s.treeState ==> v == s.treeState[name]
  {
    if name in s.treeState then s.treeState[name] else 0
  }

  /** Reading a light after setting one: the new value for a configured light of that name,
      otherwise what was there before (0 for a name the tree does not have). */
  lemma GetAfterSetLight(s: LaneState, name: string, v: int, other: string)
    ensures GetLightState(SetLight(s, name, v), other)
            == if other == name && name in s.treeState then v else GetLightState(s, other)
    ensures name !in s.treeState ==> SetLight(s, name, v) == s
    ensures other !in LIGHT_NAMES && WellFormed(s) ==> GetLightState(SetLight(s, name, v), other) == 0
  {
    if name in s.treeState {
      assert SetLight(s, name, v).treeState == s.treeState[name := v];
    } else {
      assert SetTreeLight(s.treeState, name, v) == s.treeState;
    }
  }

  // ---------------------------------------------------------------------------------------
  // Servo gate

  /** `fire_servo`: an at-most-once latch.  With a servo and the gate still closed it opens
      the gate, schedules the close `SERVO_HOLD_TIME` later and, in simulation mode, stamps
      the press and schedules the simulated start break; otherwise nothing changes. */
  function FireServo(s: LaneState, now: int, c: LaneConfig): (r: LaneState)
    ensures s.gate.released || !c.hasServo ==> r == s
    ensures c.hasServo ==> r.gate.released
    ensures !s.gate.released && c.hasServo ==>
              r.gate.closingPending && r.gate.closeTime == now + SERVO_HOLD_TIME
    ensures !s.gate.released && c.hasServo && c.simulationMode ==>
              r.startLine.simScheduled && r.stamps.playerPressedTime == Some(now)
    ensures !c.simulationMode ==> r.startLine == s.startLine && r.stamps == s.stamps
    ensures r.treeState == s.treeState && r.outcome == s.outcome && r.finishLine == s.finishLine
    ensures r.stamps.startTime == s.stamps.startTime && r.startLine.broken == s.startLine.broken
  {
    if s.gate.released || !c.hasServo then
      s
    else if c.simulationMode then
      s.(gate := Gate(true, now + SERVO_HOLD_TIME, true),
         stamps := s.stamps.(playerPressedTime := Some(now)),
         startLine := s.startLine.(simScheduled := true))
    else
      s.(gate := Gate(true, now + SERVO_HOLD_TIME, true))
  }

  /** Firing twice is firing once: the second call finds the gate released. */
  lemma FireServoAtMostOnce(s: LaneState, now: int, later: int, c: LaneConfig)
    ensures FireServo(FireServo(s, now, c), later, c) == FireServo(s, now, c)
  {
  }

  /** Whether `update_servo` closes the gate at `now`. */
  predicate ServoCloseDue(s: LaneState, now: int, c: LaneConfig) {
    s.gate.closingPending && c.hasServo && now - s.gate.closeTime >= 0
  }

  /** `update_servo`: clears the pending close once its deadline has passed; before the
      deadline, or with nothing pending, nothing changes. */
  function UpdateServo(s: LaneState, now: int, c: LaneConfig): (r: LaneState)
    ensures r.gate.closingPending == (s.gate.closingPending && !ServoCloseDue(s, now, c))
    ensures !ServoCloseDue(s, now, c) ==> r == s
    ensures r.gate.released == s.gate.released && r.gate.closeTime == s.gate.closeTime
    ensures r.treeState == s.treeState && r.outcome == s.outcome && r.stamps == s.stamps
  {
    if ServoCloseDue(s, now, c) then s.(gate := s.gate.(closingPending := false)) else s
  }

  /** The gate closes once: after a close, no later update changes anything. */
  lemma UpdateServoClosesOnce(s: LaneState, now: int, later: int, c: LaneConfig)
    requires ServoCloseDue(s, now, c)
    ensures UpdateServo(UpdateServo(s, now, c), later, c) == UpdateServo(s, now, c)
  {
  }

  // ---------------------------------------------------------------------------------------
  // Reset

  /** `reset`: clears every race field and light; the staging flags and the servo deadline
      are left as they were. */
  function Reset(s: LaneState): (r: LaneState)
    ensures r.outcome == NoOutcome && r.stamps == NoStamps
    ensures r.startLine == IdleBeam && r.finishLine == IdleBeam
    ensures !r.gate.released && !r.gate.closingPending && r.gate.closeTime == s.gate.closeTime
    ensures r.treeState.Keys == s.treeState.Keys
    ensures forall n :: n in r.treeState ==> r.treeState[n] == 0
    ensures r.prestaged == s.prestaged && r.staged == s.staged
  {
    s.(outcome := NoOutcome, gate := s.gate.(released := false, closingPending := false),
       startLine := IdleBeam, finishLine := IdleBeam, treeState := AllOff(s.treeState),
       stamps := NoStamps)
  }

  /** Resetting a reset lane changes nothing. */
  lemma ResetIdempotent(s: LaneState)
    ensures Reset(Reset(s)) == Reset(s)
  {
    assert AllOff(AllOff(s.treeState)) == AllOff(s.treeState);
  }

  /** A reset lane is a freshly constructed one, apart from the staging flags and the
      servo deadline it keeps. */
  lemma ResetIsInitial(s: LaneState)
    requires WellFormed(s)
    ensures Reset(s) == Initial().(prestaged := s.prestaged, staged := s.staged,
                                   gate := Gate(false, s.gate.closeTime, false))
  {
    assert AllOff(s.treeState) == AllOff(map n | n in LIGHT_NAMES :: 0);
  }

  // ---------------------------------------------------------------------------------------
  // Start line

  /** A start break counts as a false start when the tree is running and green is not lit. */
  predicate FalseStartCondition(s: LaneState, treeRunning: bool) {
    treeRunning && GetLightState(s, "green") == 0
  }

  /** `_handle_start_beam_break`: records the break, then either flags a false start and
      lights red, or measures the reaction time against the green stamp, or neither. */
  function HandleStartBeamBreak(s: LaneState, now: int, treeRunning: bool): (r: LaneState)
    ensures r.startLine.broken && r.stamps.startBeamTime == Some(now)
    ensures FalseStartCondition(s, treeRunning) ==>
              r.outcome.falseStart && r.outcome.reactionTime == s.outcome.reactionTime
              && r.treeState == SetTreeLight(s.treeState, "red", 1)
    ensures !FalseStartCondition(s, treeRunning) ==>
              r.outcome.falseStart == s.outcome.falseStart && r.treeState == s.treeState
    ensures !FalseStartCondition(s, treeRunning) && s.stamps.startTime.Some? ==>
              r.outcome.reactionTime == Some(now - s.stamps.startTime.value)
    ensures !FalseStartCondition(s, treeRunning) && s.stamps.startTime.None? ==>
              r.outcome.reactionTime == s.outcome.reactionTime
    ensures r.outcome.place == s.outcome.place && r.outcome.finishTime == s.outcome.finishTime
    ensures r.gate == s.gate && r.finishLine == s.finishLine && r.stamps.startTime == s.stamps.startTime
    ensures r.startLine.simScheduled == s.startLine.simScheduled
  {
    var startLine := s.startLine.(broken := true);
    var stamps := s.stamps.(startBeamTime := Some(now));
    if FalseStartCondition(s, treeRunning) then
      s.(startLine := startLine, stamps := stamps, outcome := s.outcome.(falseStart := true),
         treeState := SetTreeLight(s.treeState, "red", 1))
    else if s.stamps.startTime.Some? then
      s.(startLine := startLine, stamps := stamps,
         outcome := s.outcome.(reactionTime := Some(now - s.stamps.startTime.value)))
    else
      s.(startLine := startLine, stamps := stamps)
  }

  /** With a clock that does not run backwards, a valid start has a reaction time of at
      least zero. */
  lemma ValidStartReactionNonNegative(s: LaneState, now: int, treeRunning: bool)
    requires !FalseStartCondition(s, treeRunning)
    requires s.stamps.startTime.Some? && now >= s.stamps.startTime.value
    ensures HandleStartBeamBreak(s, now, treeRunning).outcome.reactionTime.value >= 0
  {
  }

  /** Whether the simulated start beam fires at `now`. */
  predicate SimStartFires(s: LaneState, now: int, c: LaneConfig) {
    c.simulationMode && s.startLine.simScheduled && !s.startLine.broken
    && Truthy(s.stamps.playerPressedTime) && now - s.stamps.playerPressedTime.value >= c.simReactionTime
  }

  /** Whether the hardware reading `blocked` is a rising edge that registers a break. */
  predicate RisingEdge(b: Beam, blocked: bool) {
    !b.broken && blocked && !b.lastBlocked
  }

  /** `check_start_line`: the simulated break when it is due (consuming the schedule and
      scheduling the finish), otherwise the hardware reading, which registers only on a
      rising edge and is remembered for the next call. */
  function CheckStartLine(s: LaneState, now: int, treeRunning: bool, blocked: bool, c: LaneConfig)
    : (r: LaneState)
    ensures SimStartFires(s, now, c) ==>
              r.startLine == Beam(true, s.startLine.lastBlocked, false) && r.finishLine.simScheduled
    ensures !SimStartFires(s, now, c) ==> r.startLine.lastBlocked == blocked
    ensures !s.startLine.broken && r.startLine.broken <==>
              SimStartFires(s, now, c) || RisingEdge(s.startLine, blocked)
    ensures SimStartFires(s, now, c) || RisingEdge(s.startLine, blocked) ==>
              r.stamps.startBeamTime == Some(now)
              && r.outcome == HandleStartBeamBreak(s, now, treeRunning).outcome
              && r.treeState == HandleStartBeamBreak(s, now, treeRunning).treeState
    ensures !SimStartFires(s, now, c) && !RisingEdge(s.startLine, blocked) ==>
              r == s.(startLine := s.startLine.(lastBlocked := blocked))
    ensures r.gate == s.gate && r.outcome.place == s.outcome.place
    ensures r.stamps.startTime == s.stamps.startTime && r.finishLine.broken == s.finishLine.broken
  {
    if SimStartFires(s, now, c) then
      var h := HandleStartBeamBreak(s, now, treeRunning);
      h.(startLine := h.startLine.(simScheduled := false),
         finishLine := h.finishLine.(simScheduled := true))
    else if RisingEdge(s.startLine, blocked) then
      var h := HandleStartBeamBreak(s, now, treeRunning);
      h.(startLine := h.startLine.(lastBlocked := blocked))
    else
      s.(startLine := s.startLine.(lastBlocked := blocked))
  }

  /** A beam held blocked never registers a second break: once a reading is remembered as
      blocked, the same reading leaves the lane unchanged unless the simulation fires. */
  lemma HeldStartBeamDoesNotRetrigger(s: LaneState, now: int, treeRunning: bool, c: LaneConfig)
    requires s.startLine.lastBlocked && !SimStartFires(s, now, c)
    ensures CheckStartLine(s, now, treeRunning, true, c) == s
  {
  }

  /** A registered start break is final: later checks only remember the reading. */
  lemma StartBreakRegisteredOnce(s: LaneState, now: int, treeRunning: bool, blocked: bool,
                                 c: LaneConfig)
    requires s.startLine.broken
    ensures CheckStartLine(s, now, treeRunning, blocked, c)
            == s.(startLine := s.startLine.(lastBlocked := blocked))
  {
  }

  /** The simulated start fires at most once: right after it fired it cannot fire again. */
  lemma SimStartFiresOnce(s: LaneState, now: int, later: int, treeRunning: bool, blocked: bool,
                          c: LaneConfig)
    requires SimStartFires(s, now, c)
    ensures !SimStartFires(CheckStartLine(s, now, treeRunning, blocked, c), later, c)
  {
  }

  // ---------------------------------------------------------------------------------------
  // Finish line

  /** `_handle_finish_beam_break`: marks the finish; the finish time is measured only when
      the green stamp exists. */
  function HandleFinishBeamBreak(s: LaneState, now: int): (r: LaneState)
    ensures r.finishLine.broken
    ensures s.stamps.startTime.Some? ==> r.outcome.finishTime == Some(now - s.stamps.startTime.value)
    ensures s.stamps.startTime.None? ==> r.outcome.finishTime == s.outcome.finishTime
    ensures r.outcome.falseStart == s.outcome.falseStart && r.outcome.place == s.outcome.place
    ensures r.outcome.reactionTime == s.outcome.reactionTime
    ensures r.startLine == s.startLine && r.stamps == s.stamps && r.gate == s.gate
    ensures r.treeState == s.treeState
  {
    var finishLine := s.finishLine.(broken := true);
    if s.stamps.startTime.Some? then
      s.(finishLine := finishLine,
         outcome := s.outcome.(finishTime := Some(now - s.stamps.startTime.value)))
    else
      s.(finishLine := finishLine)
  }

  /** Whether the simulated finish beam fires at `now`. */
  predicate SimFinishFires(s: LaneState, now: int, c: LaneConfig) {
    c.simulationMode && s.finishLine.simScheduled && !s.finishLine.broken
    && Truthy(s.stamps.startBeamTime) && now - s.stamps.startBeamTime.value >= c.simRaceTime
  }

  /** `check_finish`: the simulated break when due, otherwise a rising edge of the reading,
      which is remembered for the next call. */
  function CheckFinish(s: LaneState, now: int, blocked: bool, c: LaneConfig): (r: LaneState)
    ensures SimFinishFires(s, now, c) ==>
              r.finishLine == Beam(true, s.finishLine.lastBlocked, false)
    ensures !SimFinishFires(s, now, c) ==> r.finishLine.lastBlocked == blocked
    ensures !s.finishLine.broken && r.finishLine.broken <==>
              SimFinishFires(s, now, c) || RisingEdge(s.finishLine, blocked)
    ensures !SimFinishFires(s, now, c) && !RisingEdge(s.finishLine, blocked) ==>
              r == s.(finishLine := s.finishLine.(lastBlocked := blocked))
    ensures r.finishLine.broken && s.stamps.startTime.Some? && !s.finishLine.broken ==>
              r.outcome.finishTime == Some(now - s.stamps.startTime.value)
    ensures r.outcome.falseStart == s.outcome.falseStart && r.outcome.place == s.outcome.place
    ensures r.stamps == s.stamps && r.gate == s.gate && r.startLine == s.startLine
    ensures r.treeState == s.treeState && r.prestaged == s.prestaged && r.staged == s.staged
  {
    if SimFinishFires(s, now, c) then
      var h := HandleFinishBeamBreak(s, now);
      h.(finishLine := h.finishLine.(simScheduled := false))
    else if RisingEdge(s.finishLine, blocked) then
      var h := HandleFinishBeamBreak(s, now);
      h.(finishLine := h.finishLine.(lastBlocked := blocked))
    else
      s.(finishLine := s.finishLine.(lastBlocked := blocked))
  }

  // ---------------------------------------------------------------------------------------
  // Reaction time after the race

  /** Whether `calculate_reaction_time` has anything to do. */
  predicate NeedsReactionTime(s: LaneState) {
    s.outcome.falseStart && s.outcome.reactionTime.None? && s.stamps.startBeamTime.Some?
  }

  /** `calculate_reaction_time`: for a false start without a reaction time, the signed
      offset of the start break from green, or -1 when green never lit. */
  function CalculateReactionTime(s: LaneState): (r: LaneState)
    ensures NeedsReactionTime(s) && s.stamps.startTime.Some? ==>
              r.outcome.reactionTime == Some(s.stamps.startBeamTime.value - s.stamps.startTime.value)
    ensures NeedsReactionTime(s) && s.stamps.startTime.None? ==> r.outcome.reactionTime == Some(-1)
    ensures !NeedsReactionTime(s) ==> r == s
    ensures r == s.(outcome := s.outcome.(reactionTime := r.outcome.reactionTime))
    ensures s.outcome.falseStart && s.stamps.startBeamTime.Some? ==> r.outcome.reactionTime.Some?
  {
    if !NeedsReactionTime(s) then
      s
    else if s.stamps.startTime.Some? then
      s.(outcome := s.outcome.(reactionTime := Some(s.stamps.startBeamTime.value - s.stamps.startTime.value)))
    else
      s.(outcome := s.outcome.(reactionTime := Some(-1)))
  }

  /** A second call changes nothing. */
  lemma CalculateReactionTimeOnce(s: LaneState)
    ensures CalculateReactionTime(CalculateReactionTime(s)) == CalculateReactionTime(s)
  {
  }

  /** A break before the green stamp, or with no green at all, yields a negative reaction
      time. */
  lemma FalseStartReactionNegative(s: LaneState)
    requires NeedsReactionTime(s)
    requires s.stamps.startTime.None? || s.stamps.startBeamTime.value < s.stamps.startTime.value
    ensures CalculateReactionTime(s).outcome.reactionTime.value < 0
  {
  }
}
