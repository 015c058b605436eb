# Drag-race light tree: race sequencing, modelled and proved in Dafny

This project models the core of a drag-race controller for a Raspberry Pi Pico. The controller drives a light tree for several lanes. Each lane has a start beam, a finish beam, a servo-released starting gate and a player button. A four-digit seven-segment display shows results.

The model has three pieces, each in the source's own imperative form.

- **Lane** (`lane_spec.dfy`, module `LaneSpec`, and `lane.dfy`, class `Lanes.Lane`).
  - The per-lane state machine:
    - the seven named tree lights;
    - the servo gate, which is an at-most-once latch with a close deadline;
    - start and finish beams detected on a rising edge;
    - simulated beam breaks driven by elapsed time;
    - false-start detection;
    - reaction and finish times;
    - `reset`.
  - `LaneSpec` gives each operation as a function on a `LaneState` value and proves what it promises.
  - The class `Lane` keeps the source's fields. Each of its methods is proved to leave exactly the state the matching function describes.
- **Race manager** (`race_spec.dfy`, module `RaceSpec`; `manager_spec.dfy`, module `ManagerSpec`; `race_manager.dfy`, class `Races.RaceManager`).
  - The orchestrator:
    - the light sequencer, from `amber1_on` through `green_on`, with a deadline per stage;
    - the shared green timestamp;
    - staging by player button: prestage, stage, and cancel on release;
    - the auto-start staging timer;
    - the FIFO button-event queue, drained at most five events per call;
    - finishing places handed out from a shared counter;
    - the completion test;
    - the result text;
    - `reset_race`.
  - `RaceSpec` holds the per-lane steps and the sweeps over all lanes, with their lemmas.
  - `ManagerSpec` gives every manager operation as a function on a `Race` value. It proves the race-level promises, and that every operation keeps the state valid and the places distinct and consecutive from 1.
  - The class `RaceManager` owns a sequence of `Lane` objects. Each method is proved to leave exactly the state the `ManagerSpec` function describes.
- **Display** (`basic_display.dfy`, module `Displays`).
  - The HT16K33 driver of `BasicDisplay`:
    - a 16-byte display RAM image, kept in an `array<bv8>`;
    - the brightness command;
    - `_set_digit`;
    - the `show_text` pipeline: dots folded into the previous digit, text right-justified or truncated to four digits, the character table, and the digit addresses 0, 2, 6 and 8.
  - The I2C bus is a ghost log of the transfers sent.

Modelling conventions:

- **Time.** Time is an integer `now` passed to each operation, standing for `time.ticks_ms()`. `ticks_diff(a, b)` is `a - b`.
- **Hardware readings.** Sensor and button readings are parameters: one boolean or 0/1 value per lane.
- **Random delay.** The staging delay drawn by `random.randint` is a parameter `delay` that must lie in the configured range.
- **Tree flag.** The lane's lookup of the global race manager's `tree_running` is a parameter `treeRunning`.
- **Missing config values.** `STAGING_LIGHTS_ENABLED`, `STAGING_AUTO_SEQUENCE`, `STAGING_DELAY_MIN`, `STAGING_DELAY_MAX` and `RELEASE_TO_START_MODE` are read from the config module but are not defined in config.py, so they are fields of a `RaceConfig` value.
- **Empty timestamps.** Where the source treats a timestamp by Python truthiness (`if self.player_pressed_time and …`), the model does too, so a timestamp of 0 counts as unset.

## Model

| member | source | states |
|---|---|---|
| LaneSpec.MakeConfig | lane.py:86-92 | the servo open/closed positions come from the lane's entry in the lane table when there is one, otherwise from the global defaults; the simulated reaction and race times come from the lane's entry, or else from the first entry |
| LaneSpec.Initial | lane.py:57-84 | a new lane has all seven lights at 0 and no race data |
| LaneSpec.SetTreeLight | lane.py:108-113 | setting a light changes only that entry, only when the name is one of the tree's lights, and keeps the set of names |
| LaneSpec.SetLight | lane.py:108-113 | only the tree changes, and only the named light when the tree has it; an unknown name leaves the lane unchanged |
| LaneSpec.GetLightState | lane.py:115-117 | the stored value of a light of the tree, 0 for any other name |
| LaneSpec.GetAfterSetLight | lane.py:108-117 | reading a light after setting one gives the new value for that configured name and the old value otherwise; setting an unknown name changes nothing; an unknown name reads 0 |
| LaneSpec.FireServo | lane.py:119-134 | with a servo and a closed gate: the gate is released, the close is pending and due `SERVO_HOLD_TIME` later, and in simulation mode the press is stamped and the simulated start scheduled; otherwise nothing changes |
| LaneSpec.FireServoAtMostOnce | lane.py:119-129 | firing a second time, at any later time, changes nothing |
| LaneSpec.UpdateServo | lane.py:136-141 | the pending close is cleared exactly when it is pending, a servo exists and its deadline has come; otherwise nothing changes |
| LaneSpec.UpdateServoClosesOnce | lane.py:136-141 | after a close, a later update changes nothing |
| LaneSpec.Reset | lane.py:143-167 | reset clears every result, timestamp, beam flag, simulation flag and the servo latch, and switches every light off; it keeps the staging flags |
| LaneSpec.ResetIdempotent | lane.py:143-167 | resetting twice is resetting once |
| LaneSpec.ResetIsInitial | lane.py:143-167 | a reset lane equals a new lane, apart from the staging flags and the old close deadline |
| LaneSpec.HandleStartBeamBreak | lane.py:259-289 | the beam is marked broken and its time stamped; with the tree running and green off: a false start and red on; else with a green stamp: reaction time = now − start time; else: neither |
| LaneSpec.ValidStartReactionNonNegative | lane.py:282-284 | a valid start with a clock that has not gone back gives a non-negative reaction time |
| LaneSpec.CheckStartLine | lane.py:233-289 | a break registers exactly when the due simulated break fires or on a rising edge of an unbroken beam; a registered break takes `HandleStartBeamBreak`'s outcome and lights, so a false start with red, or the reaction time; the simulated break consumes its schedule and schedules the finish; the hardware reading is remembered otherwise |
| LaneSpec.HeldStartBeamDoesNotRetrigger | lane.py:248-257 | a beam held blocked leaves the lane unchanged |
| LaneSpec.StartBreakRegisteredOnce | lane.py:252-254 | once the start beam is broken, no later check registers another break or changes the break time |
| LaneSpec.SimStartFiresOnce | lane.py:236-246 | after the simulated start fires it is not due again |
| LaneSpec.HandleFinishBeamBreak | lane.py:316-329 | the finish beam is marked broken; the finish time is now − start time when the lane has a start time, and is otherwise unchanged |
| LaneSpec.CheckFinish | lane.py:291-314 | a finish registers exactly when the due simulated finish fires or on a rising edge of an unbroken beam, and then sets the finish time from the green stamp; the hardware reading is remembered otherwise |
| LaneSpec.CalculateReactionTime | lane.py:331-341 | only a false start with a stamped break and no reaction time changes, and only its reaction time: the break time − start time, or −1 without a green stamp |
| LaneSpec.CalculateReactionTimeOnce | lane.py:331-341 | a second call changes nothing |
| LaneSpec.FalseStartReactionNegative | lane.py:333-341 | a break before green, or with no green at all, gives a negative reaction time |
| Lanes.Lane.constructor | lane.py:10-106 | a new lane is `Initial()` with its configuration |
| Lanes.Lane.SetLight | lane.py:108-113 | leaves the state `LaneSpec.SetLight` describes |
| Lanes.Lane.GetLightState | lane.py:115-117 | reads the light as `LaneSpec.GetLightState` does, 0 for an unknown name |
| Lanes.Lane.FireServo | lane.py:119-134 | leaves the state `LaneSpec.FireServo` describes, and logs exactly one open-position servo duty when the gate opens |
| Lanes.Lane.UpdateServo | lane.py:136-141 | leaves the state `LaneSpec.UpdateServo` describes, and logs the closed-position duty exactly when the close is due |
| Lanes.Lane.Reset | lane.py:143-167 | leaves the state `LaneSpec.Reset` describes, switching the lights off one by one |
| Lanes.Lane.HandleStartBeamBreak | lane.py:259-289 | leaves the state `LaneSpec.HandleStartBeamBreak` describes |
| Lanes.Lane.CheckStartLine | lane.py:233-257 | leaves the state `LaneSpec.CheckStartLine` describes |
| Lanes.Lane.HandleFinishBeamBreak | lane.py:316-329 | leaves the state `LaneSpec.HandleFinishBeamBreak` describes |
| Lanes.Lane.CheckFinish | lane.py:291-314 | leaves the state `LaneSpec.CheckFinish` describes |
| Lanes.Lane.CalculateReactionTime | lane.py:331-341 | leaves the state `LaneSpec.CalculateReactionTime` describes |
| RaceSpec.NextStage | race_manager.py:118-158 | the stage after each stage is the next in the fixed order, and `green_on` has none |
| RaceSpec.StageDelay | race_manager.py:118-146 | the next deadline is `LIGHT_ON_DURATION` after an `_on` stage and `TRANSITION_DELAY` after an `_off` stage |
| RaceSpec.SequenceOrder | race_manager.py:118-158 | from `amber1_on` the stages run amber1 on, amber1 off, amber2 on, amber2 off, amber3 on, amber3 off, green on, and then stop |
| RaceSpec.StagesAlternate | race_manager.py:118-146 | each `_on` stage is followed by the `_off` stage of the same light, and on and off alternate |
| RaceSpec.StageEffect | race_manager.py:114-158 | a stage sets its light on or off; `green_on` also stamps `now` as start time on a lane with none and keeps an existing stamp; nothing else in the lane changes |
| RaceSpec.GreenStampsShared | race_manager.py:148-158 | every lane stamped at green gets the same timestamp |
| RaceSpec.ClearLights | race_manager.py:77-79 | the named lights go off and every other light keeps its value |
| RaceSpec.StagePress | race_manager.py:197-212 | a press prestages an unstaged lane and lights prestage, stages a prestaged lane and lights stage, and leaves a staged lane alone |
| RaceSpec.TwoPressesStage | race_manager.py:197-212 | two presses take an unstaged lane to staged |
| RaceSpec.StageCancel | race_manager.py:222-235 | a release un-stages the lane and switches its prestage and stage lights off; an unstaged lane is left alone |
| RaceSpec.ButtonEffect | race_manager.py:193-238 | before the race, a press edge with staging lights on advances the lane's staging and a release edge cancels it; no other reading changes the lane, and during the race it never changes |
| RaceSpec.QueuesOnlyDuringRace | race_manager.py:214-225 | an event (a press, or a release in release-to-start mode) is queued only during the race, and never by a reading that stages or cancels |
| RaceSpec.ArmStaging | race_manager.py:243-267 | the timer is armed, with start `now` and the drawn delay, only when it was unarmed, the race has not started, auto-sequence is on and every lane is staged; then it is always armed |
| RaceSpec.ButtonStep | race_manager.py:193-238 | one button changes only its own lane, and appends an event naming that lane exactly when its reading queues one |
| RaceSpec.ButtonSweep | race_manager.py:193-238 | the button loop over the first `n` lanes keeps one state per lane; its effects are stated by `ButtonSweepEffects`, `ButtonSweepDuringRace` and `ButtonSweepBeforeRace` |
| RaceSpec.ButtonSweepEffects | race_manager.py:193-238 | the button loop changes each lane by that lane's own reading only, and only appends to the queue, with events naming the lanes read |
| RaceSpec.ButtonSweepDuringRace | race_manager.py:214-218 | during the race the button loop leaves every lane and the staging timer as they were |
| RaceSpec.ButtonSweepBeforeRace | race_manager.py:197-212 | before the race the button loop queues nothing and arms the timer at most once, with the drawn delay |
| RaceSpec.EventsTaken | race_manager.py:269-280 | one call takes `min(5, len)` events |
| RaceSpec.AfterEvents | race_manager.py:272-279 | a lane none of whose drained events names it, or whose gate is already released, is unchanged; a drain never touches the lights, the results or the finish line |
| RaceSpec.AfterOneMoreEvent | race_manager.py:275-279 | handling another event for a lane that already fired changes nothing, so a lane fires once however many of its events are drained |
| RaceSpec.StartSweep | race_manager.py:282-285 | every lane checks its start line with its own reading; no place and no finish flag changes |
| RaceSpec.FinishStep | race_manager.py:288-297 | a finished lane is skipped; otherwise the lane becomes its `CheckFinish` state apart from the place, and the counter advances exactly when that state has just finished, has not false-started and has no place; the lane then gets the counter's value |
| RaceSpec.FinishSweep | race_manager.py:287-297 | the counter grows by at most the number of lanes |
| RaceSpec.FinishSweepPlaces | race_manager.py:287-297 | a lane's place changes only when it had none, just finished and did not false-start; every such lane does get a place; the new place comes from this call's counter range; new places follow lane order |
| RaceSpec.FinishSweepPlaceSet | race_manager.py:287-297 | the places after the sweep are the old places plus every counter value the sweep used |
| RaceSpec.FinishSweepKeepsPlacesValid | race_manager.py:287-297 | places that were distinct and consecutive from 1 up to the counter stay so |
| RaceSpec.PlacedLaneLaterFalseStarts | race_manager.py:293-296 | a lane whose finish beam breaks before its start beam is placed, and a later start break while the tree runs with green off leaves it both placed and false-started |
| RaceSpec.FinishStepNeverPlacesFalseStart | race_manager.py:293-296 | a finish step never gives a place to a false-started lane, and never changes an existing place |
| RaceSpec.FinishSweepKeepsNoPlacedFalseStart | race_manager.py:287-297 | if no placed lane is false-started before the finish sweep, none is after it |
| RaceSpec.StartSweepKeepsNoPlacedFalseStart | lane.py:233-257 | if every placed lane had already broken its start beam, the start sweep flags no placed lane as a false start |
| RaceSpec.NatToDecimal | race_manager.py:335 | the decimal text of a place is non-empty, all digits and has no leading zero |
| RaceSpec.DecimalRoundTrip | race_manager.py:335 | the decimal text reads back as the number |
| RaceSpec.PositionText | race_manager.py:322-335 | "RED LIGHT!" for a false start, "DNF" with no place, "1st!", "2nd", "3rd", and otherwise the place followed by "th" |
| RaceSpec.PositionTextOrdinal | race_manager.py:334-335 | from fourth place on, the text is the place's digits then "th", and the place reads back from it |
| RaceSpec.RaceComplete | race_manager.py:305-320 | complete past the timeout and with no lanes; not complete within the timeout while some lane has neither finished nor false-started |
| ManagerSpec.Fresh | race_manager.py:11-39 | a new manager is valid, not racing, has an empty queue and records every button as released (1) |
| ManagerSpec.ResetRace | race_manager.py:42-69 | every lane is reset; the race is stopped, the sequencer idle (not running, no stage, deadline 0, sequence not complete), the race start time 0, the counter 1, the queue empty and the staging timer cleared; the button readings are kept |
| ManagerSpec.ResetRaceIdempotent | race_manager.py:42-69 | resetting twice is resetting once |
| ManagerSpec.ResetRaceReady | race_manager.py:42-69 | after a reset: valid; valid places with the counter at 1; race and tree stopped; sequence not complete, no current stage, next deadline and race start time 0; empty queue; timer cleared; no lane holds a result; staging flags kept |
| ManagerSpec.ResetRaceIsFresh | race_manager.py:42-69 | a reset manager equals a freshly constructed one around the reset lanes, except for the button readings it keeps |
| ManagerSpec.ClearRaceLights | race_manager.py:77-79 | amber1–3, green and red go off and prestage and stage keep their values |
| ManagerSpec.StartRace | race_manager.py:71-92 | with the race or the tree running nothing changes; otherwise every lane's race lights go off, the sequencer is armed at `amber1_on` due at once, and the race starts at `now` |
| ManagerSpec.ProcessStage | race_manager.py:114-158 | the pending stage acts on every lane and the sequencer advances to the next stage; with none pending nothing changes |
| ManagerSpec.UpdateTree | race_manager.py:94-112 | keeps the lanes; what one call does is stated by `UpdateTreeSteps` and `UpdateTreeStartsAfterStaging` |
| ManagerSpec.UpdateTreeSteps | race_manager.py:108-112 | a running tree moves by one stage only when the deadline has come, in the fixed order, with the stage's own delay; green completes the sequence |
| ManagerSpec.UpdateTreeStartsAfterStaging | race_manager.py:96-106 | an idle tree starts the race exactly when the staging delay has run out, clearing the timer |
| ManagerSpec.GreenStampsEveryLane | race_manager.py:148-158 | at green every lane's green light is on and every lane without a start time gets the same stamp `now`; stamped lanes keep theirs; the sequence is complete |
| ManagerSpec.SetLightAll | race_manager.py:160-172 | the light is set in every lane and nothing else changes |
| ManagerSpec.IsLightOn | race_manager.py:174-179 | on only with at least one lane whose tree has the light; an unknown light is never on; `IsLightOnAfterSet` relates it to setting |
| ManagerSpec.IsLightOnAfterSet | race_manager.py:174-179 | after setting a configured light in every lane, `is_light_on` reports it on exactly when it was set to 1 |
| ManagerSpec.ResetAllLights | race_manager.py:181-189 | every light of every lane goes off and nothing else changes |
| ManagerSpec.CheckAllStaged | race_manager.py:243-267 | only the staging timer changes; when it arms is stated by `CheckAllStagedArmsOnce` |
| ManagerSpec.CheckAllStagedArmsOnce | race_manager.py:243-267 | the timer is newly armed exactly when the race has not started, auto-sequence is on, every lane is staged and it was unarmed; then its delay lies in the configured range; an armed timer changes nothing |
| ManagerSpec.ReadButtons | race_manager.py:193-238 | the new button readings are recorded, one per lane |
| ManagerSpec.ProcessButtonEvents | race_manager.py:269-280 | the first `min(5, len)` events leave the queue and the rest keep their order; each lane is fired once if one of the drained events names it |
| ManagerSpec.ProcessButtonEventsFires | race_manager.py:269-280 | a lane named by a drained event fires its servo; a lane not named, or with its gate already released, is unchanged |
| ManagerSpec.CheckPlayerButtons | race_manager.py:191-241 | the readings are recorded, then the queue is drained; its effects before and during the race are stated by the two lemmas below |
| ManagerSpec.CheckPlayerButtonsBeforeRace | race_manager.py:191-241 | before the race each lane changes by its own reading only, nothing is queued, and the timer is armed at most once, with the drawn delay |
| ManagerSpec.CheckPlayerButtonsDuringRace | race_manager.py:214-218 | during the race the lanes and the timer are untouched and events are only appended behind the queued ones |
| ManagerSpec.CheckStartLineSensors | race_manager.py:282-285 | only the lanes change |
| ManagerSpec.CheckFinishLineSensors | race_manager.py:287-297 | only the lanes and the place counter change |
| ManagerSpec.IsRaceComplete | race_manager.py:305-320 | a race past `RACE_TIMEOUT` is complete; the full test is `RaceSpec.RaceComplete` |
| ManagerSpec.EndRace | race_manager.py:364-406 | at the end every lane works out its reaction time, and the race and the tree stop |
| ManagerSpec.MonitorRace | race_manager.py:337-407 | keeps the number of lanes; the end condition is stated by `MonitorRaceEnds` and `MonitorRaceTimesOut` |
| ManagerSpec.MonitorRaceEnds | race_manager.py:337-407 | `monitor_race` reports the end exactly when a started race is complete after both sensor sweeps; then the race is stopped and no false start still lacks a reaction time |
| ManagerSpec.MonitorRaceTimesOut | race_manager.py:305-310 | a started race past its timeout always ends |
| ManagerSpec.UpdateServos | race_manager.py:409-412 | every lane's servo is updated and nothing else changes |
| ManagerSpec.StartRaceKeeps | race_manager.py:71-92 | starting keeps the state valid and the places valid |
| ManagerSpec.ProcessStageKeeps | race_manager.py:114-158 | processing a stage keeps the state valid and the places valid |
| ManagerSpec.UpdateTreeKeeps | race_manager.py:94-112 | updating the tree keeps the state valid and the places valid |
| ManagerSpec.SetLightAllKeeps | race_manager.py:160-172 | setting a light keeps the state valid and the places valid |
| ManagerSpec.ResetAllLightsKeeps | race_manager.py:181-189 | switching all lights off keeps the state valid and the places valid |
| ManagerSpec.CheckPlayerButtonsKeeps | race_manager.py:191-241 | handling the buttons keeps the state valid and the places valid |
| ManagerSpec.ProcessButtonEventsKeeps | race_manager.py:269-280 | draining the queue keeps the state valid and the places valid |
| ManagerSpec.CheckStartLineSensorsKeeps | race_manager.py:282-285 | the start sweep keeps the state valid and the places valid |
| ManagerSpec.CheckFinishLineSensorsKeeps | race_manager.py:287-297 | the finish sweep keeps the state valid and the places distinct and consecutive from 1 |
| ManagerSpec.MonitorRaceKeeps | race_manager.py:337-407 | monitoring keeps the state valid and the places valid |
| ManagerSpec.UpdateServosKeeps | race_manager.py:409-412 | updating the servos keeps the state valid and the places valid |
| ManagerSpec.ReadButtonsValid | race_manager.py:214-218 | every queued event names a lane |
| ManagerSpec.ProcessButtonEventsValid | race_manager.py:272-276 | the events left in the queue still name lanes |
| Races.RaceManager.constructor | race_manager.py:11-39 | the new manager holds the given lanes and is `ManagerSpec.Fresh` |
| Races.RaceManager.ResetRace | race_manager.py:42-69 | leaves the state `ManagerSpec.ResetRace` describes |
| Races.RaceManager.StartRace | race_manager.py:71-92 | leaves the state `ManagerSpec.StartRace` describes |
| Races.RaceManager.UpdateTree | race_manager.py:94-112 | leaves the state `ManagerSpec.UpdateTree` describes |
| Races.RaceManager.ProcessStage | race_manager.py:114-158 | leaves the state `ManagerSpec.ProcessStage` describes |
| Races.RaceManager.SetLightOn | race_manager.py:160-165 | leaves the state `ManagerSpec.SetLightAll` describes with value 1 |
| Races.RaceManager.SetLightOff | race_manager.py:167-172 | leaves the state `ManagerSpec.SetLightAll` describes with value 0 |
| Races.RaceManager.IsLightOn | race_manager.py:174-179 | true exactly when the first lane's light is 1; false with no lanes |
| Races.RaceManager.ResetAllLights | race_manager.py:181-189 | leaves the state `ManagerSpec.ResetAllLights` describes |
| Races.RaceManager.CheckPlayerButtons | race_manager.py:191-241 | leaves the state `ManagerSpec.CheckPlayerButtons` describes |
| Races.RaceManager.ApplyButton | race_manager.py:197-235 | the lane changes as `RaceSpec.ButtonEffect` says; the flags report a new stage and a queued event |
| Races.RaceManager.CheckAllStaged | race_manager.py:243-267 | the timer becomes `RaceSpec.ArmStaging` of the lanes, nothing else changes, and validity is kept |
| Races.RaceManager.ProcessButtonEvents | race_manager.py:269-280 | leaves the state `ManagerSpec.ProcessButtonEvents` describes |
| Races.RaceManager.CheckStartLineSensors | race_manager.py:282-285 | leaves the state `ManagerSpec.CheckStartLineSensors` describes |
| Races.RaceManager.CheckFinishLineSensors | race_manager.py:287-297 | leaves the state `ManagerSpec.CheckFinishLineSensors` describes |
| Races.RaceManager.FinishLane | race_manager.py:290-297 | the lane and the counter become `RaceSpec.FinishStep` |
| Races.RaceManager.IsRaceComplete | race_manager.py:305-320 | true exactly when the race has run past its timeout or every lane has finished or false-started |
| Races.RaceManager.GetPositionText | race_manager.py:322-335 | the lane's result text is `RaceSpec.PositionText` of its state |
| Races.RaceManager.MonitorRace | race_manager.py:337-407 | the state and the flag are `ManagerSpec.MonitorRace` |
| Races.RaceManager.UpdateServos | race_manager.py:409-412 | leaves the state `ManagerSpec.UpdateServos` describes |
| Displays.ClampLevel | display/basic_display.py:44 | the level is clamped into 0..15 and kept when already inside |
| Displays.Pattern | display/basic_display.py:13-20 | a character in the table gets its table pattern and any other character 0; `UnknownTextIsDark` shows the effect on the image |
| Displays.BrightnessCommand | display/basic_display.py:42-45 | the command's high nibble is `0xE0` and its low nibble the clamped level |
| Displays.BrightnessCommandInjective | display/basic_display.py:42-45 | two levels give the same command exactly when they clamp to the same level |
| Displays.DigitAddressesApart | display/basic_display.py:59-61 | the four digit bytes 0, 2, 6, 8 are distinct, and none is the cleared high byte of another |
| Displays.PutDigitFrame | display/basic_display.py:53-61 | outside 0..3 the buffer is unchanged; otherwise the digit's byte takes the pattern, the byte after it is 0, and no other byte changes |
| Displays.PutDigitDot | display/basic_display.py:56-57 | the dot segment is lit when asked, and otherwise is the pattern's own |
| Displays.PutDigit | display/basic_display.py:53-61 | keeps the 16-byte size; the bytes it writes and keeps are stated by `PutDigitFrame` and `PutDigitDot` |
| Displays.Cells | display/basic_display.py:68-74 | folding never lengthens the text, and the last digit carries a dot exactly when the text ends in a dot after its first character |
| Displays.SpellCells | display/basic_display.py:68-74 | for text without two dots in a row after the start, the folded digits spell the text back |
| Displays.CellsSpell | display/basic_display.py:68-74 | digits whose dots are all folded fold back to themselves from their spelling |
| Displays.CellsWithoutDots | display/basic_display.py:68-74 | text without dots gives one undotted digit per character |
| Displays.CellsFoldDot | display/basic_display.py:70-72 | a dot after a character lights that character's dot instead of taking a digit |
| Displays.Justify | display/basic_display.py:77-80 | always four digits; which digits are kept is stated by `JustifyKeepsLast` |
| Displays.JustifyKeepsLast | display/basic_display.py:77-80 | justifying gives four digits: the last `min(4, n)` kept at the right and blanks in front; a second justify changes nothing |
| Displays.RenderLayout | display/basic_display.py:83-85 | digit `i`'s byte sits at address 0, 2, 6 or 8 and every other byte is 0 |
| Displays.Render | display/basic_display.py:83-85 | a 16-byte image; its layout is stated by `RenderLayout` |
| Displays.TextImage | display/basic_display.py:63-87 | the image `show_text` leaves, 16 bytes; its contents are stated by `TextImagePlain`, `TextImageFoldsDot` and `UnknownTextIsDark` |
| Displays.TextImagePlain | display/basic_display.py:63-87 | dot-free text shows its last four characters right-aligned, blank in front, each as its table pattern, with every other byte 0 |
| Displays.TextImageFoldsDot | display/basic_display.py:63-87 | in "c." followed by up to three other characters, c's digit has the dot segment lit |
| Displays.BlankIsDark | display/basic_display.py:78 | a padding blank lights no segment |
| Displays.UnknownTextIsDark | display/basic_display.py:84 | characters outside the table render as pattern 0, so such a text leaves the display dark |
| Displays.BasicDisplay.constructor | display/basic_display.py:23-32 | the buffer is zero and the bus received oscillator on, display on, brightness 8 and the cleared image |
| Displays.BasicDisplay.SetBrightness | display/basic_display.py:42-45 | sends exactly one byte, the brightness command of the clamped level |
| Displays.BasicDisplay.Clear | display/basic_display.py:47-51 | all 16 bytes become 0 and the cleared image is sent |
| Displays.BasicDisplay.SetDigit | display/basic_display.py:53-61 | the buffer becomes `PutDigit` of the old buffer |
| Displays.BasicDisplay.ShowText | display/basic_display.py:63-87 | the buffer becomes the rendered image of the text, and the cleared image, then that image, are sent |
| Displays.BasicDisplay.FoldDots | display/basic_display.py:68-74 | the loop builds exactly the folded digits `Cells(text)` |
| Displays.BasicDisplay.JustifyDigits | display/basic_display.py:77-80 | the pad and truncate steps build exactly `Justify(cells)` |

## Findings

| source | as written | input that shows it | evidently intended | confidence | as-written member | corrected member |
|---|---|---|---|---|---|---|
| race_manager.py:293-296, lane.py:274-279 | The finish sweep places any lane whose finish beam breaks while `false_start` is still false, including a lane that has not yet broken its start beam. A later start break while the tree runs with green off sets `false_start` and leaves `place` set. | Lane 1, hardware mode, fresh state. The finish beam reads blocked at t=100: the lane takes place 1. The start beam reads blocked at t=200, tree running, green off: the lane is false-started and still holds place 1. | A false-started lane never holds a place; places go only to lanes that finished without a false start. | not executed; derived from the code paths | RaceSpec.PlacedLaneLaterFalseStarts | RaceSpec.FinishSweepKeepsNoPlacedFalseStart |

The model keeps the source's behaviour. `RaceSpec.FinishStepNeverPlacesFalseStart` and `RaceSpec.FinishSweepKeepsNoPlacedFalseStart` prove that the finish sweep itself keeps the promise. `RaceSpec.StartSweepKeepsNoPlacedFalseStart` proves that the start sweep keeps it whenever each placed lane broke its start beam before it was placed. The gap is therefore exactly a finish that comes before the start.

## Left out

- Hardware. The following are not modelled; the model takes their effect as inputs or records it in ghost logs:
  - pin, PWM and ADC set-up and reads (lane.py:14-47, 169-205);
  - the ADC debug path;
  - `set_lane_light` on the LED strip (its effect on `tree_state` is modelled);
  - `pixels_fill`.
- Servo duty cycles. Servo duty writes are recorded in the ghost `servoDuties` log of each `Lane`. The race manager's methods state each lane's logical state but not this log.
- I2C transfers. They are a ghost log of `I2CWrite` values on `BasicDisplay`; the bus object itself is not modelled.
- Clock wrap-around. `time.ticks_ms`, `ticks_diff` and `ticks_add` wrap around in the source; the model uses unbounded integers and `now` as a parameter.
- Pre-start delay. `time.sleep_ms(PRE_START_DELAY)` in `start_race` takes no time in the model: the race clock starts at the `now` passed in.
- Randomness. `random.randint` for the staging delay is the parameter `delay`, required to lie in the configured range.
- Displays and indicators. `print` logging is left out, as are the display-controller calls, the auxiliary LED indicators and the results printed by `monitor_race` (race_manager.py:346-358, 368-401). They change no race state.
- Races.RaceManager.CheckFinishLineSensors: does not model the position and time display updates at race_manager.py:299-303.
- Dead queue check. The `if not self.button_events: break` check in `process_button_events` is dead code: the loop runs `min(5, len)` times. The model takes exactly that many events.
- `show_number`. display/basic_display.py:89-96 is float formatting in front of `show_text`.
- Buttons and lane set-up. The start and reset button pins of main.py are not modelled, nor are the lane constructor's pin, ADC, servo and display-controller arguments; only the lane id, servo presence and simulation mode shape a lane.
- LaneSpec.HandleStartBeamBreak: `tree_running` is taken as a parameter rather than read from the global race manager.
