# Walk controllers for the ROBOTIS OP2: command execution and fall recovery

This project models, in Dafny, the decision logic of two Webots controllers
for the ROBOTIS OP2 humanoid and proves properties of it.

- `WalkMongoDB` (`controllers/walk_controller_mongodb/walk_controller_mongodb.cpp`)
  drives the robot from commands kept in a remote store. On every tick it
  checks the accelerometer for a fall. When the poll interval has passed and
  no command is active, it takes the first pending command, skips it if it
  has expired, and otherwise makes it the active command. It then re-executes
  the active command against the gait manager and retires it once its
  duration has elapsed. Its settings come from `config.ini`.
- `Walk` (`controllers/walk_controller/walk_controller.cpp`) is driven from
  the keyboard. Each tick checks for a fall, resets both gait amplitudes to
  zero and applies the keys pressed since the last tick. The space bar
  toggles walking and the arrow keys set the forward (X) or turn (A)
  amplitude.

Both controllers detect a fall the same way. Two counters track consecutive
accelerometer samples below 432 (fallen forward) or above 592 (fallen
backward). When a counter passes 100, the get-up page and the initial pose
are played.

## Layout

| file | module | what it holds |
|---|---|---|
| `basics.dfy` | `Basics` | `Option` and `Result` |
| `commands.dfy` | `Commands` | the command record and the defaults of the JSON decoder, the verbs, clamping, truncation, `isCommandExpired`, `isCommandCompleted` |
| `fall_debounce.dfy` | `FallDebounce` | the two-counter debounce, shared by both controllers, and what a run of samples does to it |
| `config_file.dfy` | `ConfigFile` | `loadConfig`'s line parsing: `find`, the trims, `std::stoi`, one line, a run of lines |
| `effects.dfy` | `Effects` | the outside-world effects in issue order, and the gait start and stop blocks |
| `mongo_controller.dfy` | `MongoController` | the MongoDB controller, as specification functions over `ControllerState` plus the class `WalkMongoDB` |
| `keyboard_walk.dfy` | `KeyboardWalk` | the keyboard controller, as specification functions over `WalkState` plus the class `Walk` |

Each controller is a `class` whose fields are the variables the C++ code
updates in place: the walking flag, the two gait amplitudes, the command
lifecycle and the debounce counters. The C++ counters are function-local
statics, and here they are fields. Each method says that its new state
`Snapshot()` is a pure function of the old one, for example
`AfterTick(old(Snapshot()), commandPollInterval, inputs)`. The lemmas
prove what the controller promises about those functions.

The outside world is represented as follows:
- Clocks are integer parameters, in milliseconds.
- The reply of the command store is `fetched: Option<RobotCommand>`. It is
  `None` when the request fails, the JSON does not parse or no command is
  pending.
- The accelerometer's axis 1 is a `real` sample.
- The keys pressed during a tick are a `seq<Key>`.
- Gait start and stop, waits, motion pages, status reports, the clear
  request and fall events are appended to a `trace: seq<Effect>`.

## Model

| member | source | states |
|---|---|---|
| Commands.DEFAULT_COMMAND | controllers/walk_controller_mongodb/walk_controller_mongodb.cpp:240-250 | the record `jsonToCommand` yields when every field is missing: id `unknown`, verb `stop`, zero values, a 1000 ms duration, no expiry, not continuous |
| Commands.VerbName | controllers/walk_controller_mongodb/walk_controller_mongodb.cpp:281-323 | the string each branch of `executeCommand` compares the command with |
| Commands.ParseVerb | controllers/walk_controller_mongodb/walk_controller_mongodb.cpp:280-329 | a verb is recognised only when the command string equals that verb's name; any other string is `Unknown` |
| Commands.ParseVerbInvertsVerbName | controllers/walk_controller_mongodb/walk_controller_mongodb.cpp:280-329 | each of the nine verb names selects its own branch of `executeCommand` |
| Commands.Clamp | controllers/walk_controller_mongodb/walk_controller_mongodb.cpp:338 | `min(hi, max(lo, v))` lies in `[lo, hi]`, equals `v` inside the range and the nearer bound outside it |
| Commands.TruncateToInt | controllers/walk_controller_mongodb/walk_controller_mongodb.cpp:297 | `static_cast<int>` truncates toward zero, for positive and for negative values |
| Commands.IsCommandExpired | controllers/walk_controller_mongodb/walk_controller_mongodb.cpp:255-262 | the definition of `isCommandExpired`, with the wall clock in milliseconds as a parameter |
| Commands.ExpiryRules | controllers/walk_controller_mongodb/walk_controller_mongodb.cpp:255-262 | a zero expiry never expires; otherwise a command is expired exactly when `now > expires_at` (strict) |
| Commands.ExpiryIsMonotone | controllers/walk_controller_mongodb/walk_controller_mongodb.cpp:255-262 | once expired, a command stays expired at every later time |
| Commands.IsCommandCompleted | controllers/walk_controller_mongodb/walk_controller_mongodb.cpp:264-278 | the definition of `isCommandCompleted`, with the milliseconds elapsed since the start as a parameter |
| Commands.CompletionRules | controllers/walk_controller_mongodb/walk_controller_mongodb.cpp:264-278 | with no active command the answer is "completed"; a continuous command never completes; a timed command with positive duration completes iff `elapsed >= duration`; a non-positive duration never completes |
| Commands.CompletionIsMonotone | controllers/walk_controller_mongodb/walk_controller_mongodb.cpp:264-278 | completion, once reached, persists as elapsed time grows |
| FallDebounce.Run | controllers/walk_controller_mongodb/walk_controller_mongodb.cpp:644-656 | the counter updates of successive `checkIfFallen` calls over a sequence of accelerometer samples |
| FallDebounce.Step | controllers/walk_controller_mongodb/walk_controller_mongodb.cpp:638-706 | `fup` increments on a sample below 432 and resets otherwise, `fdown` likewise above 592; a fall is signalled iff a counter passes 100; only the counter that fired is reset; from non-negative counters the result is `Bounded` (both in `[0, 100]`, never both positive) |
| FallDebounce.TrailingRun | controllers/walk_controller_mongodb/walk_controller_mongodb.cpp:644-653 | the independent reference for the counters: the longest suffix of samples leaning one way |
| FallDebounce.RunCountsTrailingRun | controllers/walk_controller_mongodb/walk_controller_mongodb.cpp:644-653 | after any samples from zero counters, each counter equals its trailing run modulo 101, and a fall is signalled exactly when that run is a positive multiple of 101 |
| FallDebounce.FallNeedsFullRun | controllers/walk_controller_mongodb/walk_controller_mongodb.cpp:641-656 | a fall is only signalled after 101 consecutive samples leaning the same way |
| FallDebounce.FallAfterFullRun | controllers/walk_controller_mongodb/walk_controller_mongodb.cpp:641-656 | the 101st consecutive leaning sample does signal the fall |
| FallDebounce.RunIsBounded | controllers/walk_controller/walk_controller.cpp:151-182 | from bounded counters every reachable pair of counters stays bounded |
| Effects.StartIfIdle | controllers/walk_controller_mongodb/walk_controller_mongodb.cpp:333-337 | the gait is started, followed by a 200 ms wait, only when it is not already walking |
| Effects.StopIfWalking | controllers/walk_controller_mongodb/walk_controller_mongodb.cpp:372-378 | the gait is stopped, followed by a 200 ms wait, only when it is walking |
| Effects.RecoveryPages | controllers/walk_controller_mongodb/walk_controller_mongodb.cpp:660-661 | page 10 after a forward fall, page 11 after a backward fall, then page 9 |
| Effects.StartStopRules | controllers/walk_controller_mongodb/walk_controller_mongodb.cpp:333-337 | starting and stopping the gait are idempotent, leave both amplitudes alone and only append to the trace; start then stop issues start, wait, stop, wait |
| ConfigFile.IndexOf | controllers/walk_controller_mongodb/walk_controller_mongodb.cpp:95 | `find("=")` is `npos` iff there is no `=`; otherwise it is the index of the first `=` |
| ConfigFile.ValueAfterEquals | controllers/walk_controller_mongodb/walk_controller_mongodb.cpp:95-97 | `line.substr(pos + 1)` after the first `=`, or nothing when `find` returns `npos` |
| ConfigFile.IndexOfIsFirst | controllers/walk_controller_mongodb/walk_controller_mongodb.cpp:95 | the first `=` is the only index `find` can return |
| ConfigFile.Contains | controllers/walk_controller_mongodb/walk_controller_mongodb.cpp:94 | `line.find(key) != npos`, defined by scanning the positions of the line |
| ConfigFile.ContainsAt | controllers/walk_controller_mongodb/walk_controller_mongodb.cpp:94 | a key that occurs at any position is found |
| ConfigFile.ContainsHasPosition | controllers/walk_controller_mongodb/walk_controller_mongodb.cpp:94 | a key is found only if it occurs at some position |
| ConfigFile.TrimLeft | controllers/walk_controller_mongodb/walk_controller_mongodb.cpp:98 | the result is a suffix of the input, everything dropped is a space or a tab, and it does not start with one |
| ConfigFile.TrimRight | controllers/walk_controller_mongodb/walk_controller_mongodb.cpp:99 | the result is a prefix of the input, everything dropped is a space or a tab, and it does not end with one |
| ConfigFile.Trim | controllers/walk_controller_mongodb/walk_controller_mongodb.cpp:98-99 | a trimmed value has no blank at either end, and is empty iff the input was all blanks |
| ConfigFile.TrimLeftOfPadded | controllers/walk_controller_mongodb/walk_controller_mongodb.cpp:98 | leading blanks in front of text are removed and the text is kept |
| ConfigFile.TrimRightOfPadded | controllers/walk_controller_mongodb/walk_controller_mongodb.cpp:99 | trailing blanks after text are removed and the text is kept |
| ConfigFile.TrimOfPadded | controllers/walk_controller_mongodb/walk_controller_mongodb.cpp:97-99 | any value padded with spaces and tabs on both sides is recovered exactly |
| ConfigFile.TrimOfTrimmed | controllers/walk_controller_mongodb/walk_controller_mongodb.cpp:98-99 | a value with no blank at either end is left as it is |
| ConfigFile.TrimIsIdempotent | controllers/walk_controller_mongodb/walk_controller_mongodb.cpp:98-99 | trimming twice is trimming once |
| ConfigFile.DigitPrefix | controllers/walk_controller_mongodb/walk_controller_mongodb.cpp:115 | `stoi` reads the longest run of digits |
| ConfigFile.SkipSpaces | controllers/walk_controller_mongodb/walk_controller_mongodb.cpp:115 | the leading white space `std::stoi` skips |
| ConfigFile.DigitsValue | controllers/walk_controller_mongodb/walk_controller_mongodb.cpp:115 | the decimal value of a run of digits, read most significant first |
| ConfigFile.ParseSigned | controllers/walk_controller_mongodb/walk_controller_mongodb.cpp:115 | the sign and digit rules of `std::stoi` after its white space; a success lies in the range of `int` |
| ConfigFile.Stoi | controllers/walk_controller_mongodb/walk_controller_mongodb.cpp:115 | a successful `std::stoi` lies in the range of a 32-bit `int` |
| ConfigFile.SkipSpacesDropsSpaces | controllers/walk_controller_mongodb/walk_controller_mongodb.cpp:115 | `stoi` skips a run of white space at the front, all of it and nothing else |
| ConfigFile.SkipSpacesOfPadded | controllers/walk_controller_mongodb/walk_controller_mongodb.cpp:115 | white space in front of text that does not start with white space is skipped exactly |
| ConfigFile.IntOrOutOfRange | controllers/walk_controller_mongodb/walk_controller_mongodb.cpp:115 | a value read by `stoi` is returned iff it lies in the range of a 32-bit `int`; otherwise the error is `out_of_range` |
| ConfigFile.ParseUnsignedOfParts | controllers/walk_controller_mongodb/walk_controller_mongodb.cpp:115 | with no sign, no digits means `invalid_argument` and digits mean their value, range-checked |
| ConfigFile.ParseSignOfParts | controllers/walk_controller_mongodb/walk_controller_mongodb.cpp:115 | after a `+` or `-`, no digits means `invalid_argument`; digits mean their value, negated after `-`, range-checked |
| ConfigFile.ParseSignedOfParts | controllers/walk_controller_mongodb/walk_controller_mongodb.cpp:115 | the two rules above, for an optional sign: `invalid_argument` exactly when there are no digits |
| ConfigFile.StoiOfParts | controllers/walk_controller_mongodb/walk_controller_mongodb.cpp:115 | on leading white space, an optional sign, digits and what follows: `invalid_argument` iff there are no digits, `out_of_range` iff the signed value is outside `int`, otherwise that value |
| ConfigFile.SpacesSplit | controllers/walk_controller_mongodb/walk_controller_mongodb.cpp:115 | every string is a run of white space followed by text that does not start with white space |
| ConfigFile.DigitsSplit | controllers/walk_controller_mongodb/walk_controller_mongodb.cpp:115 | every string is a run of digits followed by text that does not start with a digit |
| ConfigFile.StoiSplit | controllers/walk_controller_mongodb/walk_controller_mongodb.cpp:115 | every string splits into the parts `StoiOfParts` takes, so its rules decide `stoi` on every input |
| ConfigFile.StoiReadsDecimal | controllers/walk_controller_mongodb/walk_controller_mongodb.cpp:115 | `stoi` reads back any non-negative `int` written in decimal and ignores what follows the digits |
| ConfigFile.StoiReadsNegativeDecimal | controllers/walk_controller_mongodb/walk_controller_mongodb.cpp:115 | `stoi` reads back any negative `int` written with a minus sign |
| ConfigFile.ApplyLine | controllers/walk_controller_mongodb/walk_controller_mongodb.cpp:94-117 | one pass of the `getline` loop body: the first key found selects the setting, the value after `=` is trimmed or read by `stoi`, and only `stoi` can fail |
| ConfigFile.LoadLines | controllers/walk_controller_mongodb/walk_controller_mongodb.cpp:93-118 | the `getline` loop over all lines, stopping at the first `stoi` error |
| ConfigFile.ApplyLineRules | controllers/walk_controller_mongodb/walk_controller_mongodb.cpp:94-117 | a line that mentions no key, or has no `=`, changes nothing; keys are tested in the order `api_url`, `robot_id`, `poll_interval` and only the first match counts |
| ConfigFile.ApplyLineValue | controllers/walk_controller_mongodb/walk_controller_mongodb.cpp:94-117 | the recognised key takes the text after the first `=`, trimmed at both ends for `api_url` and `robot_id` and at the front only before `stoi` for `poll_interval` |
| ConfigFile.LoadLinesAppend | controllers/walk_controller_mongodb/walk_controller_mongodb.cpp:93-118 | loading `a + b` is loading `a`, then `b` from where `a` stopped, unless `a` ended in an error |
| ConfigFile.LoadLinesIgnoresUnkeyed | controllers/walk_controller_mongodb/walk_controller_mongodb.cpp:93-118 | lines that mention no key leave all three settings unchanged |
| ConfigFile.LoadLinesKeepsTrimmed | controllers/walk_controller_mongodb/walk_controller_mongodb.cpp:97-107 | the loaded URL and robot id never start or end with a space or a tab |
| ConfigFile.ApplyLineKeepsTrimmed | controllers/walk_controller_mongodb/walk_controller_mongodb.cpp:97-107 | one line keeps the URL and the robot id free of blank ends |
| ConfigFile.ApplyLineKeepsStrings | controllers/walk_controller_mongodb/walk_controller_mongodb.cpp:108-117 | a `poll_interval` line, or a line with no key, changes at most the poll interval |
| MongoController.Dispatch | controllers/walk_controller_mongodb/walk_controller_mongodb.cpp:280-330 | the if-chain of `executeCommand`: each recognised verb runs its helper, an unknown verb changes nothing |
| MongoController.AfterWalkForward | controllers/walk_controller_mongodb/walk_controller_mongodb.cpp:332-340 | start if idle, X the speed clamped to `[0, 1]`, A zero |
| MongoController.AfterWalkBackward | controllers/walk_controller_mongodb/walk_controller_mongodb.cpp:342-350 | start if idle, X minus the speed clamped to `[0, 1]`, A zero |
| MongoController.AfterTurnLeft | controllers/walk_controller_mongodb/walk_controller_mongodb.cpp:352-360 | start if idle, X zero, A the speed clamped to `[0, 1]` |
| MongoController.AfterTurnRight | controllers/walk_controller_mongodb/walk_controller_mongodb.cpp:362-370 | start if idle, X zero, A minus the speed clamped to `[0, 1]` |
| MongoController.AfterMotion | controllers/walk_controller_mongodb/walk_controller_mongodb.cpp:380-386 | stop if walking, play the page, wait 1000 ms |
| MongoController.AfterWalkDirection | controllers/walk_controller_mongodb/walk_controller_mongodb.cpp:299-307 | start if idle, X and A the two values clamped to `[-1, 1]` |
| MongoController.SignedSpeed | controllers/walk_controller_mongodb/walk_controller_mongodb.cpp:315-320 | one axis of `set_speed`: zero stays zero, otherwise the value with the axis' sign |
| MongoController.AfterSetSpeed | controllers/walk_controller_mongodb/walk_controller_mongodb.cpp:309-321 | `set_speed` applied to both axes, only while walking |
| MongoController.AfterEmergencyStop | controllers/walk_controller_mongodb/walk_controller_mongodb.cpp:323-325 | stop if walking, then one clear request |
| MongoController.MovementVerbs | controllers/walk_controller_mongodb/walk_controller_mongodb.cpp:280-370 | forward, backward, turn left, turn right and walk_direction leave the robot walking, start the gait only if it was idle, and set X and A to the clamped values listed per verb, so both stay in `[-1, 1]` |
| MongoController.SetSpeedRules | controllers/walk_controller_mongodb/walk_controller_mongodb.cpp:309-321 | set_speed does nothing unless walking; an axis at zero stays zero; a positive axis becomes `value`, a negative one `-value`; each axis keeps its direction when `value > 0` |
| MongoController.SetSpeedNegativeAlternates | controllers/walk_controller_mongodb/walk_controller_mongodb.cpp:309-321 | with a negative `value` a moving X axis reverses, and a second execution reverses it again |
| MongoController.StopIsIdempotent | controllers/walk_controller_mongodb/walk_controller_mongodb.cpp:372-378 | stop leaves the robot not walking, does nothing when already stopped, so a second stop changes nothing, and keeps both amplitudes |
| MongoController.MotionStopsFirst | controllers/walk_controller_mongodb/walk_controller_mongodb.cpp:380-386 | motion stops a walking gait first, then plays the page truncated from `value`, then waits 1000 ms |
| MongoController.EmergencyStopRules | controllers/walk_controller_mongodb/walk_controller_mongodb.cpp:323-325 | emergency_stop stops walking and then asks the store to clear pending commands |
| MongoController.UnknownVerbChangesNothing | controllers/walk_controller_mongodb/walk_controller_mongodb.cpp:327-329 | an unrecognised verb changes no state |
| MongoController.RepeatedDispatchIsStable | controllers/walk_controller_mongodb/walk_controller_mongodb.cpp:550-551 | re-executing the active command on the next tick changes nothing, except for motion, emergency_stop and a negative set_speed |
| MongoController.Recover | controllers/walk_controller_mongodb/walk_controller_mongodb.cpp:657-679 | the recovery after a fall: stop if walking, the get-up and initial pages, then a fall event with no interrupted command |
| MongoController.AfterFallCheck | controllers/walk_controller_mongodb/walk_controller_mongodb.cpp:638-706 | one `checkIfFallen`: the counters step, and on a fall the active command is dropped and the robot recovers |
| MongoController.AfterPoll | controllers/walk_controller_mongodb/walk_controller_mongodb.cpp:212-231 | `pollForNewCommand` from the fetch on: no record changes nothing, an expired record is reported `expired`, any other becomes the active command and is reported `executing` |
| MongoController.AfterPollGate | controllers/walk_controller_mongodb/walk_controller_mongodb.cpp:538-547 | the poll happens only once the interval has passed and no command is active; the poll time is updated whenever the interval has passed |
| MongoController.AfterExecute | controllers/walk_controller_mongodb/walk_controller_mongodb.cpp:549-557 | an active command is executed, then reported `completed` and retired if it has completed |
| MongoController.AfterTick | controllers/walk_controller_mongodb/walk_controller_mongodb.cpp:534-558 | one loop iteration: fall check, poll gate, execute and completion |
| MongoController.AfterTicks | controllers/walk_controller_mongodb/walk_controller_mongodb.cpp:534-558 | successive loop iterations, oldest first |
| MongoController.FallEventNamesNoCommand | controllers/walk_controller_mongodb/walk_controller_mongodb.cpp:656-676 | a fall check only appends to the trace, and no fall event it posts carries `interrupted_command`, because `Recover` posts every event with none; that the method clears the flag before it builds the event is proved by `WalkMongoDB.CheckIfFallen` |
| MongoController.TickFallInterrupts | controllers/walk_controller_mongodb/walk_controller_mongodb.cpp:656-662 | a detected fall clears the active command, stops walking, posts the fall event and resets the counters, unless a poll in the same tick accepts a new command |
| MongoController.TickNeverReplacesRunningCommand | controllers/walk_controller_mongodb/walk_controller_mongodb.cpp:542-547 | without a fall, an active command is never replaced by a poll |
| MongoController.TickWaitsForPollInterval | controllers/walk_controller_mongodb/walk_controller_mongodb.cpp:538-547 | before the poll interval has passed, neither the command nor the last poll time changes |
| MongoController.TickReportsExpiredCandidate | controllers/walk_controller_mongodb/walk_controller_mongodb.cpp:217-220 | an expired candidate is reported "expired"; nothing becomes active and the current command record is unchanged |
| MongoController.TickStartsAcceptedCandidate | controllers/walk_controller_mongodb/walk_controller_mongodb.cpp:222-225 | an accepted candidate becomes the current command with its start time and is reported "executing"; it is executed in the same tick and retired at once if already complete |
| MongoController.TickKeepsContinuousCommand | controllers/walk_controller_mongodb/walk_controller_mongodb.cpp:550-557 | without a fall, an active continuous command stays active |
| MongoController.TickCompletesTimedCommand | controllers/walk_controller_mongodb/walk_controller_mongodb.cpp:550-557 | without a fall, a timed command whose duration has elapsed is executed once more, reported "completed" and retired |
| MongoController.TickEmergencyStopStaysActive | controllers/walk_controller_mongodb/walk_controller_mongodb.cpp:323-325 | emergency_stop does not clear the active command: until it completes, each tick stops the gait and asks the store again to clear pending commands |
| MongoController.TickStepsCounters | controllers/walk_controller_mongodb/walk_controller_mongodb.cpp:535 | a tick moves the counters exactly as one debounce step on its sample, whatever else happens in it |
| MongoController.TickKeepsCountersBounded | controllers/walk_controller_mongodb/walk_controller_mongodb.cpp:535 | a tick keeps the counters bounded |
| MongoController.TicksCountSamples | controllers/walk_controller_mongodb/walk_controller_mongodb.cpp:534-535 | over any run of ticks, the counters depend only on the accelerometer samples |
| MongoController.TicksKeepContinuousCommand | controllers/walk_controller_mongodb/walk_controller_mongodb.cpp:534-558 | a continuous command stays active over any run of ticks in which no fall is detected |
| MongoController.WalkMongoDB.constructor | controllers/walk_controller_mongodb/walk_controller_mongodb.cpp:32-73 | the controller starts not walking, with no active command and the last poll at the current time; its settings and the `stoi` error, if any, are those `LoadLines` computes from the default URL, robot id `robot_001` and a 500 ms poll interval |
| MongoController.WalkMongoDB.LoadConfig | controllers/walk_controller_mongodb/walk_controller_mongodb.cpp:87-118 | the settings after the loop are those `LoadLines` computes from the default URL and the current id and interval; a `stoi` error stops the loop |
| MongoController.WalkMongoDB.LoadConfigLine | controllers/walk_controller_mongodb/walk_controller_mongodb.cpp:94-117 | one pass of the loop changes the settings as `ApplyLine` says, or leaves them and returns the `stoi` error |
| MongoController.WalkMongoDB.StartWalkingIfIdle | controllers/walk_controller_mongodb/walk_controller_mongodb.cpp:333-337 | the start block: start and wait only if idle |
| MongoController.WalkMongoDB.ExecuteWalkForward | controllers/walk_controller_mongodb/walk_controller_mongodb.cpp:332-340 | the new gait state is `AfterWalkForward` of the old one |
| MongoController.WalkMongoDB.ExecuteWalkBackward | controllers/walk_controller_mongodb/walk_controller_mongodb.cpp:342-350 | the new gait state is `AfterWalkBackward` of the old one |
| MongoController.WalkMongoDB.ExecuteTurnLeft | controllers/walk_controller_mongodb/walk_controller_mongodb.cpp:352-360 | the new gait state is `AfterTurnLeft` of the old one |
| MongoController.WalkMongoDB.ExecuteTurnRight | controllers/walk_controller_mongodb/walk_controller_mongodb.cpp:362-370 | the new gait state is `AfterTurnRight` of the old one |
| MongoController.WalkMongoDB.ExecuteStop | controllers/walk_controller_mongodb/walk_controller_mongodb.cpp:372-378 | stop and wait only if walking |
| MongoController.WalkMongoDB.ExecuteMotion | controllers/walk_controller_mongodb/walk_controller_mongodb.cpp:380-386 | the new gait state is `AfterMotion` of the old one |
| MongoController.WalkMongoDB.ClearPendingCommands | controllers/walk_controller_mongodb/walk_controller_mongodb.cpp:411-418 | one clear request is issued |
| MongoController.WalkMongoDB.UpdateCommandStatus | controllers/walk_controller_mongodb/walk_controller_mongodb.cpp:388-409 | one status report for the command is issued |
| MongoController.WalkMongoDB.ExecuteCommand | controllers/walk_controller_mongodb/walk_controller_mongodb.cpp:280-330 | the new gait state is `Dispatch` of the old one, whose properties are the lemmas above |
| MongoController.WalkMongoDB.PollForNewCommand | controllers/walk_controller_mongodb/walk_controller_mongodb.cpp:212-231 | returns true iff a record arrived and has not expired; the new state is `AfterPoll` of the old one |
| MongoController.WalkMongoDB.CheckIfFallen | controllers/walk_controller_mongodb/walk_controller_mongodb.cpp:638-706 | keeps the counters bounded; the new state is `AfterFallCheck` of the old one |
| MongoController.WalkMongoDB.Tick | controllers/walk_controller_mongodb/walk_controller_mongodb.cpp:534-558 | keeps the counters bounded; the new state is `AfterTick` of the old one, whose properties are the tick lemmas above |
| MongoController.WalkMongoDB.PollIfDue | controllers/walk_controller_mongodb/walk_controller_mongodb.cpp:536-547 | the new state is `AfterPollGate` of the old one: poll only once the interval has passed and no command is active, and then restart the interval |
| MongoController.WalkMongoDB.RunActiveCommand | controllers/walk_controller_mongodb/walk_controller_mongodb.cpp:550-557 | the new state is `AfterExecute` of the old one: execute the active command, then report and retire it if complete |
| KeyboardWalk.Toggle | controllers/walk_controller/walk_controller.cpp:118-128 | the space bar stops a walking gait and starts an idle one |
| KeyboardWalk.ApplyKey | controllers/walk_controller/walk_controller.cpp:117-141 | one pass of the `switch`: space toggles, Up and Down set X to 1 and -1, Left and Right set A to 0.5 and -0.5, other keys do nothing |
| KeyboardWalk.ApplyKeys | controllers/walk_controller/walk_controller.cpp:115-142 | the `getKey` loop over the keys of one tick, in order |
| KeyboardWalk.SpaceToggles | controllers/walk_controller/walk_controller.cpp:118-128 | space flips the walking flag and keeps the amplitudes; two presses restore the flag |
| KeyboardWalk.KeysToggleParity | controllers/walk_controller/walk_controller.cpp:115-142 | after a tick's keys the robot walks iff it walked before and an even number of spaces was pressed, or it did not and the number was odd |
| KeyboardWalk.KeysExtendTrace | controllers/walk_controller/walk_controller.cpp:115-142 | keys only append effects |
| KeyboardWalk.LastVerticalKeyWins | controllers/walk_controller/walk_controller.cpp:129-134 | the last Up or Down key of a tick decides X: 1.0 for Up, -1.0 for Down |
| KeyboardWalk.LastHorizontalKeyWins | controllers/walk_controller/walk_controller.cpp:135-140 | the last Left or Right key of a tick decides A: 0.5 for Left, -0.5 for Right |
| KeyboardWalk.KeysKeepAmplitudesBounded | controllers/walk_controller/walk_controller.cpp:129-140 | keys keep X in `[-1, 1]` and A in `[-0.5, 0.5]` |
| KeyboardWalk.KeysKeepX | controllers/walk_controller/walk_controller.cpp:115-142 | keys other than Up and Down leave X alone |
| KeyboardWalk.KeysKeepA | controllers/walk_controller/walk_controller.cpp:115-142 | keys other than Left and Right leave A alone |
| KeyboardWalk.AfterFallCheck | controllers/walk_controller/walk_controller.cpp:151-182 | one `checkIfFallen`: the counters step, and on a fall the get-up page and page 9 are played |
| KeyboardWalk.FallCheckKeepsGait | controllers/walk_controller/walk_controller.cpp:171-181 | recovery plays pages but neither stops the gait nor touches the amplitudes; pages are played iff a fall is signalled |
| KeyboardWalk.AfterTick | controllers/walk_controller/walk_controller.cpp:108-142 | one loop iteration: fall check, both amplitudes reset to zero, then the keys |
| KeyboardWalk.TickAmplitudes | controllers/walk_controller/walk_controller.cpp:111-142 | after a tick X is in `[-1, 1]` and A in `[-0.5, 0.5]`, and each is zero when no key for its axis was pressed |
| KeyboardWalk.TickRules | controllers/walk_controller/walk_controller.cpp:108-142 | a tick keeps the counters bounded and toggles walking once per space pressed |
| KeyboardWalk.Walk.constructor | controllers/walk_controller/walk_controller.cpp:99-106 | the loop starts not walking, with zero counters, after the initial pose page and a 200 ms wait |
| KeyboardWalk.Walk.CheckIfFallen | controllers/walk_controller/walk_controller.cpp:151-182 | keeps the counters bounded; the new state is `AfterFallCheck` of the old one |
| KeyboardWalk.Walk.HandleKey | controllers/walk_controller/walk_controller.cpp:117-141 | the new gait state is `ApplyKey` of the old one |
| KeyboardWalk.Walk.Tick | controllers/walk_controller/walk_controller.cpp:108-142 | keeps the counters bounded; the new state is `AfterTick` of the old one |

## Left out

- The libcurl transport, the JSON encoding and decoding, sensor telemetry and robot status uploads are not modelled. A remote request is an entry in the trace, and a fetched command is an input.
- `jsonToCommand` itself is left out. Its defaults are recorded as `Commands.DEFAULT_COMMAND`.
- Webots devices, `myStep`, `wait`, `mGaitManager->step`, LEDs, the camera and the gyro are left out. A wait is a trace entry with its length in milliseconds.
- In the MongoDB controller, the keyboard handling (lines 581-627) and the telemetry and debug-print timers (lines 561-577) are left out because they are debug I/O.
- `MongoController.WalkMongoDB.constructor`: the declaration of `RobotCommand` and of the class fields is not part of this model. The model starts `currentCommand` at the decoder's defaults and the amplitudes at zero. `currentCommand` is only read while a command is active, so this choice is not observable. The exception `std::stoi` lets escape from the constructor is kept in the field `configError` instead, and the object is still built; the devices, cURL setup and `initializeMongoDB` calls of the constructor are left out.
- `MongoController.WalkMongoDB.LoadConfig`: reading `config.ini` is left out; the lines are a parameter. The exception `std::stoi` throws becomes a returned error that ends the loop.
- `ConfigFile.Stoi`: locale-dependent white space is not modelled. Only the "C" locale's `isspace` set is used.
- `KeyboardWalk.Walk`: in the C++ code `isWalking` is a local of `run`, not a member. The model keeps it as a field beside the amplitudes.
- The Webots key codes of the arrow keys are not part of the shown files. Keys are the datatype `KeyboardWalk.Key`, and all other codes are `Other`.
- Floating-point behaviour is left out. Samples, amplitudes and command values are exact reals, so NaN and rounding are not modelled. `Commands.TruncateToInt` returns the unbounded truncation: in C++ `static_cast<int>` of a NaN or of a value outside `int` is undefined behaviour, which the model does not capture.
- `exit` on a failed simulator step, and the startup code before the loop (`main.cpp`, `initializeMongoDB`), are left out.
