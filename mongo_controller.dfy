/**
 * The MongoDB walk controller (WalkMongoDB): one control tick checks for a
 * fall, polls the remote command store when the poll interval has passed and
 * no command is active, re-executes the active command against the gait
 * manager, and retires it once its duration has elapsed.
 *
 * The pure functions below specify each step on a ControllerState value; the
 * class WalkMongoDB holds the same state in fields, and each of its methods
 * is proved to move its fields exactly as the matching function says.
 */
module MongoController {
  import opened Basics
  import opened Commands
  import opened FallDebounce
  import opened Effects
  import opened ConfigFile

  // ---------------------------------------------------------------------------
  // Executing one command against the gait manager

  /** The pause executeMotion leaves for the page to finish. */
  const MOTION_WAIT_MS: int := 1000

  function AfterWalkForward(g: Actuator, speed: real): Actuator
  {
    StartIfIdle(g).(x := Clamp(speed, 0.0, 1.0), a := 0.0)
  }

  function AfterWalkBackward(g: Actuator, speed: real): Actuator
  {
    StartIfIdle(g).(x := -Clamp(speed, 0.0, 1.0), a := 0.0)
  }

  function AfterTurnLeft(g: Actuator, speed: real): Actuator
  {
    StartIfIdle(g).(x := 0.0, a := Clamp(speed, 0.0, 1.0))
  }

  function AfterTurnRight(g: Actuator, speed: real): Actuator
  {
    StartIfIdle(g).(x := 0.0, a := -Clamp(speed, 0.0, 1.0))
  }

  function AfterMotion(g: Actuator, page: int): Actuator
  {
    var stopped := StopIfWalking(g);
    stopped.(trace := stopped.trace + [PlayPage(page), Wait(MOTION_WAIT_MS)])
  }

  function AfterWalkDirection(g: Actuator, value: real, value2: real): Actuator
  {
    StartIfIdle(g).(x := Clamp(value, -1.0, 1.0), a := Clamp(value2, -1.0, 1.0))
  }

  /** set_speed on one axis: zero stays zero, otherwise `value` with the axis' sign applied. */
  function SignedSpeed(current: real, value: real): real
  {
    if current != 0.0 then (if current > 0.0 then value else -value) else current
  }

  function AfterSetSpeed(g: Actuator, value: real): Actuator
  {
    if g.walking then g.(x := SignedSpeed(g.x, value), a := SignedSpeed(g.a, value)) else g
  }

  function AfterEmergencyStop(g: Actuator): Actuator
  {
    var stopped := StopIfWalking(g);
    stopped.(trace := stopped.trace + [ClearPending])
  }

  /** executeCommand: dispatch on the verb string. */
  function Dispatch(g: Actuator, cmd: RobotCommand): Actuator
  {
    match ParseVerb(cmd.command)
    case WalkForward => AfterWalkForward(g, cmd.value)
    case WalkBackward => AfterWalkBackward(g, cmd.value)
    case TurnLeft => AfterTurnLeft(g, cmd.value)
    case TurnRight => AfterTurnRight(g, cmd.value)
    case Stop => StopIfWalking(g)
    case Motion => AfterMotion(g, TruncateToInt(cmd.value))
    case WalkDirection => AfterWalkDirection(g, cmd.value, cmd.value2)
    case SetSpeed => AfterSetSpeed(g, cmd.value)
    case EmergencyStop => AfterEmergencyStop(g)
    case Unknown => g
  }

  /** The verbs that make the robot walk. */
  predicate IsMovement(v: Verb)
  {
    v == WalkForward || v == WalkBackward || v == TurnLeft || v == TurnRight || v == WalkDirection
  }

  /**
   * A movement verb starts the gait only if it is idle, leaves it walking,
   * and sets the amplitudes to the clamped values, so both stay in [-1, 1].
   */
  lemma MovementVerbs(g: Actuator, cmd: RobotCommand)
    requires IsMovement(ParseVerb(cmd.command))
    ensures var r := Dispatch(g, cmd);
      && r.walking
      && -1.0 <= r.x <= 1.0 && -1.0 <= r.a <= 1.0
      && r.trace == g.trace + (if g.walking then [] else [GaitStart, Wait(GAIT_SETTLE_MS)])
    ensures var r := Dispatch(g, cmd);
      match ParseVerb(cmd.command)
      case WalkForward => r.x == Clamp(cmd.value, 0.0, 1.0) && r.a == 0.0
      case WalkBackward => r.x == -Clamp(cmd.value, 0.0, 1.0) && r.a == 0.0
      case TurnLeft => r.x == 0.0 && r.a == Clamp(cmd.value, 0.0, 1.0)
      case TurnRight => r.x == 0.0 && r.a == -Clamp(cmd.value, 0.0, 1.0)
      case WalkDirection => r.x == Clamp(cmd.value, -1.0, 1.0) && r.a == Clamp(cmd.value2, -1.0, 1.0)
      case _ => false
  {
  }

  /**
   * set_speed does nothing unless walking; a zero axis stays zero; a non-zero
   * axis becomes `value` if it was positive and `-value` if it was negative.
   * As `value` is not clamped, the direction is kept only for a positive value.
   */
  lemma SetSpeedRules(g: Actuator, cmd: RobotCommand)
    requires ParseVerb(cmd.command) == SetSpeed
    ensures !g.walking ==> Dispatch(g, cmd) == g
    ensures var r := Dispatch(g, cmd);
      && r.walking == g.walking && r.trace == g.trace
      && (g.x == 0.0 ==> r.x == 0.0) && (g.a == 0.0 ==> r.a == 0.0)
      && (g.walking && g.x > 0.0 ==> r.x == cmd.value)
      && (g.walking && g.x < 0.0 ==> r.x == -cmd.value)
      && (g.walking && g.a > 0.0 ==> r.a == cmd.value)
      && (g.walking && g.a < 0.0 ==> r.a == -cmd.value)
    ensures cmd.value > 0.0 ==> var r := Dispatch(g, cmd);
      && (r.x > 0.0 <==> g.x > 0.0) && (r.x < 0.0 <==> g.x < 0.0)
      && (r.a > 0.0 <==> g.a > 0.0) && (r.a < 0.0 <==> g.a < 0.0)
  {
  }

  /**
   * As the tick re-executes the active command every tick, a set_speed with a
   * negative value reverses a moving axis on every execution.
   */
  lemma SetSpeedNegativeAlternates(g: Actuator, cmd: RobotCommand)
    requires ParseVerb(cmd.command) == SetSpeed && cmd.value < 0.0
    requires g.walking && g.x != 0.0
    ensures g.x > 0.0 ==> Dispatch(g, cmd).x < 0.0
    ensures g.x < 0.0 ==> Dispatch(g, cmd).x > 0.0
    ensures Dispatch(Dispatch(g, cmd), cmd).x == -Dispatch(g, cmd).x
  {
  }

  /**
   * stop leaves the gait stopped, does nothing when it already is (so a second
   * stop changes nothing) and keeps both amplitudes.
   */
  lemma StopIsIdempotent(g: Actuator, cmd: RobotCommand)
    requires ParseVerb(cmd.command) == Stop
    ensures !Dispatch(g, cmd).walking
    ensures !g.walking ==> Dispatch(g, cmd) == g
    ensures Dispatch(Dispatch(g, cmd), cmd) == Dispatch(g, cmd)
    ensures Dispatch(g, cmd).x == g.x && Dispatch(g, cmd).a == g.a
  {
  }

  /** motion stops walking before its page is played, then waits for it. */
  lemma MotionStopsFirst(g: Actuator, cmd: RobotCommand)
    requires ParseVerb(cmd.command) == Motion
    ensures !Dispatch(g, cmd).walking
    ensures Dispatch(g, cmd).trace ==
              g.trace + (if g.walking then [GaitStop, Wait(GAIT_SETTLE_MS)] else [])
              + [PlayPage(TruncateToInt(cmd.value)), Wait(MOTION_WAIT_MS)]
  {
  }

  /** emergency_stop stops walking and then asks the store to clear pending commands. */
  lemma EmergencyStopRules(g: Actuator, cmd: RobotCommand)
    requires ParseVerb(cmd.command) == EmergencyStop
    ensures !Dispatch(g, cmd).walking
    ensures Dispatch(g, cmd).x == g.x && Dispatch(g, cmd).a == g.a
    ensures Dispatch(g, cmd).trace ==
              g.trace + (if g.walking then [GaitStop, Wait(GAIT_SETTLE_MS)] else []) + [ClearPending]
  {
  }

  /** An unrecognised verb changes nothing. */
  lemma UnknownVerbChangesNothing(g: Actuator, cmd: RobotCommand)
    requires ParseVerb(cmd.command) == Unknown
    ensures Dispatch(g, cmd) == g
  {
  }

  /**
   * Re-executing the same command on the next tick changes nothing, except for
   * motion and emergency_stop (which repeat their page or clear request) and a
   * negative set_speed.
   */
  lemma RepeatedDispatchIsStable(g: Actuator, cmd: RobotCommand)
    requires ParseVerb(cmd.command) != Motion && ParseVerb(cmd.command) != EmergencyStop
    requires ParseVerb(cmd.command) == SetSpeed ==> cmd.value >= 0.0
    ensures Dispatch(Dispatch(g, cmd), cmd) == Dispatch(g, cmd)
  {
  }

  // ---------------------------------------------------------------------------
  // The controller state and one tick

  /** The controller's fields that a tick reads and writes. */
  datatype ControllerState = ControllerState(
    act: Actuator,
    hasActiveCommand: bool,
    currentCommand: RobotCommand,
    commandStartTime: int,
    lastCommandPoll: int,
    counters: Counters)

  /**
   * The readings one tick takes from the outside world: the accelerometer's
   * axis 1, the steady clock at the top of the tick, the first pending record
   * the store returns (None when the request fails, the reply does not parse
   * or holds no record), the wall clock when that record's expiry is checked,
   * and the steady clock when an accepted command starts and when completion
   * is checked.
   */
  datatype TickInputs = TickInputs(
    accY: real,
    now: int,
    fetched: Option<RobotCommand>,
    wallNow: int,
    startedAt: int,
    checkedAt: int)

  function Report(g: Actuator, id: string, status: ReportedStatus): Actuator
  {
    g.(trace := g.trace + [StatusReport(id, status)])
  }

  function FallEventName(f: Fall): string
  {
    match f
    case FellForward => "fall_forward"
    case FellBackward => "fall_backward"
  }

  /**
   * The recovery after a fall.  The controller clears hasActiveCommand before
   * it builds the event, so the event never names an interrupted command;
   * WalkMongoDB.CheckIfFallen, which keeps that order, is proved equal to
   * AfterFallCheck, which uses this function.
   */
  function Recover(g: Actuator, f: Fall): Actuator
  {
    var stopped := StopIfWalking(g);
    stopped.(trace := stopped.trace + RecoveryPages(f) + [FallReported(FallEventName(f), None)])
  }

  /** checkIfFallen. */
  function AfterFallCheck(s: ControllerState, accY: real): ControllerState
  {
    var check := Step(s.counters, accY);
    match check.fall
    case None => s.(counters := check.counters)
    case Some(f) => s.(counters := check.counters, hasActiveCommand := false, act := Recover(s.act, f))
  }

  /** Whether pollForNewCommand takes the fetched record as the new command. */
  predicate Accepts(fetched: Option<RobotCommand>, wallNow: int)
  {
    fetched.Some? && !IsCommandExpired(fetched.value, wallNow)
  }

  /** pollForNewCommand, from the fetch on. */
  function AfterPoll(s: ControllerState, fetched: Option<RobotCommand>, wallNow: int, startedAt: int): ControllerState
  {
    match fetched
    case None => s
    case Some(cmd) =>
      if IsCommandExpired(cmd, wallNow) then s.(act := Report(s.act, cmd.id, Expired))
      else s.(currentCommand := cmd, hasActiveCommand := true, commandStartTime := startedAt,
              act := Report(s.act, cmd.id, Executing))
  }

  /** Polling happens once the interval has passed, and only while no command is active. */
  function AfterPollGate(s: ControllerState, pollInterval: int, inputs: TickInputs): ControllerState
  {
    if inputs.now - s.lastCommandPoll >= pollInterval then
      var polled := if s.hasActiveCommand then s else AfterPoll(s, inputs.fetched, inputs.wallNow, inputs.startedAt);
      polled.(lastCommandPoll := inputs.now)
    else s
  }

  /** The active command is executed, then retired if it has completed. */
  function AfterExecute(s: ControllerState, checkedAt: int): ControllerState
  {
    if !s.hasActiveCommand then s
    else
      var ran := s.(act := Dispatch(s.act, s.currentCommand));
      if IsCommandCompleted(ran.hasActiveCommand, ran.currentCommand, checkedAt - ran.commandStartTime)
      then ran.(act := Report(ran.act, ran.currentCommand.id, Completed), hasActiveCommand := false)
      else ran
  }

  /** One iteration of the run loop, up to the completion check. */
  function AfterTick(s: ControllerState, pollInterval: int, inputs: TickInputs): ControllerState
  {
    AfterExecute(AfterPollGate(AfterFallCheck(s, inputs.accY), pollInterval, inputs), inputs.checkedAt)
  }

  /** A run of ticks, oldest first. */
  function AfterTicks(s: ControllerState, pollInterval: int, ins: seq<TickInputs>): ControllerState
  {
    if ins == [] then s
    else AfterTick(AfterTicks(s, pollInterval, ins[..|ins| - 1]), pollInterval, ins[|ins| - 1])
  }

  /** The accelerometer samples of a run of ticks. */
  function Samples(ins: seq<TickInputs>): (r: seq<real>)
    ensures |r| == |ins|
  {
    if ins == [] then [] else Samples(ins[..|ins| - 1]) + [ins[|ins| - 1].accY]
  }

  /**
   * The fall event a check posts never carries an interrupted command, and a
   * check only appends to the trace.  This holds because Recover posts the
   * event with no command; that the flag is cleared before the event is built
   * is the contract of WalkMongoDB.CheckIfFallen.
   */
  lemma FallEventNamesNoCommand(s: ControllerState, accY: real)
    ensures s.act.trace <= AfterFallCheck(s, accY).act.trace
    ensures forall e :: e in AfterFallCheck(s, accY).act.trace[|s.act.trace|..] && e.FallReported? ==>
              e.interruptedCommand == None
  {
    var check := Step(s.counters, accY);
    if check.fall.Some? {
      var stopped := StopIfWalking(s.act);
      var added := stopped.trace[|s.act.trace|..] + RecoveryPages(check.fall.value)
                   + [FallReported(FallEventName(check.fall.value), None)];
      assert AfterFallCheck(s, accY).act.trace == s.act.trace + added;
    }
  }

  /**
   * A fall clears the active command and stops walking; unless a poll in the
   * same tick accepts a new command, the robot ends the tick idle and stopped.
   */
  lemma TickFallInterrupts(s: ControllerState, pollInterval: int, inputs: TickInputs, f: Fall)
    requires Step(s.counters, inputs.accY).fall == Some(f)
    requires !(inputs.now - s.lastCommandPoll >= pollInterval && Accepts(inputs.fetched, inputs.wallNow))
    ensures var r := AfterTick(s, pollInterval, inputs);
      && !r.hasActiveCommand && !r.act.walking
      && FallReported(FallEventName(f), None) in r.act.trace
      && r.counters == Counters(0, 0)
  {
    var fallen := AfterFallCheck(s, inputs.accY);
    assert FallReported(FallEventName(f), None) in fallen.act.trace;
  }

  /** Without a fall, a running command is never replaced by a poll. */
  lemma TickNeverReplacesRunningCommand(s: ControllerState, pollInterval: int, inputs: TickInputs)
    requires s.hasActiveCommand && Step(s.counters, inputs.accY).fall.None?
    ensures var r := AfterTick(s, pollInterval, inputs);
      r.currentCommand == s.currentCommand && r.commandStartTime == s.commandStartTime
  {
  }

  /** Before the poll interval has passed nothing is polled. */
  lemma TickWaitsForPollInterval(s: ControllerState, pollInterval: int, inputs: TickInputs)
    requires inputs.now - s.lastCommandPoll < pollInterval
    ensures var r := AfterTick(s, pollInterval, inputs);
      && r.currentCommand == s.currentCommand
      && r.commandStartTime == s.commandStartTime
      && r.lastCommandPoll == s.lastCommandPoll
  {
  }

  /**
   * An expired candidate is reported "expired" and nothing else happens: no
   * command becomes active and the previous record stays in currentCommand.
   */
  lemma TickReportsExpiredCandidate(s: ControllerState, pollInterval: int, inputs: TickInputs, cmd: RobotCommand)
    requires !AfterFallCheck(s, inputs.accY).hasActiveCommand
    requires inputs.now - s.lastCommandPoll >= pollInterval
    requires inputs.fetched == Some(cmd) && IsCommandExpired(cmd, inputs.wallNow)
    ensures var r := AfterTick(s, pollInterval, inputs);
      && !r.hasActiveCommand
      && r.currentCommand == s.currentCommand
      && r.act == Report(AfterFallCheck(s, inputs.accY).act, cmd.id, Expired)
      && r.lastCommandPoll == inputs.now
  {
  }

  /**
   * An accepted candidate is reported "executing", becomes the current
   * command, is executed in the same tick, and is retired at once if its
   * duration has already elapsed.
   */
  lemma TickStartsAcceptedCandidate(s: ControllerState, pollInterval: int, inputs: TickInputs, cmd: RobotCommand)
    requires !AfterFallCheck(s, inputs.accY).hasActiveCommand
    requires inputs.now - s.lastCommandPoll >= pollInterval
    requires inputs.fetched == Some(cmd) && !IsCommandExpired(cmd, inputs.wallNow)
    ensures var r := AfterTick(s, pollInterval, inputs);
      var ran := Dispatch(Report(AfterFallCheck(s, inputs.accY).act, cmd.id, Executing), cmd);
      && r.currentCommand == cmd
      && r.commandStartTime == inputs.startedAt
      && r.hasActiveCommand == !IsCommandCompleted(true, cmd, inputs.checkedAt - inputs.startedAt)
      && r.act == (if r.hasActiveCommand then ran else Report(ran, cmd.id, Completed))
  {
  }

  /** Without a fall, an active continuous command stays active. */
  lemma TickKeepsContinuousCommand(s: ControllerState, pollInterval: int, inputs: TickInputs)
    requires s.hasActiveCommand && s.currentCommand.continuous
    requires Step(s.counters, inputs.accY).fall.None?
    ensures AfterTick(s, pollInterval, inputs).hasActiveCommand
    ensures AfterTick(s, pollInterval, inputs).currentCommand == s.currentCommand
  {
    CompletionRules(s.currentCommand, inputs.checkedAt - s.commandStartTime);
  }

  /** Without a fall, a timed command whose duration has elapsed is executed once more and retired. */
  lemma TickCompletesTimedCommand(s: ControllerState, pollInterval: int, inputs: TickInputs)
    requires s.hasActiveCommand && !s.currentCommand.continuous
    requires 0 < s.currentCommand.duration <= inputs.checkedAt - s.commandStartTime
    requires Step(s.counters, inputs.accY).fall.None?
    ensures var r := AfterTick(s, pollInterval, inputs);
      && !r.hasActiveCommand
      && r.act == Report(Dispatch(s.act, s.currentCommand), s.currentCommand.id, Completed)
  {
  }

  /**
   * emergency_stop does not clear the active command: while its duration has
   * not elapsed it stays active, and every tick stops the gait and asks the
   * store again to clear pending commands.
   */
  lemma TickEmergencyStopStaysActive(s: ControllerState, pollInterval: int, inputs: TickInputs)
    requires s.hasActiveCommand && ParseVerb(s.currentCommand.command) == EmergencyStop
    requires Step(s.counters, inputs.accY).fall.None?
    ensures var r := AfterTick(s, pollInterval, inputs);
      && !r.act.walking
      && r.hasActiveCommand == !IsCommandCompleted(true, s.currentCommand, inputs.checkedAt - s.commandStartTime)
      && (r.hasActiveCommand ==> r.act.trace == Dispatch(s.act, s.currentCommand).trace)
      && (r.hasActiveCommand ==> r.act.trace[|r.act.trace| - 1] == ClearPending)
  {
  }

  /** A tick moves the debounce counters exactly as one debounce step on its sample. */
  lemma TickStepsCounters(s: ControllerState, pollInterval: int, inputs: TickInputs)
    ensures AfterTick(s, pollInterval, inputs).counters == Step(s.counters, inputs.accY).counters
  {
  }

  /** A tick keeps the debounce counters Bounded. */
  lemma TickKeepsCountersBounded(s: ControllerState, pollInterval: int, inputs: TickInputs)
    requires Bounded(s.counters)
    ensures Bounded(AfterTick(s, pollInterval, inputs).counters)
  {
    TickStepsCounters(s, pollInterval, inputs);
  }

  /** Over a run of ticks the counters follow the accelerometer samples alone. */
  lemma {:induction false} TicksCountSamples(s: ControllerState, pollInterval: int, ins: seq<TickInputs>)
    ensures AfterTicks(s, pollInterval, ins).counters == Run(s.counters, Samples(ins)).counters
  {
    if ins != [] {
      var n := |ins|;
      var prefix := ins[..n - 1];
      TicksCountSamples(s, pollInterval, prefix);
      TickStepsCounters(AfterTicks(s, pollInterval, prefix), pollInterval, ins[n - 1]);
      assert Samples(ins) == Samples(prefix) + [ins[n - 1].accY];
      assert Samples(ins)[..n - 1] == Samples(prefix);
    }
  }

  /**
   * A continuous command stays the active command over any run of ticks in
   * which the fall detector does not fire.
   */
  lemma {:induction false} TicksKeepContinuousCommand(s: ControllerState, pollInterval: int, ins: seq<TickInputs>)
    requires s.hasActiveCommand && s.currentCommand.continuous
    requires forall k :: 0 < k <= |ins| ==> Run(s.counters, Samples(ins[..k])).fall.None?
    ensures AfterTicks(s, pollInterval, ins).hasActiveCommand
    ensures AfterTicks(s, pollInterval, ins).currentCommand == s.currentCommand
  {
    if ins != [] {
      var n := |ins|;
      var prefix := ins[..n - 1];
      forall k | 0 < k <= |prefix|
        ensures Run(s.counters, Samples(prefix[..k])).fall.None?
      {
        assert prefix[..k] == ins[..k];
      }
      TicksKeepContinuousCommand(s, pollInterval, prefix);
      TicksCountSamples(s, pollInterval, prefix);
      assert ins[..n] == ins;
      assert Samples(ins)[..n - 1] == Samples(prefix);
      TickKeepsContinuousCommand(AfterTicks(s, pollInterval, prefix), pollInterval, ins[n - 1]);
    }
  }

  // ---------------------------------------------------------------------------
  // The controller object

  class WalkMongoDB {
    // the gait manager and the trace of effects
    var isWalking: bool
    var xAmplitude: real
    var aAmplitude: real
    var trace: seq<Effect>
    // the command lifecycle
    var hasActiveCommand: bool
    var currentCommand: RobotCommand
    var commandStartTime: int
    var lastCommandPoll: int
    // checkIfFallen's static counters
    var fup: int
    var fdown: int
    // settings
    var mongoApiUrl: string
    var robotId: string
    var commandPollInterval: int
    /** The exception std::stoi threw out of loadConfig, if any. */
    var configError: Option<StoiError>

    function Act(): Actuator
      reads this
    {
      Actuator(isWalking, xAmplitude, aAmplitude, trace)
    }

    function Snapshot(): ControllerState
      reads this
    {
      ControllerState(Act(), hasActiveCommand, currentCommand, commandStartTime, lastCommandPoll,
                      Counters(fup, fdown))
    }

    function Settings(): Config
      reads this
    {
      Config(mongoApiUrl, robotId, commandPollInterval)
    }

    predicate Valid()
      reads this
    {
      Bounded(Counters(fup, fdown))
    }

    /**
     * The constructor: its own assignments, then loadConfig over the lines of
     * config.ini; `now` is the steady clock it reads.  A std::stoi failure,
     * which the C++ constructor lets escape, is kept in configError.
     */
    constructor (now: int, lines: seq<string>)
      ensures Valid()
      ensures Snapshot() == ControllerState(Actuator(false, 0.0, 0.0, []), false, DEFAULT_COMMAND, 0, now, INITIAL)
      ensures LoadOutcome(Settings(), configError) ==
                LoadLines(Config(DEFAULT_API_URL, DEFAULT_ROBOT_ID, DEFAULT_POLL_INTERVAL), lines)
    {
      isWalking := false;
      xAmplitude := 0.0;
      aAmplitude := 0.0;
      trace := [];
      hasActiveCommand := false;
      currentCommand := DEFAULT_COMMAND;
      commandStartTime := 0;
      commandPollInterval := 500;
      robotId := "robot_001";
      mongoApiUrl := "";
      lastCommandPoll := now;
      fup := 0;
      fdown := 0;
      configError := None;
      new;
      configError := LoadConfig(lines);
    }

    /**
     * loadConfig over the lines of config.ini.  A std::stoi failure stops the
     * loop and is returned (the C++ constructor would throw).
     */
    method LoadConfig(lines: seq<string>) returns (error: Option<StoiError>)
      modifies this`mongoApiUrl, this`robotId, this`commandPollInterval
      ensures LoadOutcome(Settings(), error) ==
                LoadLines(Config(DEFAULT_API_URL, old(robotId), old(commandPollInterval)), lines)
    {
      mongoApiUrl := DEFAULT_API_URL;
      ghost var start := Settings();
      error := None;
      var i := 0;
      while i < |lines|
        invariant 0 <= i <= |lines|
        invariant LoadLines(start, lines) == LoadLines(Settings(), lines[i..])
        invariant error == None
      {
        assert lines[i..][0] == lines[i] && lines[i..][1..] == lines[i + 1..];
        ghost var before := Settings();
        LoadLinesFirst(before, lines[i..]);
        error := LoadConfigLine(lines[i]);
        if error.Some? {
          assert ApplyLine(before, lines[i]).Failure?;
          return;
        }
        i := i + 1;
      }
    }

    /** One iteration of loadConfig's loop. */
    method LoadConfigLine(line: string) returns (error: Option<StoiError>)
      modifies this`mongoApiUrl, this`robotId, this`commandPollInterval
      ensures match ApplyLine(old(Settings()), line)
              case Success(next) => error == None && Settings() == next
              case Failure(e) => error == Some(e) && Settings() == old(Settings())
    {
      error := None;
      if Contains(line, "api_url") {
        var pos := IndexOf(line, '=');
        if pos.Some? {
          var url := line[pos.value + 1..];
          assert ValueAfterEquals(line) == Some(url);
          url := TrimLeft(url);
          url := TrimRight(url);
          mongoApiUrl := url;
        }
      } else if Contains(line, "robot_id") {
        var pos := IndexOf(line, '=');
        if pos.Some? {
          var id := line[pos.value + 1..];
          assert ValueAfterEquals(line) == Some(id);
          id := TrimLeft(id);
          id := TrimRight(id);
          robotId := id;
        }
      } else if Contains(line, "poll_interval") {
        var pos := IndexOf(line, '=');
        if pos.Some? {
          var intervalStr := line[pos.value + 1..];
          assert ValueAfterEquals(line) == Some(intervalStr);
          intervalStr := TrimLeft(intervalStr);
          var parsed := Stoi(intervalStr);
          if parsed.Failure? {
            return Some(parsed.error);
          }
          commandPollInterval := parsed.value;
        }
      }
    }

    method StartWalkingIfIdle()
      modifies this`isWalking, this`trace
      ensures Act() == StartIfIdle(old(Act()))
    {
      if !isWalking {
        trace := trace + [GaitStart];
        isWalking := true;
        trace := trace + [Wait(GAIT_SETTLE_MS)];
      }
    }

    method ExecuteWalkForward(speed: real)
      modifies this`isWalking, this`trace, this`xAmplitude, this`aAmplitude
      ensures Act() == AfterWalkForward(old(Act()), speed)
    {
      StartWalkingIfIdle();
      xAmplitude := Clamp(speed, 0.0, 1.0);
      aAmplitude := 0.0;
    }

    method ExecuteWalkBackward(speed: real)
      modifies this`isWalking, this`trace, this`xAmplitude, this`aAmplitude
      ensures Act() == AfterWalkBackward(old(Act()), speed)
    {
      StartWalkingIfIdle();
      xAmplitude := -Clamp(speed, 0.0, 1.0);
      aAmplitude := 0.0;
    }

    method ExecuteTurnLeft(speed: real)
      modifies this`isWalking, this`trace, this`xAmplitude, this`aAmplitude
      ensures Act() == AfterTurnLeft(old(Act()), speed)
    {
      StartWalkingIfIdle();
      xAmplitude := 0.0;
      aAmplitude := Clamp(speed, 0.0, 1.0);
    }

    method ExecuteTurnRight(speed: real)
      modifies this`isWalking, this`trace, this`xAmplitude, this`aAmplitude
      ensures Act() == AfterTurnRight(old(Act()), speed)
    {
      StartWalkingIfIdle();
      xAmplitude := 0.0;
      aAmplitude := -Clamp(speed, 0.0, 1.0);
    }

    method ExecuteStop()
      modifies this`isWalking, this`trace
      ensures Act() == StopIfWalking(old(Act()))
    {
      if isWalking {
        trace := trace + [GaitStop];
        isWalking := false;
        trace := trace + [Wait(GAIT_SETTLE_MS)];
      }
    }

    method ExecuteMotion(motionPage: int)
      modifies this`isWalking, this`trace
      ensures Act() == AfterMotion(old(Act()), motionPage)
    {
      if isWalking {
        ExecuteStop();
      }
      trace := trace + [PlayPage(motionPage)];
      trace := trace + [Wait(MOTION_WAIT_MS)];
    }

    method ClearPendingCommands()
      modifies this`trace
      ensures trace == old(trace) + [ClearPending]
    {
      trace := trace + [ClearPending];
    }

    method UpdateCommandStatus(commandId: string, status: ReportedStatus)
      modifies this`trace
      ensures trace == old(trace) + [StatusReport(commandId, status)]
    {
      trace := trace + [StatusReport(commandId, status)];
    }

    method ExecuteCommand(cmd: RobotCommand)
      modifies this`isWalking, this`trace, this`xAmplitude, this`aAmplitude
      ensures Act() == Dispatch(old(Act()), cmd)
    {
      match ParseVerb(cmd.command)
      case WalkForward =>
        ExecuteWalkForward(cmd.value);
      case WalkBackward =>
        ExecuteWalkBackward(cmd.value);
      case TurnLeft =>
        ExecuteTurnLeft(cmd.value);
      case TurnRight =>
        ExecuteTurnRight(cmd.value);
      case Stop =>
        ExecuteStop();
      case Motion =>
        ExecuteMotion(TruncateToInt(cmd.value));
      case WalkDirection =>
        StartWalkingIfIdle();
        xAmplitude := Clamp(cmd.value, -1.0, 1.0);
        aAmplitude := Clamp(cmd.value2, -1.0, 1.0);
      case SetSpeed =>
        if isWalking {
          var currentX := xAmplitude;
          var currentA := aAmplitude;
          if currentX != 0.0 {
            xAmplitude := if currentX > 0.0 then cmd.value else -cmd.value;
          }
          if currentA != 0.0 {
            aAmplitude := if currentA > 0.0 then cmd.value else -cmd.value;
          }
        }
      case EmergencyStop =>
        ExecuteStop();
        ClearPendingCommands();
      case Unknown =>
    }

    /**
     * pollForNewCommand from the moment the store's reply is in: `fetched`
     * is its first record, `wallNow` the wall clock for the expiry check and
     * `startedAt` the steady clock recorded as the start time.
     */
    method PollForNewCommand(fetched: Option<RobotCommand>, wallNow: int, startedAt: int) returns (accepted: bool)
      modifies this`currentCommand, this`hasActiveCommand, this`commandStartTime, this`trace
      ensures accepted == Accepts(fetched, wallNow)
      ensures Snapshot() == AfterPoll(old(Snapshot()), fetched, wallNow, startedAt)
    {
      if fetched.None? {
        return false;
      }
      var cmd := fetched.value;
      if IsCommandExpired(cmd, wallNow) {
        UpdateCommandStatus(cmd.id, Expired);
        return false;
      }
      currentCommand := cmd;
      hasActiveCommand := true;
      commandStartTime := startedAt;
      UpdateCommandStatus(currentCommand.id, Executing);
      return true;
    }

    method CheckIfFallen(accY: real)
      requires Valid()
      modifies this`fup, this`fdown, this`hasActiveCommand, this`isWalking, this`trace
      ensures Valid()
      ensures Snapshot() == AfterFallCheck(old(Snapshot()), accY)
    {
      if accY < REST_READING - ACC_TOLERANCE {
        fup := fup + 1;
      } else {
        fup := 0;
      }
      if accY > REST_READING + ACC_TOLERANCE {
        fdown := fdown + 1;
      } else {
        fdown := 0;
      }
      if fup > ACC_STEP {
        hasActiveCommand := false;
        ExecuteStop();
        trace := trace + [PlayPage(FORWARD_GET_UP_PAGE), PlayPage(INIT_POSE_PAGE)];
        fup := 0;
        var interrupted := if hasActiveCommand then Some(currentCommand.command) else None;
        trace := trace + [FallReported("fall_forward", interrupted)];
      } else if fdown > ACC_STEP {
        hasActiveCommand := false;
        ExecuteStop();
        trace := trace + [PlayPage(BACKWARD_GET_UP_PAGE), PlayPage(INIT_POSE_PAGE)];
        fdown := 0;
        var interrupted := if hasActiveCommand then Some(currentCommand.command) else None;
        trace := trace + [FallReported("fall_backward", interrupted)];
      }
    }

    /** One iteration of run's loop: fall check, gated poll, execution and completion. */
    method Tick(inputs: TickInputs)
      requires Valid()
      modifies this`isWalking, this`xAmplitude, this`aAmplitude, this`trace, this`hasActiveCommand,
               this`currentCommand, this`commandStartTime, this`lastCommandPoll, this`fup, this`fdown
      ensures Valid()
      ensures Snapshot() == AfterTick(old(Snapshot()), commandPollInterval, inputs)
    {
      CheckIfFallen(inputs.accY);
      PollIfDue(inputs);
      RunActiveCommand(inputs.checkedAt);
    }

    /** The poll gate of run's loop. */
    method PollIfDue(inputs: TickInputs)
      modifies this`currentCommand, this`hasActiveCommand, this`commandStartTime, this`trace, this`lastCommandPoll
      ensures Snapshot() == AfterPollGate(old(Snapshot()), commandPollInterval, inputs)
    {
      var timeSinceLastPoll := inputs.now - lastCommandPoll;
      if timeSinceLastPoll >= commandPollInterval {
        if !hasActiveCommand {
          var accepted := PollForNewCommand(inputs.fetched, inputs.wallNow, inputs.startedAt);
        }
        lastCommandPoll := inputs.now;
      }
    }

    /** The execution and completion check of run's loop; `checkedAt` is the steady clock. */
    method RunActiveCommand(checkedAt: int)
      modifies this`isWalking, this`xAmplitude, this`aAmplitude, this`trace, this`hasActiveCommand
      ensures Snapshot() == AfterExecute(old(Snapshot()), checkedAt)
    {
      if hasActiveCommand {
        ExecuteCommand(currentCommand);
        if IsCommandCompleted(hasActiveCommand, currentCommand, checkedAt - commandStartTime) {
          UpdateCommandStatus(currentCommand.id, Completed);
          hasActiveCommand := false;
        }
      }
    }
  }
}
