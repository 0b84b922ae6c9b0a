/**
 * The command record the MongoDB walk controller fetches from its remote
 * command store, and the pure decisions it takes about one: which verb it
 * names, whether it has expired, whether it has run long enough, and the
 * clamps and casts applied to its values.
 *
 * Times are integer milliseconds; the controller reads its clocks and passes
 * the readings in.  Doubles are modelled as reals.
 */
module Commands {

  /** One record of the remote command store (the C++ RobotCommand). */
  datatype RobotCommand = RobotCommand(
    id: string,
    robotId: string,
    command: string,    // the verb, compared as a string
    value: real,
    value2: real,
    duration: int,      // milliseconds
    priority: string,
    status: string,
    timestamp: int,
    expiresAt: int,     // wall-clock milliseconds; 0 means "never expires"
    continuous: bool)

  /** The record that a JSON object lacking every field decodes to. */
  const DEFAULT_COMMAND: RobotCommand :=
    RobotCommand("unknown", "", "stop", 0.0, 0.0, 1000, "normal", "pending", 0, 0, false)

  /** The verbs executeCommand recognises; anything else is Unknown. */
  datatype Verb =
    | WalkForward | WalkBackward | TurnLeft | TurnRight | Stop | Motion
    | WalkDirection | SetSpeed | EmergencyStop | Unknown

  /** The string that selects a verb (Unknown is represented by ""). */
  function VerbName(v: Verb): string
  {
    match v
    case WalkForward => "walk_forward"
    case WalkBackward => "walk_backward"
    case TurnLeft => "turn_left"
    case TurnRight => "turn_right"
    case Stop => "stop"
    case Motion => "motion"
    case WalkDirection => "walk_direction"
    case SetSpeed => "set_speed"
    case EmergencyStop => "emergency_stop"
    case Unknown => ""
  }

  /** The if-chain of executeCommand: exact, case-sensitive string matches. */
  function ParseVerb(s: string): (v: Verb)
    ensures v == Unknown || VerbName(v) == s
  {
    if s == "walk_forward" then WalkForward
    else if s == "walk_backward" then WalkBackward
    else if s == "turn_left" then TurnLeft
    else if s == "turn_right" then TurnRight
    else if s == "stop" then Stop
    else if s == "motion" then Motion
    else if s == "walk_direction" then WalkDirection
    else if s == "set_speed" then SetSpeed
    else if s == "emergency_stop" then EmergencyStop
    else Unknown
  }

  /** Every verb is selected by its own name and by no other string. */
  lemma ParseVerbInvertsVerbName(v: Verb)
    ensures ParseVerb(VerbName(v)) == v
  {
  }

  /** std::min/std::max clamping of a value into [lo, hi]. */
  function Clamp(v: real, lo: real, hi: real): (r: real)
    requires lo <= hi
    ensures lo <= r <= hi
    ensures lo <= v <= hi ==> r == v
    ensures v < lo ==> r == lo
    ensures hi < v ==> r == hi
  {
    if v < lo then lo else if hi < v then hi else v
  }

  /** static_cast<int> of a double: rounds toward zero. */
  function TruncateToInt(v: real): (n: int)
    ensures 0.0 <= v ==> n as real <= v < n as real + 1.0
    ensures v < 0.0 ==> n as real - 1.0 < v <= n as real
  {
    if 0.0 <= v then v.Floor else -((-v).Floor)
  }

  /** isCommandExpired, with the wall clock reading `now` as a parameter. */
  predicate IsCommandExpired(cmd: RobotCommand, now: int)
  {
    if cmd.expiresAt == 0 then false else now > cmd.expiresAt
  }

  /**
   * isCommandCompleted, with the milliseconds elapsed since the command
   * started as a parameter.
   */
  predicate IsCommandCompleted(hasActiveCommand: bool, cmd: RobotCommand, elapsed: int)
  {
    if !hasActiveCommand then true
    else if cmd.continuous then false
    else if cmd.duration > 0 then elapsed >= cmd.duration
    else false
  }

  /** A zero expiry never expires; otherwise expiry is strictly after expiresAt. */
  lemma ExpiryRules(cmd: RobotCommand, now: int)
    ensures cmd.expiresAt == 0 ==> !IsCommandExpired(cmd, now)
    ensures cmd.expiresAt != 0 ==> (IsCommandExpired(cmd, now) <==> now > cmd.expiresAt)
    ensures !IsCommandExpired(cmd, cmd.expiresAt)
  {
  }

  /** Once expired, a command stays expired as the clock advances. */
  lemma ExpiryIsMonotone(cmd: RobotCommand, now: int, later: int)
    requires now <= later && IsCommandExpired(cmd, now)
    ensures IsCommandExpired(cmd, later)
  {
  }

  /**
   * No active command counts as completed; a continuous command never
   * completes; a timed command completes exactly when its duration has
   * elapsed; a command with a non-positive duration never completes.
   */
  lemma CompletionRules(cmd: RobotCommand, elapsed: int)
    ensures IsCommandCompleted(false, cmd, elapsed)
    ensures cmd.continuous ==> !IsCommandCompleted(true, cmd, elapsed)
    ensures !cmd.continuous && cmd.duration > 0 ==>
              (IsCommandCompleted(true, cmd, elapsed) <==> elapsed >= cmd.duration)
    ensures cmd.duration <= 0 ==> !IsCommandCompleted(true, cmd, elapsed)
  {
  }

  /** Completion, once reached, persists as elapsed time grows. */
  lemma CompletionIsMonotone(active: bool, cmd: RobotCommand, elapsed: int, later: int)
    requires elapsed <= later && IsCommandCompleted(active, cmd, elapsed)
    ensures IsCommandCompleted(active, cmd, later)
  {
  }
}
