/**
 * What the controllers do to the outside world, recorded in order: gait
 * manager start and stop, simulator waits, motion-manager pages, and the
 * requests the MongoDB controller sends to its command store.  The gait
 * manager's two amplitudes and the walking flag travel with the record.
 */
module Effects {
  import opened Basics
  import opened FallDebounce

  /** The statuses the controller reports for a command. */
  datatype ReportedStatus = Executing | Expired | Completed

  datatype Effect =
    | GaitStart                    // mGaitManager->start()
    | GaitStop                     // mGaitManager->stop()
    | Wait(ms: int)                // wait(ms): simulator steps
    | PlayPage(page: int)          // mMotionManager->playPage(page)
    | StatusReport(commandId: string, status: ReportedStatus)  // PUT .../commands/<id>/status
    | ClearPending                 // POST .../commands/clear
    | FallReported(event: string, interruptedCommand: Option<string>)  // POST .../events

  /**
   * The walking flag, the gait manager's forward (X) and turn (A) amplitudes,
   * and the effects issued so far.
   */
  datatype Actuator = Actuator(walking: bool, x: real, a: real, trace: seq<Effect>)

  const INIT_POSE_PAGE: int := 9
  const FORWARD_GET_UP_PAGE: int := 10
  const BACKWARD_GET_UP_PAGE: int := 11
  /** The pause after the gait manager starts or stops. */
  const GAIT_SETTLE_MS: int := 200

  /** `if (!isWalking) { start(); isWalking = true; wait(200); }` */
  function StartIfIdle(g: Actuator): Actuator
  {
    if g.walking then g
    else g.(walking := true, trace := g.trace + [GaitStart, Wait(GAIT_SETTLE_MS)])
  }

  /** `if (isWalking) { stop(); isWalking = false; wait(200); }` */
  function StopIfWalking(g: Actuator): Actuator
  {
    if g.walking then g.(walking := false, trace := g.trace + [GaitStop, Wait(GAIT_SETTLE_MS)])
    else g
  }

  /** The get-up page for the direction of the fall, then the initial pose. */
  function RecoveryPages(f: Fall): seq<Effect>
  {
    match f
    case FellForward => [PlayPage(FORWARD_GET_UP_PAGE), PlayPage(INIT_POSE_PAGE)]
    case FellBackward => [PlayPage(BACKWARD_GET_UP_PAGE), PlayPage(INIT_POSE_PAGE)]
  }

  /**
   * Starting and stopping are idempotent, touch neither amplitude, and only
   * append to the trace; stopping a started gait issues exactly stop and wait.
   */
  lemma StartStopRules(g: Actuator)
    ensures StartIfIdle(g).walking && !StopIfWalking(g).walking
    ensures StartIfIdle(StartIfIdle(g)) == StartIfIdle(g)
    ensures StopIfWalking(StopIfWalking(g)) == StopIfWalking(g)
    ensures StartIfIdle(g).x == g.x && StartIfIdle(g).a == g.a
    ensures StopIfWalking(g).x == g.x && StopIfWalking(g).a == g.a
    ensures g.trace <= StartIfIdle(g).trace && g.trace <= StopIfWalking(g).trace
    ensures !g.walking ==>
              StopIfWalking(StartIfIdle(g)).trace == g.trace + [GaitStart, Wait(GAIT_SETTLE_MS), GaitStop, Wait(GAIT_SETTLE_MS)]
  {
  }
}
