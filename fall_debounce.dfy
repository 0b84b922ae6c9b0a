/**
 * The fall detector that both walk controllers run at the top of every tick
 * (checkIfFallen): two debounce counters over accelerometer axis 1.  `fup`
 * counts consecutive samples below the rest reading minus the tolerance,
 * `fdown` consecutive samples above the rest reading plus the tolerance, and
 * a counter that exceeds the step threshold signals a fall and is reset.
 *
 * Both controllers use the same constants and the same counting; what they
 * do about a fall differs and is modelled beside each controller.
 */
module FallDebounce {
  import opened Basics

  const REST_READING: real := 512.0
  const ACC_TOLERANCE: real := 80.0
  /** A counter must exceed this many samples before a fall is signalled. */
  const ACC_STEP: int := 100
  /** Consecutive out-of-band samples it takes to exceed ACC_STEP. */
  const TRIGGER_RUN: int := ACC_STEP + 1

  datatype Fall = FellForward | FellBackward

  /** Whether one sample is outside the tolerance band in the given direction. */
  predicate Leans(sample: real, dir: Fall)
  {
    match dir
    case FellForward => sample < REST_READING - ACC_TOLERANCE
    case FellBackward => sample > REST_READING + ACC_TOLERANCE
  }

  datatype Counters = Counters(fup: int, fdown: int)

  /** The outcome of one check: the new counters and the fall it signalled, if any. */
  datatype Check = Check(counters: Counters, fall: Option<Fall>)

  const INITIAL: Counters := Counters(0, 0)

  /** The counters' invariant: both in [0, ACC_STEP] and at most one non-zero. */
  predicate Bounded(c: Counters)
  {
    && 0 <= c.fup <= ACC_STEP
    && 0 <= c.fdown <= ACC_STEP
    && (c.fup == 0 || c.fdown == 0)
  }

  /** One call of checkIfFallen on the counters: count, then act on a fall. */
  function Step(c: Counters, sample: real): (r: Check)
    ensures Leans(sample, FellForward) && r.fall != Some(FellForward) ==> r.counters.fup == c.fup + 1
    ensures !Leans(sample, FellForward) ==> r.counters.fup == 0
    ensures Leans(sample, FellBackward) && r.fall != Some(FellBackward) ==> r.counters.fdown == c.fdown + 1
    ensures !Leans(sample, FellBackward) ==> r.counters.fdown == 0
    ensures r.fall == Some(FellForward) <==> Leans(sample, FellForward) && c.fup + 1 > ACC_STEP
    ensures r.fall == Some(FellBackward) <==> Leans(sample, FellBackward) && c.fdown + 1 > ACC_STEP
    ensures r.fall.Some? ==> (r.counters.fup == 0 && r.counters.fdown == 0)
    ensures c.fup >= 0 && c.fdown >= 0 ==> Bounded(r.counters)
  {
    var fup := if Leans(sample, FellForward) then c.fup + 1 else 0;
    var fdown := if Leans(sample, FellBackward) then c.fdown + 1 else 0;
    if fup > ACC_STEP then Check(Counters(0, fdown), Some(FellForward))
    else if fdown > ACC_STEP then Check(Counters(fup, 0), Some(FellBackward))
    else Check(Counters(fup, fdown), None)
  }

  /** The counter of one direction. */
  function CounterOf(c: Counters, dir: Fall): int
  {
    match dir
    case FellForward => c.fup
    case FellBackward => c.fdown
  }

  /** Length of the longest suffix of `samples` that leans in direction `dir`. */
  function TrailingRun(samples: seq<real>, dir: Fall): (n: nat)
    ensures n <= |samples|
    ensures forall i :: |samples| - n <= i < |samples| ==> Leans(samples[i], dir)
    ensures n < |samples| ==> !Leans(samples[|samples| - 1 - n], dir)
  {
    if samples == [] || !Leans(samples[|samples| - 1], dir) then 0
    else TrailingRun(samples[..|samples| - 1], dir) + 1
  }

  /** The checks run over a sequence of samples, from the given counters. */
  function Run(start: Counters, samples: seq<real>): Check
  {
    if samples == [] then Check(start, None)
    else Step(Run(start, samples[..|samples| - 1]).counters, samples[|samples| - 1])
  }

  lemma ModSuccessor(t: nat)
    ensures (t + 1) % TRIGGER_RUN == if t % TRIGGER_RUN == ACC_STEP then 0 else t % TRIGGER_RUN + 1
  {
  }

  /**
   * After any sequence of samples, each counter equals the length of the
   * current run of out-of-band samples in its direction, modulo TRIGGER_RUN,
   * and the last sample signals a fall exactly when that run is a non-zero
   * multiple of TRIGGER_RUN.
   */
  lemma {:induction false} RunCountsTrailingRun(samples: seq<real>, dir: Fall)
    ensures CounterOf(Run(INITIAL, samples).counters, dir) == TrailingRun(samples, dir) % TRIGGER_RUN
    ensures Run(INITIAL, samples).fall == Some(dir) <==>
              TrailingRun(samples, dir) > 0 && TrailingRun(samples, dir) % TRIGGER_RUN == 0
  {
    if samples != [] {
      var prefix := samples[..|samples| - 1];
      RunCountsTrailingRun(prefix, dir);
      ModSuccessor(TrailingRun(prefix, dir));
    }
  }

  /** A fall is only ever signalled after TRIGGER_RUN consecutive leaning samples. */
  lemma FallNeedsFullRun(samples: seq<real>, dir: Fall)
    requires Run(INITIAL, samples).fall == Some(dir)
    ensures |samples| >= TRIGGER_RUN
    ensures forall i :: |samples| - TRIGGER_RUN <= i < |samples| ==> Leans(samples[i], dir)
  {
    RunCountsTrailingRun(samples, dir);
  }

  /** The TRIGGER_RUN-th consecutive leaning sample signals the fall. */
  lemma FallAfterFullRun(samples: seq<real>, dir: Fall)
    requires TrailingRun(samples, dir) == TRIGGER_RUN
    ensures Run(INITIAL, samples).fall == Some(dir)
  {
    RunCountsTrailingRun(samples, dir);
  }

  /** From Bounded counters (the initial ones among them), every reachable pair is Bounded. */
  lemma {:induction false} RunIsBounded(start: Counters, samples: seq<real>)
    requires Bounded(start)
    ensures Bounded(Run(start, samples).counters)
  {
    if samples != [] {
      RunIsBounded(start, samples[..|samples| - 1]);
    }
  }
}
