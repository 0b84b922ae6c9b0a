/**
 * The keyboard-driven walk controller (Walk): each tick checks for a fall,
 * resets both gait amplitudes to zero and then applies the keys pressed
 * since the last tick, in order.  The space bar toggles walking; the arrow
 * keys set one amplitude each.
 */
module KeyboardWalk {
  import opened Basics
  import opened FallDebounce
  import opened Effects

  /** The keys the controller reacts to; every other key code is ignored. */
  datatype Key = Space | Up | Down | Right | Left | Other(code: int)

  predicate IsVertical(k: Key)
  {
    k == Up || k == Down
  }

  predicate IsHorizontal(k: Key)
  {
    k == Right || k == Left
  }

  /** The space bar: stop a walking gait, start an idle one. */
  function Toggle(g: Actuator): Actuator
  {
    if g.walking then StopIfWalking(g) else StartIfIdle(g)
  }

  function ApplyKey(g: Actuator, k: Key): Actuator
  {
    match k
    case Space => Toggle(g)
    case Up => g.(x := 1.0)
    case Down => g.(x := -1.0)
    case Right => g.(a := -0.5)
    case Left => g.(a := 0.5)
    case Other(_) => g
  }

  /** The keys of one tick, in the order getKey returns them. */
  function ApplyKeys(g: Actuator, keys: seq<Key>): Actuator
  {
    if keys == [] then g else ApplyKey(ApplyKeys(g, keys[..|keys| - 1]), keys[|keys| - 1])
  }

  /** The number of space-bar presses among `keys`. */
  function SpaceCount(keys: seq<Key>): (n: nat)
    ensures n <= |keys|
  {
    if keys == [] then 0 else SpaceCount(keys[..|keys| - 1]) + (if keys[|keys| - 1] == Space then 1 else 0)
  }

  /** Space flips the walking flag and leaves the amplitudes alone; two presses restore the flag. */
  lemma SpaceToggles(g: Actuator)
    ensures ApplyKey(g, Space).walking == !g.walking
    ensures ApplyKey(g, Space).x == g.x && ApplyKey(g, Space).a == g.a
    ensures ApplyKey(ApplyKey(g, Space), Space).walking == g.walking
    ensures ApplyKey(ApplyKey(g, Space), Space).trace ==
              g.trace + (if g.walking then [GaitStop, Wait(GAIT_SETTLE_MS), GaitStart, Wait(GAIT_SETTLE_MS)]
                         else [GaitStart, Wait(GAIT_SETTLE_MS), GaitStop, Wait(GAIT_SETTLE_MS)])
  {
  }

  /** After a run of keys the gait walks iff it did before an even number of space presses. */
  lemma {:induction false} KeysToggleParity(g: Actuator, keys: seq<Key>)
    ensures ApplyKeys(g, keys).walking == (g.walking != (SpaceCount(keys) % 2 == 1))
  {
    if keys != [] {
      KeysToggleParity(g, keys[..|keys| - 1]);
    }
  }

  /** Keys only append to the trace. */
  lemma {:induction false} KeysExtendTrace(g: Actuator, keys: seq<Key>)
    ensures g.trace <= ApplyKeys(g, keys).trace
  {
    if keys != [] {
      KeysExtendTrace(g, keys[..|keys| - 1]);
    }
  }

  /** The last Up or Down key of a tick decides X. */
  lemma {:induction false} LastVerticalKeyWins(g: Actuator, keys: seq<Key>, i: nat)
    requires i < |keys| && IsVertical(keys[i])
    requires forall j :: i < j < |keys| ==> !IsVertical(keys[j])
    ensures ApplyKeys(g, keys).x == (if keys[i] == Up then 1.0 else -1.0)
  {
    var n := |keys|;
    if i < n - 1 {
      var prefix := keys[..n - 1];
      assert prefix[i] == keys[i];
      LastVerticalKeyWins(g, prefix, i);
    }
  }

  /** The last Left or Right key of a tick decides A. */
  lemma {:induction false} LastHorizontalKeyWins(g: Actuator, keys: seq<Key>, i: nat)
    requires i < |keys| && IsHorizontal(keys[i])
    requires forall j :: i < j < |keys| ==> !IsHorizontal(keys[j])
    ensures ApplyKeys(g, keys).a == (if keys[i] == Left then 0.5 else -0.5)
  {
    var n := |keys|;
    if i < n - 1 {
      var prefix := keys[..n - 1];
      assert prefix[i] == keys[i];
      LastHorizontalKeyWins(g, prefix, i);
    }
  }

  /** From bounded amplitudes, keys keep X in [-1, 1] and A in [-0.5, 0.5]. */
  lemma {:induction false} KeysKeepAmplitudesBounded(g: Actuator, keys: seq<Key>)
    requires -1.0 <= g.x <= 1.0 && -0.5 <= g.a <= 0.5
    ensures -1.0 <= ApplyKeys(g, keys).x <= 1.0
    ensures -0.5 <= ApplyKeys(g, keys).a <= 0.5
  {
    if keys != [] {
      KeysKeepAmplitudesBounded(g, keys[..|keys| - 1]);
    }
  }

  // ---------------------------------------------------------------------------
  // One tick

  datatype WalkState = WalkState(act: Actuator, counters: Counters)

  /**
   * checkIfFallen: on a fall the get-up page and the initial pose are played;
   * unlike the MongoDB controller, the gait is not stopped first.
   */
  function AfterFallCheck(s: WalkState, accY: real): WalkState
  {
    var check := Step(s.counters, accY);
    match check.fall
    case None => s.(counters := check.counters)
    case Some(f) => s.(counters := check.counters, act := s.act.(trace := s.act.trace + RecoveryPages(f)))
  }

  /** One iteration of run's loop, before the gait manager steps. */
  function AfterTick(s: WalkState, accY: real, keys: seq<Key>): WalkState
  {
    var checked := AfterFallCheck(s, accY);
    checked.(act := ApplyKeys(checked.act.(x := 0.0, a := 0.0), keys))
  }

  /** A fall check never changes the walking flag or the amplitudes. */
  lemma FallCheckKeepsGait(s: WalkState, accY: real)
    ensures AfterFallCheck(s, accY).act.walking == s.act.walking
    ensures AfterFallCheck(s, accY).act.x == s.act.x && AfterFallCheck(s, accY).act.a == s.act.a
    ensures Step(s.counters, accY).fall.Some? <==> AfterFallCheck(s, accY).act.trace != s.act.trace
  {
  }

  /**
   * Both amplitudes are reset every tick: without arrow keys they are zero
   * at the end of it, and whatever the keys they stay bounded.
   */
  lemma TickAmplitudes(s: WalkState, accY: real, keys: seq<Key>)
    ensures -1.0 <= AfterTick(s, accY, keys).act.x <= 1.0
    ensures -0.5 <= AfterTick(s, accY, keys).act.a <= 0.5
    ensures (forall i :: 0 <= i < |keys| ==> !IsVertical(keys[i])) ==> AfterTick(s, accY, keys).act.x == 0.0
    ensures (forall i :: 0 <= i < |keys| ==> !IsHorizontal(keys[i])) ==> AfterTick(s, accY, keys).act.a == 0.0
  {
    var reset := AfterFallCheck(s, accY).act.(x := 0.0, a := 0.0);
    KeysKeepAmplitudesBounded(reset, keys);
    if forall i :: 0 <= i < |keys| ==> !IsVertical(keys[i]) {
      KeysKeepX(reset, keys);
    }
    if forall i :: 0 <= i < |keys| ==> !IsHorizontal(keys[i]) {
      KeysKeepA(reset, keys);
    }
  }

  /** Keys other than Up and Down leave X alone. */
  lemma {:induction false} KeysKeepX(g: Actuator, keys: seq<Key>)
    requires forall i :: 0 <= i < |keys| ==> !IsVertical(keys[i])
    ensures ApplyKeys(g, keys).x == g.x
  {
    if keys != [] {
      KeysKeepX(g, keys[..|keys| - 1]);
    }
  }

  /** Keys other than Left and Right leave A alone. */
  lemma {:induction false} KeysKeepA(g: Actuator, keys: seq<Key>)
    requires forall i :: 0 <= i < |keys| ==> !IsHorizontal(keys[i])
    ensures ApplyKeys(g, keys).a == g.a
  {
    if keys != [] {
      KeysKeepA(g, keys[..|keys| - 1]);
    }
  }

  /** A tick keeps the counters Bounded and walks iff an even number of spaces was pressed from walking. */
  lemma TickRules(s: WalkState, accY: real, keys: seq<Key>)
    requires Bounded(s.counters)
    ensures Bounded(AfterTick(s, accY, keys).counters)
    ensures AfterTick(s, accY, keys).act.walking == (s.act.walking != (SpaceCount(keys) % 2 == 1))
  {
    KeysToggleParity(AfterFallCheck(s, accY).act.(x := 0.0, a := 0.0), keys);
  }

  // ---------------------------------------------------------------------------
  // The controller object

  class Walk {
    var isWalking: bool
    var xAmplitude: real
    var aAmplitude: real
    var trace: seq<Effect>
    // checkIfFallen's static counters
    var fup: int
    var fdown: int

    function Act(): Actuator
      reads this
    {
      Actuator(isWalking, xAmplitude, aAmplitude, trace)
    }

    function Snapshot(): WalkState
      reads this
    {
      WalkState(Act(), Counters(fup, fdown))
    }

    predicate Valid()
      reads this
    {
      Bounded(Counters(fup, fdown))
    }

    /** The state run starts its loop from, once the initial pose has been played. */
    constructor ()
      ensures Valid()
      ensures Snapshot() == WalkState(Actuator(false, 0.0, 0.0, [PlayPage(INIT_POSE_PAGE), Wait(GAIT_SETTLE_MS)]), INITIAL)
    {
      isWalking := false;
      xAmplitude := 0.0;
      aAmplitude := 0.0;
      trace := [PlayPage(INIT_POSE_PAGE), Wait(GAIT_SETTLE_MS)];
      fup := 0;
      fdown := 0;
    }

    method CheckIfFallen(accY: real)
      requires Valid()
      modifies this`fup, this`fdown, this`trace
      ensures Valid()
      ensures Snapshot() == AfterFallCheck(old(Snapshot()), accY)
    {
      if accY < REST_READING - ACC_TOLERANCE {
        fup := fup + 1;
      } else {
        fup := 0;
      }
      if accY > REST_READING + ACC_TOLERANCE {
        fdown := fdown + 1;
      } else {
        fdown := 0;
      }
      if fup > ACC_STEP {
        trace := trace + [PlayPage(FORWARD_GET_UP_PAGE)];
        trace := trace + [PlayPage(INIT_POSE_PAGE)];
        fup := 0;
      } else if fdown > ACC_STEP {
        trace := trace + [PlayPage(BACKWARD_GET_UP_PAGE)];
        trace := trace + [PlayPage(INIT_POSE_PAGE)];
        fdown := 0;
      }
    }

    /** One pass of the switch in run's inner loop. */
    method HandleKey(key: Key)
      modifies this`isWalking, this`xAmplitude, this`aAmplitude, this`trace
      ensures Act() == ApplyKey(old(Act()), key)
    {
      match key
      case Space =>
        if isWalking {
          trace := trace + [GaitStop];
          isWalking := false;
          trace := trace + [Wait(GAIT_SETTLE_MS)];
        } else {
          trace := trace + [GaitStart];
          isWalking := true;
          trace := trace + [Wait(GAIT_SETTLE_MS)];
        }
      case Up =>
        xAmplitude := 1.0;
      case Down =>
        xAmplitude := -1.0;
      case Right =>
        aAmplitude := -0.5;
      case Left =>
        aAmplitude := 0.5;
      case Other(_) =>
    }

    /** One iteration of run's loop; `keys` are the keys getKey returns this tick. */
    method Tick(accY: real, keys: seq<Key>)
      requires Valid()
      modifies this`isWalking, this`xAmplitude, this`aAmplitude, this`trace, this`fup, this`fdown
      ensures Valid()
      ensures Snapshot() == AfterTick(old(Snapshot()), accY, keys)
    {
      CheckIfFallen(accY);
      xAmplitude := 0.0;
      aAmplitude := 0.0;
      ghost var start := Act();
      var i := 0;
      while i < |keys|
        invariant 0 <= i <= |keys|
        invariant Act() == ApplyKeys(start, keys[..i])
        invariant Valid() && Snapshot().counters == old(AfterFallCheck(Snapshot(), accY)).counters
      {
        HandleKey(keys[i]);
        assert keys[..i + 1][..i] == keys[..i];
        i := i + 1;
      }
      assert keys[..|keys|] == keys;
    }
  }
}
