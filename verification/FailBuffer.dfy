/** The failure window of one recursor: the last FAIL_HISTORY_LENGTH outcomes and their failures. */
module FailWindow {
  import opened Sums

  const FAIL_HISTORY_LENGTH: nat := 25
  const FAIL_HISTORY_THRESHOLD: nat := 5

  ghost function Bit(failed: bool): int { if failed then 1 else 0 }

  /** The number of failures among the outcomes. */
  ghost function Fails(outcomes: seq<bool>): int { Total(Bit, outcomes) }

  /** The outcomes a new buffer starts with. */
  function NoFailures(): (s: seq<bool>)
    ensures |s| == FAIL_HISTORY_LENGTH && forall i :: 0 <= i < |s| ==> !s[i]
  {
    seq(FAIL_HISTORY_LENGTH, _ => false)
  }

  /** The last FAIL_HISTORY_LENGTH outcomes of a history, an unused slot counting as a success. */
  function Window(history: seq<bool>): (w: seq<bool>)
    ensures |w| == FAIL_HISTORY_LENGTH
  {
    (NoFailures() + history)[|history|..]
  }

  lemma {:induction false} FailsBounds(outcomes: seq<bool>)
    ensures 0 <= Fails(outcomes) <= |outcomes|
  {
    if outcomes == [] {
    } else {
      FailsBounds(outcomes[1..]);
    }
  }

  /** Dropping the oldest outcome and adding a new one. */
  lemma FailsShift(outcomes: seq<bool>, b: bool)
    requires outcomes != []
    ensures Fails(outcomes[1..] + [b]) == Fails(outcomes) - Bit(outcomes[0]) + Bit(b)
  {
    TotalConcat(Bit, outcomes[1..], [b]);
    assert [b][1..] == [];
  }

  lemma WindowShift(history: seq<bool>, b: bool)
    ensures Window(history + [b]) == Window(history)[1..] + [b]
  {
    assert NoFailures() + (history + [b]) == NoFailures() + history + [b];
  }

  /** The failures in the window are those among the last 25 outcomes, or among all if there are fewer. */
  lemma WindowExact(history: seq<bool>)
    ensures |history| >= 25 ==> Window(history) == history[|history| - 25..]
    ensures |history| < 25 ==> Fails(Window(history)) == Fails(history)
  {
    var padded := NoFailures() + history;
    if |history| >= 25 {
      assert padded[|history|..] == history[|history| - 25..];
    } else {
      assert padded[|history|..] == NoFailures()[|history|..] + history;
      TotalConcat(Bit, NoFailures()[|history|..], history);
      TotalConstant(Bit, NoFailures()[|history|..], 0);
    }
  }

  lemma NoFailuresCount()
    ensures Fails(NoFailures()) == 0
  {
    TotalConstant(Bit, NoFailures(), 0);
  }
}

/**
 Concurrent registerResult calls on one recursor.  A call is three atomic actions: receive the
 oldest outcome from the channel, send its own outcome, add the difference to the counter.
 */
module FailBuffer {
  import opened Sums
  import opened FailWindow

  datatype Pc =
    | Resting
    | Called(wasError: bool)
    | Received(oldest: bool, wasError: bool)
    | Sent(oldest: bool, wasError: bool)

  /** `log` lists every outcome ever put into the channel, `received` counts those taken out. */
  datatype State = State(buffer: seq<bool>, failCount: int, threads: seq<Pc>, log: seq<bool>, received: nat)

  /** Go's int32 arithmetic. */
  function Wrap32(x: int): int {
    (x + 0x8000_0000) % 0x1_0000_0000 - 0x8000_0000
  }

  function Change(oldest: bool, wasError: bool): int {
    (if oldest then -1 else 0) + (if wasError then 1 else 0)
  }

  datatype Step = Call(i: nat, wasError: bool) | Move(i: nat)

  /** A receive waits for a buffered outcome, a send for a free slot. */
  predicate Enabled(s: State, i: nat) {
    && i < |s.threads|
    && match s.threads[i]
       case Resting => false
       case Called(_) => s.buffer != []
       case Received(_, _) => |s.buffer| < FAIL_HISTORY_LENGTH
       case Sent(_, _) => true
  }

  predicate CanStep(s: State, step: Step) {
    match step
    case Call(i, _) => i < |s.threads| && s.threads[i].Resting?
    case Move(i) => Enabled(s, i)
  }

  function Next(s: State, step: Step): State
    requires CanStep(s, step)
  {
    match step
    case Call(i, wasError) => s.(threads := s.threads[i := Called(wasError)])
    case Move(i) =>
      match s.threads[i]
      case Called(e) =>
        s.(buffer := s.buffer[1..], received := s.received + 1, threads := s.threads[i := Received(s.buffer[0], e)])
      case Received(o, e) =>
        s.(buffer := s.buffer + [e], log := s.log + [e], threads := s.threads[i := Sent(o, e)])
      case Sent(o, e) =>
        s.(failCount := Wrap32(s.failCount + Change(o, e)), threads := s.threads[i := Resting])
  }

  predicate IsRun(s: State, steps: seq<Step>)
    decreases |steps|
  {
    steps == [] || (CanStep(s, steps[0]) && IsRun(Next(s, steps[0]), steps[1..]))
  }

  function After(s: State, steps: seq<Step>): State
    requires IsRun(s, steps)
    decreases |steps|
  {
    if steps == [] then s else After(Next(s, steps[0]), steps[1..])
  }

  function Init(n: nat): State {
    State(NoFailures(), 0, seq(n, _ => Resting), NoFailures(), 0)
  }

  // ----- What every step keeps -----

  /** Whether a call holds an outcome between its receive and its send. */
  ghost function Held(pc: Pc): int { if pc.Received? then 1 else 0 }

  /** What the counter still includes for a call in progress, compared with the buffer. */
  ghost function Pending(pc: Pc): int {
    match pc
    case Received(oldest, _) => Bit(oldest)
    case Sent(oldest, wasError) => Bit(oldest) - Bit(wasError)
    case _ => 0
  }

  ghost predicate Inv(s: State) {
    && |s.buffer| + Total(Held, s.threads) == FAIL_HISTORY_LENGTH
    && s.received <= |s.log| && s.buffer == s.log[s.received..]
    && s.failCount == Wrap32(Fails(s.buffer) + Total(Pending, s.threads))
  }

  lemma WrapAdd(x: int, y: int)
    ensures Wrap32(Wrap32(x) + y) == Wrap32(x + y)
  {
  }

  lemma StepKept(s: State, step: Step)
    requires Inv(s) && CanStep(s, step)
    ensures Inv(Next(s, step))
  {
    var t := Next(s, step);
    TotalUpdate(Held, s.threads, step.i, t.threads[step.i]);
    TotalUpdate(Pending, s.threads, step.i, t.threads[step.i]);
    if step.Move? {
      match s.threads[step.i]
      case Called(_) =>
      case Received(_, e) =>
        TotalConcat(Bit, s.buffer, [e]);
        assert [e][1..] == [];
      case Sent(o, e) =>
        WrapAdd(Fails(s.buffer) + Total(Pending, s.threads), Change(o, e));
    }
  }

  lemma InitInv(n: nat)
    ensures Inv(Init(n))
  {
    NoFailuresCount();
    TotalConstant(Held, Init(n).threads, 0);
    TotalConstant(Pending, Init(n).threads, 0);
  }

  lemma {:induction false} RunKept(s: State, steps: seq<Step>)
    requires Inv(s) && IsRun(s, steps)
    ensures Inv(After(s, steps))
    decreases |steps|
  {
    if steps == [] {
    } else {
      StepKept(s, steps[0]);
      RunKept(Next(s, steps[0]), steps[1..]);
    }
  }

  // ----- The properties of every run -----

  lemma SendsFit(s: State)
    requires Inv(s)
    ensures forall i :: 0 <= i < |s.threads| && s.threads[i].Received? ==> Enabled(s, i)
  {
    TotalBounds(Held, s.threads);
    assert forall i :: 0 <= i < |s.threads| && s.threads[i].Received? ==> Held(s.threads[i]) == 1;
  }

  /** Buffered and held outcomes fill the window, the counter fits, outcomes keep their order, sends do not block. */
  ghost predicate Conserved(s: State) {
    && |s.buffer| + Total(Held, s.threads) == FAIL_HISTORY_LENGTH
    && s.failCount == Wrap32(Fails(s.buffer) + Total(Pending, s.threads))
    && s.received <= |s.log| && s.buffer == s.log[s.received..]
    && forall i :: 0 <= i < |s.threads| && s.threads[i].Received? ==> Enabled(s, i)
  }

  lemma InvConserved(s: State)
    requires Inv(s)
    ensures Conserved(s)
  {
    SendsFit(s);
  }

  /**
   In every run, buffered outcomes and calls between receive and send total
   FAIL_HISTORY_LENGTH, the counter is the buffer's failures corrected by the calls in
   progress, outcomes leave in the order they entered, and no send ever blocks.
   */
  lemma {:induction false} WindowConserved(n: nat, steps: seq<Step>)
    requires IsRun(Init(n), steps)
    ensures Conserved(After(Init(n), steps))
  {
    InitInv(n);
    RunKept(Init(n), steps);
    InvConserved(After(Init(n), steps));
  }

  // ----- Outcomes are neither lost nor changed -----

  ghost function UnsentFailure(pc: Pc): int { if (pc.Called? || pc.Received?) && pc.wasError then 1 else 0 }

  ghost function UnsentSuccess(pc: Pc): int { if (pc.Called? || pc.Received?) && !pc.wasError then 1 else 0 }

  /** How many calls have yet to send this outcome. */
  ghost function Unsent(outcome: bool, threads: seq<Pc>): int {
    if outcome then Total(UnsentFailure, threads) else Total(UnsentSuccess, threads)
  }

  ghost function UnsentOne(outcome: bool, pc: Pc): int {
    if outcome then UnsentFailure(pc) else UnsentSuccess(pc)
  }

  lemma UnsentUpdate(outcome: bool, threads: seq<Pc>, i: nat, pc: Pc)
    requires i < |threads|
    ensures Unsent(outcome, threads[i := pc]) ==
      Unsent(outcome, threads) - UnsentOne(outcome, threads[i]) + UnsentOne(outcome, pc)
  {
    if outcome {
      TotalUpdate(UnsentFailure, threads, i, pc);
    } else {
      TotalUpdate(UnsentSuccess, threads, i, pc);
    }
  }

  /** How many calls of a run reported this outcome. */
  ghost function Reported(outcome: bool, steps: seq<Step>): int {
    if steps == [] then 0 else ReportedOne(outcome, steps[0]) + Reported(outcome, steps[1..])
  }

  ghost function ReportedOne(outcome: bool, step: Step): int {
    if step.Call? && step.wasError == outcome then 1 else 0
  }

  /** What the log gains is what the step's own call no longer has to send, or has just reported. */
  lemma OwnOutcome(s: State, step: Step, outcome: bool)
    requires CanStep(s, step)
    ensures var t := Next(s, step);
      && t.threads == s.threads[step.i := t.threads[step.i]]
      && multiset(t.log)[outcome] + UnsentOne(outcome, t.threads[step.i]) ==
         multiset(s.log)[outcome] + UnsentOne(outcome, s.threads[step.i]) + ReportedOne(outcome, step)
  {
  }

  /**
   No outcome is lost, invented or changed: over every run, as often as an outcome was sent or is
   yet to be sent, it was there at the start or was reported by a call.
   */
  lemma {:induction false} OutcomesKept(s: State, steps: seq<Step>, outcome: bool)
    requires IsRun(s, steps)
    ensures var t := After(s, steps);
      multiset(t.log)[outcome] + Unsent(outcome, t.threads) ==
      multiset(s.log)[outcome] + Unsent(outcome, s.threads) + Reported(outcome, steps)
    decreases |steps|
  {
    if steps == [] {
    } else {
      var t := Next(s, steps[0]);
      OwnOutcome(s, steps[0], outcome);
      UnsentUpdate(outcome, s.threads, steps[0].i, t.threads[steps[0].i]);
      OutcomesKept(t, steps[1..], outcome);
    }
  }

  lemma NoneUnsent(outcome: bool, threads: seq<Pc>)
    requires forall i :: 0 <= i < |threads| ==> threads[i].Resting?
    ensures Unsent(outcome, threads) == 0
  {
    TotalConstant(UnsentFailure, threads, 0);
    TotalConstant(UnsentSuccess, threads, 0);
  }

  lemma FirstOutcomes()
    ensures multiset(NoFailures())[false] == 25 && multiset(NoFailures())[true] == 0
  {
    var all := NoFailures();
    assert all == [false, false, false, false, false] + [false, false, false, false, false]
      + [false, false, false, false, false] + [false, false, false, false, false] + [false, false, false, false, false];
  }

  /** When all calls have returned, 25 initial successes and exactly the reported outcomes were sent. */
  lemma {:induction false} AllSent(n: nat, steps: seq<Step>, outcome: bool)
    requires IsRun(Init(n), steps)
    requires forall i :: 0 <= i < |After(Init(n), steps).threads| ==> After(Init(n), steps).threads[i].Resting?
    ensures multiset(After(Init(n), steps).log)[outcome] == (if outcome then 0 else 25) + Reported(outcome, steps)
  {
    OutcomesKept(Init(n), steps, outcome);
    NoneUnsent(outcome, Init(n).threads);
    NoneUnsent(outcome, After(Init(n), steps).threads);
    FirstOutcomes();
  }

  /** In every reachable state some call can move, unless none is in progress. */
  lemma {:induction false} Progress(n: nat, steps: seq<Step>)
    requires IsRun(Init(n), steps)
    ensures var s := After(Init(n), steps);
      (forall i :: 0 <= i < |s.threads| ==> s.threads[i].Resting?) || exists i :: Enabled(s, i)
  {
    var s := After(Init(n), steps);
    WindowConserved(n, steps);
    if i: nat :| i < |s.threads| && !s.threads[i].Resting? {
      if j: nat :| j < |s.threads| && s.threads[j].Received? {
        assert Enabled(s, j);
      } else {
        TotalConstant(Held, s.threads, 0);
        assert Enabled(s, i);
      }
    }
  }

  ghost function Rank(pc: Pc): int {
    match pc case Resting => 0 case Sent(_, _) => 1 case Received(_, _) => 2 case Called(_) => 3
  }

  /** A run without new calls is finite: with Progress, every registerResult call returns. */
  lemma {:induction false} CallsReturn(s: State, steps: seq<Step>)
    requires IsRun(s, steps) && forall k :: 0 <= k < |steps| ==> steps[k].Move?
    ensures |steps| <= Total(Rank, s.threads)
    decreases |steps|
  {
    if steps == [] {
      TotalBounds(Rank, s.threads);
    } else {
      var t := Next(s, steps[0]);
      TotalUpdate(Rank, s.threads, steps[0].i, t.threads[steps[0].i]);
      CallsReturn(t, steps[1..]);
    }
  }

  lemma RestingCount(s: State)
    requires Inv(s)
    requires forall i :: 0 <= i < |s.threads| ==> s.threads[i].Resting? || s.threads[i].Called?
    ensures |s.buffer| == FAIL_HISTORY_LENGTH && s.failCount == Fails(s.buffer)
    ensures 0 <= s.failCount <= FAIL_HISTORY_LENGTH
  {
    TotalConstant(Held, s.threads, 0);
    TotalConstant(Pending, s.threads, 0);
    FailsBounds(s.buffer);
  }

  /**
   Whenever no call is between its receive and its add, the counter is exactly the number of
   failures among the last FAIL_HISTORY_LENGTH outcomes sent, in any interleaving.
   */
  lemma {:induction false} AtRest(n: nat, steps: seq<Step>)
    requires IsRun(Init(n), steps)
    requires forall pc :: pc in After(Init(n), steps).threads ==> pc.Resting? || pc.Called?
    ensures var s := After(Init(n), steps);
      && |s.log| >= 25
      && s.buffer == s.log[|s.log| - 25..]
      && s.failCount == Fails(s.buffer)
      && 0 <= s.failCount <= 25
  {
    InitInv(n);
    RunKept(Init(n), steps);
    RestingCount(After(Init(n), steps));
  }
}
