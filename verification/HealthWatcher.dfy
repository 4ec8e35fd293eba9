/**
 The health watcher's single-flight protocol: any number of threads run RunCheck, Track,
 Untrack and HealthState over one read-write mutex, one condition variable per check in
 flight, and the two maps the mutex protects.  A step of the model is one statement of one
 thread, so every interleaving of the source is a run of the model.
 */
module HealthWatcher {
  import opened Sums
  import opened Strings

  type Ip = string
  type Cond = nat

  datatype HealthResult = HealthResult(state: string, groupState: map<string, string>)

  /** The zero value a Go map lookup yields for a missing key. */
  const ZERO_RESULT := HealthResult("", map[])
  const UNCHECKED := HealthResult("unchecked", map[])

  datatype Call = RunCheck(ip: Ip) | Track(ip: Ip) | Untrack(ip: Ip) | HealthState(ip: Ip)

  /** Where a thread stands.  A `since` is the length of the history when the wait began. */
  datatype Pc =
    | Idle
    | CheckEnter(ip: Ip)
    | CheckLocked(ip: Ip)
    | Sleeping(ip: Ip, cond: Cond, since: nat)
    | Woken(ip: Ip, cond: Cond, since: nat)
    | Reading(ip: Ip, cond: Cond, since: nat)
    | Answered(ip: Ip, cond: Cond, since: nat, readAt: nat, result: HealthResult)
    | Installed(ip: Ip, cond: Cond)
    | InFlight(ip: Ip, cond: Cond)
    | Returned(ip: Ip, cond: Cond, result: HealthResult)
    | Clearing(ip: Ip, cond: Cond, result: HealthResult)
    | Writing(ip: Ip, cond: Cond, result: HealthResult)
    | Broadcasting(ip: Ip, cond: Cond, result: HealthResult, writtenAt: nat)
    | Published(ip: Ip, result: HealthResult)
    | UntrackEnter(ip: Ip)
    | UntrackLocked(ip: Ip)
    | UntrackDone(ip: Ip)
    | QueryEnter(ip: Ip)
    | QueryLocked(ip: Ip)
    | QueryDone(ip: Ip, answer: HealthResult)
    | TrackEnter(ip: Ip)
    | TrackLocked(ip: Ip)
    | TrackDone(ip: Ip, found: bool)

  /** The history of changes to `state`: finished checks and untrackings, oldest first. */
  datatype Event = Completed(ip: Ip, result: HealthResult, cond: Cond) | Untracked(ip: Ip)

  datatype State = State(
    writer: Option<nat>,
    readers: set<nat>,
    state: map<Ip, HealthResult>,
    currentChecks: map<Ip, Cond>,
    nextCond: Cond,
    threads: seq<Pc>,
    log: seq<Event>)

  // ----- The step relation -----

  predicate WantsWrite(pc: Pc) {
    pc.CheckEnter? || pc.Woken? || pc.Returned? || pc.UntrackEnter?
  }

  predicate WantsRead(pc: Pc) {
    pc.QueryEnter? || pc.TrackEnter?
  }

  predicate HoldsWrite(pc: Pc) {
    pc.CheckLocked? || pc.Reading? || pc.Answered? || pc.Installed? || pc.Clearing? || pc.Writing?
    || pc.Broadcasting? || pc.Published? || pc.UntrackLocked? || pc.UntrackDone?
  }

  predicate HoldsRead(pc: Pc) {
    pc.QueryLocked? || pc.QueryDone? || pc.TrackLocked? || pc.TrackDone?
  }

  /** Thread `i` can take its next step: it is neither idle, asleep, nor blocked on the mutex. */
  predicate Enabled(s: State, i: nat) {
    && i < |s.threads|
    && !s.threads[i].Idle?
    && !s.threads[i].Sleeping?
    && (WantsWrite(s.threads[i]) ==> s.writer.None? && s.readers == {})
    && (WantsRead(s.threads[i]) ==> s.writer.None?)
  }

  function Enter(call: Call): Pc {
    match call
    case RunCheck(ip) => CheckEnter(ip)
    case Track(ip) => TrackEnter(ip)
    case Untrack(ip) => UntrackEnter(ip)
    case HealthState(ip) => QueryEnter(ip)
  }

  function Wake(pc: Pc, c: Cond): Pc {
    match pc
    case Sleeping(ip, cond, since) => if cond == c then Woken(ip, cond, since) else pc
    case _ => pc
  }

  function WakeAll(threads: seq<Pc>, c: Cond): (woken: seq<Pc>)
    ensures |woken| == |threads|
    ensures forall j :: 0 <= j < |threads| ==> woken[j] == Wake(threads[j], c)
  {
    seq(|threads|, j requires 0 <= j < |threads| => Wake(threads[j], c))
  }

  function Lookup(m: map<Ip, HealthResult>, ip: Ip, default: HealthResult): HealthResult {
    if ip in m then m[ip] else default
  }

  /** Where thread `i` goes next.  `status` is what GetStatus answers, if that is the step. */
  function NextPc(s: State, i: nat, status: HealthResult): Pc
    requires Enabled(s, i)
  {
    match s.threads[i]
    // RunCheck up to the fork between waiting and leading
    case CheckEnter(ip) => CheckLocked(ip)
    case CheckLocked(ip) =>
      if ip in s.currentChecks then Sleeping(ip, s.currentChecks[ip], |s.log|) else Installed(ip, s.nextCond)
    // the waiter, once woken
    case Woken(ip, c, since) => Reading(ip, c, since)
    case Reading(ip, c, since) => Answered(ip, c, since, |s.log|, Lookup(s.state, ip, ZERO_RESULT))
    case Answered(_, _, _, _, _) => Idle
    // the leader
    case Installed(ip, c) => InFlight(ip, c)
    case InFlight(ip, c) => Returned(ip, c, status)
    case Returned(ip, c, r) => Clearing(ip, c, r)
    case Clearing(ip, c, r) => Writing(ip, c, r)
    case Writing(ip, c, r) => Broadcasting(ip, c, r, |s.log|)
    case Broadcasting(ip, c, r, _) => Published(ip, r)
    case Published(_, _) => Idle
    // Untrack
    case UntrackEnter(ip) => UntrackLocked(ip)
    case UntrackLocked(ip) => UntrackDone(ip)
    case UntrackDone(_) => Idle
    // HealthState
    case QueryEnter(ip) => QueryLocked(ip)
    case QueryLocked(ip) => QueryDone(ip, Lookup(s.state, ip, UNCHECKED))
    case QueryDone(_, _) => Idle
    // Track
    case TrackEnter(ip) => TrackLocked(ip)
    case TrackLocked(ip) => TrackDone(ip, ip in s.state)
    case TrackDone(ip, found) => if found then Idle else CheckEnter(ip)
  }

  /** Lock, Unlock, and the release inside Cond.Wait. */
  function NextWriter(s: State, i: nat): Option<nat>
    requires i < |s.threads|
  {
    var pc := s.threads[i];
    if WantsWrite(pc) then Some(i)
    else if pc.CheckLocked? then (if pc.ip in s.currentChecks then None else s.writer)
    else if pc.Answered? || pc.Installed? || pc.Published? || pc.UntrackDone? then None
    else s.writer
  }

  /** RLock and RUnlock. */
  function NextReaders(s: State, i: nat): set<nat>
    requires i < |s.threads|
  {
    var pc := s.threads[i];
    if WantsRead(pc) then s.readers + {i}
    else if pc.QueryDone? || pc.TrackDone? then s.readers - {i}
    else s.readers
  }

  function NextChecks(s: State, i: nat): map<Ip, Cond>
    requires i < |s.threads|
  {
    match s.threads[i]
    case CheckLocked(ip) =>
      if ip in s.currentChecks then s.currentChecks else s.currentChecks[ip := s.nextCond]
    case Clearing(ip, _, _) => s.currentChecks - {ip}
    case _ => s.currentChecks
  }

  function NextState(s: State, i: nat): map<Ip, HealthResult>
    requires i < |s.threads|
  {
    match s.threads[i]
    case Writing(ip, _, r) => s.state[ip := r]
    case UntrackLocked(ip) => s.state - {ip}
    case _ => s.state
  }

  function NextLog(s: State, i: nat): seq<Event>
    requires i < |s.threads|
  {
    match s.threads[i]
    case Writing(ip, c, r) => s.log + [Completed(ip, r, c)]
    case UntrackLocked(ip) => s.log + [Untracked(ip)]
    case _ => s.log
  }

  /** The threads after a possible broadcast by thread `i`. */
  function AfterBroadcast(s: State, i: nat): (woken: seq<Pc>)
    requires i < |s.threads|
    ensures |woken| == |s.threads|
  {
    if s.threads[i].Broadcasting? then WakeAll(s.threads, s.threads[i].cond) else s.threads
  }

  /** One step of thread `i`. */
  function Advance(s: State, i: nat, status: HealthResult): State
    requires Enabled(s, i)
  {
    State(NextWriter(s, i), NextReaders(s, i), NextState(s, i), NextChecks(s, i), s.nextCond + 1,
          AfterBroadcast(s, i)[i := NextPc(s, i, status)], NextLog(s, i))
  }

  /** A step of a run: an idle thread makes a call, or a thread in a call moves on. */
  datatype Step = Begin(i: nat, call: Call) | Move(i: nat, status: HealthResult)

  predicate CanStep(s: State, step: Step) {
    match step
    case Begin(i, _) => i < |s.threads| && s.threads[i].Idle?
    case Move(i, _) => Enabled(s, i)
  }

  function Next(s: State, step: Step): State
    requires CanStep(s, step)
  {
    match step
    case Begin(i, call) => s.(threads := s.threads[i := Enter(call)])
    case Move(i, status) => Advance(s, i, status)
  }

  predicate IsRun(s: State, steps: seq<Step>)
    decreases |steps|
  {
    steps == [] || (CanStep(s, steps[0]) && IsRun(Next(s, steps[0]), steps[1..]))
  }

  function After(s: State, steps: seq<Step>): State
    requires IsRun(s, steps)
    decreases |steps|
  {
    if steps == [] then s else After(Next(s, steps[0]), steps[1..])
  }

  function Init(n: nat): State {
    State(None, {}, map[], map[], 0, seq(n, _ => Idle), [])
  }

  // ----- What every step keeps -----

  /** The check `ip` is registered in currentChecks under `cond` by this thread. */
  predicate Leads(pc: Pc) {
    pc.Installed? || pc.InFlight? || pc.Returned? || pc.Clearing?
  }

  /** This thread has created `cond` and has yet to broadcast on it. */
  predicate Owns(pc: Pc) {
    Leads(pc) || pc.Writing? || pc.Broadcasting?
  }

  /** The mutex is held by exactly the threads inside their critical sections. */
  ghost predicate LockInv(s: State) {
    && (forall i :: 0 <= i < |s.threads| ==> (HoldsWrite(s.threads[i]) <==> s.writer == Some(i)))
    && (forall i :: 0 <= i < |s.threads| ==> (HoldsRead(s.threads[i]) <==> i in s.readers))
    && (s.writer.Some? ==> s.writer.value < |s.threads| && s.readers == {})
    && (forall i :: i in s.readers ==> i < |s.threads|)
  }

  ghost predicate LedBy(s: State, ip: Ip, i: nat) {
    && ip in s.currentChecks && i < |s.threads|
    && Leads(s.threads[i]) && s.threads[i].ip == ip && s.threads[i].cond == s.currentChecks[ip]
  }

  /** No condition has two owners. */
  ghost predicate ConditionsApart(s: State) {
    && (forall i :: 0 <= i < |s.threads| && Owns(s.threads[i]) ==> s.threads[i].cond < s.nextCond)
    && (forall i, j :: 0 <= i < j < |s.threads| && Owns(s.threads[i]) && Owns(s.threads[j]) ==>
          s.threads[i].cond != s.threads[j].cond)
  }

  /** If thread `i` leads a check, currentChecks has it. */
  ghost predicate Registered(s: State, i: nat)
    requires i < |s.threads|
  {
    Leads(s.threads[i]) ==>
      s.threads[i].ip in s.currentChecks && s.currentChecks[s.threads[i].ip] == s.threads[i].cond
  }

  /** currentChecks registers exactly the leaders, and no condition has two owners. */
  ghost predicate LeaderInv(s: State) {
    && ConditionsApart(s)
    && (forall i :: 0 <= i < |s.threads| ==> Registered(s, i))
    && (forall ip :: ip in s.currentChecks ==> exists i :: LedBy(s, ip, i))
  }

  ghost predicate OwnedBy(s: State, ip: Ip, c: Cond, since: nat, i: nat) {
    && i < |s.threads| && Owns(s.threads[i]) && s.threads[i].ip == ip && s.threads[i].cond == c
    && (s.threads[i].Broadcasting? ==> since <= s.threads[i].writtenAt)
  }

  /** If thread `j` sleeps, it sleeps on the condition of an owner that has yet to broadcast. */
  ghost predicate SleepsSafely(s: State, j: nat)
    requires j < |s.threads|
  {
    s.threads[j].Sleeping? ==>
      && s.threads[j].since <= |s.log|
      && exists i :: OwnedBy(s, s.threads[j].ip, s.threads[j].cond, s.threads[j].since, i)
  }

  ghost predicate SleeperInv(s: State) {
    forall j :: 0 <= j < |s.threads| ==> SleepsSafely(s, j)
  }

  ghost predicate LogInv(s: State) {
    && (forall ip: Ip :: Remembered(s.log, ip) == if ip in s.state then Some(s.state[ip]) else None)
    && (forall i :: 0 <= i < |s.threads| && s.threads[i].Broadcasting? ==>
          s.threads[i].writtenAt < |s.log|
          && s.log[s.threads[i].writtenAt] == Completed(s.threads[i].ip, s.threads[i].result, s.threads[i].cond))
  }

  /** What the history says about `ip`: its last event decides. */
  ghost function Remembered(log: seq<Event>, ip: Ip): Option<HealthResult> {
    if log == [] then None
    else
      var last := log[|log| - 1];
      if last.ip != ip then Remembered(log[..|log| - 1], ip)
      else match last
        case Completed(_, r, _) => Some(r)
        case Untracked(_) => None
  }

  /** The check registered under `c` finished at or after position `since` of the history. */
  ghost predicate FinishedSince(log: seq<Event>, ip: Ip, c: Cond, since: nat) {
    exists k :: since <= k < |log| && log[k].Completed? && log[k].ip == ip && log[k].cond == c
  }

  ghost predicate WaiterOk(s: State, j: nat)
    requires j < |s.threads|
  {
    match s.threads[j]
    case Woken(ip, c, since) => FinishedSince(s.log, ip, c, since)
    case Reading(ip, c, since) => FinishedSince(s.log, ip, c, since)
    case Answered(ip, c, since, readAt, result) =>
      && readAt <= |s.log|
      && FinishedSince(s.log[..readAt], ip, c, since)
      && result == AnswerAt(s.log[..readAt], ip, ZERO_RESULT)
    case Broadcasting(ip, _, result, _) => Remembered(s.log, ip) == Some(result)
    case Published(ip, result) => Remembered(s.log, ip) == Some(result)
    case QueryDone(ip, answer) => answer == AnswerAt(s.log, ip, UNCHECKED)
    case TrackDone(ip, found) => found <==> Remembered(s.log, ip).Some?
    case UntrackDone(ip) => Remembered(s.log, ip).None?
    case _ => true
  }

  ghost predicate WaiterInv(s: State) {
    forall j :: 0 <= j < |s.threads| ==> WaiterOk(s, j)
  }

  ghost function AnswerAt(log: seq<Event>, ip: Ip, default: HealthResult): HealthResult {
    match Remembered(log, ip)
    case Some(r) => r
    case None => default
  }

  ghost predicate Inv(s: State) {
    LockInv(s) && LeaderInv(s) && SleeperInv(s) && LogInv(s) && WaiterInv(s)
  }

  /** How one step moves its own thread in and out of the critical sections. */
  lemma OwnLock(s: State, i: nat, status: HealthResult)
    requires LockInv(s) && Enabled(s, i)
    ensures var t := Advance(s, i, status);
      && (HoldsWrite(t.threads[i]) <==> t.writer == Some(i))
      && (HoldsRead(t.threads[i]) <==> i in t.readers)
      && (t.writer == s.writer || t.writer == Some(i) || (t.writer == None && s.writer == Some(i)))
      && t.readers - {i} == s.readers - {i}
      && (t.writer.Some? ==> t.readers == {})
  {
  }

  lemma LockKept(s: State, step: Step)
    requires LockInv(s) && CanStep(s, step)
    ensures LockInv(Next(s, step))
  {
    if step.Move? {
      OwnLock(s, step.i, step.status);
      var t := Next(s, step);
      forall j | 0 <= j < |t.threads| && j != step.i
        ensures HoldsWrite(t.threads[j]) <==> t.writer == Some(j)
        ensures HoldsRead(t.threads[j]) <==> j in t.readers
      {
        assert HoldsWrite(t.threads[j]) == HoldsWrite(s.threads[j]);
        assert HoldsRead(t.threads[j]) == HoldsRead(s.threads[j]);
        assert j in t.readers <==> j in t.readers - {step.i};
        assert j in s.readers <==> j in s.readers - {step.i};
      }
    }
  }

  /** A step leaves every other thread alone, except for waking it. */
  lemma OthersKept(s: State, i: nat, status: HealthResult, j: nat)
    requires Enabled(s, i) && j < |s.threads| && j != i
    ensures var t := Advance(s, i, status);
      && |t.threads| == |s.threads|
      && (t.threads[j] == s.threads[j]
          || (&& s.threads[i].Broadcasting? && s.threads[j].Sleeping? && s.threads[j].cond == s.threads[i].cond
              && t.threads[j] == Woken(s.threads[j].ip, s.threads[j].cond, s.threads[j].since)))
  {
  }

  /** How one step moves its own thread through the leading phases. */
  lemma OwnLead(s: State, i: nat, status: HealthResult)
    requires Enabled(s, i)
    ensures var t := Advance(s, i, status); var pc, pc' := s.threads[i], t.threads[i];
      && (Owns(pc') ==> (Owns(pc) && pc.ip == pc'.ip && pc.cond == pc'.cond)
                        || (pc.CheckLocked? && pc.ip !in s.currentChecks && pc' == Installed(pc.ip, s.nextCond)))
      && (Leads(pc') && !pc.CheckLocked? ==> Leads(pc) && t.currentChecks == s.currentChecks)
      && (Leads(pc) && !Leads(pc') ==> pc.Clearing? && t.currentChecks == s.currentChecks - {pc.ip})
      && (!Leads(pc) && !Leads(pc') ==> t.currentChecks == s.currentChecks)
      && (pc.CheckLocked? && Leads(pc') ==> t.currentChecks == s.currentChecks[pc.ip := s.nextCond])
  {
  }

  lemma OwnersKept(s: State, i: nat, status: HealthResult)
    requires Enabled(s, i)
    ensures var t := Advance(s, i, status);
      |t.threads| == |s.threads| && forall j :: 0 <= j < |s.threads| && j != i ==>
        (Owns(t.threads[j]) || Owns(s.threads[j]) ==> t.threads[j] == s.threads[j])
  {
    forall j | 0 <= j < |s.threads| && j != i
      ensures Owns(Advance(s, i, status).threads[j]) || Owns(s.threads[j]) ==>
        Advance(s, i, status).threads[j] == s.threads[j]
    {
      OthersKept(s, i, status, j);
    }
  }

  lemma ConditionsKept(s: State, i: nat, status: HealthResult)
    requires LeaderInv(s) && Enabled(s, i)
    ensures ConditionsApart(Advance(s, i, status))
  {
    OwnLead(s, i, status);
    OwnersKept(s, i, status);
  }

  lemma RegisteredKept(s: State, i: nat, status: HealthResult, j: nat)
    requires LeaderInv(s) && Enabled(s, i) && j < |s.threads|
    ensures Registered(Advance(s, i, status), j)
  {
    OwnLead(s, i, status);
    assert Registered(s, j) && Registered(s, i);
    if j != i {
      OthersKept(s, i, status, j);
      if Leads(s.threads[j]) && Leads(s.threads[i]) { assert s.threads[i].ip != s.threads[j].ip; }
    }
  }

  lemma LedKept(s: State, i: nat, status: HealthResult, ip: Ip)
    requires LeaderInv(s) && Enabled(s, i) && ip in Advance(s, i, status).currentChecks
    ensures exists j :: LedBy(Advance(s, i, status), ip, j)
  {
    var t := Advance(s, i, status);
    OwnLead(s, i, status);
    if ip in s.currentChecks {
      var j :| LedBy(s, ip, j);
      if j != i { OthersKept(s, i, status, j); }
      RegisteredKept(s, i, status, j);
      assert LedBy(t, ip, j);
    } else {
      assert LedBy(t, ip, i);
    }
  }

  lemma LeaderKept(s: State, i: nat, status: HealthResult)
    requires LeaderInv(s) && Enabled(s, i)
    ensures LeaderInv(Advance(s, i, status))
  {
    var t := Advance(s, i, status);
    ConditionsKept(s, i, status);
    forall j | 0 <= j < |t.threads| ensures Registered(t, j) { RegisteredKept(s, i, status, j); }
    forall ip | ip in t.currentChecks ensures exists j :: LedBy(t, ip, j) { LedKept(s, i, status, ip); }
  }

  /** A new sleeper, and only a new sleeper, appears by waiting on a registered condition. */
  lemma NewSleeper(s: State, i: nat, status: HealthResult)
    requires LeaderInv(s) && Enabled(s, i)
    ensures SleepsSafely(Advance(s, i, status), i)
  {
    var t := Advance(s, i, status);
    if t.threads[i].Sleeping? {
      var pc := t.threads[i];
      var k: nat :| LedBy(s, pc.ip, k);
      OthersKept(s, i, status, k);
      assert OwnedBy(t, pc.ip, pc.cond, pc.since, k);
    }
  }

  lemma OtherSleeper(s: State, i: nat, status: HealthResult, j: nat)
    requires SleeperInv(s) && Enabled(s, i) && j < |s.threads| && j != i
    ensures SleepsSafely(Advance(s, i, status), j)
  {
    var t := Advance(s, i, status);
    OthersKept(s, i, status, j);
    if t.threads[j].Sleeping? {
      assert SleepsSafely(s, j);
      var pc := t.threads[j];
      var k: nat :| OwnedBy(s, pc.ip, pc.cond, pc.since, k);
      if k != i { OthersKept(s, i, status, k); }
      assert OwnedBy(t, pc.ip, pc.cond, pc.since, k);
    }
  }

  lemma SleeperKept(s: State, i: nat, status: HealthResult)
    requires LeaderInv(s) && SleeperInv(s) && Enabled(s, i)
    ensures SleeperInv(Advance(s, i, status))
  {
    forall j | 0 <= j < |s.threads| ensures SleepsSafely(Advance(s, i, status), j) {
      if j == i { NewSleeper(s, i, status); } else { OtherSleeper(s, i, status, j); }
    }
  }

  lemma {:induction false} RememberedAppend(log: seq<Event>, e: Event, ip: Ip)
    ensures Remembered(log + [e], ip) ==
      if e.ip != ip then Remembered(log, ip) else if e.Completed? then Some(e.result) else None
  {
    assert (log + [e])[..|log|] == log;
  }

  lemma {:induction false} StateKept(s: State, i: nat, ip: Ip)
    requires i < |s.threads|
    requires Remembered(s.log, ip) == if ip in s.state then Some(s.state[ip]) else None
    ensures Remembered(NextLog(s, i), ip) == if ip in NextState(s, i) then Some(NextState(s, i)[ip]) else None
  {
    match s.threads[i]
    case Writing(at, c, r) => RememberedAppend(s.log, Completed(at, r, c), ip);
    case UntrackLocked(at) => RememberedAppend(s.log, Untracked(at), ip);
    case _ =>
  }

  lemma WriterKept(s: State, i: nat, status: HealthResult, j: nat)
    requires LogInv(s) && Enabled(s, i) && j < |s.threads|
    requires Advance(s, i, status).threads[j].Broadcasting?
    ensures var t := Advance(s, i, status); var pc := t.threads[j];
      pc.writtenAt < |t.log| && t.log[pc.writtenAt] == Completed(pc.ip, pc.result, pc.cond)
  {
    if j != i { OthersKept(s, i, status, j); }
  }

  lemma LogKept(s: State, i: nat, status: HealthResult)
    requires LogInv(s) && Enabled(s, i)
    ensures LogInv(Advance(s, i, status))
  {
    var t := Advance(s, i, status);
    forall ip: Ip ensures Remembered(t.log, ip) == if ip in t.state then Some(t.state[ip]) else None {
      StateKept(s, i, ip);
    }
    forall j | 0 <= j < |t.threads| && t.threads[j].Broadcasting?
      ensures t.threads[j].writtenAt < |t.log|
      ensures t.log[t.threads[j].writtenAt] == Completed(t.threads[j].ip, t.threads[j].result, t.threads[j].cond)
    {
      WriterKept(s, i, status, j);
    }
  }

  lemma FinishedLater(log: seq<Event>, more: seq<Event>, ip: Ip, c: Cond, since: nat)
    requires FinishedSince(log, ip, c, since) && log <= more
    ensures FinishedSince(more, ip, c, since)
  {
    var k :| since <= k < |log| && log[k].Completed? && log[k].ip == ip && log[k].cond == c;
    assert more[k] == log[k];
  }

  /** A waiter is woken only after the check it waited for has been written. */
  lemma WokenAfterWrite(s: State, i: nat, j: nat)
    requires Inv(s) && i < |s.threads| && j < |s.threads|
    requires s.threads[i].Broadcasting? && s.threads[j].Sleeping? && s.threads[j].cond == s.threads[i].cond
    ensures FinishedSince(s.log, s.threads[j].ip, s.threads[j].cond, s.threads[j].since)
  {
    var pc := s.threads[j];
    assert SleepsSafely(s, j);
    var k :| OwnedBy(s, pc.ip, pc.cond, pc.since, k);
    assert k == i;
    assert s.log[s.threads[i].writtenAt].Completed?;
  }

  /** While any thread holds the mutex, only its holder changes the history. */
  lemma LogLocked(s: State, i: nat, j: nat)
    requires LockInv(s) && i < |s.threads| && j < |s.threads| && j != i
    requires HoldsWrite(s.threads[j]) || HoldsRead(s.threads[j])
    ensures NextLog(s, i) == s.log
  {
    assert HoldsWrite(s.threads[i]) ==> s.writer == Some(i);
  }

  lemma {:induction false} OwnWaiterKept(s: State, i: nat, status: HealthResult)
    requires Inv(s) && Enabled(s, i)
    ensures WaiterOk(Advance(s, i, status), i)
  {
    assert WaiterOk(s, i);
    assert s.log[..|s.log|] == s.log;
    match s.threads[i]
    case Writing(at, c, r) => RememberedAppend(s.log, Completed(at, r, c), at);
    case UntrackLocked(at) => RememberedAppend(s.log, Untracked(at), at);
    case _ =>
  }

  lemma {:induction false} OtherWaiterKept(s: State, i: nat, status: HealthResult, j: nat)
    requires Inv(s) && Enabled(s, i) && j < |s.threads| && j != i
    ensures WaiterOk(Advance(s, i, status), j)
  {
    var t := Advance(s, i, status);
    assert s.log <= t.log;
    assert WaiterOk(s, j);
    OthersKept(s, i, status, j);
    var pc := t.threads[j];
    if pc != s.threads[j] {
      WokenAfterWrite(s, i, j);
      FinishedLater(s.log, t.log, pc.ip, pc.cond, pc.since);
    } else if pc.Woken? || pc.Reading? {
      FinishedLater(s.log, t.log, pc.ip, pc.cond, pc.since);
    } else if HoldsWrite(pc) || HoldsRead(pc) {
      LogLocked(s, i, j);
    }
  }

  lemma BeginOthers(s: State, step: Step, j: nat)
    requires SleeperInv(s) && WaiterInv(s) && step.Begin? && CanStep(s, step) && j < |s.threads|
    ensures SleepsSafely(Next(s, step), j) && WaiterOk(Next(s, step), j)
  {
    var t := Next(s, step);
    assert SleepsSafely(s, j) && WaiterOk(s, j);
    if t.threads[j].Sleeping? {
      var pc := t.threads[j];
      var k :| OwnedBy(s, pc.ip, pc.cond, pc.since, k);
      assert OwnedBy(t, pc.ip, pc.cond, pc.since, k);
    }
  }

  lemma BeginLeaders(s: State, step: Step)
    requires LeaderInv(s) && step.Begin? && CanStep(s, step)
    ensures LeaderInv(Next(s, step))
  {
    var t := Next(s, step);
    forall j | 0 <= j < |t.threads| ensures Registered(t, j) { assert Registered(s, j); }
    forall ip | ip in t.currentChecks ensures exists j :: LedBy(t, ip, j) {
      var j :| LedBy(s, ip, j);
      assert LedBy(t, ip, j);
    }
  }

  lemma BeginKept(s: State, step: Step)
    requires Inv(s) && step.Begin? && CanStep(s, step)
    ensures Inv(Next(s, step))
  {
    LockKept(s, step);
    BeginLeaders(s, step);
    forall j | 0 <= j < |s.threads| ensures SleepsSafely(Next(s, step), j) && WaiterOk(Next(s, step), j) {
      BeginOthers(s, step, j);
    }
  }

  lemma StepKept(s: State, step: Step)
    requires Inv(s) && CanStep(s, step)
    ensures Inv(Next(s, step))
  {
    match step
    case Begin(_, _) => BeginKept(s, step);
    case Move(i, status) =>
      LockKept(s, step);
      LeaderKept(s, i, status);
      SleeperKept(s, i, status);
      LogKept(s, i, status);
      forall j | 0 <= j < |s.threads| ensures WaiterOk(Next(s, step), j) {
        if j == i { OwnWaiterKept(s, i, status); } else { OtherWaiterKept(s, i, status, j); }
      }
  }

  lemma {:induction false} RunKept(s: State, steps: seq<Step>)
    requires Inv(s) && IsRun(s, steps)
    ensures Inv(After(s, steps))
    decreases |steps|
  {
    if steps == [] {
    } else {
      StepKept(s, steps[0]);
      RunKept(Next(s, steps[0]), steps[1..]);
    }
  }

  // ----- The properties of every run -----

  ghost predicate LeadsFor(s: State, ip: Ip, i: nat) {
    i < |s.threads| && Leads(s.threads[i]) && s.threads[i].ip == ip
  }

  lemma CheckedIffLed(s: State, ip: Ip)
    requires Inv(s)
    ensures ip in s.currentChecks <==> exists i :: LeadsFor(s, ip, i)
    ensures forall i: nat, j: nat :: LeadsFor(s, ip, i) && LeadsFor(s, ip, j) ==> i == j
  {
    if ip in s.currentChecks {
      var i :| LedBy(s, ip, i);
      assert LeadsFor(s, ip, i);
    }
    assert forall i: nat :: LeadsFor(s, ip, i) ==> Registered(s, i);
  }

  /**
   In every run at most one check per IP is in flight, currentChecks names an IP exactly while
   some thread leads its check, and every sleeping caller sleeps on the condition of a thread
   that leads the same IP's check and has yet to broadcast: no wake-up is lost.
   */
  lemma {:induction false} SingleFlight(n: nat, steps: seq<Step>)
    requires IsRun(Init(n), steps)
    ensures var s := After(Init(n), steps);
      && (forall ip: Ip, i: nat, j: nat :: LeadsFor(s, ip, i) && LeadsFor(s, ip, j) ==> i == j)
      && (forall ip: Ip :: ip in s.currentChecks <==> exists i :: LeadsFor(s, ip, i))
      && (forall j :: 0 <= j < |s.threads| ==> SleepsSafely(s, j))
  {
    var s := After(Init(n), steps);
    RunKept(Init(n), steps);
    forall ip: Ip ensures ip in s.currentChecks <==> exists i :: LeadsFor(s, ip, i) { CheckedIffLed(s, ip); }
    forall ip: Ip, i: nat, j: nat | LeadsFor(s, ip, i) && LeadsFor(s, ip, j) ensures i == j { CheckedIffLed(s, ip); }
  }

  /** Position `k` holds the last event about `ip`. */
  ghost predicate LastAbout(log: seq<Event>, ip: Ip, k: nat) {
    && k < |log| && log[k].ip == ip
    && forall j :: k < j < |log| ==> log[j].ip != ip
  }

  /** The last event about an IP decides what is remembered of it. */
  lemma {:induction false} RememberedLast(log: seq<Event>, ip: Ip, k: nat) returns (last: nat)
    requires k < |log| && log[k].ip == ip
    ensures k <= last && LastAbout(log, ip, last)
    ensures Remembered(log, ip) == if log[last].Completed? then Some(log[last].result) else None
  {
    if log[|log| - 1].ip == ip {
      last := |log| - 1;
    } else {
      last := RememberedLast(log[..|log| - 1], ip, k);
    }
  }

  /**
   In every run a caller that waited answers with what the history held when it read: the check
   it waited for finished after the wait began, and the answer is the result of the latest check
   since then, or the zero result because an untracking came after every such check.
   */
  lemma {:induction false} FreshAnswer(n: nat, steps: seq<Step>, i: nat)
    requires IsRun(Init(n), steps) && i < |After(Init(n), steps).threads|
    requires After(Init(n), steps).threads[i].Answered?
    ensures var s := After(Init(n), steps); var pc := s.threads[i];
      && pc.readAt <= |s.log|
      && FinishedSince(s.log[..pc.readAt], pc.ip, pc.cond, pc.since)
      && exists k :: pc.since <= k && LastAbout(s.log[..pc.readAt], pc.ip, k)
           && pc.result == match s.log[k] case Completed(_, r, _) => r case Untracked(_) => HealthResult("", map[])
  {
    var s := After(Init(n), steps);
    RunKept(Init(n), steps);
    assert WaiterOk(s, i);
    var pc := s.threads[i];
    var log := s.log[..pc.readAt];
    var f :| pc.since <= f < |log| && log[f].Completed? && log[f].ip == pc.ip && log[f].cond == pc.cond;
    var k := RememberedLast(log, pc.ip, f);
  }

  /**
   In every run a leader about to return has its own result on record, HealthState answers with
   the record (or "unchecked"), Track skips the check exactly when there is a record, and after
   an Untrack there is none.
   */
  lemma {:induction false} RecordAnswers(n: nat, steps: seq<Step>, i: nat)
    requires IsRun(Init(n), steps) && i < |After(Init(n), steps).threads|
    ensures var s := After(Init(n), steps);
      match s.threads[i]
      case Published(ip, result) => Remembered(s.log, ip) == Some(result)
      case QueryDone(ip, answer) => answer == AnswerAt(s.log, ip, HealthResult("unchecked", map[]))
      case TrackDone(ip, found) => found <==> Remembered(s.log, ip).Some?
      case UntrackDone(ip) => Remembered(s.log, ip).None?
      case _ => true
  {
    RunKept(Init(n), steps);
    assert WaiterOk(After(Init(n), steps), i);
  }

  // ----- Where results come from -----

  /** Step number `m` of the run is a move of thread `i` from `pc`. */
  ghost predicate MovesFrom(s: State, steps: seq<Step>, m: nat, i: nat, pc: Pc) {
    && m < |steps| && IsRun(s, steps[..m]) && steps[m].Move? && steps[m].i == i
    && i < |After(s, steps[..m]).threads| && After(s, steps[..m]).threads[i] == pc
  }

  /** In step number `m` of the run, GetStatus answers `r` to thread `i`, which leads the check of `ip` under `c`. */
  ghost predicate StatusAt(s: State, steps: seq<Step>, m: nat, i: nat, ip: Ip, c: Cond, r: HealthResult) {
    MovesFrom(s, steps, m, i, InFlight(ip, c)) && steps[m].status == r
  }

  lemma {:induction false} MovesLater(s: State, steps: seq<Step>, m: nat, i: nat, pc: Pc)
    requires IsRun(s, steps) && steps != [] && MovesFrom(Next(s, steps[0]), steps[1..], m, i, pc)
    ensures MovesFrom(s, steps, m + 1, i, pc) && steps[m + 1] == steps[1..][m]
  {
    assert steps[..m + 1][0] == steps[0] && steps[..m + 1][1..] == steps[1..][..m];
  }

  lemma MovesFirst(s: State, steps: seq<Step>, i: nat)
    requires IsRun(s, steps) && steps != [] && steps[0].Move? && steps[0].i == i && i < |s.threads|
    ensures MovesFrom(s, steps, 0, i, s.threads[i])
  {
    assert steps[..0] == [];
  }

  /** The thread has the answer `r` of its check of `ip` under `c` and has yet to broadcast it. */
  predicate Carries(pc: Pc, ip: Ip, c: Cond, r: HealthResult) {
    (pc.Returned? || pc.Clearing? || pc.Writing? || pc.Broadcasting?) && pc.ip == ip && pc.cond == c && pc.result == r
  }

  /** A thread carries what it carried before the step, or what GetStatus has just answered it. */
  lemma CarriedFrom(s: State, step: Step, i: nat, ip: Ip, c: Cond, r: HealthResult)
    requires CanStep(s, step) && i < |s.threads| && Carries(Next(s, step).threads[i], ip, c, r)
    ensures Carries(s.threads[i], ip, c, r) || (step == Move(i, r) && s.threads[i] == InFlight(ip, c))
  {
    if step.Move? && step.i != i { OthersKept(s, step.i, step.status, i); }
  }

  /** Over any run, what a thread carries it carried at the start or was answered by GetStatus. */
  lemma {:induction false} CarriedAnswer(s: State, steps: seq<Step>, i: nat, ip: Ip, c: Cond, r: HealthResult)
    requires IsRun(s, steps) && i < |s.threads| == |After(s, steps).threads|
    requires Carries(After(s, steps).threads[i], ip, c, r)
    ensures Carries(s.threads[i], ip, c, r) || exists m: nat :: StatusAt(s, steps, m, i, ip, c, r)
    decreases |steps|
  {
    if steps == [] {
    } else {
      var t, rest := Next(s, steps[0]), steps[1..];
      CarriedAnswer(t, rest, i, ip, c, r);
      if Carries(t.threads[i], ip, c, r) {
        CarriedFrom(s, steps[0], i, ip, c, r);
        if steps[0] == Move(i, r) && s.threads[i] == InFlight(ip, c) {
          MovesFirst(s, steps, i);
          assert StatusAt(s, steps, 0, i, ip, c, r);
        }
      } else {
        var m: nat :| StatusAt(t, rest, m, i, ip, c, r);
        MovesLater(s, steps, m, i, InFlight(ip, c));
        assert StatusAt(s, steps, m + 1, i, ip, c, r);
      }
    }
  }

  lemma {:induction false} ThreadsStay(s: State, steps: seq<Step>)
    requires IsRun(s, steps)
    ensures |After(s, steps).threads| == |s.threads|
    decreases |steps|
  {
    if steps == [] {
    } else {
      ThreadsStay(Next(s, steps[0]), steps[1..]);
    }
  }

  /** An event of the history was there at the start, or a thread wrote it in some step of the run. */
  ghost predicate Written(s: State, steps: seq<Step>, e: Event, m: nat, i: nat) {
    match e
    case Completed(ip, r, c) => MovesFrom(s, steps, m, i, Writing(ip, c, r))
    case Untracked(ip) => MovesFrom(s, steps, m, i, UntrackLocked(ip))
  }

  lemma {:induction false} EventWritten(s: State, steps: seq<Step>, e: Event)
    requires IsRun(s, steps) && e in After(s, steps).log
    ensures e in s.log || exists m: nat, i: nat :: Written(s, steps, e, m, i)
    decreases |steps|
  {
    if steps == [] {
    } else {
      var t, rest := Next(s, steps[0]), steps[1..];
      EventWritten(t, rest, e);
      if e in t.log {
        if e !in s.log {
          MovesFirst(s, steps, steps[0].i);
          assert Written(s, steps, e, 0, steps[0].i);
        }
      } else {
        var m: nat, i: nat :| Written(t, rest, e, m, i);
        var pc := match e case Completed(ip, r, c) => Writing(ip, c, r) case Untracked(ip) => UntrackLocked(ip);
        MovesLater(s, steps, m, i, pc);
        assert Written(s, steps, e, m + 1, i);
      }
    }
  }

  lemma {:induction false} StatusWithin(s: State, steps: seq<Step>, k: nat, m: nat, i: nat, ip: Ip, c: Cond,
                                        r: HealthResult)
    requires k <= |steps| && StatusAt(s, steps[..k], m, i, ip, c, r)
    ensures StatusAt(s, steps, m, i, ip, c, r)
  {
    assert steps[..k][..m] == steps[..m];
  }

  // ----- Which call a thread is in -----

  /** The last call thread `i` began in the run, if any. */
  function CallOf(steps: seq<Step>, i: nat, before: Option<Call>): Option<Call>
    decreases |steps|
  {
    if steps == [] then before
    else CallOf(steps[1..], i, if steps[0].Begin? && steps[0].i == i then Some(steps[0].call) else before)
  }

  predicate InCheck(pc: Pc) {
    pc.CheckEnter? || pc.CheckLocked? || pc.Sleeping? || pc.Woken? || pc.Reading? || pc.Answered?
    || Owns(pc) || pc.Published?
  }

  /** A thread in this call may stand here. */
  predicate Serves(call: Call, pc: Pc) {
    && !pc.Idle? && pc.ip == call.ip
    && match call
       case RunCheck(_) => InCheck(pc)
       case Track(_) => InCheck(pc) || pc.TrackEnter? || pc.TrackLocked? || pc.TrackDone?
       case Untrack(_) => pc.UntrackEnter? || pc.UntrackLocked? || pc.UntrackDone?
       case HealthState(_) => pc.QueryEnter? || pc.QueryLocked? || pc.QueryDone?
  }

  predicate Serving(call: Option<Call>, pc: Pc) {
    pc.Idle? || (call.Some? && Serves(call.value, pc))
  }

  lemma ServingNext(s: State, step: Step, i: nat, call: Option<Call>)
    requires CanStep(s, step) && i < |s.threads| && Serving(call, s.threads[i])
    ensures i < |Next(s, step).threads|
    ensures Serving(if step.Begin? && step.i == i then Some(step.call) else call, Next(s, step).threads[i])
  {
    if step.Move? && step.i != i { OthersKept(s, step.i, step.status, i); }
  }

  /** In every run a thread works on the call it last began: its own kind, and its own IP. */
  lemma {:induction false} ServesItsCall(s: State, steps: seq<Step>, i: nat, call: Option<Call>)
    requires IsRun(s, steps) && i < |s.threads| && Serving(call, s.threads[i])
    ensures i < |After(s, steps).threads| && Serving(CallOf(steps, i, call), After(s, steps).threads[i])
    decreases |steps|
  {
    if steps == [] {
    } else {
      var next := if steps[0].Begin? && steps[0].i == i then Some(steps[0].call) else call;
      ServingNext(s, steps[0], i, call);
      ServesItsCall(Next(s, steps[0]), steps[1..], i, next);
    }
  }

  /** Thread `i` is in a call that checks `ip`: RunCheck itself, or Track. */
  ghost predicate Checks(steps: seq<Step>, i: nat, ip: Ip) {
    CallOf(steps, i, None) == Some(RunCheck(ip)) || CallOf(steps, i, None) == Some(Track(ip))
  }

  lemma {:induction false} MoverServes(n: nat, steps: seq<Step>, m: nat, i: nat, pc: Pc)
    requires IsRun(Init(n), steps) && MovesFrom(Init(n), steps, m, i, pc) && !pc.Idle?
    ensures CallOf(steps[..m], i, None).Some? && Serves(CallOf(steps[..m], i, None).value, pc)
  {
    ThreadsStay(Init(n), steps[..m]);
    ServesItsCall(Init(n), steps[..m], i, None);
  }

  /**
   In every run the history holds only what happened: a finished check of `ip` carries what
   GetStatus answered, in some step, to a thread that a RunCheck or Track of `ip` had made its
   leader, and an untracking was asked for by an Untrack of that IP.
   */
  lemma {:induction false} HistoryTrue(n: nat, steps: seq<Step>, e: Event)
    requires IsRun(Init(n), steps) && e in After(Init(n), steps).log
    ensures match e
      case Completed(ip, r, c) =>
        exists m: nat, i: nat :: StatusAt(Init(n), steps, m, i, ip, c, r) && Checks(steps[..m], i, ip)
      case Untracked(ip) =>
        exists m: nat, i: nat :: MovesFrom(Init(n), steps, m, i, UntrackLocked(ip))
          && CallOf(steps[..m], i, None) == Some(Untrack(ip))
  {
    EventWritten(Init(n), steps, e);
    var k: nat, i: nat :| Written(Init(n), steps, e, k, i);
    match e
    case Completed(ip, r, c) =>
      ThreadsStay(Init(n), steps[..k]);
      CarriedAnswer(Init(n), steps[..k], i, ip, c, r);
      var m: nat :| StatusAt(Init(n), steps[..k], m, i, ip, c, r);
      StatusWithin(Init(n), steps, k, m, i, ip, c, r);
      MoverServes(n, steps, m, i, InFlight(ip, c));
    case Untracked(ip) =>
      MoverServes(n, steps, k, i, UntrackLocked(ip));
  }

  /** In every run a leader that has its answer got it from GetStatus. */
  lemma {:induction false} LeaderAnswered(n: nat, steps: seq<Step>, i: nat, ip: Ip, c: Cond, r: HealthResult)
    requires IsRun(Init(n), steps) && i < |After(Init(n), steps).threads|
    requires Carries(After(Init(n), steps).threads[i], ip, c, r)
    ensures exists m: nat :: StatusAt(Init(n), steps, m, i, ip, c, r)
  {
    ThreadsStay(Init(n), steps);
    CarriedAnswer(Init(n), steps, i, ip, c, r);
  }

  lemma LookStep(s: State, step: Step, i: nat, call: Option<Call>, ip: Ip)
    requires CanStep(s, step) && i < |s.threads| && Serving(call, s.threads[i])
    requires InCheck(Next(s, step).threads[i])
    requires (if step.Begin? && step.i == i then Some(step.call) else call) == Some(Track(ip))
    ensures call == Some(Track(ip))
    ensures InCheck(s.threads[i]) || (step.Move? && step.i == i && s.threads[i] == TrackDone(ip, false))
  {
    if step.Move? && step.i != i { OthersKept(s, step.i, step.status, i); }
  }

  /** Over any run, a thread checks for a Track call only after it looked and found no record. */
  lemma {:induction false} LooksFirst(s: State, steps: seq<Step>, i: nat, call: Option<Call>, ip: Ip)
    requires IsRun(s, steps) && i < |s.threads| == |After(s, steps).threads| && Serving(call, s.threads[i])
    requires CallOf(steps, i, call) == Some(Track(ip)) && InCheck(After(s, steps).threads[i])
    ensures (call == Some(Track(ip)) && InCheck(s.threads[i]))
      || exists m: nat :: MovesFrom(s, steps, m, i, TrackDone(ip, false))
    decreases |steps|
  {
    if steps == [] {
    } else {
      var t, rest := Next(s, steps[0]), steps[1..];
      var next := if steps[0].Begin? && steps[0].i == i then Some(steps[0].call) else call;
      ServingNext(s, steps[0], i, call);
      LooksFirst(t, rest, i, next, ip);
      if next == Some(Track(ip)) && InCheck(t.threads[i]) {
        LookStep(s, steps[0], i, call, ip);
        if !InCheck(s.threads[i]) { MovesFirst(s, steps, i); }
      } else {
        var m: nat :| MovesFrom(t, rest, m, i, TrackDone(ip, false));
        MovesLater(s, steps, m, i, TrackDone(ip, false));
      }
    }
  }

  /** In every run a Track call checks only after it looked and found no record. */
  lemma {:induction false} TrackLooksFirst(n: nat, steps: seq<Step>, i: nat, ip: Ip)
    requires IsRun(Init(n), steps) && i < |After(Init(n), steps).threads|
    requires CallOf(steps, i, None) == Some(Track(ip)) && InCheck(After(Init(n), steps).threads[i])
    ensures exists m: nat :: MovesFrom(Init(n), steps, m, i, TrackDone(ip, false))
  {
    ThreadsStay(Init(n), steps);
    LooksFirst(Init(n), steps, i, None, ip);
  }

  /** Where a call may return from. */
  predicate Ends(call: Call, pc: Pc) {
    && Serves(call, pc)
    && match call
       case RunCheck(_) => pc.Answered? || pc.Published?
       case Track(_) => pc.Answered? || pc.Published? || (pc.TrackDone? && pc.found)
       case Untrack(_) => pc.UntrackDone?
       case HealthState(_) => pc.QueryDone?
  }

  /**
   In every run a call returns only when it is done: RunCheck with the answer it waited for or
   published, Track also when it found a record but not without either, Untrack after the removal
   and HealthState with its answer.
   */
  lemma {:induction false} ReturnsWhenDone(n: nat, steps: seq<Step>, i: nat, status: HealthResult)
    requires IsRun(Init(n), steps) && Enabled(After(Init(n), steps), i)
    requires NextPc(After(Init(n), steps), i, status).Idle?
    ensures CallOf(steps, i, None).Some?
    ensures Ends(CallOf(steps, i, None).value, After(Init(n), steps).threads[i])
  {
    ThreadsStay(Init(n), steps);
    ServesItsCall(Init(n), steps, i, None);
  }

  // ----- Every call returns -----

  /** An awake thread can move unless the mutex is taken, and then the holder can. */
  lemma AwakeOrHolder(s: State, i: nat) returns (mover: nat)
    requires LockInv(s) && i < |s.threads| && !s.threads[i].Idle? && !s.threads[i].Sleeping?
    ensures Enabled(s, mover)
  {
    mover := i;
    if s.writer.Some? {
      mover := s.writer.value;
      assert HoldsWrite(s.threads[mover]);
    } else if s.readers != {} {
      mover :| mover in s.readers;
      assert HoldsRead(s.threads[mover]);
    }
  }

  lemma {:induction false} SomeoneMoves(s: State, i: nat) returns (mover: nat)
    requires Inv(s) && i < |s.threads| && !s.threads[i].Idle?
    ensures Enabled(s, mover)
  {
    var pc := s.threads[i];
    var awake: nat := i;
    assert SleepsSafely(s, i);
    if pc.Sleeping? {
      awake :| OwnedBy(s, pc.ip, pc.cond, pc.since, awake);
    }
    mover := AwakeOrHolder(s, awake);
  }

  /** In every reachable state either all threads are idle or some thread can move. */
  lemma {:induction false} Progress(n: nat, steps: seq<Step>)
    requires IsRun(Init(n), steps)
    ensures var s := After(Init(n), steps);
      (forall i :: 0 <= i < |s.threads| ==> s.threads[i].Idle?) || exists i :: Enabled(s, i)
  {
    var s := After(Init(n), steps);
    RunKept(Init(n), steps);
    if i: nat :| i < |s.threads| && !s.threads[i].Idle? {
      var mover := SomeoneMoves(s, i);
    }
  }

  /** An upper bound on the steps a thread has left in its call. */
  ghost function Rank(pc: Pc): int {
    match pc
    case Idle => 0
    case TrackEnter(_) => 13
    case TrackLocked(_) => 12
    case TrackDone(_, _) => 11
    case CheckEnter(_) => 10
    case CheckLocked(_) => 9
    case Sleeping(_, _, _) => 4
    case Woken(_, _, _) => 3
    case Reading(_, _, _) => 2
    case Answered(_, _, _, _, _) => 1
    case Installed(_, _) => 7
    case InFlight(_, _) => 6
    case Returned(_, _, _) => 5
    case Clearing(_, _, _) => 4
    case Writing(_, _, _) => 3
    case Broadcasting(_, _, _, _) => 2
    case Published(_, _) => 1
    case UntrackEnter(_) => 3
    case UntrackLocked(_) => 2
    case UntrackDone(_) => 1
    case QueryEnter(_) => 3
    case QueryLocked(_) => 2
    case QueryDone(_, _) => 1
  }

  ghost function Remaining(s: State): int {
    Total(Rank, s.threads)
  }

  lemma MoveDecreases(s: State, i: nat, status: HealthResult)
    requires Enabled(s, i)
    ensures Remaining(Advance(s, i, status)) < Remaining(s)
  {
    var t := Advance(s, i, status);
    var woken := AfterBroadcast(s, i);
    TotalMonotone(Rank, woken, s.threads);
    TotalUpdate(Rank, woken, i, NextPc(s, i, status));
    assert woken[i] == s.threads[i];
    assert Rank(NextPc(s, i, status)) < Rank(s.threads[i]);
  }

  /**
   From any state, a run in which no new call begins has at most Remaining(s) steps.  With
   Progress this says that every call returns, however the threads are scheduled.
   */
  lemma {:induction false} CallsReturn(s: State, steps: seq<Step>)
    requires IsRun(s, steps) && forall k :: 0 <= k < |steps| ==> steps[k].Move?
    ensures |steps| <= Remaining(s)
    decreases |steps|
  {
    if steps == [] {
      TotalBounds(Rank, s.threads);
    } else {
      MoveDecreases(s, steps[0].i, steps[0].status);
      CallsReturn(Next(s, steps[0]), steps[1..]);
    }
  }
}
