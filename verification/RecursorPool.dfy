/**
 The failover recursor pools, run sequentially.  `work` is outside the program, so it is a
 parameter: a world that answers the t-th work call, made to the recursor of a given name.
 */
module RecursorPool {
  import opened Sums
  import opened FailWindow
  import opened Enumeration

  const TWO_64: nat := 0x1_0000_0000_0000_0000

  datatype Outcome = Success | NetworkError | OtherError

  type World = (nat, string) -> Outcome

  // ----- Retrying one recursor -----

  /** How many work calls one recursor gets: up to the first that is no network error, at most m + 1. */
  function Attempts(world: World, clock: nat, name: string, m: nat): (used: nat)
    ensures 1 <= used <= m + 1
    ensures forall t :: clock <= t < clock + used - 1 ==> world(t, name) == NetworkError
    ensures used == m + 1 || world(clock + used - 1, name) != NetworkError
    decreases m
  {
    if m == 0 || world(clock, name) != NetworkError then 1
    else 1 + Attempts(world, clock + 1, name, m - 1)
  }

  function Answer(world: World, clock: nat, name: string, m: nat): Outcome {
    world(clock + Attempts(world, clock, name, m) - 1, name)
  }

  /** Any number of work calls that stops as the loop does is that number. */
  lemma AttemptsUnique(world: World, clock: nat, name: string, m: nat, used: nat)
    requires 1 <= used <= m + 1
    requires forall t :: clock <= t < clock + used - 1 ==> world(t, name) == NetworkError
    requires used == m + 1 || world(clock + used - 1, name) != NetworkError
    ensures used == Attempts(world, clock, name, m)
  {
    var a := Attempts(world, clock, name, m);
    if used < a { assert false; }
    if a < used { assert false; }
  }

  /** With maxRetries below zero the source never calls work and then dereferences a nil error. */
  method PerformWithRetryLogic(world: World, clock: nat, name: string, maxRetries: int)
    returns (err: Outcome, used: nat)
    requires 0 <= maxRetries
    ensures used == Attempts(world, clock, name, maxRetries)
    ensures err == world(clock + used - 1, name)
    ensures err.Success? <==> exists t :: clock <= t < clock + used && world(t, name).Success?
  {
    var ret := 0;
    err := Success;
    while ret <= maxRetries
      invariant 0 <= ret <= maxRetries + 1
      invariant forall t :: clock <= t < clock + ret ==> world(t, name) == NetworkError
      invariant ret > 0 ==> err == world(clock + ret - 1, name)
    {
      err := world(clock + ret, name);
      if err.Success? || !err.NetworkError? {
        used := ret + 1;
        AttemptsUnique(world, clock, name, maxRetries, used);
        return;
      }
      ret := ret + 1;
    }
    used := ret;
    AttemptsUnique(world, clock, name, maxRetries, used);
  }

  // ----- One call of the smart pool -----

  /** The preferred index and, for every recursor, all outcomes ever registered for it. */
  datatype Pool = Pool(preferred: nat, history: seq<seq<bool>>)

  /** A call to PerformStrategically: recursors, retries, the outside, the start time, the order of trying. */
  datatype Call = Call(names: seq<string>, maxRetries: nat, world: World, start: nat, order: seq<nat>) {
    ghost predicate Valid() {
      |order| == |names| && forall i :: 0 <= i < |order| ==> order[i] < |names|
    }
  }

  function Index(i: nat, offset: nat, n: nat): (index: nat)
    requires 0 < n
    ensures index < n
  {
    ((i + offset) % TWO_64) % n
  }

  /** The order in which a call tries `n` recursors when it starts at `offset`. */
  ghost function Order(offset: nat, n: nat): (order: seq<nat>)
    ensures |order| == n && forall i :: 0 <= i < n ==> order[i] == Index(i, offset, n) && order[i] < n
  {
    seq(n, i requires 0 <= i < n => Index(i, offset, n))
  }

  function Repeat(index: nat, k: nat): (s: seq<nat>)
    ensures |s| == k && forall j :: 0 <= j < k ==> s[j] == index
  {
    seq(k, _ => index)
  }

  /** The recursor of every work call made for the first `i` recursors tried. */
  ghost function WorkCalls(c: Call, i: nat): (calls: seq<nat>)
    requires c.Valid() && i <= |c.names|
    ensures forall k :: 0 <= k < |calls| ==> calls[k] < |c.names|
    decreases i, 0
  {
    if i == 0 then []
    else
      var index := c.order[i - 1];
      WorkCalls(c, i - 1) + Repeat(index, Attempts(c.world, Clock(c, i - 1), c.names[index], c.maxRetries))
  }

  /** The time at which the i-th recursor is tried. */
  ghost function Clock(c: Call, i: nat): nat
    requires c.Valid() && i <= |c.names|
    decreases i, 1
  {
    c.start + |WorkCalls(c, i)|
  }

  /** Whether the i-th recursor tried answers. */
  ghost predicate Answers(c: Call, i: nat)
    requires c.Valid() && i < |c.names|
  {
    Answer(c.world, Clock(c, i), c.names[c.order[i]], c.maxRetries).Success?
  }

  ghost predicate NoneAnswered(c: Call, i: nat)
    requires c.Valid() && i <= |c.names|
  {
    i == 0 || (NoneAnswered(c, i - 1) && !Answers(c, i - 1))
  }

  ghost function Registered(p: Pool, index: nat, failed: bool): Pool
    requires index < |p.history|
  {
    p.(history := p.history[index := p.history[index] + [failed]])
  }

  /** shiftPreference, when the first recursor tried has failed too often lately. */
  ghost function Shifted(p: Pool, i: nat, index: nat): Pool
    requires index < |p.history|
  {
    if i == 0 && Fails(Window(p.history[index])) >= FAIL_HISTORY_THRESHOLD
    then p.(preferred := (p.preferred + 1) % TWO_64) else p
  }

  /** The pool after the i-th recursor tried, number `index`, has failed or not. */
  ghost function Tried(p: Pool, i: nat, index: nat, ok: bool): Pool
    requires index < |p.history|
  {
    if ok then Registered(p, index, false) else Shifted(Registered(p, index, true), i, index)
  }

  /** The pool after the first `i` recursors tried have all failed. */
  ghost function AllFailed(c: Call, p: Pool, i: nat): (q: Pool)
    requires c.Valid() && i <= |c.names| == |p.history|
    ensures |q.history| == |c.names|
  {
    if i == 0 then p else Tried(AllFailed(c, p, i - 1), i - 1, c.order[i - 1], false)
  }

  /** The first `i` recursors were tried, none answered, and the call stands at pool `q` and time `clock`. */
  ghost predicate AllTried(c: Call, p: Pool, i: nat, q: Pool, clock: nat) {
    && c.Valid() && i <= |c.names| == |p.history|
    && NoneAnswered(c, i) && q == AllFailed(c, p, i) && clock == Clock(c, i)
  }

  /** What a call leaves behind: the pool, the number of recursors tried, the answer and the time. */
  datatype Result = Result(pool: Pool, tried: nat, ok: bool, clock: nat)

  ghost predicate IsResult(c: Call, p: Pool, r: Result) {
    if r.ok then
      && c.Valid() && 0 < r.tried <= |c.names| == |p.history|
      && NoneAnswered(c, r.tried - 1) && Answers(c, r.tried - 1) && r.clock == Clock(c, r.tried)
      && r.pool == Tried(AllFailed(c, p, r.tried - 1), r.tried - 1, c.order[r.tried - 1], true)
    else
      r.tried == |c.names| && AllTried(c, p, r.tried, r.pool, r.clock)
  }

  // ----- The pool as objects -----

  /** One recursor: a channel of outcomes, and a counter kept beside it. */
  class Recursor {
    const name: string
    var failBuffer: seq<bool>
    var failCount: int
    ghost var history: seq<bool>

    ghost predicate Valid()
      reads this
    {
      failBuffer == Window(history) && failCount == Fails(failBuffer)
    }

    constructor (name: string)
      ensures Valid() && this.name == name && history == []
    {
      this.name := name;
      failBuffer := NoFailures();
      failCount := 0;
      history := [];
      assert NoFailures() + [] == NoFailures();
      NoFailuresCount();
    }

    /** Take the oldest outcome out, put the new one in, and adjust the counter by the difference. */
    method RegisterResult(wasError: bool) returns (failures: int)
      requires Valid()
      modifies this
      ensures Valid() && history == old(history) + [wasError]
      ensures failures == failCount == Fails(Window(history))
    {
      var oldest := failBuffer[0];
      failBuffer := failBuffer[1..] + [wasError];
      var change := 0;
      if oldest { change := change - 1; }
      if wasError { change := change + 1; }
      FailsShift(old(failBuffer), wasError);
      WindowShift(history, wasError);
      history := history + [wasError];
      failCount := failCount + change;
      failures := failCount;
    }
  }

  class SmartPool {
    var preferredRecursorIndex: nat
    const recursors: seq<Recursor>
    const names: seq<string>
    const maxRetries: nat
    ghost var contents: Pool

    ghost predicate Valid()
      reads this, recursors
    {
      && preferredRecursorIndex < TWO_64 && |recursors| < TWO_64
      && contents.preferred == preferredRecursorIndex
      && |names| == |contents.history| == |recursors|
      && Distinct(recursors)
      && forall i :: 0 <= i < |recursors| ==>
           recursors[i].Valid() && recursors[i].history == contents.history[i] && recursors[i].name == names[i]
    }

    constructor (recursors: seq<Recursor>, maxRetries: nat)
      requires |recursors| < TWO_64
      requires Distinct(recursors)
      requires forall i :: 0 <= i < |recursors| ==> recursors[i].Valid() && recursors[i].history == []
      ensures Valid() && this.recursors == recursors && this.maxRetries == maxRetries
      ensures contents == Fresh(|recursors|)
    {
      this.recursors := recursors;
      this.maxRetries := maxRetries;
      names := seq(|recursors|, i requires 0 <= i < |recursors| => recursors[i].name);
      preferredRecursorIndex := 0;
      contents := Fresh(|recursors|);
    }

    /** registerResult on one recursor leaves the others alone. */
    method Register(index: nat, wasError: bool) returns (failures: int)
      requires Valid() && index < |recursors|
      modifies this`contents, recursors
      ensures Valid() && contents == Registered(old(contents), index, wasError)
      ensures failures == Fails(Window(contents.history[index]))
    {
      failures := recursors[index].RegisterResult(wasError);
      contents := Registered(contents, index, wasError);
    }

    method ShiftPreference()
      requires Valid()
      modifies this
      ensures Valid() && contents == old(contents).(preferred := (old(contents).preferred + 1) % TWO_64)
    {
      preferredRecursorIndex := (preferredRecursorIndex + 1) % TWO_64;
      contents := contents.(preferred := preferredRecursorIndex);
    }

    /** One turn of the loop in PerformStrategically. */
    method TryOne(world: World, clock: nat, i: nat, index: nat) returns (ok: bool, used: nat)
      requires Valid() && index < |recursors|
      modifies this, recursors
      ensures Valid()
      ensures used == Attempts(world, clock, names[index], maxRetries)
      ensures ok == Answer(world, clock, names[index], maxRetries).Success?
      ensures contents == Tried(old(contents), i, index, ok)
    {
      var err;
      err, used := PerformWithRetryLogic(world, clock, recursors[index].name, maxRetries);
      ok := err.Success?;
      var failures := Register(index, !ok);
      if !ok && i == 0 && failures >= FAIL_HISTORY_THRESHOLD {
        ShiftPreference();
      }
    }

    /** The same turn, in terms of the whole call. */
    method TryNth(world: World, clock: nat, offset: nat, i: nat, ghost c: Call, ghost p: Pool)
      returns (ok: bool, later: nat)
      requires Valid() && i < |recursors|
      requires c == Call(names, maxRetries, world, c.start, Order(offset, |names|)) && |p.history| == |names|
      requires AllTried(c, p, i, contents, clock)
      modifies this, recursors
      ensures Valid()
      ensures ok ==> IsResult(c, p, Result(contents, i + 1, true, later))
      ensures !ok ==> AllTried(c, p, i + 1, contents, later)
    {
      var used;
      ok, used := TryOne(world, clock, i, Index(i, offset, |recursors|));
      later := clock + used;
    }

    /** The loop of PerformStrategically. */
    method TryAll(world: World, start: nat, offset: nat, ghost c: Call) returns (ok: bool, clock: nat, ghost r: Result)
      requires Valid() && c == Call(names, maxRetries, world, start, Order(offset, |names|))
      modifies this, recursors
      ensures Valid() && IsResult(c, old(contents), r)
      ensures contents == r.pool && ok == r.ok && clock == r.clock
    {
      ghost var p := contents;
      ok, clock := false, start;
      NothingTried(c, p);
      for i := 0 to |recursors|
        invariant Valid() && !ok && AllTried(c, p, i, contents, clock)
      {
        ok, clock := TryNth(world, clock, offset, i, c, p);
        if ok {
          r := Result(contents, i + 1, true, clock);
          return;
        }
      }
      r := Result(contents, |recursors|, false, clock);
      GaveUp(c, p, r);
    }

    method PerformStrategically(world: World, start: nat) returns (ok: bool, clock: nat, ghost r: Result)
      requires Valid()
      modifies this, recursors
      ensures Valid()
      ensures IsResult(Call(names, maxRetries, world, start, Order(old(contents).preferred, |names|)), old(contents), r)
      ensures contents == r.pool && ok == r.ok && clock == r.clock
    {
      var offset := preferredRecursorIndex;
      ok, clock, r := TryAll(world, start, offset, Call(names, maxRetries, world, start, Order(offset, |names|)));
    }
  }

  lemma NothingTried(c: Call, p: Pool)
    requires c.Valid() && |c.names| == |p.history|
    ensures AllTried(c, p, 0, p, c.start)
  {
  }

  lemma GaveUp(c: Call, p: Pool, r: Result)
    requires AllTried(c, p, |c.names|, r.pool, r.clock) && !r.ok && r.tried == |c.names|
    ensures IsResult(c, p, r)
  {
  }

  /** A new pool of `n` recursors. */
  ghost function Fresh(n: nat): Pool {
    Pool(0, seq(n, _ => []))
  }

  // ----- What one call does -----

  /** Some work call made for the first `i` recursors tried succeeded. */
  ghost predicate SomeSuccess(c: Call, i: nat)
    requires c.Valid() && i <= |c.names|
  {
    exists t: nat :: WorkSucceeds(c, i, t)
  }

  /** Work call number `t` of the call, made for one of the first `i` recursors tried, succeeded. */
  ghost predicate WorkSucceeds(c: Call, i: nat, t: nat)
    requires c.Valid() && i <= |c.names|
  {
    t < |WorkCalls(c, i)| && c.world(c.start + t, c.names[WorkCalls(c, i)[t]]).Success?
  }

  lemma {:induction false} WorkCallsNext(c: Call, i: nat)
    requires c.Valid() && i < |c.names|
    ensures var used := Attempts(c.world, Clock(c, i), c.names[c.order[i]], c.maxRetries);
      WorkCalls(c, i + 1) == WorkCalls(c, i) + Repeat(c.order[i], used)
  {
  }

  /** A success among the first `i` recursors' work calls, or an answer of the next, is a success one further. */
  lemma {:induction false} SuccessGrows(c: Call, i: nat)
    requires c.Valid() && i < |c.names| && (SomeSuccess(c, i) || Answers(c, i))
    ensures SomeSuccess(c, i + 1)
  {
    WorkCallsNext(c, i);
    if SomeSuccess(c, i) {
      var t: nat :| WorkSucceeds(c, i, t);
      assert WorkSucceeds(c, i + 1, t);
    } else {
      var used := Attempts(c.world, Clock(c, i), c.names[c.order[i]], c.maxRetries);
      assert WorkSucceeds(c, i + 1, |WorkCalls(c, i)| + used - 1);
    }
  }

  /** And such a success is one or the other. */
  lemma {:induction false} SuccessSplits(c: Call, i: nat)
    requires c.Valid() && i < |c.names| && SomeSuccess(c, i + 1)
    ensures SomeSuccess(c, i) || Answers(c, i)
  {
    WorkCallsNext(c, i);
    var used := Attempts(c.world, Clock(c, i), c.names[c.order[i]], c.maxRetries);
    var w := WorkCalls(c, i);
    var t: nat :| WorkSucceeds(c, i + 1, t);
    if t < |w| {
      assert WorkSucceeds(c, i, t);
    } else {
      assert WorkCalls(c, i + 1)[t] == c.order[i];
      assert t == |w| + used - 1;
    }
  }

  /** The work calls of one more recursor succeed exactly when that recursor answers. */
  lemma {:induction false} SuccessStep(c: Call, i: nat)
    requires c.Valid() && i < |c.names|
    ensures SomeSuccess(c, i + 1) <==> SomeSuccess(c, i) || Answers(c, i)
  {
    if SomeSuccess(c, i) || Answers(c, i) { SuccessGrows(c, i); }
    if SomeSuccess(c, i + 1) { SuccessSplits(c, i); }
  }

  lemma {:induction false} SuccessMeansAnswer(c: Call, i: nat)
    requires c.Valid() && i <= |c.names|
    ensures SomeSuccess(c, i) <==> !NoneAnswered(c, i)
  {
    if i == 0 {
      assert WorkCalls(c, 0) == [];
    } else {
      SuccessMeansAnswer(c, i - 1);
      SuccessStep(c, i - 1);
    }
  }

  lemma {:induction false} WorkBounded(c: Call, i: nat)
    requires c.Valid() && i <= |c.names|
    ensures |WorkCalls(c, i)| <= i * (c.maxRetries + 1)
  {
    if i == 0 {
    } else {
      WorkBounded(c, i - 1);
      assert i * (c.maxRetries + 1) == (i - 1) * (c.maxRetries + 1) + (c.maxRetries + 1);
    }
  }

  lemma MulMonotone(a: nat, b: nat, k: nat)
    requires a <= b
    ensures a * k <= b * k
  {
  }

  /** A call succeeds iff one of its work calls did, and makes at most n * (maxRetries + 1) of them. */
  lemma {:induction false} CallOutcome(c: Call, p: Pool, r: Result)
    requires IsResult(c, p, r)
    ensures r.ok <==> SomeSuccess(c, r.tried)
    ensures r.clock == c.start + |WorkCalls(c, r.tried)|
    ensures |WorkCalls(c, r.tried)| <= |c.names| * (c.maxRetries + 1)
    ensures !r.ok ==> r.tried == |c.names|
  {
    SuccessMeansAnswer(c, r.tried);
    WorkBounded(c, r.tried);
    MulMonotone(r.tried, |c.names|, c.maxRetries + 1);
  }

  lemma ModDistinct(a: nat, b: nat, n: nat)
    requires a < b < a + n
    ensures a % n != b % n
  {
    var k := b / n - a / n;
    assert b - a == k * n + (b % n - a % n) by {
      assert a == a / n * n + a % n && b == b / n * n + b % n;
      assert k * n == b / n * n - a / n * n;
    }
    if k <= 0 { assert k * n <= 0; } else { assert n <= k * n; }
  }

  lemma SmallMod(x: nat, m: nat)
    requires x < m
    ensures x % m == x
  {
  }

  lemma IndexUnwrapped(i: nat, offset: nat, n: nat)
    requires 0 < n && i + offset < TWO_64
    ensures Index(i, offset, n) == (offset + i) % n
  {
    SmallMod(i + offset, TWO_64);
  }

  lemma IndexFromFront(i: nat, offset: nat, n: nat)
    requires i + offset < n <= TWO_64
    ensures Index(i, offset, n) == offset + i
  {
    SmallMod(i + offset, TWO_64);
    SmallMod(i + offset, n);
  }

  /** As long as the index does not wrap, a call tries each recursor once, in cyclic order. */
  lemma CyclicOrder(offset: nat, n: nat)
    requires offset + n <= TWO_64
    ensures forall i :: 0 <= i < n ==> Order(offset, n)[i] == (offset + i) % n
    ensures Distinct(Order(offset, n))
  {
    forall i | 0 <= i < n ensures Order(offset, n)[i] == (offset + i) % n {
      IndexUnwrapped(i, offset, n);
    }
    forall i, j | 0 <= i < j < n ensures Order(offset, n)[i] != Order(offset, n)[j] {
      ModDistinct(offset + i, offset + j, n);
    }
  }

  /** Adding a multiple of the modulus. */
  lemma AddMultiple(x: nat, k: nat, n: nat)
    requires 0 < n
    ensures (x + k * n) % n == x % n
  {
    var q, q' := x / n, (x + k * n) / n;
    var r, r' := x % n, (x + k * n) % n;
    assert x == q * n + r && x + k * n == q' * n + r';
    var d := q + k - q';
    assert d * n == r' - r by { assert d * n == q * n + k * n - q' * n; }
    ProductApart(d, n);
  }

  lemma ProductApart(d: int, n: int)
    requires 0 < n
    ensures d >= 1 ==> d * n >= n
    ensures d <= -1 ==> d * n <= -n
  {
  }

  /** The index at or after the wrap: it starts again at recursor 0. */
  lemma IndexWrapped(i: nat, offset: nat, n: nat)
    requires 0 < n <= TWO_64 && offset < TWO_64 <= offset + i && i < n
    ensures Index(i, offset, n) == i - (TWO_64 - offset)
  {
    var x := offset + i - TWO_64;
    AddMultiple(x, 1, TWO_64);
    SmallMod(x, TWO_64);
    SmallMod(x, n);
  }

  /** When the wrap falls inside a call and the pool's size does not divide 2^64, two tries go to one recursor. */
  lemma WrapRepeats(offset: nat, n: nat) returns (i: nat, j: nat)
    requires 0 < n <= TWO_64 && offset < TWO_64 < offset + n && TWO_64 % n != 0
    ensures i < j < n && Index(i, offset, n) == Index(j, offset, n)
  {
    var w, rest, k := TWO_64 - offset, TWO_64 % n, TWO_64 / n;
    assert TWO_64 == k * n + rest;
    if rest <= w {
      i, j := w - rest, w;
      IndexUnwrapped(i, offset, n);
      AddMultiple(0, k, n);
    } else {
      i, j := 0, rest;
      IndexUnwrapped(i, offset, n);
      AddMultiple(rest - w, k, n);
      SmallMod(rest - w, n);
    }
    IndexWrapped(j, offset, n);
  }

  /** When the pool's size divides 2^64, the wrap does not show. */
  lemma WrapHidden(i: nat, offset: nat, n: nat)
    requires 0 < n <= TWO_64 && offset < TWO_64 && i < n && TWO_64 % n == 0
    ensures Index(i, offset, n) == (offset + i) % n
  {
    if offset + i < TWO_64 {
      IndexUnwrapped(i, offset, n);
    } else {
      IndexWrapped(i, offset, n);
      ModWrapped(offset + i - TWO_64, TWO_64, n);
    }
  }

  lemma ModWrapped(x: nat, m: nat, n: nat)
    requires x < n && m % n == 0
    ensures (x + m) % n == x
  {
    AddMultiple(x, m / n, n);
    SmallMod(x, n);
  }

  /**
   A call tries each recursor once exactly when the 64-bit index does not wrap within the call,
   or wraps in a pool whose size divides 2^64; and then it tries them in cyclic order.
   */
  lemma {:induction false} CyclicExact(offset: nat, n: nat)
    requires 0 < n <= TWO_64 && offset < TWO_64
    ensures Distinct(Order(offset, n)) <==> offset + n <= TWO_64 || TWO_64 % n == 0
    ensures Distinct(Order(offset, n)) ==> forall i :: 0 <= i < n ==> Order(offset, n)[i] == (offset + i) % n
  {
    if offset + n <= TWO_64 {
      CyclicOrder(offset, n);
    } else if TWO_64 % n == 0 {
      forall i | 0 <= i < n ensures Order(offset, n)[i] == (offset + i) % n { WrapHidden(i, offset, n); }
      forall i, j | 0 <= i < j < n ensures Order(offset, n)[i] != Order(offset, n)[j] {
        ModDistinct(offset + i, offset + j, n);
      }
    } else {
      var i, j := WrapRepeats(offset, n);
      assert Order(offset, n)[i] == Order(offset, n)[j];
    }
  }

  /** The last index before the wrap, in a pool of three: recursor 0 is tried twice and recursor 2 never. */
  lemma WrapTriesTwice()
    ensures Order(TWO_64 - 1, 3) == [0, 0, 1]
    ensures !Distinct(Order(TWO_64 - 1, 3))
  {
    var order := Order(TWO_64 - 1, 3);
    assert order[0] == Index(0, TWO_64 - 1, 3) && order[1] == Index(1, TWO_64 - 1, 3);
    assert order[2] == Index(2, TWO_64 - 1, 3);
    assert order == [0, 0, 1];
    assert order[0] == order[1];
  }

  /** A recursor that is not tried gets no outcome. */
  lemma {:induction false} FailedUntouched(c: Call, p: Pool, i: nat, x: nat)
    requires c.Valid() && i <= |c.names| == |p.history| && x < |c.names|
    requires x !in c.order[..i]
    ensures AllFailed(c, p, i).history[x] == p.history[x]
  {
    if i == 0 {
    } else {
      assert c.order[..i] == c.order[..i - 1] + [c.order[i - 1]];
      FailedUntouched(c, p, i - 1, x);
    }
  }

  /** A recursor tried once gets one failure. */
  lemma {:induction false} FailedOnce(c: Call, p: Pool, i: nat, j: nat)
    requires c.Valid() && j < i <= |c.names| == |p.history| && Distinct(c.order[..i])
    ensures AllFailed(c, p, i).history[c.order[j]] == p.history[c.order[j]] + [true]
  {
    var tried := c.order[..i];
    if j == i - 1 {
      assert forall k :: 0 <= k < i - 1 ==> tried[k] != tried[j];
      FailedUntouched(c, p, i - 1, c.order[j]);
    } else {
      assert tried[j] != tried[i - 1];
      assert Distinct(c.order[..i - 1]) by { assert forall k :: 0 <= k < i - 1 ==> c.order[..i - 1][k] == tried[k]; }
      FailedOnce(c, p, i - 1, j);
    }
  }

  /** Failures are registered for exactly the recursors tried, once each. */
  lemma {:induction false} AllFailedHistory(c: Call, p: Pool, i: nat)
    requires c.Valid() && Distinct(c.order) && i <= |c.names| == |p.history|
    ensures var q := AllFailed(c, p, i);
      && (forall j :: 0 <= j < i ==> q.history[c.order[j]] == p.history[c.order[j]] + [true])
      && (forall j :: i <= j < |c.order| ==> q.history[c.order[j]] == p.history[c.order[j]])
  {
    forall j | 0 <= j < i ensures AllFailed(c, p, i).history[c.order[j]] == p.history[c.order[j]] + [true] {
      FailedOnce(c, p, i, j);
    }
    forall j | i <= j < |c.order| ensures AllFailed(c, p, i).history[c.order[j]] == p.history[c.order[j]] {
      FailedUntouched(c, p, i, c.order[j]);
    }
  }

  /** A call registers one outcome for each recursor it tries: failures, then the success if any. */
  lemma CallHistory(c: Call, p: Pool, r: Result)
    requires IsResult(c, p, r) && Distinct(c.order)
    ensures |r.pool.history| == |c.names|
    ensures forall j :: 0 <= j < r.tried ==>
      r.pool.history[c.order[j]] == p.history[c.order[j]] + [!(r.ok && j == r.tried - 1)]
    ensures forall j :: r.tried <= j < |c.order| ==> r.pool.history[c.order[j]] == p.history[c.order[j]]
  {
    AllFailedHistory(c, p, if r.ok then r.tried - 1 else r.tried);
  }

  /** The preference moves by one, and only when the first recursor tried has just failed too often. */
  lemma {:induction false} AllFailedPreference(c: Call, p: Pool, i: nat)
    requires c.Valid() && i <= |c.names| == |p.history|
    ensures AllFailed(c, p, i).preferred ==
      if i > 0 && Fails(Window(p.history[c.order[0]] + [true])) >= FAIL_HISTORY_THRESHOLD
      then (p.preferred + 1) % TWO_64 else p.preferred
  {
    if i > 1 { AllFailedPreference(c, p, i - 1); }
  }

  /** The preference after a call that succeeded. */
  lemma {:induction false} SuccessPreference(c: Call, p: Pool, r: Result)
    requires IsResult(c, p, r) && r.ok
    ensures c.Valid() && 0 < r.tried <= |c.names| == |p.history|
    ensures r.pool.preferred ==
      if r.tried > 1 && Fails(Window(p.history[c.order[0]] + [true])) >= FAIL_HISTORY_THRESHOLD
      then (p.preferred + 1) % TWO_64 else p.preferred
  {
    AllFailedPreference(c, p, r.tried - 1);
  }

  // ----- Runs of calls, one after the other -----

  /** The recursors, the retries and the outside: what stays the same through a run. */
  datatype Site = Site(names: seq<string>, maxRetries: nat, world: World)

  ghost function CallAt(site: Site, p: Pool, clock: nat): Call {
    Call(site.names, site.maxRetries, site.world, clock, Order(p.preferred, |site.names|))
  }

  ghost predicate IsRun(site: Site, p: Pool, clock: nat, results: seq<Result>)
    decreases |results|
  {
    results == [] || (IsResult(CallAt(site, p, clock), p, results[0])
                      && IsRun(site, results[0].pool, results[0].clock, results[1..]))
  }

  ghost predicate AnswersAt(site: Site, j: nat, t: nat)
    requires j < |site.names|
  {
    site.world(t, site.names[j]).Success?
  }

  ghost predicate AlwaysAnswers(site: Site, h: nat) {
    h < |site.names| && forall t: nat :: AnswersAt(site, h, t)
  }

  ghost predicate NeverAnswers(site: Site, j: nat) {
    j < |site.names| && forall t: nat :: !AnswersAt(site, j, t)
  }

  /** The preference after the first `k` calls. */
  ghost function PreferredAt(p: Pool, results: seq<Result>, k: nat): nat
    requires k <= |results|
  {
    if k == 0 then p.preferred else results[k - 1].pool.preferred
  }

  /** A call that starts at `offset` and tries `tried` recursors tries none after number `h`. */
  ghost predicate OnlyUpTo(site: Site, offset: nat, tried: nat, h: nat) {
    tried <= |site.names| && forall i :: 0 <= i < tried ==> Order(offset, |site.names|)[i] == offset + i <= h
  }

  lemma {:induction false} NoneAnsweredBefore(c: Call, i: nat, k: nat)
    requires c.Valid() && k < i <= |c.names| && NoneAnswered(c, i)
    ensures !Answers(c, k)
  {
    if k < i - 1 { NoneAnsweredBefore(c, i - 1, k); }
  }

  lemma {:induction false} AnswersOf(site: Site, c: Call, i: nat)
    requires c.Valid() && i < |c.names| && c.names == site.names && c.world == site.world
    ensures AlwaysAnswers(site, c.order[i]) ==> Answers(c, i)
    ensures NeverAnswers(site, c.order[i]) ==> !Answers(c, i)
  {
    var used := Attempts(c.world, Clock(c, i), c.names[c.order[i]], c.maxRetries);
    assert AnswersAt(site, c.order[i], Clock(c, i) + used - 1) == Answers(c, i);
  }

  /** A call stops no later than at a recursor that would answer. */
  lemma {:induction false} StopsBy(c: Call, p: Pool, r: Result, k: nat)
    requires IsResult(c, p, r) && k < |c.names| && Answers(c, k)
    ensures r.ok && r.tried <= k + 1
  {
    if !r.ok {
      NoneAnsweredBefore(c, r.tried, k);
    } else if r.tried > k + 1 {
      NoneAnsweredBefore(c, r.tried - 1, k);
    }
  }

  /** Counted from a preference not beyond it, a recursor that always answers does so at its turn. */
  lemma {:induction false} AnswersAtItsTurn(site: Site, p: Pool, clock: nat, h: nat)
    requires |site.names| <= TWO_64 && AlwaysAnswers(site, h) && p.preferred <= h
    ensures CallAt(site, p, clock).Valid() && Answers(CallAt(site, p, clock), h - p.preferred)
  {
    var c := CallAt(site, p, clock);
    IndexFromFront(h - p.preferred, p.preferred, |site.names|);
    assert c.order[h - p.preferred] == h;
    AnswersOf(site, c, h - p.preferred);
  }

  /** One call, with recursor `h` always answering and the preference not beyond it. */
  lemma {:induction false} CallStopsAt(site: Site, p: Pool, clock: nat, r: Result, h: nat)
    requires |site.names| <= TWO_64 && AlwaysAnswers(site, h) && p.preferred <= h
    requires IsResult(CallAt(site, p, clock), p, r)
    ensures r.ok && r.tried <= h - p.preferred + 1
  {
    AnswersAtItsTurn(site, p, clock, h);
    StopsBy(CallAt(site, p, clock), p, r, h - p.preferred);
  }

  lemma TriedUpTo(site: Site, offset: nat, tried: nat, h: nat)
    requires h < |site.names| <= TWO_64 && offset <= h && tried <= h - offset + 1
    ensures OnlyUpTo(site, offset, tried, h)
  {
    forall i | 0 <= i < tried ensures Order(offset, |site.names|)[i] == offset + i {
      IndexFromFront(i, offset, |site.names|);
    }
  }

  /** The preference moves at most to the next recursor, and only past one that failed. */
  lemma {:induction false} PreferenceMoves(site: Site, p: Pool, clock: nat, r: Result, h: nat)
    requires |site.names| <= TWO_64 && h < |site.names| && p.preferred <= h
    requires IsResult(CallAt(site, p, clock), p, r) && r.ok && r.tried <= h - p.preferred + 1
    ensures p.preferred <= r.pool.preferred <= h
  {
    SuccessPreference(CallAt(site, p, clock), p, r);
    if r.tried > 1 { SmallMod(p.preferred + 1, TWO_64); }
  }

  /**
   Over any run of calls, if recursor `h` always answers and the preference starts at or before
   it, every call succeeds, the preference never goes back and never passes `h`, and no recursor
   after `h` is tried.
   */
  lemma {:induction false} NeverPasses(site: Site, p: Pool, clock: nat, results: seq<Result>, h: nat)
    requires |site.names| <= TWO_64 && AlwaysAnswers(site, h) && p.preferred <= h
    requires IsRun(site, p, clock, results)
    ensures forall k :: 0 <= k <= |results| ==> PreferredAt(p, results, k) <= h
    ensures forall k :: 0 <= k < |results| ==> PreferredAt(p, results, k) <= PreferredAt(p, results, k + 1)
    ensures forall k :: 0 <= k < |results| ==>
      results[k].ok && OnlyUpTo(site, PreferredAt(p, results, k), results[k].tried, h)
    decreases |results|
  {
    if results == [] {
    } else {
      CallStopsAt(site, p, clock, results[0], h);
      TriedUpTo(site, p.preferred, results[0].tried, h);
      PreferenceMoves(site, p, clock, results[0], h);
      var rest := results[1..];
      NeverPasses(site, results[0].pool, results[0].clock, rest, h);
      assert forall k :: 1 <= k <= |results| ==>
        PreferredAt(p, results, k) == PreferredAt(results[0].pool, rest, k - 1);
      assert forall k :: 1 <= k < |results| ==> results[k] == rest[k - 1];
    }
  }

  /** How many calls of a run changed the preference. */
  ghost function Shifts(p: Pool, results: seq<Result>): nat
    decreases |results|
  {
    if results == [] then 0
    else (if results[0].pool.preferred != p.preferred then 1 else 0) + Shifts(results[0].pool, results[1..])
  }

  /**
   However the other recursors behave, a run with recursor `h` always answering changes the
   preference at most `h` times in all, its length notwithstanding: from then on it is settled.
   */
  lemma {:induction false} ShiftsBounded(site: Site, p: Pool, clock: nat, results: seq<Result>, h: nat)
    requires |site.names| <= TWO_64 && AlwaysAnswers(site, h) && p.preferred <= h
    requires IsRun(site, p, clock, results)
    ensures Shifts(p, results) <= h - p.preferred
    decreases |results|
  {
    if results == [] {
    } else {
      CallStopsAt(site, p, clock, results[0], h);
      PreferenceMoves(site, p, clock, results[0], h);
      ShiftsBounded(site, results[0].pool, results[0].clock, results[1..], h);
    }
  }

  // ----- Settling -----

  function Failures(k: nat): (s: seq<bool>)
    ensures |s| == k && forall j :: 0 <= j < k ==> s[j]
  {
    seq(k, _ => true)
  }

  /** A recursor that has only ever failed is over the threshold from its fifth failure on. */
  lemma OnlyFailures(k: nat)
    ensures Fails(Window(Failures(k))) == if k < FAIL_HISTORY_LENGTH then k else FAIL_HISTORY_LENGTH
  {
    var w := Window(Failures(k));
    if k < FAIL_HISTORY_LENGTH {
      assert w == NoFailures()[k..] + Failures(k);
      TotalConcat(Bit, NoFailures()[k..], Failures(k));
      TotalConstant(Bit, NoFailures()[k..], 0);
      TotalConstant(Bit, Failures(k), 1);
    } else {
      TotalConstant(Bit, w, 1);
    }
  }

  /** Where the preference stands after `k` calls when recursor `h` is the first that answers. */
  ghost function SettledAt(h: nat, k: nat): nat {
    if k < FAIL_HISTORY_THRESHOLD then 0
    else if k - (FAIL_HISTORY_THRESHOLD - 1) < h then k - (FAIL_HISTORY_THRESHOLD - 1) else h
  }

  ghost predicate FirstAnswering(site: Site, h: nat) {
    && |site.names| <= TWO_64
    && AlwaysAnswers(site, h) && forall j :: 0 <= j < h ==> NeverAnswers(site, j)
  }

  ghost predicate Settling(site: Site, p: Pool, h: nat, k: nat) {
    && |p.history| == |site.names| && h < |site.names| && p.preferred == SettledAt(h, k)
    && forall j :: p.preferred <= j < h ==> p.history[j] == Failures(k)
  }

  /** Such a call fails at every recursor from the preferred one up to `h`, and succeeds there. */
  lemma {:induction false} CallReaches(site: Site, p: Pool, clock: nat, r: Result, h: nat)
    requires FirstAnswering(site, h) && p.preferred <= h
    requires IsResult(CallAt(site, p, clock), p, r)
    ensures r.ok && r.tried == h - p.preferred + 1
  {
    CallStopsAt(site, p, clock, r, h);
    var c := CallAt(site, p, clock);
    var last := r.tried - 1;
    IndexFromFront(last, p.preferred, |site.names|);
    if p.preferred + last < h {
      assert NeverAnswers(site, p.preferred + last);
      AnswersOf(site, c, last);
      assert false;
    }
  }

  lemma {:induction false} SettlingPreference(site: Site, p: Pool, clock: nat, r: Result, h: nat, k: nat)
    requires FirstAnswering(site, h) && Settling(site, p, h, k)
    requires IsResult(CallAt(site, p, clock), p, r) && r.ok && r.tried == h - p.preferred + 1
    ensures r.pool.preferred == SettledAt(h, k + 1)
  {
    SuccessPreference(CallAt(site, p, clock), p, r);
    if p.preferred < h {
      IndexFromFront(0, p.preferred, |site.names|);
      assert CallAt(site, p, clock).order[0] == p.preferred;
      assert p.history[p.preferred] + [true] == Failures(k + 1);
      OnlyFailures(k + 1);
      SmallMod(p.preferred + 1, TWO_64);
    }
  }

  /** As long as neither the pool's end nor the wrap is reached, recursors are tried one after the other. */
  lemma FrontOrder(offset: nat, i: nat, n: nat)
    requires offset + i < n <= TWO_64
    ensures forall k :: 0 <= k <= i ==> Order(offset, n)[k] == offset + k
    ensures Distinct(Order(offset, n)[..i])
  {
    forall k | 0 <= k <= i ensures Order(offset, n)[k] == offset + k { IndexFromFront(k, offset, n); }
  }

  lemma {:induction false} SettlingHistory(site: Site, p: Pool, clock: nat, r: Result, h: nat, k: nat, j: nat)
    requires FirstAnswering(site, h) && Settling(site, p, h, k) && p.preferred <= j < h
    requires IsResult(CallAt(site, p, clock), p, r) && r.ok && r.tried == h - p.preferred + 1
    ensures |r.pool.history| == |site.names| && r.pool.history[j] == Failures(k + 1)
  {
    var c, last := CallAt(site, p, clock), r.tried - 1;
    FrontOrder(p.preferred, last, |site.names|);
    assert c.order[j - p.preferred] == j && c.order[last] == h;
    FailedOnce(c, p, last, j - p.preferred);
    assert Failures(k) + [true] == Failures(k + 1);
  }

  lemma {:induction false} SettlingStep(site: Site, p: Pool, clock: nat, r: Result, h: nat, k: nat)
    requires FirstAnswering(site, h) && Settling(site, p, h, k)
    requires IsResult(CallAt(site, p, clock), p, r)
    ensures Settling(site, r.pool, h, k + 1)
  {
    CallReaches(site, p, clock, r, h);
    SettlingPreference(site, p, clock, r, h, k);
    forall j | r.pool.preferred <= j < h ensures r.pool.history[j] == Failures(k + 1) {
      SettlingHistory(site, p, clock, r, h, k, j);
    }
  }

  lemma {:induction false} SettlingRun(site: Site, p: Pool, clock: nat, results: seq<Result>, h: nat, k: nat)
    requires FirstAnswering(site, h) && Settling(site, p, h, k) && IsRun(site, p, clock, results)
    ensures PreferredAt(p, results, |results|) == SettledAt(h, k + |results|)
    decreases |results|
  {
    if results == [] {
    } else {
      SettlingStep(site, p, clock, results[0], h, k);
      var rest := results[1..];
      SettlingRun(site, results[0].pool, results[0].clock, rest, h, k + 1);
      assert PreferredAt(p, results, |results|) == PreferredAt(results[0].pool, rest, |rest|);
    }
  }

  /**
   A new pool in front of `h` dead recursors and one that always answers stays at the first
   recursor for five calls, then moves on by one recursor each call, and has settled on `h`
   after h + 4 calls.
   */
  lemma Settles(site: Site, clock: nat, results: seq<Result>, h: nat)
    requires FirstAnswering(site, h) && IsRun(site, Fresh(|site.names|), clock, results)
    ensures PreferredAt(Fresh(|site.names|), results, |results|) == SettledAt(h, |results|)
    ensures |results| >= h + 4 ==>
      PreferredAt(Fresh(|site.names|), results, |results|) == h
  {
    assert Failures(0) == [];
    SettlingRun(site, Fresh(|site.names|), clock, results, h, 0);
  }

  // ----- The serial pool -----

  function SerialCall(names: seq<string>, maxRetries: nat, world: World, start: nat): (c: Call)
    ensures c.Valid() && c.names == names && c.maxRetries == maxRetries && c.world == world && c.start == start
    ensures forall i :: 0 <= i < |names| ==> c.order[i] == i
  {
    Call(names, maxRetries, world, start, seq(|names|, i => i))
  }

  /** A call that tried recursors in order and stopped at the first that answered, or at the end. */
  ghost predicate StoppedAtFirst(c: Call, tried: nat, ok: bool, clock: nat)
    requires c.Valid()
  {
    && tried <= |c.names| && clock == Clock(c, tried)
    && (if ok then 0 < tried && NoneAnswered(c, tried - 1) && Answers(c, tried - 1)
        else tried == |c.names| && NoneAnswered(c, tried))
  }

  ghost predicate NoneSoFar(c: Call, i: nat, clock: nat) {
    c.Valid() && i <= |c.names| && NoneAnswered(c, i) && clock == Clock(c, i)
  }

  /** One more recursor tried in order. */
  lemma {:induction false} SerialStep(c: Call, i: nat, clock: nat)
    requires NoneSoFar(c, i, clock) && i < |c.names| && c.order[i] == i
    ensures var used := Attempts(c.world, clock, c.names[i], c.maxRetries);
      && Answers(c, i) == c.world(clock + used - 1, c.names[i]).Success?
      && (Answers(c, i) ==> StoppedAtFirst(c, i + 1, true, clock + used))
      && (!Answers(c, i) ==> NoneSoFar(c, i + 1, clock + used))
  {
    var used := Attempts(c.world, clock, c.names[i], c.maxRetries);
    assert WorkCalls(c, i + 1) == WorkCalls(c, i) + Repeat(i, used);
  }

  method SerialTry(i: nat, clock: nat, c: Call) returns (ok: bool, later: nat)
    requires NoneSoFar(c, i, clock) && i < |c.names| && c.order[i] == i
    ensures ok ==> StoppedAtFirst(c, i + 1, true, later)
    ensures !ok ==> NoneSoFar(c, i + 1, later)
  {
    var err, used := PerformWithRetryLogic(c.world, clock, c.names[i], c.maxRetries);
    SerialStep(c, i, clock);
    ok, later := err.Success?, clock + used;
  }

  /** The serial pool always starts at the first recursor and keeps no history. */
  method SerialPerform(names: seq<string>, maxRetries: nat, world: World, start: nat)
    returns (ok: bool, clock: nat)
    ensures exists tried: nat :: StoppedAtFirst(SerialCall(names, maxRetries, world, start), tried, ok, clock)
  {
    var c := SerialCall(names, maxRetries, world, start);
    ok, clock := false, start;
    for i := 0 to |names|
      invariant !ok && NoneSoFar(c, i, clock)
    {
      ok, clock := SerialTry(i, clock, c);
      if ok {
        assert StoppedAtFirst(c, i + 1, true, clock);
        return;
      }
    }
    assert StoppedAtFirst(c, |names|, false, clock);
  }

  /** The serial pool, too, succeeds iff some work call did, within the same bound on work calls. */
  lemma {:induction false} SerialOutcome(c: Call, tried: nat, ok: bool, clock: nat)
    requires c.Valid() && StoppedAtFirst(c, tried, ok, clock)
    ensures ok <==> SomeSuccess(c, tried)
    ensures clock <= c.start + |c.names| * (c.maxRetries + 1)
  {
    SuccessMeansAnswer(c, tried);
    WorkBounded(c, tried);
    MulMonotone(tried, |c.names|, c.maxRetries + 1);
  }
}
