/** Choosing among matching records by health, for a fixed view of the health watcher. */
module HealthFilter {
  import opened Record
  import opened Criteria
  import QueryFilter = Criteria
  import HealthWatcher

  type HealthResult = HealthWatcher.HealthResult

  /** What the health watcher answers for each IP. */
  type View = string -> HealthResult

  const RUNNING := "running"
  const FAILING := "failing"
  const UNKNOWN := "unknown"
  const UNCHECKED := "unchecked"

  // ----- The state of one record -----

  /** Some queried group of the instance reports failing. */
  predicate AnyGroupFailing(h: HealthResult, groups: seq<string>) {
    exists i :: 0 <= i < |groups| && groups[i] in h.groupState && h.groupState[groups[i]] == FAILING
  }

  /** The state of the last queried group the instance reports on, or the instance's own state. */
  function LastGroupState(h: HealthResult, groups: seq<string>): string {
    if groups == [] then h.state
    else
      var last := groups[|groups| - 1];
      if last in h.groupState then h.groupState[last] else LastGroupState(h, groups[..|groups| - 1])
  }

  function Interpreted(h: HealthResult, groups: seq<string>): (state: string)
    ensures AnyGroupFailing(h, groups) ==> state == FAILING
    ensures (forall g :: g in groups ==> g !in h.groupState) ==> state == h.state
  {
    if AnyGroupFailing(h, groups) then FAILING else
      NoGroupState(h, groups);
      LastGroupState(h, groups)
  }

  lemma {:induction false} NoGroupState(h: HealthResult, groups: seq<string>)
    ensures (forall g :: g in groups ==> g !in h.groupState) ==> LastGroupState(h, groups) == h.state
  {
    if groups == [] {
    } else {
      assert groups[|groups| - 1] in groups;
      NoGroupState(h, groups[..|groups| - 1]);
    }
  }

  /** The last queried group that the instance reports on is number `k`. */
  ghost predicate ReportsLast(h: HealthResult, groups: seq<string>, k: nat) {
    && k < |groups| && groups[k] in h.groupState
    && forall j :: k < j < |groups| ==> groups[j] !in h.groupState
  }

  lemma {:induction false} LastReported(h: HealthResult, groups: seq<string>, k: nat)
    requires ReportsLast(h, groups, k)
    ensures LastGroupState(h, groups) == h.groupState[groups[k]]
  {
    if k == |groups| - 1 {
    } else {
      LastReported(h, groups[..|groups| - 1], k);
    }
  }

  /**
   The state that counts: "failing" if a queried group is failing, otherwise the state of the last
   queried group that the instance reports on, otherwise the instance's own.
   */
  lemma {:induction false} InterpretedExact(h: HealthResult, groups: seq<string>)
    ensures forall g :: g in groups && g in h.groupState && h.groupState[g] == "failing" ==>
      Interpreted(h, groups) == "failing"
    ensures (forall g :: g in groups && g in h.groupState ==> h.groupState[g] != "failing") ==>
      forall k: nat :: ReportsLast(h, groups, k) ==> Interpreted(h, groups) == h.groupState[groups[k]]
    ensures (forall g :: g in groups ==> g !in h.groupState) ==> Interpreted(h, groups) == h.state
  {
    forall k: nat | ReportsLast(h, groups, k) ensures LastGroupState(h, groups) == h.groupState[groups[k]] {
      LastReported(h, groups, k);
    }
  }

  method InterpretHealthState(view: View, ip: string, groups: seq<string>) returns (state: string)
    ensures state == Interpreted(view(ip), groups)
  {
    var h := view(ip);
    state := h.state;
    for i := 0 to |groups|
      invariant state == LastGroupState(h, groups[..i])
      invariant forall j :: 0 <= j < i ==> !(groups[j] in h.groupState && h.groupState[groups[j]] == FAILING)
    {
      assert groups[..i + 1][..i] == groups[..i];
      if groups[i] in h.groupState {
        if h.groupState[groups[i]] == FAILING {
          return FAILING;
        }
        state := h.groupState[groups[i]];
      }
    }
    assert groups[..|groups|] == groups;
  }

  // ----- Sorting records by state -----

  /** The records in a given state, in their order. */
  function InState(view: View, groups: seq<string>, recs: seq<Record>, state: string): seq<Record> {
    if recs == [] then []
    else
      var front, last := InState(view, groups, recs[..|recs| - 1], state), recs[|recs| - 1];
      if Interpreted(view(last.ip), groups) == state then front + [last] else front
  }

  lemma {:induction false} InStateExact(view: View, groups: seq<string>, recs: seq<Record>, state: string, r: Record)
    ensures multiset(InState(view, groups, recs, state))[r] ==
      if Interpreted(view(r.ip), groups) == state then multiset(recs)[r] else 0
    ensures r in InState(view, groups, recs, state) <==> r in recs && Interpreted(view(r.ip), groups) == state
  {
    if recs == [] {
    } else {
      var front, last := recs[..|recs| - 1], recs[|recs| - 1];
      InStateExact(view, groups, front, state, r);
      assert recs == front + [last];
    }
  }

  method SortRecords(view: View, recs: seq<Record>, groups: seq<string>)
    returns (healthy: seq<Record>, unhealthy: seq<Record>, maybeHealthy: seq<Record>)
    ensures healthy == InState(view, groups, recs, RUNNING)
    ensures unhealthy == InState(view, groups, recs, FAILING)
    ensures maybeHealthy == InState(view, groups, recs, RUNNING) + InState(view, groups, recs, UNCHECKED)
  {
    healthy, unhealthy := [], [];
    var unchecked: seq<Record> := [];
    for i := 0 to |recs|
      invariant healthy == InState(view, groups, recs[..i], RUNNING)
      invariant unhealthy == InState(view, groups, recs[..i], FAILING)
      invariant unchecked == InState(view, groups, recs[..i], UNCHECKED)
    {
      assert recs[..i + 1][..i] == recs[..i];
      var state := InterpretHealthState(view, recs[i].ip, groups);
      if state == RUNNING {
        healthy := healthy + [recs[i]];
      } else if state == FAILING {
        unhealthy := unhealthy + [recs[i]];
      } else if state == UNCHECKED {
        unchecked := unchecked + [recs[i]];
      }
    }
    assert recs[..|recs|] == recs;
    maybeHealthy := healthy + unchecked;
  }

  /** For records in the four known states, the four classes split the list without overlap. */
  lemma {:induction false} ClassesSplit(view: View, groups: seq<string>, recs: seq<Record>)
    requires forall r :: r in recs ==> Interpreted(view(r.ip), groups) in {RUNNING, FAILING, UNKNOWN, UNCHECKED}
    ensures multiset(recs) ==
      multiset(InState(view, groups, recs, RUNNING)) + multiset(InState(view, groups, recs, FAILING))
      + multiset(InState(view, groups, recs, UNKNOWN)) + multiset(InState(view, groups, recs, UNCHECKED))
  {
    var sum := multiset(InState(view, groups, recs, RUNNING)) + multiset(InState(view, groups, recs, FAILING))
      + multiset(InState(view, groups, recs, UNKNOWN)) + multiset(InState(view, groups, recs, UNCHECKED));
    forall r: Record ensures multiset(recs)[r] == sum[r] {
      InStateExact(view, groups, recs, RUNNING, r);
      InStateExact(view, groups, recs, FAILING, r);
      InStateExact(view, groups, recs, UNKNOWN, r);
      InStateExact(view, groups, recs, UNCHECKED, r);
      assert r in recs <==> multiset(recs)[r] > 0;
    }
  }

  /** A failing queried group makes the record unhealthy, and neither healthy nor perhaps healthy. */
  lemma {:induction false} FailingGroupExcludes(view: View, groups: seq<string>, recs: seq<Record>, r: Record)
    requires r in recs && AnyGroupFailing(view(r.ip), groups)
    ensures r in InState(view, groups, recs, FAILING)
    ensures r !in InState(view, groups, recs, RUNNING) && r !in InState(view, groups, recs, UNCHECKED)
  {
    InStateExact(view, groups, recs, FAILING, r);
    InStateExact(view, groups, recs, RUNNING, r);
    InStateExact(view, groups, recs, UNCHECKED, r);
  }

  // ----- The strategies -----

  function Strategy(c: Criteria): string {
    if "s" in c && |c["s"]| > 0 then c["s"][0] else "0"
  }

  function Groups(c: Criteria): seq<string> {
    if "g" in c then c["g"] else []
  }

  /** A query without a strategy asks for the smart one; of several, the first counts. */
  lemma StrategyExact(c: Criteria)
    ensures "s" !in c || c["s"] == [] ==> Strategy(c) == "0"
    ensures forall first, more :: "s" in c && c["s"] == [first] + more ==> Strategy(c) == first
  {
  }

  /** What the strategy of the query keeps of the matching records. */
  function Selected(c: Criteria, view: View, matches: seq<Record>): seq<Record> {
    match Strategy(c)
    case "1" => InState(view, Groups(c), matches, FAILING)
    case "3" => InState(view, Groups(c), matches, RUNNING)
    case "4" => matches
    case _ =>
      var maybeHealthy := InState(view, Groups(c), matches, RUNNING) + InState(view, Groups(c), matches, UNCHECKED);
      if |maybeHealthy| == 0 then matches else maybeHealthy
  }

  /** The hosts handed to the tracker: none for a lone record under the smart strategy. */
  function Tracked(c: Criteria, shouldTrack: bool, matches: seq<Record>): seq<Host> {
    if shouldTrack && !(Strategy(c) == "0" && |matches| == 1) && "fqdn" in c && |c["fqdn"]| > 0
    then seq(|matches|, i requires 0 <= i < |matches| => Host(matches[i].ip, c["fqdn"][0]))
    else []
  }

  method Filter(c: Criteria, recs: seq<Record>, view: View, shouldTrack: bool)
    returns (result: seq<Record>, tracked: seq<Host>)
    requires "fqdn" in c ==> |c["fqdn"]| > 0
    ensures result == Selected(c, view, Filtered(c, recs))
    ensures tracked == Tracked(c, shouldTrack, Filtered(c, recs))
  {
    var records := QueryFilter.Filter(c, recs);
    var strategy := Strategy(c);
    var skipTracking := strategy == "0" && |records| == 1;
    tracked := [];
    if shouldTrack && !skipTracking {
      for i := 0 to |records|
        invariant tracked == Tracked(c, shouldTrack, records)[..if "fqdn" in c then i else 0]
      {
        if "fqdn" in c {
          tracked := tracked + [Host(records[i].ip, c["fqdn"][0])];
        }
      }
    }
    var healthy, unhealthy, maybeHealthy := SortRecords(view, records, Groups(c));
    match strategy
    case "1" => result := unhealthy;
    case "3" => result := healthy;
    case "4" => result := records;
    case _ => result := if |maybeHealthy| == 0 then records else maybeHealthy;
  }

  predicate PerhapsHealthy(state: string) { state == "running" || state == "unchecked" }

  /** The smart strategy keeps a perhaps healthy record, and any record when none is perhaps healthy. */
  ghost predicate SmartKeeps(view: View, groups: seq<string>, matches: seq<Record>, state: string) {
    PerhapsHealthy(state) || forall x :: x in matches ==> !PerhapsHealthy(Interpreted(view(x.ip), groups))
  }

  /** What a strategy keeps of the matches, by the states of the queried groups. */
  ghost predicate Keeps(strategy: string, groups: seq<string>, view: View, matches: seq<Record>, r: Record) {
    var state := Interpreted(view(r.ip), groups);
    match strategy
    case "1" => state == "failing"
    case "3" => state == "running"
    case "4" => true
    case _ => SmartKeeps(view, groups, matches, state)
  }

  lemma {:induction false} SelectedKeeps(c: Criteria, view: View, matches: seq<Record>, r: Record)
    ensures r in Selected(c, view, matches) <==> r in matches && Keeps(Strategy(c), Groups(c), view, matches, r)
  {
    SelectedExact(c, view, matches, r);
  }

  /** Which matches each strategy keeps. */
  lemma {:induction false} SelectedExact(c: Criteria, view: View, matches: seq<Record>, r: Record)
    ensures var state := Interpreted(view(r.ip), Groups(c)); var kept := r in Selected(c, view, matches);
      && (Strategy(c) == "1" ==> (kept <==> r in matches && state == FAILING))
      && (Strategy(c) == "3" ==> (kept <==> r in matches && state == RUNNING))
      && (Strategy(c) == "4" ==> (kept <==> r in matches))
      && (Strategy(c) !in {"1", "3", "4"} ==> (kept <==> r in matches && SmartKeeps(view, Groups(c), matches, state)))
  {
    var g := Groups(c);
    InStateExact(view, g, matches, RUNNING, r);
    InStateExact(view, g, matches, FAILING, r);
    InStateExact(view, g, matches, UNCHECKED, r);
    NoneInStates(view, g, matches);
  }

  /** Nothing is perhaps healthy exactly when no record is in either state. */
  lemma {:induction false} NoneInStates(view: View, groups: seq<string>, recs: seq<Record>)
    ensures InState(view, groups, recs, RUNNING) + InState(view, groups, recs, UNCHECKED) == [] <==>
      forall x :: x in recs ==> !PerhapsHealthy(Interpreted(view(x.ip), groups))
  {
    var both := InState(view, groups, recs, RUNNING) + InState(view, groups, recs, UNCHECKED);
    forall x: Record ensures x in both <==> x in recs && PerhapsHealthy(Interpreted(view(x.ip), groups)) {
      InStateExact(view, groups, recs, RUNNING, x);
      InStateExact(view, groups, recs, UNCHECKED, x);
    }
    if both != [] { assert both[0] in both; }
  }

  /** The smart strategy never turns matches into nothing. */
  lemma SmartNeverEmpty(c: Criteria, view: View, matches: seq<Record>)
    requires Strategy(c) !in {"1", "3", "4"} && matches != []
    ensures Selected(c, view, matches) != []
  {
  }

  lemma {:induction false} InStateBySet(view: View, groups: seq<string>, recs: seq<Record>, others: seq<Record>,
                                        state: string)
    requires forall x :: x in recs <==> x in others
    ensures forall x :: x in InState(view, groups, recs, state) <==> x in InState(view, groups, others, state)
    ensures forall x :: x in InState(view, groups, recs, state) ==> x in recs
    ensures InState(view, groups, recs, state) == [] <==> InState(view, groups, others, state) == []
  {
    var s, t := InState(view, groups, recs, state), InState(view, groups, others, state);
    forall x: Record ensures (x in s <==> x in t) && (x in s ==> x in recs) {
      InStateExact(view, groups, recs, state, x);
      InStateExact(view, groups, others, state, x);
    }
    if s != [] { assert s[0] in t; }
    if t != [] { assert t[0] in s; }
  }

  /** What is kept was matched; and as a set it depends only on the set of matches. */
  lemma {:induction false} SelectedBySet(c: Criteria, view: View, matches: seq<Record>, others: seq<Record>, r: Record)
    requires forall x :: x in matches <==> x in others
    ensures r in Selected(c, view, matches) ==> r in matches
    ensures r in Selected(c, view, matches) <==> r in Selected(c, view, others)
  {
    InStateBySet(view, Groups(c), matches, others, RUNNING);
    InStateBySet(view, Groups(c), matches, others, FAILING);
    InStateBySet(view, Groups(c), matches, others, UNCHECKED);
  }
}
