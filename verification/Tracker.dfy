/**
 The tracker: which IPs are health-checked, and for which recently queried domains.  Calls to
 the health watcher are events, in the order they are made.
 */
module Tracker {
  import opened Strings
  import opened Record
  import opened Criteria
  import opened Enumeration
  import opened LruList
  import QueryFilter = Criteria
  import Transcript

  datatype Event = Track(ip: string) | Untrack(ip: string)

  type Index = map<string, set<string>>

  /** The IPs watched after a sequence of events: tracked, and not untracked since. */
  function Watched(events: seq<Event>): set<string> {
    if events == [] then {}
    else
      var front := Watched(events[..|events| - 1]);
      match events[|events| - 1]
      case Track(ip) => front + {ip}
      case Untrack(ip) => front - {ip}
  }

  lemma {:induction false} WatchedNext(events: seq<Event>, e: Event)
    ensures Watched(events + [e]) == if e.Track? then Watched(events) + {e.ip} else Watched(events) - {e.ip}
  {
    assert (events + [e])[..|events|] == events;
  }

  function Tracks(ips: seq<string>): (es: seq<Event>)
    ensures |es| == |ips| && forall i :: 0 <= i < |ips| ==> es[i] == Track(ips[i])
  {
    seq(|ips|, i requires 0 <= i < |ips| => Track(ips[i]))
  }

  function Untracks(ips: seq<string>): (es: seq<Event>)
    ensures |es| == |ips| && forall i :: 0 <= i < |ips| ==> es[i] == Untrack(ips[i])
  {
    seq(|ips|, i requires 0 <= i < |ips| => Untrack(ips[i]))
  }

  lemma TracksNext(events: seq<Event>, front: seq<string>, last: string)
    ensures events + Tracks(front + [last]) == (events + Tracks(front)) + [Track(last)]
  {
  }

  lemma {:induction false} WatchedTracks(events: seq<Event>, ips: seq<string>)
    ensures Watched(events + Tracks(ips)) == Watched(events) + Members(ips)
  {
    if ips == [] {
      assert events + Tracks(ips) == events;
    } else {
      var front, last := ips[..|ips| - 1], ips[|ips| - 1];
      assert front + [last] == ips;
      calc {
        Watched(events + Tracks(ips));
        { TracksNext(events, front, last); }
        Watched((events + Tracks(front)) + [Track(last)]);
        { WatchedNext(events + Tracks(front), Track(last)); }
        Watched(events + Tracks(front)) + {last};
        { WatchedTracks(events, front); }
        Watched(events) + Members(front) + {last};
        { MembersLast(front, last); }
        Watched(events) + Members(ips);
      }
    }
  }

  lemma UntracksNext(events: seq<Event>, front: seq<string>, last: string)
    ensures events + Untracks(front + [last]) == (events + Untracks(front)) + [Untrack(last)]
  {
  }

  lemma {:induction false} WatchedUntracks(events: seq<Event>, ips: seq<string>)
    ensures Watched(events + Untracks(ips)) == Watched(events) - Members(ips)
  {
    if ips == [] {
      assert events + Untracks(ips) == events;
    } else {
      var front, last := ips[..|ips| - 1], ips[|ips| - 1];
      assert front + [last] == ips;
      calc {
        Watched(events + Untracks(ips));
        { UntracksNext(events, front, last); }
        Watched((events + Untracks(front)) + [Untrack(last)]);
        { WatchedNext(events + Untracks(front), Untrack(last)); }
        Watched(events + Untracks(front)) - {last};
        { WatchedUntracks(events, front); }
        Watched(events) - Members(front) - {last};
        { MembersLast(front, last); }
        Watched(events) - Members(ips);
      }
    }
  }

  // ----- The tracker's state and its two steps -----

  /** The index, the IPs watched, and the transcript from oldest to newest. */
  datatype State = State(index: Index, watched: set<string>, names: seq<string>)

  /** The index without a domain; keys stay, even with no domains left. */
  ghost function Dropped(index: Index, domain: string): Index {
    map ip | ip in index :: index[ip] - {domain}
  }

  /** The IPs for which the domain was the last one. */
  ghost function Emptied(index: Index, domain: string): set<string> {
    set ip | ip in index && index[ip] == {domain}
  }

  /** monitor drops an evicted name everywhere, unless it is the empty string. */
  ghost function IndexAfter(index: Index, evicted: string): Index {
    if evicted == "" then index else Dropped(index, evicted)
  }

  /** The IPs monitor untracks. */
  ghost function Gone(index: Index, evicted: string): set<string> {
    if evicted == "" then {} else Emptied(index, evicted)
  }

  /** monitor: touch the name, drop what it evicts, and record it as the IP's only domain. */
  ghost function Monitored(s: State, cap: nat, ip: string, fqdn: string): State {
    var evicted := Evicted(s.names, fqdn, cap);
    State(IndexAfter(s.index, evicted)[ip := {fqdn}], s.watched - Gone(s.index, evicted) + {ip},
          Touched(s.names, fqdn, cap))
  }

  /**
   A monitor step records exactly the monitored name for its IP, and leaves every other IP all its
   domains but the evicted name, which it keeps only if that name is empty.
   */
  lemma {:induction false} MonitoredExact(s: State, cap: nat, ip: string, fqdn: string, other: string)
    requires 1 <= cap && |s.names| <= cap
    ensures var t := Monitored(s, cap, ip, fqdn);
      && ip in t.index && t.index[ip] == {fqdn} && ip in t.watched
      && (other != ip ==> (other in t.index <==> other in s.index))
      && (other != ip && other in s.index ==>
            t.index[other] == s.index[other] - (set d | d in s.index[other] && d != "" && Drops(s.names, cap, fqdn, d)))
      && (other != ip ==> (other in t.watched <==>
            other in s.watched && !(other in s.index && LosesLast(s.index[other], s.names, cap, fqdn))))
  {
    var evicted := Evicted(s.names, fqdn, cap);
    forall d: string | d != "" ensures Drops(s.names, cap, fqdn, d) <==> d == evicted {
      EvictedDrops(s.names, cap, fqdn, d);
    }
  }

  /** The domains are a single one, and touching the name evicts it. */
  ghost predicate LosesLast(domains: set<string>, names: seq<string>, cap: nat, fqdn: string) {
    exists d :: domains == {d} && d != "" && Drops(names, cap, fqdn, d)
  }

  lemma EvictedDrops(names: seq<string>, cap: nat, fqdn: string, d: string)
    requires 1 <= cap && |names| <= cap && d != ""
    ensures Drops(names, cap, fqdn, d) <==> d == Evicted(names, fqdn, cap)
  {
  }

  lemma MonitorEvents(events: seq<Event>, gone: seq<string>, all: set<string>, ip: string)
    requires Enumerates(gone, all)
    ensures Watched(events + Untracks(gone) + [Track(ip)]) == Watched(events) - all + {ip}
  {
    WatchedUntracks(events, gone);
    assert (events + Untracks(gone) + [Track(ip)])[..|events| + |gone|] == events + Untracks(gone);
    assert Members(gone) == all;
  }

  function RecordDomains(recs: seq<Record>): (ds: seq<string>)
    ensures |ds| == |recs| && forall i :: 0 <= i < |recs| ==> ds[i] == recs[i].domain
  {
    seq(|recs|, i requires 0 <= i < |recs| => recs[i].domain)
  }

  /** The domain parses, and its criteria match a record with this IP. */
  ghost predicate Refers(domain: string, recs: seq<Record>, ip: string) {
    var c := NewCriteria(domain, RecordDomains(recs));
    c.Some? && exists i :: 0 <= i < |recs| && recs[i].ip == ip && Matches(c.value, recs[i])
  }

  /** The index records the domain for the IP. */
  predicate Records(index: Index, ip: string, domain: string) {
    ip in index && domain in index[ip]
  }

  /** The index maps an IP exactly to the registered domains that refer to it, if there are any. */
  ghost predicate IsIndex(index: Index, registry: set<string>, recs: seq<Record>) {
    && (forall ip, d :: Records(index, ip, d) <==> d in registry && Refers(d, recs, ip))
    && (forall ip :: ip in index ==> index[ip] != {})
  }

  /** There is only one such index, in whatever order the registry is read. */
  lemma IndexUnique(a: Index, b: Index, registry: set<string>, recs: seq<Record>)
    requires IsIndex(a, registry, recs) && IsIndex(b, registry, recs)
    ensures a == b
  {
    SameRecords(a, b, registry, recs);
    SameRecords(b, a, registry, recs);
    assert a.Keys == b.Keys && forall ip :: ip in a ==> a[ip] == b[ip];
  }

  lemma SameRecords(a: Index, b: Index, registry: set<string>, recs: seq<Record>)
    requires IsIndex(a, registry, recs) && IsIndex(b, registry, recs)
    ensures forall ip :: ip in a ==> ip in b && a[ip] <= b[ip]
  {
    forall ip | ip in a ensures ip in b && a[ip] <= b[ip] {
      forall d | d in a[ip] ensures Records(b, ip, d) { assert Records(a, ip, d); }
    }
  }

  /** refresh: the new index, Track for keys that are new, Untrack for keys that are gone. */
  ghost predicate Refreshed(s: State, recs: seq<Record>, t: State) {
    && t.names == s.names
    && IsIndex(t.index, Members(s.names), recs)
    && t.watched == s.watched + (t.index.Keys - s.index.Keys) - (s.index.Keys - t.index.Keys)
  }

  // ----- Safety -----

  /** Watched IPs have domains, and every recorded domain is in the transcript. */
  ghost predicate Safe(s: State) {
    && (forall ip :: ip in s.watched ==> ip in s.index && s.index[ip] != {})
    && (forall ip, d :: Records(s.index, ip, d) ==> d in s.names)
    && Distinct(s.names)
  }

  lemma {:induction false} TouchedKnown(names: seq<string>, cap: nat, x: string)
    requires Distinct(names) && x in names
    ensures Distinct(Touched(names, x, cap))
    ensures forall y :: y in Touched(names, x, cap) <==> y in names
  {
    WithoutMembers(names, x);
  }

  lemma {:induction false} TouchedNew(names: seq<string>, cap: nat, x: string)
    requires Distinct(names) && x !in names
    ensures Distinct(Touched(names, x, cap))
    ensures forall y :: y in Touched(names, x, cap) <==> (y in names && !Drops(names, cap, x, y)) || y == x
  {
    assert forall i :: 0 <= i < |names| ==> names[i] in names;
    if names != [] {
      assert names == [names[0]] + names[1..];
      assert forall i :: 0 <= i < |names| - 1 ==> names[1..][i] == names[i + 1];
      assert names[0] !in names[1..];
    }
  }

  /** What a touch keeps: everything but the name it evicts. */
  lemma {:induction false} TouchedMembers(names: seq<string>, cap: nat, x: string)
    requires Distinct(names)
    ensures Distinct(Touched(names, x, cap))
    ensures forall y :: y in Touched(names, x, cap) <==> (y in names && !Drops(names, cap, x, y)) || y == x
  {
    if x in names { TouchedKnown(names, cap, x); } else { TouchedNew(names, cap, x); }
  }

  /** Touching `x` evicts the name `y`. */
  predicate Drops(names: seq<string>, cap: nat, x: string, y: string) {
    x !in names && |names| >= cap && names != [] && names[0] == y
  }

  /** Touching the name evicts the empty name, which monitor takes for "nothing evicted", and another IP records it. */
  ghost predicate LeavesEmptyName(s: State, cap: nat, ip: string, fqdn: string) {
    Drops(s.names, cap, fqdn, "") && exists other :: other != ip && Records(s.index, other, "")
  }

  /** monitor keeps the state safe, except exactly when it leaves the evicted empty name recorded. */
  lemma {:induction false} MonitorSafe(s: State, cap: nat, ip: string, fqdn: string)
    requires Safe(s) && 1 <= cap
    ensures Safe(Monitored(s, cap, ip, fqdn)) <==> !LeavesEmptyName(s, cap, ip, fqdn)
  {
    var t := Monitored(s, cap, ip, fqdn);
    TouchedMembers(s.names, cap, fqdn);
    if LeavesEmptyName(s, cap, ip, fqdn) {
      var other :| other != ip && Records(s.index, other, "");
      assert Records(t.index, other, "");
    } else {
      forall i, d | Records(t.index, i, d) ensures d in t.names {
        if i != ip { assert Records(s.index, i, d); }
      }
    }
  }

  /** refresh keeps the state safe. */
  lemma {:induction false} RefreshSafe(s: State, recs: seq<Record>, t: State)
    requires Safe(s) && Refreshed(s, recs, t)
    ensures Safe(t)
  {
    forall ip, d | Records(t.index, ip, d) ensures d in t.names {
      assert d in Members(s.names);
    }
  }

  /** If every key was watched, every key is watched after a refresh, and nothing else. */
  lemma RefreshWatchesKeys(s: State, recs: seq<Record>, t: State)
    requires s.watched == s.index.Keys && Refreshed(s, recs, t)
    ensures t.watched == t.index.Keys
  {
  }

  // ----- Runs -----

  datatype Step = Monitor(ip: string, fqdn: string) | Refresh(recs: seq<Record>)

  ghost predicate IsStep(s: State, cap: nat, step: Step, t: State) {
    match step
    case Monitor(ip, fqdn) => t == Monitored(s, cap, ip, fqdn)
    case Refresh(recs) => Refreshed(s, recs, t)
  }

  ghost predicate IsRun(s: State, cap: nat, steps: seq<Step>, states: seq<State>)
    decreases |steps|
  {
    && |states| == |steps|
    && (steps != [] ==> IsStep(s, cap, steps[0], states[0]) && IsRun(states[0], cap, steps[1..], states[1..]))
  }

  ghost predicate NoEmptyNames(steps: seq<Step>) {
    forall i :: 0 <= i < |steps| && steps[i].Monitor? ==> steps[i].fqdn != ""
  }

  lemma {:induction false} RunSafe(s: State, cap: nat, steps: seq<Step>, states: seq<State>)
    requires Safe(s) && "" !in s.names && 1 <= cap && IsRun(s, cap, steps, states) && NoEmptyNames(steps)
    ensures forall i :: 0 <= i < |states| ==> Safe(states[i])
    decreases |steps|
  {
    if steps == [] {
    } else {
      match steps[0] {
        case Monitor(ip, fqdn) =>
          MonitorSafe(s, cap, ip, fqdn);
          TouchedNotEmpty(s.names, cap, fqdn);
        case Refresh(recs) =>
          RefreshSafe(s, recs, states[0]);
      }
      RunSafe(states[0], cap, steps[1..], states[1..]);
      assert forall i :: 1 <= i < |states| ==> states[i] == states[1..][i - 1];
    }
  }

  lemma {:induction false} TouchedNotEmpty(names: seq<string>, cap: nat, x: string)
    requires "" !in names && x != "" && Distinct(names)
    ensures "" !in Touched(names, x, cap)
  {
    TouchedMembers(names, cap, x);
  }

  /**
   From the start, over any run in which no monitored name is empty: no IP is watched without a
   domain recorded for it, and every recorded domain is still in the transcript.
   */
  lemma AlwaysSafe(cap: nat, steps: seq<Step>, states: seq<State>)
    requires 1 <= cap && IsRun(State(map[], {}, []), cap, steps, states) && NoEmptyNames(steps)
    ensures forall i :: 0 <= i < |states| ==>
      && (forall ip :: ip in states[i].watched ==> ip in states[i].index && states[i].index[ip] != {})
      && (forall ip, d :: Records(states[i].index, ip, d) ==> d in states[i].names)
  {
    RunSafe(State(map[], {}, []), cap, steps, states);
  }

  /** A run that does leave it: the empty name is monitored, then evicted. */
  lemma EmptyNameLeft()
    ensures var s := Monitored(State(map[], {}, []), 1, "10.0.0.1", "");
      Safe(s) && LeavesEmptyName(s, 1, "10.0.0.2", "a.") && !Safe(Monitored(s, 1, "10.0.0.2", "a."))
  {
    var s := Monitored(State(map[], {}, []), 1, "10.0.0.1", "");
    assert s.names == [""];
    assert Records(s.index, "10.0.0.1", "");
    MonitorSafe(s, 1, "10.0.0.2", "a.");
  }

  // ----- Building the new index -----

  /** The index with the domain added for the IPs of the records. */
  /** The index with the domain recorded for the IP. */
  function Added(index: Index, domain: string, ip: string): Index {
    index[ip := (if ip in index then index[ip] else {}) + {domain}]
  }

  function AddAll(index: Index, domain: string, recs: seq<Record>): Index {
    if recs == [] then index
    else Added(AddAll(index, domain, recs[..|recs| - 1]), domain, recs[|recs| - 1].ip)
  }

  lemma {:induction false} AddAllRecords(index: Index, domain: string, recs: seq<Record>, ip: string, d: string)
    ensures Records(AddAll(index, domain, recs), ip, d) <==>
      Records(index, ip, d) || (d == domain && exists i :: 0 <= i < |recs| && recs[i].ip == ip)
    ensures (forall i :: i in index ==> index[i] != {}) ==>
      forall i :: i in AddAll(index, domain, recs) ==> AddAll(index, domain, recs)[i] != {}
  {
    if recs == [] {
    } else {
      var front := recs[..|recs| - 1];
      AddAllRecords(index, domain, front, ip, d);
      assert forall i :: 0 <= i < |front| ==> recs[i] == front[i];
      if recs[|recs| - 1].ip == ip { assert exists i :: 0 <= i < |recs| && recs[i].ip == ip; }
    }
  }

  /** A record with this IP is among the filtered ones exactly when the domain refers to the IP. */
  lemma {:induction false} FilteredRefers(domain: string, c: Criteria, recs: seq<Record>, ip: string)
    requires NewCriteria(domain, RecordDomains(recs)) == Some(c)
    ensures (exists i :: 0 <= i < |Filtered(c, recs)| && Filtered(c, recs)[i].ip == ip) <==> Refers(domain, recs, ip)
  {
    var filtered := Filtered(c, recs);
    if i :| 0 <= i < |filtered| && filtered[i].ip == ip {
      FilteredExact(c, recs, filtered[i]);
      var k :| 0 <= k < |recs| && recs[k] == filtered[i];
    }
    if k :| 0 <= k < |recs| && recs[k].ip == ip && Matches(c, recs[k]) {
      FilteredExact(c, recs, recs[k]);
      var i :| 0 <= i < |filtered| && filtered[i] == recs[k];
    }
  }

  /** Adding one registered domain to the index of the others. */
  lemma {:induction false} AddDomain(index: Index, registry: set<string>, recs: seq<Record>, domain: string)
    requires IsIndex(index, registry, recs)
    ensures var c := NewCriteria(domain, RecordDomains(recs));
      IsIndex(if c.Some? then AddAll(index, domain, Filtered(c.value, recs)) else index, registry + {domain}, recs)
  {
    var c := NewCriteria(domain, RecordDomains(recs));
    if c.Some? {
      forall ip, d ensures Records(AddAll(index, domain, Filtered(c.value, recs)), ip, d) <==>
        d in registry + {domain} && Refers(d, recs, ip)
      {
        AddAllRecords(index, domain, Filtered(c.value, recs), ip, d);
        FilteredRefers(domain, c.value, recs, ip);
      }
      AddAllRecords(index, domain, Filtered(c.value, recs), "", "");
    }
  }

  class Tracker {
    const trackedDomains: Transcript.PriorityLimitedTranscript
    var trackedIPs: Index
    var events: seq<Event>   // the calls made to the health watcher

    ghost predicate Valid()
      reads this, trackedDomains, trackedDomains.repr
    {
      trackedDomains.Valid()
    }

    ghost function Contents(): State
      reads this, trackedDomains
    {
      State(trackedIPs, Watched(events), trackedDomains.Names())
    }

    constructor (trackedDomains: Transcript.PriorityLimitedTranscript)
      requires trackedDomains.Valid()
      ensures Valid() && this.trackedDomains == trackedDomains && trackedIPs == map[] && events == []
    {
      this.trackedDomains := trackedDomains;
      trackedIPs, events := map[], [];
    }

    /** The loop over the index when a domain was evicted. */
    method DropDomain(domain: string) returns (ghost gone: seq<string>)
      modifies this
      ensures trackedIPs == Dropped(old(trackedIPs), domain)
      ensures events == old(events) + Untracks(gone) && Enumerates(gone, Emptied(old(trackedIPs), domain))
    {
      ghost var index := trackedIPs;
      var rest := trackedIPs.Keys;
      gone := [];
      assert events == old(events) + Untracks(gone);
      while rest != {}
        invariant rest <= index.Keys && trackedIPs.Keys == index.Keys
        invariant forall ip :: ip in index ==> trackedIPs[ip] == if ip in rest then index[ip] else index[ip] - {domain}
        invariant Enumerates(gone, Emptied(index, domain) - rest) && events == old(events) + Untracks(gone)
      {
        var ip :| ip in rest;
        ghost var before := rest;
        rest := rest - {ip};
        var domains := trackedIPs[ip];
        if domain in domains {
          trackedIPs := trackedIPs[ip := domains - {domain}];
          if domains - {domain} == {} {
            EnumeratesMore(gone, Emptied(index, domain) - before, ip);
            assert Emptied(index, domain) - rest == Emptied(index, domain) - before + {ip};
            assert Untracks(gone + [ip]) == Untracks(gone) + [Untrack(ip)];
            events := events + [Untrack(ip)];
            gone := gone + [ip];
          } else {
            assert Emptied(index, domain) - rest == Emptied(index, domain) - before;
          }
        } else {
          assert Emptied(index, domain) - rest == Emptied(index, domain) - before;
        }
      }
      assert Emptied(index, domain) - rest == Emptied(index, domain);
      assert trackedIPs == Dropped(index, domain);
    }

    /** What monitor does with the name the transcript gave back. */
    method CleanUp(remove: string) returns (ghost gone: seq<string>)
      modifies this
      ensures trackedIPs == IndexAfter(old(trackedIPs), remove)
      ensures events == old(events) + Untracks(gone) && Enumerates(gone, Gone(old(trackedIPs), remove))
    {
      gone := [];
      assert events == old(events) + Untracks(gone);
      if remove != "" {
        gone := DropDomain(remove);
      }
    }

    method Monitor(ip: string, fqdn: string) returns (ghost gone: seq<string>)
      requires Valid()
      modifies this, trackedDomains, trackedDomains.repr
      ensures Valid() && trackedDomains.history == old(trackedDomains.history) + [fqdn]
      ensures Contents() == Monitored(old(Contents()), trackedDomains.cap, ip, fqdn)
      ensures events == old(events) + Untracks(gone) + [Track(ip)]
      ensures Enumerates(gone, Gone(old(trackedIPs), Evicted(old(trackedDomains.Names()), fqdn, trackedDomains.cap)))
    {
      ghost var index, es := trackedIPs, events;
      var remove := trackedDomains.Touch(fqdn);
      gone := CleanUp(remove);
      MonitorEvents(es, gone, Gone(index, remove), ip);
      trackedIPs := trackedIPs[ip := {fqdn}];
      events := events + [Track(ip)];
    }

    /** While refresh runs: trackedIPs loses the keys of the new index, and Track was called for the new ones. */
    ghost predicate Refreshing(index: Index, oldKeys: set<string>, tracks: seq<string>, es: seq<Event>)
      reads this
    {
      && trackedIPs.Keys == oldKeys - index.Keys
      && Enumerates(tracks, index.Keys - oldKeys) && events == es + Tracks(tracks)
    }

    /** One record of one registered domain. */
    method AddRecord(domain: string, ip: string, start: Index,
                     ghost oldKeys: set<string>, ghost tracks: seq<string>, ghost es: seq<Event>)
      returns (index: Index, ghost more: seq<string>)
      requires Refreshing(start, oldKeys, tracks, es)
      modifies this
      ensures index == Added(start, domain, ip) && Refreshing(index, oldKeys, more, es)
    {
      index, more := start, tracks;
      var firstOccurrence := ip !in index;
      if firstOccurrence {
        index := index[ip := {}];
      }
      index := index[ip := index[ip] + {domain}];
      var previouslyTracked := ip in trackedIPs;
      if previouslyTracked {
        trackedIPs := trackedIPs - {ip};
      }
      if firstOccurrence && !previouslyTracked {
        EnumeratesMore(more, start.Keys - oldKeys, ip);
        assert index.Keys - oldKeys == start.Keys - oldKeys + {ip};
        assert Tracks(more + [ip]) == Tracks(more) + [Track(ip)];
        events := events + [Track(ip)];
        more := more + [ip];
      } else {
        assert index.Keys - oldKeys == start.Keys - oldKeys;
      }
    }

    /** The records of one registered domain: the inner loop of refresh. */
    method AddRecords(domain: string, filtered: seq<Record>, start: Index,
                      ghost oldKeys: set<string>, ghost tracks: seq<string>, ghost es: seq<Event>)
      returns (index: Index, ghost more: seq<string>)
      requires Refreshing(start, oldKeys, tracks, es)
      modifies this
      ensures index == AddAll(start, domain, filtered) && Refreshing(index, oldKeys, more, es)
    {
      index, more := start, tracks;
      for i := 0 to |filtered|
        invariant index == AddAll(start, domain, filtered[..i]) && Refreshing(index, oldKeys, more, es)
      {
        assert filtered[..i + 1][..i] == filtered[..i];
        index, more := AddRecord(domain, filtered[i].ip, index, oldKeys, more, es);
      }
      assert filtered[..|filtered|] == filtered;
    }

    /** The last loop of refresh: untrack what is left. */
    method UntrackRest() returns (ghost gone: seq<string>)
      modifies this`events
      ensures events == old(events) + Untracks(gone) && Enumerates(gone, trackedIPs.Keys)
    {
      var rest := trackedIPs.Keys;
      gone := [];
      assert events == old(events) + Untracks(gone);
      while rest != {}
        invariant rest <= trackedIPs.Keys
        invariant Enumerates(gone, trackedIPs.Keys - rest) && events == old(events) + Untracks(gone)
      {
        var ip :| ip in rest;
        EnumeratesMore(gone, trackedIPs.Keys - rest, ip);
        assert trackedIPs.Keys - (rest - {ip}) == trackedIPs.Keys - rest + {ip};
        rest := rest - {ip};
        assert Untracks(gone + [ip]) == Untracks(gone) + [Untrack(ip)];
        events := events + [Untrack(ip)];
        gone := gone + [ip];
      }
      assert trackedIPs.Keys - rest == trackedIPs.Keys;
    }

    /** The loop over the registry: the new index, and Track calls for the keys that are new. */
    method BuildIndex(recs: seq<Record>) returns (index: Index, ghost tracks: seq<string>)
      requires Valid()
      modifies this
      ensures Valid() && trackedDomains.Names() == old(trackedDomains.Names())
      ensures IsIndex(index, Members(trackedDomains.Names()), recs)
      ensures trackedIPs.Keys == old(trackedIPs).Keys - index.Keys
      ensures Enumerates(tracks, index.Keys - old(trackedIPs).Keys) && events == old(events) + Tracks(tracks)
    {
      ghost var oldKeys, es := trackedIPs.Keys, events;
      var recordDomains := RecordDomains(recs);
      var registry := trackedDomains.Registry();
      index, tracks := map[], [];
      assert events == es + Tracks(tracks);
      ghost var done: set<string> := {};
      for i := 0 to |registry|
        invariant Valid() && trackedDomains.Names() == old(trackedDomains.Names())
        invariant forall d :: d in done <==> d in registry[..i]
        invariant IsIndex(index, done, recs)
        invariant Refreshing(index, oldKeys, tracks, es)
      {
        var domain := registry[i];
        AddDomain(index, done, recs, domain);
        var crit := NewCriteria(domain, recordDomains);
        if crit.Some? {
          var filtered := QueryFilter.Filter(crit.value, recs);
          index, tracks := AddRecords(domain, filtered, index, oldKeys, tracks, es);
        }
        done := done + {domain};
      }
      assert registry[..|registry|] == registry;
      assert done == Members(trackedDomains.Names());
    }

    method Refresh(recs: seq<Record>) returns (ghost tracks: seq<string>, ghost gone: seq<string>)
      requires Valid()
      modifies this
      ensures Valid() && Refreshed(old(Contents()), recs, Contents())
      ensures events == old(events) + Tracks(tracks) + Untracks(gone)
      ensures Enumerates(tracks, trackedIPs.Keys - old(trackedIPs).Keys)
      ensures Enumerates(gone, old(trackedIPs).Keys - trackedIPs.Keys)
    {
      var index;
      index, tracks := BuildIndex(recs);
      gone := UntrackRest();
      trackedIPs := index;
      ghost var before, after := old(trackedIPs).Keys, trackedIPs.Keys;
      RefreshEvents(old(events), tracks, after - before, gone, before - after);
    }
  }

  lemma RefreshEvents(events: seq<Event>, tracks: seq<string>, added: set<string>, gone: seq<string>,
                      removed: set<string>)
    requires Enumerates(tracks, added) && Enumerates(gone, removed)
    ensures Watched(events + Tracks(tracks) + Untracks(gone)) == Watched(events) + added - removed
  {
    WatchedTracks(events, tracks);
    WatchedUntracks(events + Tracks(tracks), gone);
    assert Members(tracks) == added && Members(gone) == removed;
  }
}
