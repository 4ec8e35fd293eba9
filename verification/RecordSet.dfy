/** The record set: resolving names, and taking over a new blob of records and aliases. */
module RecordSet {
  import opened Strings
  import opened Record
  import opened Criteria
  import opened HealthFilter
  import Health = HealthFilter
  import QueryFilter = Criteria
  import opened Enumeration
  import Aliases
  import AliasGraph
  import Encoder
  import HealthWatcher
  import QueryMeaning

  // ----- Lists -----

  /** The lists one after the other. */
  function Flatten<T>(lists: seq<seq<T>>): seq<T> {
    if lists == [] then [] else Flatten(lists[..|lists| - 1]) + lists[|lists| - 1]
  }

  lemma {:induction false} FlattenNext<T>(lists: seq<seq<T>>, i: nat)
    requires i < |lists|
    ensures Flatten(lists[..i + 1]) == Flatten(lists[..i]) + lists[i]
  {
    assert lists[..i + 1][..i] == lists[..i];
  }

  lemma {:induction false} InFlatten<T>(lists: seq<seq<T>>, x: T)
    ensures x in Flatten(lists) <==> exists i :: 0 <= i < |lists| && x in lists[i]
  {
    if lists == [] {
    } else {
      var front := lists[..|lists| - 1];
      InFlatten(front, x);
      assert forall i :: 0 <= i < |front| ==> front[i] == lists[i];
    }
  }

  /** All the values, or None if one is missing. */
  function Collect<T>(options: seq<Option<T>>): Option<seq<T>> {
    if options == [] then Some([])
    else
      match (Collect(options[..|options| - 1]), options[|options| - 1])
      case (Some(front), Some(last)) => Some(front + [last])
      case _ => None
  }

  lemma {:induction false} CollectExact<T>(options: seq<Option<T>>)
    ensures Collect(options).Some? <==> forall i :: 0 <= i < |options| ==> options[i].Some?
    ensures Collect(options).Some? ==> |Collect(options).value| == |options|
    ensures Collect(options).Some? ==> forall i :: 0 <= i < |options| ==> options[i] == Some(Collect(options).value[i])
  {
    if options == [] {
    } else {
      var front := options[..|options| - 1];
      CollectExact(front);
      assert forall i :: 0 <= i < |front| ==> front[i] == options[i];
    }
  }

  lemma {:induction false} CollectPrefix<T>(options: seq<Option<T>>, i: nat)
    requires i < |options| && options[i].None?
    ensures Collect(options).None?
  {
    CollectExact(options);
  }

  // ----- Two passes over the records -----

  /** The matches of every criteria in turn, one list after the other. */
  function MatchesOfAll(crits: seq<Criteria>, recs: seq<Record>): seq<Record> {
    Flatten(seq(|crits|, i requires 0 <= i < |crits| => Filtered(crits[i], recs)))
  }

  /** The same with the health filter. */
  function SelectedOfAll(crits: seq<Criteria>, view: View, recs: seq<Record>): seq<Record> {
    Flatten(seq(|crits|, i requires 0 <= i < |crits| => Selected(crits[i], view, Filtered(crits[i], recs))))
  }

  /** The i-th criteria matches the record. */
  ghost predicate MatchedAt(crits: seq<Criteria>, recs: seq<Record>, r: Record, i: nat) {
    i < |crits| && r in Filtered(crits[i], recs)
  }

  /** Health selection among the matches of the i-th criteria keeps the record. */
  ghost predicate SelectedAt(crits: seq<Criteria>, view: View, recs: seq<Record>, r: Record, i: nat) {
    i < |crits| && r in Selected(crits[i], view, Filtered(crits[i], recs))
  }

  lemma {:induction false} InMatchesOfAll(crits: seq<Criteria>, recs: seq<Record>, r: Record)
    ensures r in MatchesOfAll(crits, recs) <==> exists i: nat :: MatchedAt(crits, recs, r, i)
  {
    var lists := seq(|crits|, i requires 0 <= i < |crits| => Filtered(crits[i], recs));
    InFlatten(lists, r);
    assert forall i: nat :: MatchedAt(crits, recs, r, i) <==> i < |lists| && r in lists[i];
  }

  lemma {:induction false} InSelectedOfAll(crits: seq<Criteria>, view: View, recs: seq<Record>, r: Record)
    ensures r in SelectedOfAll(crits, view, recs) <==> exists i: nat :: SelectedAt(crits, view, recs, r, i)
  {
    var lists := seq(|crits|, i requires 0 <= i < |crits| => Selected(crits[i], view, Filtered(crits[i], recs)));
    InFlatten(lists, r);
    assert forall i: nat :: SelectedAt(crits, view, recs, r, i) <==> i < |lists| && r in lists[i];
  }

  /** A criteria matches in the first pass's list exactly what it matches in all records. */
  lemma {:induction false} SecondMatch(crits: seq<Criteria>, i: nat, recs: seq<Record>, r: Record)
    requires i < |crits|
    ensures r in Filtered(crits[i], MatchesOfAll(crits, recs)) <==> r in Filtered(crits[i], recs)
  {
    FilteredExact(crits[i], MatchesOfAll(crits, recs), r);
    FilteredExact(crits[i], recs, r);
    InMatchesOfAll(crits, recs, r);
    assert r in Filtered(crits[i], recs) ==> MatchedAt(crits, recs, r, i);
    if k: nat :| MatchedAt(crits, recs, r, k) {
      FilteredExact(crits[k], recs, r);
    }
  }

  /**
   For a fixed health view, filtering by domain and then by health gives, as a set, the union
   over the criteria of what health selects among the matches in all records.
   */
  lemma {:induction false} TwoPasses(crits: seq<Criteria>, view: View, recs: seq<Record>, r: Record)
    ensures r in SelectedOfAll(crits, view, MatchesOfAll(crits, recs)) <==>
      exists i: nat :: SelectedAt(crits, view, recs, r, i)
  {
    var first := MatchesOfAll(crits, recs);
    InSelectedOfAll(crits, view, first, r);
    forall i: nat ensures SelectedAt(crits, view, first, r, i) <==> SelectedAt(crits, view, recs, r, i) {
      if i < |crits| {
        forall x: Record ensures x in Filtered(crits[i], first) <==> x in Filtered(crits[i], recs) {
          SecondMatch(crits, i, recs, x);
        }
        SelectedBySet(crits[i], view, Filtered(crits[i], first), Filtered(crits[i], recs), r);
      }
    }
  }

  // ----- The record set -----

  datatype Failure = CriteriaError | DomainError

  datatype Result<T> = Success(value: T) | Failed(error: Failure)

  function ParseEach(names: seq<string>, domains: seq<string>): (parsed: seq<Option<Criteria>>)
    ensures |parsed| == |names| && forall i :: 0 <= i < |names| ==> parsed[i] == NewCriteria(names[i], domains)
  {
    seq(|names|, i requires 0 <= i < |names| => NewCriteria(names[i], domains))
  }

  /** All expansions parsed, or None if one of them does not parse. */
  function ParseAll(names: seq<string>, domains: seq<string>): Option<seq<Criteria>> {
    Collect(ParseEach(names, domains))
  }

  lemma {:induction false} CriteriaNamed(name: string, domains: seq<string>)
    requires NewCriteria(name, domains).Some?
    ensures "fqdn" in NewCriteria(name, domains).value && NewCriteria(name, domains).value["fqdn"] == [name]
  {
  }

  lemma {:induction false} ParseAllNamed(names: seq<string>, domains: seq<string>)
    requires ParseAll(names, domains).Some?
    ensures var crits := ParseAll(names, domains).value;
      |crits| == |names| && forall i :: 0 <= i < |crits| ==>
        NewCriteria(names[i], domains) == Some(crits[i]) && "fqdn" in crits[i] && crits[i]["fqdn"] == [names[i]]
  {
    var crits := ParseAll(names, domains).value;
    var each := ParseEach(names, domains);
    CollectExact(each);
    forall i | 0 <= i < |crits|
      ensures NewCriteria(names[i], domains) == Some(crits[i]) && "fqdn" in crits[i] && crits[i]["fqdn"] == [names[i]]
    {
      assert each[i] == Some(crits[i]);
      CriteriaNamed(names[i], domains);
    }
  }

  /** What the health filters hand to the tracker, criteria by criteria. */
  function TrackedOfAll(crits: seq<Criteria>, shouldTrack: bool, recs: seq<Record>): seq<Host> {
    Flatten(seq(|crits|, i requires 0 <= i < |crits| => Tracked(crits[i], shouldTrack, Filtered(crits[i], recs))))
  }

  /** A name that parses contains a dot: it is not empty. */
  lemma ParsedNotEmpty(name: string, domains: seq<string>)
    requires NewCriteria(name, domains).Some?
    ensures name != ""
  {
  }

  /** The hosts that resolving the names hands to the tracker. */
  function TrackedHosts(names: seq<string>, domains: seq<string>, recs: seq<Record>, shouldTrack: bool): seq<Host> {
    match ParseAll(names, domains)
    case None => []
    case Some(crits) =>
      var first := MatchesOfAll(crits, recs);
      if |first| == 0 then [] else TrackedOfAll(crits, shouldTrack, first)
  }

  /** ResolveRecords on values: parse, filter by domain, filter by health. */
  function ResolvedRecords(names: seq<string>, domains: seq<string>, recs: seq<Record>,
                           view: View): Result<seq<Record>> {
    match ParseAll(names, domains)
    case None => Failed(CriteriaError)
    case Some(crits) =>
      var first := MatchesOfAll(crits, recs);
      if |first| == 0 then Failed(DomainError) else Success(SelectedOfAll(crits, view, first))
  }

  /** A parsed blob file: records, alias definitions, hosts and version. */
  datatype Blob = Blob(records: seq<Record>, definitions: map<string, seq<Encoder.AliasDefinition>>, hosts: seq<Host>,
                       version: nat)

  function IPs(recs: seq<Record>): (ips: seq<string>)
    ensures |ips| == |recs| && forall i :: 0 <= i < |recs| ==> ips[i] == recs[i].ip
  {
    seq(|recs|, i requires 0 <= i < |recs| => recs[i].ip)
  }

  /** The expansions that are IP addresses themselves, in order. */
  function Literals(isIP: string -> bool, names: seq<string>): seq<string> {
    if names == [] then []
    else
      var front, last := Literals(isIP, names[..|names| - 1]), names[|names| - 1];
      if isIP(last) then front + [last] else front
  }

  /** unsafeExpandAliases: a name without resolutions stands for itself. */
  function Expansions(aliases: AliasGraph.Graph, underscoreAliases: AliasGraph.Graph, fqdn: string): seq<string> {
    match Aliases.Resolutions(aliases, underscoreAliases, fqdn)
    case Some(names) => if |names| == 0 then [fqdn] else names
    case None => [fqdn]
  }

  function ResolvedIPs(isIP: string -> bool, expansions: seq<string>, domains: seq<string>, recs: seq<Record>,
                       view: View): Result<seq<string>> {
    match ResolvedRecords(expansions, domains, recs, view)
    case Success(final) => Success(IPs(final) + Literals(isIP, expansions))
    case Failed(e) =>
      if e.DomainError? && |Literals(isIP, expansions)| > 0 then Success(Literals(isIP, expansions)) else Failed(e)
  }

  ghost predicate IsDomainList(domains: seq<string>, recs: seq<Record>) {
    && Distinct(domains)
    && (forall d :: d in domains <==> exists i :: 0 <= i < |recs| && recs[i].domain == d)
  }

  type AliasEntries = Aliases.AliasEntries

  /** NewConfig().Merge(base): a copy that shares nothing with the base. */
  method CopyConfig(base: Aliases.Config) returns (r: Aliases.Config)
    requires Aliases.Stored(base)
    ensures Aliases.Stored(r) && fresh(r.aliases) && fresh(r.underscoreAliases)
    ensures Aliases.Entries(r) == Aliases.Entries(base) && HostsListed(r.aliasHosts, Aliases.Entries(r))
  {
    var empty := Aliases.NewConfig();
    Aliases.NothingExtended(Aliases.Entries(base));
    r := Aliases.Merge(empty, base);
  }

  /** NewConfig().Merge(base).Merge(updated): the base's entries, then what the update adds. */
  method MergeOver(base: Aliases.Config, updated: Aliases.Config) returns (r: Aliases.Config)
    requires Aliases.Stored(base) && Aliases.Stored(updated)
    ensures Aliases.Stored(r) && fresh(r.aliases) && fresh(r.underscoreAliases)
    ensures Aliases.Entries(r) == Aliases.Entries(base).ExtendedBy(Aliases.Entries(updated))
    ensures HostsListed(r.aliasHosts, Aliases.Entries(r))
  {
    var copy := CopyConfig(base);
    r := Aliases.Merge(copy, updated);
  }

  ghost predicate HostsListed(list: seq<string>, e: AliasEntries) {
    Aliases.IsHostList(list, e.aliases.Keys + e.underscoreAliases.Keys)
  }

  /** The variable part of a record set. */
  datatype State = State(mergedAliasList: Aliases.Config, domains: seq<string>, records: seq<Record>, hosts: seq<Host>,
                         version: nat, subscription: seq<seq<Record>>, merged: AliasEntries)

  ghost predicate ReflectedIn(s: State, base: AliasEntries, isIP: string -> bool, b: Blob, how: Orders) {
    && s.records == b.records && s.hosts == b.hosts && s.version == b.version
    && IsOrders(b, how) && s.merged == base.ExtendedBy(AliasesOf(b, isIP, how))
  }

  class RecordSet {
    const isIP: string -> bool
    const aliasList: Aliases.Config
    var mergedAliasList: Aliases.Config
    var domains: seq<string>
    var records: seq<Record>
    var hosts: seq<Host>
    var version: nat
    var subscription: seq<seq<Record>>   // the records sent to the tracker
    const encoder: Encoder.AliasEncoder
    ghost const base: AliasEntries     // the base aliases as they were given
    ghost var merged: AliasEntries     // what the merged list holds

    ghost predicate Valid()
      reads this, aliasList.aliases, aliasList.underscoreAliases
      reads mergedAliasList.aliases, mergedAliasList.underscoreAliases
    {
      && Aliases.Stored(aliasList) && Aliases.Entries(aliasList) == base
      && Aliases.Stored(mergedAliasList) && Aliases.Entries(mergedAliasList) == merged
      && Aliases.Maps(aliasList) !! Aliases.Maps(mergedAliasList)
      && HostsListed(mergedAliasList.aliasHosts, merged) && IsDomainList(domains, records)
    }

    /** Before the first blob: no records, and a copy of the base aliases. */
    constructor (aliasList: Aliases.Config, encoder: Encoder.AliasEncoder, isIP: string -> bool)
      requires Aliases.Stored(aliasList)
      ensures Valid() && this.aliasList == aliasList && this.isIP == isIP && this.encoder == encoder
      ensures records == [] && subscription == []
      ensures base == Aliases.Entries(aliasList) && merged == base
      ensures fresh(mergedAliasList.aliases) && fresh(mergedAliasList.underscoreAliases)
    {
      var copy := CopyConfig(aliasList);
      this.aliasList, this.isIP, this.encoder, mergedAliasList := aliasList, isIP, encoder, copy;
      domains, records, hosts, version, subscription := [], [], [], 0, [];
      base, merged := Aliases.Entries(aliasList), Aliases.Entries(aliasList);
    }

    /** All that an update can change. */
    ghost function Held(): State
      reads this
    {
      State(mergedAliasList, domains, records, hosts, version, subscription, merged)
    }

    /** Domains: those of the records and the alias hosts. */
    function Domains(): seq<string>
      reads this
    {
      domains + mergedAliasList.aliasHosts
    }

    // ----- Resolving -----

    method ParseCriteria(names: seq<string>) returns (r: Option<seq<Criteria>>)
      ensures r == ParseAll(names, domains)
    {
      var crits: seq<Criteria> := [];
      ghost var each := ParseEach(names, domains);
      for i := 0 to |names|
        invariant Collect(each[..i]) == Some(crits)
      {
        assert each[..i + 1][..i] == each[..i];
        var c := NewCriteria(names[i], domains);
        assert c == each[i];
        if c.None? {
          CollectPrefix(each, i);
          return None;
        }
        crits := crits + [c.value];
      }
      assert each[..|names|] == each;
      return Some(crits);
    }

    method FilterByDomain(crits: seq<Criteria>, recs: seq<Record>) returns (r: seq<Record>)
      ensures r == MatchesOfAll(crits, recs)
    {
      r := [];
      ghost var lists := seq(|crits|, i requires 0 <= i < |crits| => Filtered(crits[i], recs));
      for i := 0 to |crits|
        invariant r == Flatten(lists[..i])
      {
        FlattenNext(lists, i);
        var found := QueryFilter.Filter(crits[i], recs);
        r := r + found;
      }
      assert lists[..|crits|] == lists;
    }

    method FilterByHealth(crits: seq<Criteria>, recs: seq<Record>, view: View, shouldTrack: bool)
      returns (r: seq<Record>, tracked: seq<Host>)
      requires forall i :: 0 <= i < |crits| && "fqdn" in crits[i] ==> |crits[i]["fqdn"]| > 0
      ensures r == SelectedOfAll(crits, view, recs)
      ensures tracked == TrackedOfAll(crits, shouldTrack, recs)
    {
      r, tracked := [], [];
      ghost var n := |crits|;
      ghost var lists := seq(n, i requires 0 <= i < n => Selected(crits[i], view, Filtered(crits[i], recs)));
      ghost var hosts := seq(n, i requires 0 <= i < n => Tracked(crits[i], shouldTrack, Filtered(crits[i], recs)));
      for i := 0 to |crits|
        invariant r == Flatten(lists[..i]) && tracked == Flatten(hosts[..i])
      {
        FlattenNext(lists, i);
        FlattenNext(hosts, i);
        var found, sent := Health.Filter(crits[i], recs, view, shouldTrack);
        r, tracked := r + found, tracked + sent;
      }
      assert lists[..|crits|] == lists && hosts[..|crits|] == hosts;
    }

    method ResolveRecords(names: seq<string>, view: View, shouldTrack: bool)
      returns (r: Result<seq<Record>>, tracked: seq<Host>)
      ensures r == ResolvedRecords(names, domains, records, view)
      ensures tracked == TrackedHosts(names, domains, records, shouldTrack)
    {
      tracked := [];
      var crits := ParseCriteria(names);
      if crits.None? {
        return Failed(CriteriaError), tracked;
      }
      ParseAllNamed(names, domains);
      var first := FilterByDomain(crits.value, records);
      if |first| == 0 {
        return Failed(DomainError), tracked;
      }
      var final;
      final, tracked := FilterByHealth(crits.value, first, view, shouldTrack);
      r := Success(final);
    }

    method Resolve(fqdnRaw: string, view: View) returns (r: Result<seq<string>>, tracked: seq<Host>)
      ensures r == ResolvedIPs(isIP,
        Expansions(mergedAliasList.aliases.entries, mergedAliasList.underscoreAliases.entries, ToLower(fqdnRaw)),
        domains, records, view)
      ensures tracked == TrackedHosts(
        Expansions(mergedAliasList.aliases.entries, mergedAliasList.underscoreAliases.entries, ToLower(fqdnRaw)),
        domains, records, true)
    {
      var fqdn := ToLower(fqdnRaw);
      var expansions := Expansions(mergedAliasList.aliases.entries, mergedAliasList.underscoreAliases.entries, fqdn);
      var aliasIPs: seq<string> := [];
      for i := 0 to |expansions|
        invariant aliasIPs == Literals(isIP, expansions[..i])
      {
        assert expansions[..i + 1][..i] == expansions[..i];
        if isIP(expansions[i]) {
          aliasIPs := aliasIPs + [expansions[i]];
        }
      }
      assert expansions[..|expansions|] == expansions;
      var final;
      final, tracked := ResolveRecords(expansions, view, true);
      if final.Failed? {
        if !final.error.DomainError? || |aliasIPs| == 0 {
          return Failed(final.error), tracked;
        }
        return Success(aliasIPs), tracked;
      }
      r := Success(IPs(final.value) + aliasIPs);
    }

    // ----- Taking over a new blob -----

    /** The aliases of a blob: its definitions as queries, loaded as an alias config. */
    method LoadAliases(b: Blob) returns (updated: Aliases.Config, ghost how: Orders)
      modifies encoder
      ensures Aliases.Stored(updated) && fresh(updated.aliases) && fresh(updated.underscoreAliases)
      ensures IsOrders(b, how) && Aliases.Entries(updated) == AliasesOf(b, isIP, how)
    {
      var encoded, ok;
      ghost var definitions, names;
      encoded, definitions := encoder.EncodeAliasesIntoQueries(b.records, b.definitions);
      updated, ok, names := Aliases.NewConfigFromMap(encoded, isIP);
      Encoder.NamesNotEmpty(definitions, b.records, b.definitions);
      how := Orders(definitions, names);
    }

    /** The domains of the records, each once. */
    method CollectDomains(recs: seq<Record>) returns (ds: seq<string>)
      ensures IsDomainList(ds, recs)
    {
      var found: set<string> := {};
      for i := 0 to |recs|
        invariant forall d :: d in found <==> exists j :: 0 <= j < i && recs[j].domain == d
      {
        found := found + {recs[i].domain};
      }
      ds := [];
      var rest := found;
      while rest != {}
        invariant rest <= found
        invariant Distinct(ds)
        invariant forall d :: d in ds <==> d in found - rest
      {
        var d :| d in rest;
        assert d !in ds && forall i :: 0 <= i < |ds| ==> ds[i] in ds;
        rest := rest - {d};
        ds := ds + [d];
      }
    }

    /** The part of Update that reads the blob: its aliases over the base, and its domains. */
    method Prepare(b: Blob) returns (config: Aliases.Config, ds: seq<string>, ghost how: Orders)
      requires Aliases.Stored(aliasList)
      modifies encoder
      ensures Aliases.Stored(config) && fresh(config.aliases) && fresh(config.underscoreAliases)
      ensures IsOrders(b, how) && Aliases.Maps(aliasList) !! Aliases.Maps(config)
      ensures Aliases.Entries(config) == Aliases.Entries(aliasList).ExtendedBy(AliasesOf(b, isIP, how))
      ensures HostsListed(config.aliasHosts, Aliases.Entries(config)) && IsDomainList(ds, b.records)
    {
      var loaded;
      loaded, how := LoadAliases(b);
      config := MergeOver(aliasList, loaded);
      ds := CollectDomains(b.records);
    }

    method Replace(b: Blob) returns (ghost how: Orders)
      requires Valid()
      modifies this, encoder
      ensures Valid() && Reflects(b, how) && subscription == old(subscription) + [records]
    {
      var config, ds;
      config, ds, how := Prepare(b);
      Install(b, config, ds);
    }

    /** A blob that could not be read or parsed (None) changes nothing. */
    method Update(contents: Option<Blob>) returns (ghost how: Orders)
      requires Valid()
      modifies this, encoder
      ensures Valid()
      ensures contents.None? ==> Held() == old(Held())
      ensures contents.Some? ==> Reflects(contents.value, how) && subscription == old(subscription) + [records]
    {
      how := Orders([], []);
      if contents.Some? {
        how := Replace(contents.value);
      }
    }

    /** The assignments under the lock. */
    method Install(b: Blob, config: Aliases.Config, ds: seq<string>)
      requires Aliases.Stored(aliasList) && Aliases.Entries(aliasList) == base && Aliases.Stored(config)
      requires Aliases.Maps(aliasList) !! Aliases.Maps(config)
      requires HostsListed(config.aliasHosts, Aliases.Entries(config)) && IsDomainList(ds, b.records)
      modifies this
      ensures Valid() && records == b.records && hosts == b.hosts && version == b.version
      ensures merged == Aliases.Entries(config) && subscription == old(subscription) + [b.records]
    {
      ghost var e := Aliases.Entries(config);
      subscription := subscription + [b.records];
      version, records, hosts, domains := b.version, b.records, b.hosts, ds;
      mergedAliasList, merged := config, e;
      assert Aliases.Entries(mergedAliasList) == e;
      assert Aliases.Stored(mergedAliasList);
      assert Aliases.Stored(aliasList) && Aliases.Entries(aliasList) == base;
    }

    /** The set holds the blob's records, and the base aliases extended by the blob's alone. */
    ghost predicate Reflects(b: Blob, how: Orders)
      reads this
    {
      ReflectedIn(Held(), base, isIP, b, how)
    }


    /**
     Any run of updates: the base aliases stay as they were given, and the set reflects the last
     readable blob alone.
     */
    method UpdateAll(blobs: seq<Option<Blob>>) returns (ghost how: Orders)
      requires Valid()
      modifies this, encoder
      ensures Valid()
      ensures LastReadable(blobs).None? ==> Held() == old(Held())
      ensures LastReadable(blobs).Some? ==> Reflects(LastReadable(blobs).value, how)
      ensures subscription == old(subscription) + Sent(blobs)
    {
      how := Orders([], []);
      if blobs != [] {
        var front, last := blobs[..|blobs| - 1], blobs[|blobs| - 1];
        how := UpdateAll(front);
        if last.Some? {
          how := Update(last);
          SentNext(old(subscription), front, last);
        } else {
          ghost var same := Update(last);
        }
      }
    }
  }

  /** What a run of updates sends to the tracker: the records of every readable blob, in order. */
  ghost function Sent(blobs: seq<Option<Blob>>): seq<seq<Record>> {
    if blobs == [] then []
    else
      var front, last := Sent(blobs[..|blobs| - 1]), blobs[|blobs| - 1];
      if last.Some? then front + [last.value.records] else front
  }

  lemma {:induction false} SentNext(before: seq<seq<Record>>, front: seq<Option<Blob>>, last: Option<Blob>)
    ensures before + Sent(front + [last]) ==
      if last.Some? then (before + Sent(front)) + [last.value.records] else before + Sent(front)
  {
    assert (front + [last])[..|front|] == front;
  }

  /** The last blob of a run that could be read. */
  ghost function LastReadable(blobs: seq<Option<Blob>>): Option<Blob> {
    if blobs == [] then None
    else if blobs[|blobs| - 1].Some? then blobs[|blobs| - 1]
    else LastReadable(blobs[..|blobs| - 1])
  }

  /** The orders in which the definitions and then the alias names were met. */
  datatype Orders = Orders(definitions: seq<string>, names: seq<string>)

  /** The entries that a blob's definitions give rise to. */
  ghost function BlobEntries(b: Blob, how: Orders): seq<Encoder.Entry> {
    Encoder.EntriesInOrder(how.definitions, b.records, b.definitions)
  }

  /** A blob's definitions, printed as queries. */
  ghost function EncodedAliases(b: Blob, how: Orders): AliasGraph.Graph {
    Encoder.EncodedFrom(BlobEntries(b, how))
  }

  /** The alias entries of a blob: its definitions' queries, as the config loader stores them. */
  ghost function AliasesOf(b: Blob, isIP: string -> bool, how: Orders): AliasEntries {
    Aliases.LoadInOrder(EncodedAliases(b, how), how.names, isIP)
  }

  ghost predicate IsOrders(b: Blob, how: Orders) {
    Enumerates(how.definitions, b.definitions.Keys) && Enumerates(how.names, EncodedAliases(b, how).Keys)
  }

  // ----- What resolving answers -----

  lemma {:induction false} InLiterals(isIP: string -> bool, names: seq<string>, ip: string)
    ensures ip in Literals(isIP, names) <==> ip in names && isIP(ip)
  {
    if names == [] {
    } else {
      InLiterals(isIP, names[..|names| - 1], ip);
      assert names == names[..|names| - 1] + [names[|names| - 1]];
    }
  }

  /** The i-th expansion's query matches the record, and health selection among its matches keeps it. */
  ghost predicate ChosenAt(names: seq<string>, domains: seq<string>, recs: seq<Record>, view: View, r: Record, i: nat) {
    && i < |names| && NewCriteria(names[i], domains).Some?
    && var c := NewCriteria(names[i], domains).value; r in Selected(c, view, Filtered(c, recs))
  }

  ghost predicate Chosen(names: seq<string>, domains: seq<string>, recs: seq<Record>, view: View, r: Record) {
    exists i: nat :: ChosenAt(names, domains, recs, view, r, i)
  }

  /** The i-th expansion's query matches the record. */
  ghost predicate NamedAt(names: seq<string>, domains: seq<string>, recs: seq<Record>, r: Record, i: nat) {
    i < |names| && NewCriteria(names[i], domains).Some? && r in Filtered(NewCriteria(names[i], domains).value, recs)
  }

  ghost predicate MatchedBySome(names: seq<string>, domains: seq<string>, recs: seq<Record>, r: Record) {
    exists i: nat :: NamedAt(names, domains, recs, r, i)
  }

  lemma {:induction false} RecordsExact(names: seq<string>, domains: seq<string>, recs: seq<Record>, view: View,
                                        r: Record)
    requires ResolvedRecords(names, domains, recs, view).Success?
    ensures r in ResolvedRecords(names, domains, recs, view).value <==> Chosen(names, domains, recs, view, r)
  {
    var crits := ParseAll(names, domains).value;
    ParseAllNamed(names, domains);
    TwoPasses(crits, view, recs, r);
    forall i: nat ensures SelectedAt(crits, view, recs, r, i) <==> ChosenAt(names, domains, recs, view, r, i) {
      assert i < |crits| ==> NewCriteria(names[i], domains) == Some(crits[i]);
    }
  }

  /** Resolving fails to parse exactly when some expansion is no legal query. */
  lemma {:induction false} ParseAllExact(names: seq<string>, domains: seq<string>)
    ensures ParseAll(names, domains).Some? <==> forall i :: 0 <= i < |names| ==> NewCriteria(names[i], domains).Some?
  {
    CollectExact(ParseEach(names, domains));
  }

  lemma {:induction false} FirstPassEmpty(names: seq<string>, domains: seq<string>, recs: seq<Record>)
    requires ParseAll(names, domains).Some?
    ensures MatchesOfAll(ParseAll(names, domains).value, recs) == [] <==>
      forall r :: !MatchedBySome(names, domains, recs, r)
  {
    var crits := ParseAll(names, domains).value;
    var first := MatchesOfAll(crits, recs);
    ParseAllNamed(names, domains);
    forall r: Record ensures r in first <==> MatchedBySome(names, domains, recs, r) {
      InMatchesOfAll(crits, recs, r);
      forall i: nat ensures MatchedAt(crits, recs, r, i) <==> NamedAt(names, domains, recs, r, i) {
        assert i < |crits| ==> NewCriteria(names[i], domains) == Some(crits[i]);
      }
    }
    if first != [] { assert first[0] in first; }
  }

  lemma {:induction false} InIPs(recs: seq<Record>, ip: string)
    ensures ip in IPs(recs) <==> exists r :: r in recs && r.ip == ip
  {
    if ip in IPs(recs) {
      var i :| 0 <= i < |recs| && IPs(recs)[i] == ip;
      assert recs[i] in recs;
    }
    if r :| r in recs && r.ip == ip {
      var i :| 0 <= i < |recs| && recs[i] == r;
      assert IPs(recs)[i] == ip;
    }
  }

  /** Every expansion parses, none matches a record, and none is an address. */
  ghost predicate NothingFound(isIP: string -> bool, names: seq<string>, domains: seq<string>, recs: seq<Record>) {
    && (forall i :: 0 <= i < |names| ==> NewCriteria(names[i], domains).Some?)
    && (forall r :: !MatchedBySome(names, domains, recs, r))
    && (forall name :: name in names ==> !isIP(name))
  }

  /**
   Resolving a name: the error of an unparsable expansion, the error of no match unless an
   expansion is itself an address, and otherwise exactly the addresses of the chosen records
   and the expansions that are addresses.
   */
  lemma {:induction false} ResolveExact(isIP: string -> bool, names: seq<string>, domains: seq<string>,
                                        recs: seq<Record>, view: View, ip: string)
    ensures var result := ResolvedIPs(isIP, names, domains, recs, view);
      && (result == Failed(CriteriaError) <==> exists i :: 0 <= i < |names| && NewCriteria(names[i], domains).None?)
      && (result == Failed(DomainError) <==> NothingFound(isIP, names, domains, recs))
      && (result.Success? ==>
            (ip in result.value <==>
              (ip in names && isIP(ip)) || exists r: Record :: r.ip == ip && Chosen(names, domains, recs, view, r)))
  {
    ParseAllExact(names, domains);
    InLiterals(isIP, names, ip);
    NoLiterals(isIP, names);
    var records := ResolvedRecords(names, domains, recs, view);
    if ParseAll(names, domains).Some? { FirstPassEmpty(names, domains, recs); }
    if records.Success? {
      InIPs(records.value, ip);
      forall r: Record ensures r in records.value <==> Chosen(names, domains, recs, view, r) {
        RecordsExact(names, domains, recs, view, r);
      }
    } else if records.error.DomainError? {
      forall r: Record ensures !Chosen(names, domains, recs, view, r) {
        NotChosen(names, domains, recs, view, r);
      }
    }
  }

  lemma {:induction false} NoLiterals(isIP: string -> bool, names: seq<string>)
    ensures Literals(isIP, names) == [] <==> forall name :: name in names ==> !isIP(name)
  {
    forall name ensures name in Literals(isIP, names) <==> name in names && isIP(name) {
      InLiterals(isIP, names, name);
    }
    if Literals(isIP, names) != [] { assert Literals(isIP, names)[0] in Literals(isIP, names); }
  }

  lemma {:induction false} NotChosen(names: seq<string>, domains: seq<string>, recs: seq<Record>, view: View, r: Record)
    requires !MatchedBySome(names, domains, recs, r)
    ensures !Chosen(names, domains, recs, view, r)
  {
    if i: nat :| ChosenAt(names, domains, recs, view, r, i) {
      var c := NewCriteria(names[i], domains).value;
      SelectedBySet(c, view, Filtered(c, recs), Filtered(c, recs), r);
      assert NamedAt(names, domains, recs, r, i);
    }
  }

  // ----- What resolving asks to be tracked -----

  /** The criteria hands the host to the tracker as one of its matches. */
  ghost predicate HandsOver(c: Criteria, recs: seq<Record>, h: Host) {
    && "fqdn" in c && |c["fqdn"]| > 0 && h.fqdn == c["fqdn"][0]
    && exists r: Record :: r in recs && Matches(c, r) && r.ip == h.ip
  }

  lemma {:induction false} InTracked(c: Criteria, recs: seq<Record>, h: Host)
    ensures h in Tracked(c, true, Filtered(c, recs)) <==>
      HandsOver(c, recs, h) && !(Strategy(c) == "0" && |Filtered(c, recs)| == 1)
  {
    var matches := Filtered(c, recs);
    forall r: Record ensures r in matches <==> r in recs && Matches(c, r) { FilteredExact(c, recs, r); }
    var hosts := Tracked(c, true, matches);
    if h in hosts {
      var i :| 0 <= i < |hosts| && hosts[i] == h;
      assert matches[i] in matches;
    }
    if HandsOver(c, recs, h) && !(Strategy(c) == "0" && |matches| == 1) {
      var r: Record :| r in recs && Matches(c, r) && r.ip == h.ip;
      var i :| 0 <= i < |matches| && matches[i] == r;
      assert hosts[i] == h;
    }
  }

  /** What the first pass finds for the names. */
  function FirstPass(names: seq<string>, domains: seq<string>, recs: seq<Record>): seq<Record> {
    match ParseAll(names, domains)
    case None => []
    case Some(crits) => MatchesOfAll(crits, recs)
  }

  /**
   The i-th name's query matches a record with the host's IP and asks under that name, and it is
   not a smart query with a single match among what the first pass found.
   */
  ghost predicate AsksFor(names: seq<string>, domains: seq<string>, recs: seq<Record>, h: Host, i: nat) {
    && i < |names| && NewCriteria(names[i], domains).Some? && h.fqdn == names[i]
    && var c := NewCriteria(names[i], domains).value;
       && (exists r: Record :: r in recs && Matches(c, r) && r.ip == h.ip)
       && !(Strategy(c) == "0" && |Filtered(c, FirstPass(names, domains, recs))| == 1)
  }

  /** What a criteria finds in the first pass's list is what it finds in all records. */
  lemma {:induction false} HandsOverEither(crits: seq<Criteria>, i: nat, recs: seq<Record>, h: Host)
    requires i < |crits|
    ensures HandsOver(crits[i], MatchesOfAll(crits, recs), h) <==> HandsOver(crits[i], recs, h)
  {
    var first := MatchesOfAll(crits, recs);
    forall r: Record ensures r in first && Matches(crits[i], r) <==> r in recs && Matches(crits[i], r) {
      SecondMatch(crits, i, recs, r);
      FilteredExact(crits[i], first, r);
      FilteredExact(crits[i], recs, r);
    }
  }

  /** The i-th criteria hands over exactly the hosts that the i-th name asks for. */
  lemma {:induction false} TrackedAt(names: seq<string>, domains: seq<string>, recs: seq<Record>, h: Host, i: nat)
    requires ParseAll(names, domains).Some? && i < |names|
    ensures |ParseAll(names, domains).value| == |names|
    ensures var crits := ParseAll(names, domains).value; var first := MatchesOfAll(crits, recs);
      h in Tracked(crits[i], true, Filtered(crits[i], first)) <==> AsksFor(names, domains, recs, h, i)
  {
    var crits := ParseAll(names, domains).value;
    ParseAllNamed(names, domains);
    InTracked(crits[i], MatchesOfAll(crits, recs), h);
    HandsOverEither(crits, i, recs, h);
  }

  /** Resolving hands over a host exactly when some name asks for it, and never under an empty name. */
  lemma {:induction false} TrackedExact(names: seq<string>, domains: seq<string>, recs: seq<Record>, h: Host)
    requires ParseAll(names, domains).Some?
    ensures h in TrackedHosts(names, domains, recs, true) <==> exists i: nat :: AsksFor(names, domains, recs, h, i)
    ensures h in TrackedHosts(names, domains, recs, true) ==> h.fqdn != ""
    ensures h !in TrackedHosts(names, domains, recs, false)
  {
    NoTracking(ParseAll(names, domains).value, MatchesOfAll(ParseAll(names, domains).value, recs), h);
    var crits := ParseAll(names, domains).value;
    var first := MatchesOfAll(crits, recs);
    var hosts := seq(|crits|, i requires 0 <= i < |crits| => Tracked(crits[i], true, Filtered(crits[i], first)));
    ParseAllNamed(names, domains);
    InFlatten(hosts, h);
    forall i: nat | i < |names| ensures h in hosts[i] <==> AsksFor(names, domains, recs, h, i) {
      TrackedAt(names, domains, recs, h, i);
    }
    if first == [] { NothingTracked(crits, first, h); }
    if i: nat :| AsksFor(names, domains, recs, h, i) { ParsedNotEmpty(names[i], domains); }
  }

  /** When tracking is not asked for, nothing is handed over. */
  lemma {:induction false} NoTracking(crits: seq<Criteria>, recs: seq<Record>, h: Host)
    ensures h !in TrackedOfAll(crits, false, recs)
  {
    var hosts := seq(|crits|, i requires 0 <= i < |crits| => Tracked(crits[i], false, Filtered(crits[i], recs)));
    InFlatten(hosts, h);
  }

  /** An empty first pass hands nothing over. */
  lemma {:induction false} NothingTracked(crits: seq<Criteria>, first: seq<Record>, h: Host)
    requires first == []
    ensures h !in TrackedOfAll(crits, true, first)
  {
    var hosts := seq(|crits|, i requires 0 <= i < |crits| => Tracked(crits[i], true, Filtered(crits[i], first)));
    InFlatten(hosts, h);
  }

  // ----- Aliases from the blob -----

  lemma DigitsLower(s: string)
    requires AllDigits(s)
    ensures IsLower(s)
  {
    assert forall i :: 0 <= i < |s| ==> IsDigit(s[i]);
  }

  lemma LowerParts(s: string, t: string)
    requires IsLower(s) && IsLower(t)
    ensures IsLower(s + t)
  {
    LowerConcat(s, t);
  }

  lemma {:induction false} SegmentsLower(q: Encoder.QueryEncoder)
    requires Encoder.Plain(q)
    ensures IsLower(Encoder.FirstSegment(q)) && IsLower(Encoder.GroupSegment(q))
  {
    var m, s, y := q.numID, Encoder.HealthCode(q.healthFilter), Encoder.CheckCode(q.initialHealthCheck);
    DigitsLower(m);
    DigitsLower(s);
    DigitsLower(y);
    DigitsLower(q.groupID);
    assert IsLower("m") && IsLower("s") && IsLower("y") && IsLower("q-") && IsLower("q-g");
    LowerParts("m", m);
    LowerParts("s", s);
    LowerParts("y", y);
    LowerParts(Encoder.Pair("m", m), Encoder.Pair("s", s));
    LowerParts(Encoder.Pair("m", m) + Encoder.Pair("s", s), Encoder.Pair("y", y));
    LowerParts("q-", Encoder.EncodePairs(q));
    LowerParts("q-g", q.groupID);
  }

  lemma {:induction false} EncodedLower(q: Encoder.QueryEncoder)
    requires Encoder.Plain(q)
    ensures IsLower(Fqdn(Encoder.Encode(q)))
  {
    SegmentsLower(q);
    assert IsLower(".");
    LowerParts(Encoder.GroupSegment(q), ".");
    LowerParts(Encoder.GroupSegment(q) + ".", q.rootDomain);
    LowerParts(Encoder.FirstSegment(q), ".");
    LowerParts(Encoder.FirstSegment(q) + ".", Encoder.GroupSegment(q) + "." + q.rootDomain);
    LowerParts(Encoder.Encode(q), ".");
  }

  lemma QualifiedAsIs(isIP: string -> bool, name: string)
    requires Canonical(name) && name[0] != '*' && !isIP(name)
    ensures Aliases.Qualified(isIP, name) == name
  {
  }

  /**
   The config loader stores a printed query as it is, so the query that a name resolves to later
   is the one that was printed, and it reads back as the encoder's criteria.
   */
  lemma {:induction false} StoredQuery(q: Encoder.QueryEncoder, isIP: string -> bool, domains: seq<string>)
    requires Encoder.Plain(q) && Encoder.OnlyTLD(Fqdn(Encoder.Encode(q)), q.rootDomain + ".", domains)
    requires !isIP(Fqdn(Encoder.Encode(q)))
    ensures Aliases.Qualified(isIP, Fqdn(Encoder.Encode(q))) == Fqdn(Encoder.Encode(q))
    ensures NewCriteria(Aliases.Qualified(isIP, Fqdn(Encoder.Encode(q))), domains) == Some(Encoder.Meaning(q))
  {
    EncodedLower(q);
    assert Fqdn(Encoder.Encode(q))[0] == Encoder.FirstSegment(q)[0] == 'q';
    QualifiedAsIs(isIP, Fqdn(Encoder.Encode(q)));
    Encoder.RoundTrip(q, domains);
  }

  /** The strategy and the initial check a printed query asks for are those its definition names. */
  lemma {:induction false} PrintedStrategy(q: Encoder.QueryEncoder)
    requires q.groupID != ""
    ensures Groups(Encoder.Meaning(q)) == [q.groupID]
    ensures Strategy(Encoder.Meaning(q)) == match q.healthFilter
      case "unhealthy" => "1" case "healthy" => "3" case "all" => "4" case _ => "0"
    ensures QueryMeaning.Given(Encoder.Meaning(q), "y") == match q.initialHealthCheck
      case "asynchronous" => ["0"] case "synchronous" => ["1"] case _ => []
  {
    Encoder.MeaningGroup(q);
    Encoder.MeaningSteering(q);
  }

  /** Any other health filter, none included, asks for the smart strategy. */
  predicate IsSmart(q: Encoder.QueryEncoder) { q.healthFilter !in {"unhealthy", "healthy", "all"} }

  /**
   A definition's health filter selects by the state of its own group: "unhealthy" the failing
   records, "healthy" the running ones, "all" every one, and anything else the smart choice.
   */
  lemma {:induction false} FilterMeaning(q: Encoder.QueryEncoder, view: View, matches: seq<Record>, r: Record)
    requires q.groupID != ""
    ensures var state := Interpreted(view(r.ip), [q.groupID]);
      var kept := r in Selected(Encoder.Meaning(q), view, matches);
      && (q.healthFilter == "unhealthy" ==> (kept <==> r in matches && state == FAILING))
      && (q.healthFilter == "healthy" ==> (kept <==> r in matches && state == RUNNING))
      && (q.healthFilter == "all" ==> (kept <==> r in matches))
      && (IsSmart(q) ==> (kept <==> r in matches && SmartKeeps(view, [q.groupID], matches, state)))
  {
    PrintedStrategy(q);
    SelectedExact(Encoder.Meaning(q), view, matches, r);
  }

  // ----- An alias, end to end -----

  /** The records a definition asks for: the addressed ones that its health filter keeps. */
  ghost predicate Wanted(q: Encoder.QueryEncoder, recs: seq<Record>, view: View, r: Record) {
    && r in recs && Encoder.Addressed(q, r)
    && var state := Interpreted(view(r.ip), [q.groupID]);
       && (q.healthFilter == "unhealthy" ==> state == FAILING)
       && (q.healthFilter == "healthy" ==> state == RUNNING)
       && (IsSmart(q) ==> PerhapsHealthy(state) || NonePerhapsHealthy(q, recs, view))
  }

  ghost predicate NonePerhapsHealthy(q: Encoder.QueryEncoder, recs: seq<Record>, view: View) {
    forall x :: x in recs && Encoder.Addressed(q, x) ==> !PerhapsHealthy(Interpreted(view(x.ip), [q.groupID]))
  }

  ghost predicate WantedAt(qs: seq<Encoder.QueryEncoder>, recs: seq<Record>, view: View, r: Record, i: nat) {
    i < |qs| && Wanted(qs[i], recs, view, r)
  }

  ghost predicate AddressedAt(qs: seq<Encoder.QueryEncoder>, recs: seq<Record>, r: Record, i: nat) {
    i < |qs| && r in recs && Encoder.Addressed(qs[i], r)
  }

  ghost predicate AddressedBySome(qs: seq<Encoder.QueryEncoder>, recs: seq<Record>, r: Record) {
    exists i: nat :: AddressedAt(qs, recs, r, i)
  }

  /** A definition's criteria keep exactly the records it asks for. */
  lemma {:induction false} MeaningWanted(q: Encoder.QueryEncoder, recs: seq<Record>, view: View, r: Record)
    requires q.groupID != ""
    ensures r in Filtered(Encoder.Meaning(q), recs) <==> r in recs && Encoder.Addressed(q, r)
    ensures r in Selected(Encoder.Meaning(q), view, Filtered(Encoder.Meaning(q), recs)) <==> Wanted(q, recs, view, r)
  {
    var matches := Filtered(Encoder.Meaning(q), recs);
    forall x: Record ensures x in matches <==> x in recs && Encoder.Addressed(q, x) {
      FilteredExact(Encoder.Meaning(q), recs, x);
      Encoder.MeaningSelects(q, x);
    }
    FilterMeaning(q, view, matches, r);
  }

  /** Every query prints as digits under a listed root domain, the only listed one its name ends with. */
  ghost predicate Printable(qs: seq<Encoder.QueryEncoder>, domains: seq<string>) {
    forall i :: 0 <= i < |qs| ==>
      Encoder.Plain(qs[i]) && Encoder.OnlyTLD(Fqdn(Encoder.Encode(qs[i])), qs[i].rootDomain + ".", domains)
  }

  lemma {:induction false} PrintedAt(qs: seq<Encoder.QueryEncoder>, domains: seq<string>, recs: seq<Record>,
                                     view: View, r: Record, i: nat)
    requires Printable(qs, domains) && i < |qs|
    ensures NewCriteria(Encoder.EncodeAll(qs)[i], domains).Some?
    ensures ChosenAt(Encoder.EncodeAll(qs), domains, recs, view, r, i) <==> WantedAt(qs, recs, view, r, i)
    ensures NamedAt(Encoder.EncodeAll(qs), domains, recs, r, i) <==> AddressedAt(qs, recs, r, i)
  {
    Encoder.RoundTrip(qs[i], domains);
    MeaningWanted(qs[i], recs, view, r);
  }

  lemma {:induction false} ParsesAll(names: seq<string>, qs: seq<Encoder.QueryEncoder>, domains: seq<string>)
    requires names == Encoder.EncodeAll(qs) && Printable(qs, domains)
    ensures ParseAll(names, domains).Some?
  {
    forall i | 0 <= i < |qs| ensures NewCriteria(names[i], domains).Some? { Encoder.RoundTrip(qs[i], domains); }
    ParseAllExact(names, domains);
  }

  lemma {:induction false} PrintedMatched(names: seq<string>, qs: seq<Encoder.QueryEncoder>, domains: seq<string>,
                                          recs: seq<Record>, r: Record)
    requires names == Encoder.EncodeAll(qs) && Printable(qs, domains)
    ensures MatchedBySome(names, domains, recs, r) <==> AddressedBySome(qs, recs, r)
  {
    forall i: nat ensures NamedAt(names, domains, recs, r, i) <==> AddressedAt(qs, recs, r, i) {
      if i < |qs| { PrintedAt(qs, domains, recs, _ => HealthWatcher.UNCHECKED, r, i); }
    }
  }

  /** Printed queries find nothing exactly when none of them addresses a record. */
  lemma {:induction false} PrintedFound(names: seq<string>, qs: seq<Encoder.QueryEncoder>, domains: seq<string>,
                                        recs: seq<Record>, view: View)
    requires names == Encoder.EncodeAll(qs) && Printable(qs, domains)
    ensures ResolvedRecords(names, domains, recs, view).Failed? <==> forall r :: !AddressedBySome(qs, recs, r)
  {
    ParsesAll(names, qs, domains);
    FirstPassEmpty(names, domains, recs);
    forall r: Record ensures MatchedBySome(names, domains, recs, r) <==> AddressedBySome(qs, recs, r) {
      PrintedMatched(names, qs, domains, recs, r);
    }
  }

  /** What printed queries find is exactly what they ask for. */
  lemma {:induction false} PrintedChosen(names: seq<string>, qs: seq<Encoder.QueryEncoder>, domains: seq<string>,
                                         recs: seq<Record>, view: View)
    requires names == Encoder.EncodeAll(qs) && Printable(qs, domains)
    requires ResolvedRecords(names, domains, recs, view).Success?
    ensures forall r :: r in ResolvedRecords(names, domains, recs, view).value <==>
      exists i: nat :: WantedAt(qs, recs, view, r, i)
  {
    forall r: Record
      ensures r in ResolvedRecords(names, domains, recs, view).value <==>
        exists i: nat :: WantedAt(qs, recs, view, r, i)
    {
      RecordsExact(names, domains, recs, view, r);
      forall i: nat ensures ChosenAt(names, domains, recs, view, r, i) <==> WantedAt(qs, recs, view, r, i) {
        if i < |qs| { PrintedAt(qs, domains, recs, view, r, i); }
      }
    }
  }

  /**
   A name that resolves to printed definitions gives exactly the records that one of the
   definitions asks for, and fails only when none addresses a record at all: expanding, parsing,
   matching, filtering twice and choosing by health add and lose nothing.
   */
  ghost predicate AnswersExactly(names: seq<string>, qs: seq<Encoder.QueryEncoder>, domains: seq<string>,
                                 recs: seq<Record>, view: View) {
    var result := ResolvedRecords(names, domains, recs, view);
    && (result.Failed? <==> forall r :: !AddressedBySome(qs, recs, r))
    && (result.Success? ==> forall r :: r in result.value <==> exists i: nat :: WantedAt(qs, recs, view, r, i))
  }

  lemma {:induction false} AliasAnswers(e: AliasEntries, name: string, qs: seq<Encoder.QueryEncoder>,
                                        domains: seq<string>, recs: seq<Record>, view: View)
    requires Aliases.Resolutions(e.aliases, e.underscoreAliases, name) == Some(Encoder.EncodeAll(qs))
    requires qs != [] && Printable(qs, domains)
    ensures AnswersExactly(Expansions(e.aliases, e.underscoreAliases, name), qs, domains, recs, view)
  {
    var names := Encoder.EncodeAll(qs);
    assert Expansions(e.aliases, e.underscoreAliases, name) == names;
    PrintedFound(names, qs, domains, recs, view);
    if ResolvedRecords(names, domains, recs, view).Success? {
      PrintedChosen(names, qs, domains, recs, view);
    }
  }

  // ----- From a blob to the answer -----

  /** The queries of one alias name of a blob. */
  ghost function BlobQueries(b: Blob, how: Orders, raw: string): seq<Encoder.QueryEncoder> {
    Encoder.QueriesOf(BlobEntries(b, how), raw)
  }

  /** The alias name is one of the blob's, and is loaded under this key. */
  ghost predicate SpelledAs(b: Blob, how: Orders, key: (bool, string), raw: string) {
    raw in EncodedAliases(b, how) && Aliases.AliasKey(raw) == key
  }

  ghost predicate NotAddresses(isIP: string -> bool, qs: seq<Encoder.QueryEncoder>) {
    forall i :: 0 <= i < |qs| ==> !isIP(Encoder.EncodeAll(qs)[i])
  }

  /** The queries of every spelling of the key can be printed, stored and read back. */
  ghost predicate Readable(b: Blob, how: Orders, key: (bool, string), isIP: string -> bool, domains: seq<string>) {
    forall raw :: SpelledAs(b, how, key, raw) ==>
      Printable(BlobQueries(b, how, raw), domains) && NotAddresses(isIP, BlobQueries(b, how, raw))
  }

  /** The loader stores printed queries as they are. */
  lemma {:induction false} StoredQueries(qs: seq<Encoder.QueryEncoder>, isIP: string -> bool, domains: seq<string>)
    requires Printable(qs, domains) && NotAddresses(isIP, qs)
    ensures Aliases.QualifiedAll(isIP, Encoder.EncodeAll(qs)) == Encoder.EncodeAll(qs)
  {
    forall i | 0 <= i < |qs| ensures Aliases.Qualified(isIP, Encoder.EncodeAll(qs)[i]) == Encoder.EncodeAll(qs)[i] {
      assert !isIP(Encoder.EncodeAll(qs)[i]);
      StoredQuery(qs[i], isIP, domains);
    }
  }

  /** What a key holds once the blob is loaded: the printed queries of one of its spellings. */
  lemma {:induction false} BlobStored(b: Blob, how: Orders, isIP: string -> bool, key: (bool, string),
                                      domains: seq<string>) returns (raw: string)
    requires IsOrders(b, how) && Readable(b, how, key, isIP, domains)
    requires exists name :: SpelledAs(b, how, key, name)
    ensures SpelledAs(b, how, key, raw) && BlobQueries(b, how, raw) != []
    ensures var side := Aliases.Side(AliasesOf(b, isIP, how), key.0);
      key.1 in side && side[key.1] == Encoder.EncodeAll(BlobQueries(b, how, raw))
  {
    var load := EncodedAliases(b, how);
    var name :| SpelledAs(b, how, key, name);
    Aliases.LoadedHasEntry(load, how.names, isIP, name);
    Aliases.EntryLoaded(load, how.names, isIP, key.0, key.1);
    var side := Aliases.Side(AliasesOf(b, isIP, how), key.0);
    raw :| Aliases.LoadedFrom(load, isIP, key.0, key.1, side[key.1], raw);
    assert SpelledAs(b, how, key, raw);
    Encoder.QueriesOfNames(BlobEntries(b, how), raw);
    StoredQueries(BlobQueries(b, how, raw), isIP, domains);
  }

  /**
   From the blob to the answer.  After a blob is loaded over a base that does not define the name,
   the name of one of its aliases resolves to exactly the records that the alias's definitions ask
   for.  If aliases differ only in letter case, `raw` is the spelling whose definitions count.
   */
  lemma {:induction false} BlobAnswers(b: Blob, how: Orders, base: AliasEntries, isIP: string -> bool,
                                       domains: seq<string>, view: View, name: string) returns (raw: string)
    requires IsOrders(b, how) && name !in base.aliases && Readable(b, how, (false, name), isIP, domains)
    requires exists other :: SpelledAs(b, how, (false, name), other)
    ensures SpelledAs(b, how, (false, name), raw)
    ensures var e := base.ExtendedBy(AliasesOf(b, isIP, how));
      AnswersExactly(Expansions(e.aliases, e.underscoreAliases, name), BlobQueries(b, how, raw),
                     domains, b.records, view)
  {
    raw := BlobStored(b, how, isIP, (false, name), domains);
    var e := base.ExtendedBy(AliasesOf(b, isIP, how));
    assert e.aliases[name] == Encoder.EncodeAll(BlobQueries(b, how, raw));
    AliasAnswers(e, name, BlobQueries(b, how, raw), domains, b.records, view);
  }

  /** A printed query does not start with an underscore: what is asked for does not enter into it. */
  lemma {:induction false} NotSubstituted(qs: seq<Encoder.QueryEncoder>, first: string)
    ensures forall i :: 0 <= i < |qs| ==>
      Aliases.Substituted(first, Encoder.EncodeAll(qs)[i]) == Encoder.EncodeAll(qs)[i]
  {
    forall i | 0 <= i < |qs|
      ensures Aliases.Substituted(first, Encoder.EncodeAll(qs)[i]) == Encoder.EncodeAll(qs)[i]
    {
      PrintedHead(qs[i]);
    }
  }

  lemma PrintedHead(q: Encoder.QueryEncoder)
    ensures Fqdn(Encoder.Encode(q))[0] == 'q'
  {
    assert Encoder.Encode(q)[0] == Encoder.FirstSegment(q)[0] == 'q';
  }

  lemma {:induction false} UnderscoreResolves(e: AliasEntries, first: string, rest: string,
                                              qs: seq<Encoder.QueryEncoder>)
    requires NoDot(first) && rest in e.underscoreAliases && e.underscoreAliases[rest] == Encoder.EncodeAll(qs)
    requires first + "." + rest !in e.aliases
    ensures Aliases.Resolutions(e.aliases, e.underscoreAliases, first + "." + rest) == Some(Encoder.EncodeAll(qs))
  {
    CutAt(first, rest);
    NotSubstituted(qs, first);
    assert Aliases.Resolutions(e.aliases, e.underscoreAliases, first + "." + rest).value == Encoder.EncodeAll(qs);
  }

  /** The same for an alias "_.rest": every name of one label more resolves to what its definitions ask for. */
  lemma {:induction false} UnderscoreAnswers(b: Blob, how: Orders, base: AliasEntries, isIP: string -> bool,
                                             domains: seq<string>, view: View, first: string, rest: string)
    returns (raw: string)
    requires NoDot(first) && IsOrders(b, how) && Readable(b, how, (true, rest), isIP, domains)
    requires exists other :: SpelledAs(b, how, (true, rest), other)
    requires rest !in base.underscoreAliases
    requires first + "." + rest !in base.ExtendedBy(AliasesOf(b, isIP, how)).aliases
    ensures SpelledAs(b, how, (true, rest), raw)
    ensures var e := base.ExtendedBy(AliasesOf(b, isIP, how));
      AnswersExactly(Expansions(e.aliases, e.underscoreAliases, first + "." + rest), BlobQueries(b, how, raw),
                     domains, b.records, view)
  {
    raw := BlobStored(b, how, isIP, (true, rest), domains);
    var e, qs := base.ExtendedBy(AliasesOf(b, isIP, how)), BlobQueries(b, how, raw);
    UnderscoreResolves(e, first, rest, qs);
    AliasAnswers(e, first + "." + rest, qs, domains, b.records, view);
  }
}
