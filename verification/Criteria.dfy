/** A record of the DNS blob, and a watched host. */
module Record {
  datatype Record = Record(
    id: string, numID: string, group: string, groupIDs: seq<string>, network: string, networkID: string,
    deployment: string, ip: string, domain: string, az: string, azID: string, agentID: string,
    instanceIndex: string)

  datatype Host = Host(ip: string, fqdn: string)
}

/** Reading a queried name into one of the query forms. */
module Query {
  import opened Strings

  const BOSH_AGENT_TLD := "bosh-agent-id"

  datatype QueryForm =
    | ShortForm(query: string, group: string, domain: string, instance: string)
    | LongForm(query: string, group: string, domain: string, instance: string, network: string, deployment: string)
    | AgentIDForm(query: string)
    | NonBoshDNSForm(query: string)

  datatype ParseResult = Parsed(form: QueryForm) | DomainMalformed | BadGroupSegments

  predicate IsQuery(query: string) { HasPrefix(query, "q-") }

  /** The first listed domain that ends the name as a string, or "" if there is none. */
  function FindTLD(fqdn: string, domains: seq<string>): (tld: string)
    ensures tld == "" || (tld in domains && HasSuffix(fqdn, tld))
    ensures (forall d :: d in domains ==> !HasSuffix(fqdn, d)) ==> tld == ""
  {
    if domains == [] then ""
    else if HasSuffix(fqdn, domains[0]) then domains[0]
    else FindTLD(fqdn, domains[1..])
  }

  function ParseQuery(fqdn: string, domains: seq<string>): ParseResult {
    match Cut(fqdn)
    case None => DomainMalformed
    case Some((first, rest)) =>
      if rest == BOSH_AGENT_TLD + "." then Parsed(AgentIDForm(first))
      else
        var tld := FindTLD(fqdn, domains);
        if tld == "" then Parsed(NonBoshDNSForm(first))
        else ParseGroup(first, TrimSuffix(rest, "." + tld), tld)
  }

  /** What stands between the first segment and the domain: one group, or group, network and deployment. */
  function ParseGroup(first: string, groupQuery: string, tld: string): ParseResult {
    var groupSegments := Split(groupQuery);
    var query := if IsQuery(first) then first else "";
    var instance := if IsQuery(first) then "" else first;
    if |groupSegments| == 1 then Parsed(ShortForm(query, groupQuery, tld, instance))
    else if |groupSegments| == 3 then
      Parsed(LongForm(query, groupSegments[0], tld, instance, groupSegments[1], groupSegments[2]))
    else BadGroupSegments
  }
}

/** Criteria: what a query form asks of a record, and whether a record meets it. */
module Criteria {
  import opened Strings
  import opened Record
  import opened Query

  type Criteria = map<string, seq<string>>

  // ----- From a query form to criteria -----

  /** appendCriteria: empty values are dropped. */
  function Append(c: Criteria, key: string, value: string): Criteria {
    if value == "" then c else c[key := (if key in c then c[key] else []) + [value]]
  }

  predicate IsKey(c: char) { c in "aismny" }

  function DigitRun(s: string): (n: nat)
    ensures n <= |s| && AllDigits(s[..n]) && (n < |s| ==> !IsDigit(s[n]))
  {
    if s == "" || !IsDigit(s[0]) then 0 else 1 + DigitRun(s[1..])
  }

  /** All matches of (a|i|s|m|n|y)([0-9]+) from left to right. */
  function Scan(s: string): seq<(string, string)>
    decreases |s|
  {
    if |s| < 2 then []
    else if IsKey(s[0]) && IsDigit(s[1]) then
      var n := DigitRun(s[1..]);
      [([s[0]], s[1..n + 1])] + Scan(s[n + 1..])
    else Scan(s[1..])
  }

  lemma {:induction false} DigitRunAll(d: string, rest: string)
    requires AllDigits(d) && (rest == "" || !IsDigit(rest[0]))
    ensures DigitRun(d + rest) == |d|
  {
    if d == "" {
    } else {
      DigitRunAll(d[1..], rest);
      assert (d + rest)[1..] == d[1..] + rest;
    }
  }

  /** The scanner reads a printed pair back and goes on behind it. */
  lemma {:induction false} ScanPair(k: char, d: string, rest: string)
    requires IsKey(k) && AllDigits(d) && d != "" && (rest == "" || !IsDigit(rest[0]))
    ensures Scan([k] + d + rest) == [([k], d)] + Scan(rest)
  {
    var s := [k] + d + rest;
    assert s[1..] == d + rest;
    DigitRunAll(d, rest);
    assert s[1..|d| + 1] == d && s[|d| + 1..] == rest;
  }

  function AppendPairs(c: Criteria, pairs: seq<(string, string)>): Criteria
    decreases |pairs|
  {
    if pairs == [] then c else AppendPairs(Append(c, pairs[0].0, pairs[0].1), pairs[1..])
  }

  /** parseShortQueries: the key-value pairs of a query, of which there must be one. */
  function ShortQueries(c: Criteria, query: string): Option<Criteria> {
    if !IsQuery(query) then Some(c)
    else if Scan(query[2..]) == [] then None
    else Some(AppendPairs(c, Scan(query[2..])))
  }

  /** The group number of a segment "q-g" followed by digits. */
  function GroupID(group: string): Option<string> {
    if HasPrefix(group, "q-g") && |group| > 3 && AllDigits(group[3..]) then Some(group[3..]) else None
  }

  function AppendGroup(c: Criteria, group: string): Criteria {
    match GroupID(group) case Some(id) => Append(c, "g", id) case None => c
  }

  function ParseCriteria(form: QueryForm): Option<Criteria> {
    match form
    case ShortForm(query, group, domain, instance) =>
      (match ShortQueries(map[], query)
       case None => None
       case Some(c) => Some(ShortFields(c, group, instance, domain)))
    case LongForm(query, group, domain, instance, network, deployment) =>
      (match ShortQueries(map[], query)
       case None => None
       case Some(c) => Some(LongFields(c, group, instance, network, deployment, domain)))
    case AgentIDForm(query) => Some(Append(map[], "agentID", query))
    case NonBoshDNSForm(query) => Some(Append(map[], "instanceName", query))
  }

  function ShortFields(c: Criteria, group: string, instance: string, domain: string): Criteria {
    Append(Append(AppendGroup(c, group), "instanceName", instance), "domain", domain)
  }

  function LongFields(c: Criteria, group: string, instance: string, network: string, deployment: string,
                      domain: string): Criteria {
    var named := Append(Append(Append(Append(c, "instanceName", instance), "instanceGroupName", group),
                               "network", network), "deployment", deployment);
    Append(AppendGroup(named, group), "domain", domain)
  }

  /** NewCriteria: None is the error of a malformed or illegal query. */
  function NewCriteria(fqdn: string, domains: seq<string>): Option<Criteria> {
    match ParseQuery(fqdn, domains)
    case Parsed(form) =>
      (match ParseCriteria(form)
       case None => None
       case Some(c) => Some(c["fqdn" := [fqdn]]))
    case _ => None
  }

  /** parseShortQueries as the source runs it: one append per match. */
  method ParseShortQueries(c: Criteria, query: string) returns (r: Option<Criteria>)
    ensures r == ShortQueries(c, query)
  {
    if !IsQuery(query) {
      return Some(c);
    }
    var sections := Scan(query[2..]);
    if sections == [] {
      return None;
    }
    var crit := c;
    for i := 0 to |sections|
      invariant AppendPairs(crit, sections[i..]) == AppendPairs(c, sections)
    {
      assert sections[i..][0] == sections[i] && sections[i..][1..] == sections[i + 1..];
      crit := Append(crit, sections[i].0, sections[i].1);
    }
    return Some(crit);
  }

  // ----- Matching records -----

  predicate GlobMatches(field: string, value: string) {
    if value == "*" then true
    else if HasPrefix(value, "*") then HasSuffix(field, value[1..])
    else if HasSuffix(value, "*") then HasPrefix(field, value[..|value| - 1])
    else false
  }

  predicate NameMatches(field: string, value: string) {
    if '*' in value then GlobMatches(field, value) else field == value
  }

  predicate FieldMatches(field: string, value: string, r: Record) {
    match field
    case "instanceName" => r.id == value
    case "instanceGroupName" => NameMatches(r.group, value)
    case "network" => NameMatches(r.network, value)
    case "deployment" => NameMatches(r.deployment, value)
    case "domain" => r.domain == value
    case "agentID" => r.agentID == value
    case "m" => r.numID == value
    case "n" => r.networkID == value
    case "a" => r.azID == value
    case "i" => r.instanceIndex == value
    case "g" => value in r.groupIDs
    case _ => false
  }

  /** Fields that steer health filtering and do not select records. */
  predicate IsSteering(field: string) { field == "y" || field == "s" || field == "fqdn" }

  /** Some value of the field matches; a field without values matches nothing. */
  predicate AnyMatches(field: string, values: seq<string>, r: Record) {
    exists i :: 0 <= i < |values| && FieldMatches(field, values[i], r)
  }

  /** The record meets every selecting field. */
  predicate Matches(c: Criteria, r: Record) {
    forall field :: field in c.Keys && !IsSteering(field) ==> AnyMatches(field, c[field], r)
  }

  /** The AndMatcher of OrMatchers that Criteria.Matcher builds, run on a record. */
  method Match(c: Criteria, r: Record) returns (b: bool)
    ensures b == Matches(c, r)
  {
    var rest := c.Keys;
    while rest != {}
      invariant rest <= c.Keys
      invariant forall field :: field in c.Keys - rest && !IsSteering(field) ==> AnyMatches(field, c[field], r)
    {
      var field :| field in rest;
      rest := rest - {field};
      if !IsSteering(field) {
        var any := false;
        for i := 0 to |c[field]|
          invariant any <==> exists j :: 0 <= j < i && FieldMatches(field, c[field][j], r)
        {
          any := any || FieldMatches(field, c[field][i], r);
        }
        if !any {
          return false;
        }
      }
    }
    return true;
  }

  /** The records that match, in their order. */
  function Filtered(c: Criteria, recs: seq<Record>): seq<Record> {
    if recs == [] then []
    else
      var front := Filtered(c, recs[..|recs| - 1]);
      if Matches(c, recs[|recs| - 1]) then front + [recs[|recs| - 1]] else front
  }

  /** QueryFilter.Filter. */
  method Filter(c: Criteria, recs: seq<Record>) returns (records: seq<Record>)
    ensures records == Filtered(c, recs)
  {
    records := [];
    for i := 0 to |recs|
      invariant records == Filtered(c, recs[..i])
    {
      assert recs[..i + 1][..i] == recs[..i];
      var b := Match(c, recs[i]);
      if b {
        records := records + [recs[i]];
      }
    }
    assert recs[..|recs|] == recs;
  }

  /** A record survives the filter as often as it came in if it matches, and not at all otherwise. */
  lemma {:induction false} FilteredExact(c: Criteria, recs: seq<Record>, r: Record)
    ensures multiset(Filtered(c, recs))[r] == if Matches(c, r) then multiset(recs)[r] else 0
    ensures r in Filtered(c, recs) <==> r in recs && Matches(c, r)
  {
    if recs == [] {
    } else {
      var front, last := recs[..|recs| - 1], recs[|recs| - 1];
      assert recs == front + [last];
      assert multiset(recs) == multiset(front) + multiset{last};
      FilteredExact(c, front, r);
      var kept := Filtered(c, front);
      if Matches(c, last) {
        assert Filtered(c, recs) == kept + [last];
        assert multiset(Filtered(c, recs)) == multiset(kept) + multiset{last};
      } else {
        assert Filtered(c, recs) == kept;
      }
    }
  }
}
