/**
 What the server answers, stated on what an operator writes: a queried name, an alias definition,
 a record and its health.
 */
module Answers {
  import opened Strings
  import opened Record
  import opened Query
  import opened Criteria
  import opened QueryMeaning
  import opened HealthFilter
  import opened RecordSet
  import Aliases
  import Encoder

  /** The records that match, as far as the strategy keeps them by the state of the queried groups. */
  ghost predicate Picked(matches: Record -> bool, strategy: string, groups: seq<string>, recs: seq<Record>, view: View,
                         r: Record) {
    && r in recs && matches(r)
    && var state := Interpreted(view(r.ip), groups);
       match strategy
       case "1" => state == "failing"
       case "3" => state == "running"
       case "4" => true
       case _ => PerhapsHealthy(state) || NoneHealthy(matches, groups, recs, view)
  }

  ghost predicate NoneHealthy(matches: Record -> bool, groups: seq<string>, recs: seq<Record>, view: View) {
    forall x :: x in recs && matches(x) ==> !PerhapsHealthy(Interpreted(view(x.ip), groups))
  }

  /** The address of a picked record. */
  ghost predicate PickedAddress(matches: Record -> bool, strategy: string, groups: seq<string>, recs: seq<Record>,
                                view: View, ip: string) {
    exists r: Record :: r.ip == ip && Picked(matches, strategy, groups, recs, view, r)
  }

  lemma {:induction false} PickedExact(c: Criteria, matches: Record -> bool, recs: seq<Record>, view: View, r: Record)
    requires forall x: Record :: Matches(c, x) <==> matches(x)
    ensures r in Selected(c, view, Filtered(c, recs)) <==> Picked(matches, Strategy(c), Groups(c), recs, view, r)
  {
    forall x: Record ensures x in Filtered(c, recs) <==> x in recs && matches(x) { FilteredExact(c, recs, x); }
    SelectedKeeps(c, view, Filtered(c, recs), r);
  }

  // ----- A name that is no alias -----

  /** Neither the name nor what follows its first label is an alias. */
  ghost predicate NoAlias(e: AliasEntries, name: string) {
    && name !in e.aliases
    && forall first, rest :: NoDot(first) && name == first + "." + rest ==> rest !in e.underscoreAliases
  }

  /** A name that is no alias, or an alias without targets, stands for itself. */
  lemma {:induction false} StandsForItself(e: AliasEntries, name: string)
    requires NoAlias(e, name) || (name in e.aliases && e.aliases[name] == [])
    ensures Expansions(e.aliases, e.underscoreAliases, name) == [name]
  {
    if name !in e.aliases {
      match Cut(name)
      case None =>
      case Some((first, rest)) => assert NoDot(first) && name == first + "." + rest;
    }
  }

  lemma {:induction false} OneName(name: string, domains: seq<string>, recs: seq<Record>, view: View, r: Record)
    ensures var c := NewCriteria(name, domains);
      && (Chosen([name], domains, recs, view, r) <==> c.Some? && r in Selected(c.value, view, Filtered(c.value, recs)))
      && (MatchedBySome([name], domains, recs, r) <==> c.Some? && r in Filtered(c.value, recs))
  {
    var c := NewCriteria(name, domains);
    if c.Some? && r in Selected(c.value, view, Filtered(c.value, recs)) {
      assert ChosenAt([name], domains, recs, view, r, 0);
    }
    if c.Some? && r in Filtered(c.value, recs) {
      assert NamedAt([name], domains, recs, r, 0);
    }
  }

  /** The answer for one name whose query means `matches`. */
  ghost predicate AnswersName(result: Result<seq<string>>, isIP: string -> bool, name: string, matches: Record -> bool,
                              strategy: string, groups: seq<string>, recs: seq<Record>, view: View) {
    && (result.Failed? <==> !isIP(name) && forall r :: r in recs ==> !matches(r))
    && (result.Success? ==> forall ip :: ip in result.value <==>
          (ip == name && isIP(name)) || PickedAddress(matches, strategy, groups, recs, view, ip))
  }

  /**
   A name that stands for itself answers with exactly the addresses of the records that its own
   query matches and health keeps; it fails only if there is no match and it is no address.
   */
  lemma {:induction false} NameAnswers(isIP: string -> bool, e: AliasEntries, name: string, matches: Record -> bool,
                                       domains: seq<string>, recs: seq<Record>, view: View)
    requires NoAlias(e, name) || (name in e.aliases && e.aliases[name] == [])
    requires NewCriteria(name, domains).Some?
    requires forall x: Record :: Matches(NewCriteria(name, domains).value, x) <==> matches(x)
    ensures var c := NewCriteria(name, domains).value;
      AnswersName(ResolvedIPs(isIP, Expansions(e.aliases, e.underscoreAliases, name), domains, recs, view),
                  isIP, name, matches, Strategy(c), Groups(c), recs, view)
  {
    StandsForItself(e, name);
    NameFails(isIP, name, matches, domains, recs, view);
    forall ip: string { NameAddress(isIP, name, matches, domains, recs, view, ip); }
  }

  lemma {:induction false} NameFails(isIP: string -> bool, name: string, matches: Record -> bool, domains: seq<string>,
                                     recs: seq<Record>, view: View)
    requires NewCriteria(name, domains).Some?
    requires forall x: Record :: Matches(NewCriteria(name, domains).value, x) <==> matches(x)
    ensures ResolvedIPs(isIP, [name], domains, recs, view).Failed? <==>
      !isIP(name) && forall r :: r in recs ==> !matches(r)
  {
    ResolveExact(isIP, [name], domains, recs, view, "");
    assert [name][0] == name;
    forall r: Record ensures MatchedBySome([name], domains, recs, r) <==> r in recs && matches(r) {
      OneName(name, domains, recs, view, r);
      FilteredExact(NewCriteria(name, domains).value, recs, r);
    }
    NothingMatched(isIP, name, matches, domains, recs);
  }

  lemma {:induction false} NothingMatched(isIP: string -> bool, name: string, matches: Record -> bool,
                                          domains: seq<string>, recs: seq<Record>)
    requires NewCriteria(name, domains).Some?
    requires forall r: Record :: MatchedBySome([name], domains, recs, r) <==> r in recs && matches(r)
    ensures NothingFound(isIP, [name], domains, recs) <==> !isIP(name) && forall r :: r in recs ==> !matches(r)
  {
    assert name in [name];
  }

  lemma {:induction false} NameAddress(isIP: string -> bool, name: string, matches: Record -> bool,
                                       domains: seq<string>, recs: seq<Record>, view: View, ip: string)
    requires NewCriteria(name, domains).Some?
    requires forall x: Record :: Matches(NewCriteria(name, domains).value, x) <==> matches(x)
    ensures var c := NewCriteria(name, domains).value;
      var result := ResolvedIPs(isIP, [name], domains, recs, view);
      result.Success? ==> (ip in result.value <==>
        (ip == name && isIP(name)) || PickedAddress(matches, Strategy(c), Groups(c), recs, view, ip))
  {
    var c := NewCriteria(name, domains).value;
    ResolveExact(isIP, [name], domains, recs, view, ip);
    forall r: Record
      ensures Chosen([name], domains, recs, view, r) <==> Picked(matches, Strategy(c), Groups(c), recs, view, r)
    {
      OneName(name, domains, recs, view, r);
      PickedExact(c, matches, recs, view, r);
    }
  }

  /** A name that does not parse is refused. */
  lemma {:induction false} IllegalRefused(isIP: string -> bool, e: AliasEntries, name: string, domains: seq<string>,
                                          recs: seq<Record>, view: View)
    requires NoAlias(e, name) || (name in e.aliases && e.aliases[name] == [])
    requires NewCriteria(name, domains).None?
    ensures ResolvedIPs(isIP, Expansions(e.aliases, e.underscoreAliases, name), domains, recs, view) ==
      Failed(CriteriaError)
  {
    StandsForItself(e, name);
    ResolveExact(isIP, [name], domains, recs, view, "");
    assert NewCriteria([name][0], domains).None?;
  }

  // ----- The name of an instance -----

  /** The group number of a label, if it is one. */
  function LabelGroups(group: string): seq<string> {
    match GroupID(group) case Some(id) => [id] case None => []
  }

  /** An instance's name asks for the smart strategy, and for the health of its group label's number only. */
  lemma {:induction false} InstanceSteering(first: string, group: string, network: string, deployment: string,
                                            tld: string, name: string)
    ensures var c := LongFields(map[], group, first, network, deployment, tld)["fqdn" := [name]];
      Strategy(c) == "0" && Groups(c) == LabelGroups(group)
  {
    var named := Named(map[], group, first, network, deployment);
    NamedKeys(group, first, network, deployment);
    var grouped := AppendGroup(named, group);
    GroupGiven(named, group);
    assert LongFields(map[], group, first, network, deployment, tld) == Append(grouped, "domain", tld);
  }

  lemma NamedKeys(group: string, first: string, network: string, deployment: string)
    ensures "s" !in Named(map[], group, first, network, deployment)
    ensures "g" !in Named(map[], group, first, network, deployment)
  {
  }

  lemma GroupGiven(c: Criteria, group: string)
    requires "g" !in c
    ensures Given(AppendGroup(c, group), "g") == LabelGroups(group)
    ensures "s" in AppendGroup(c, group) <==> "s" in c
  {
  }

  /**
   The long name of an instance answers with exactly the addresses of the records it names that
   are running or unchecked, or of all of them when none is.
   */
  lemma {:induction false} InstanceAnswers(isIP: string -> bool, e: AliasEntries, first: string, group: string,
                                           network: string, deployment: string, tld: string, domains: seq<string>,
                                           recs: seq<Record>, view: View)
    requires NoDot(first) && NoDot(group) && NoDot(network) && NoDot(deployment) && tld != ""
    requires !HasPrefix(first, "q-")
    requires FindTLD(LongName(first, group, network, deployment, tld), domains) == tld
    requires NoAlias(e, LongName(first, group, network, deployment, tld))
    ensures var name := LongName(first, group, network, deployment, tld);
      var matches := (r: Record) => (first == "" || r.id == first) && LabelsFit(group, network, deployment, tld, r);
      AnswersName(ResolvedIPs(isIP, Expansions(e.aliases, e.underscoreAliases, name), domains, recs, view),
                  isIP, name, matches, "0", LabelGroups(group), recs, view)
  {
    var name := LongName(first, group, network, deployment, tld);
    var matches := (r: Record) => (first == "" || r.id == first) && LabelsFit(group, network, deployment, tld, r);
    ParseLong(first, group, network, deployment, tld, domains);
    assert NewCriteria(name, domains) ==
      Some(LongFields(map[], group, first, network, deployment, tld)["fqdn" := [name]]);
    InstanceSteering(first, group, network, deployment, tld, name);
    forall r: Record ensures Matches(NewCriteria(name, domains).value, r) <==> matches(r) {
      InstanceSelects(first, group, network, deployment, tld, domains, r);
    }
    NameAnswers(isIP, e, name, matches, domains, recs, view);
  }

  // ----- A query -----

  /** The strategy that pairs ask for: the first s, or the smart one. */
  function PairsStrategy(pairs: seq<(string, string)>): string {
    if ValuesOf(pairs, "s") == [] then "0" else ValuesOf(pairs, "s")[0]
  }

  lemma {:induction false} QuerySteering(pairs: seq<(string, string)>, id: string, tld: string, name: string)
    requires (forall i :: 0 <= i < |pairs| ==> IsPair(pairs[i])) && AllDigits(id) && id != ""
    ensures var c := ShortFields(AppendPairs(map[], pairs), "q-g" + id, "", tld)["fqdn" := [name]];
      Strategy(c) == PairsStrategy(pairs) && Groups(c) == [id]
  {
    var c := AppendPairs(map[], pairs);
    AppendedValues(map[], pairs, "s");
    assert [] + ValuesOf(pairs, "s") == ValuesOf(pairs, "s");
    PairsOnly(pairs, "g");
    GroupIDExact("q-g" + id);
    GroupGiven(c, "q-g" + id);
    GroupKeeps(c, "q-g" + id);
  }

  lemma GroupKeeps(c: Criteria, group: string)
    ensures Given(AppendGroup(c, group), "s") == Given(c, "s")
  {
  }

  /** A whole query answers with the records that fit it, as far as the strategy it names keeps them for its group. */
  lemma {:induction false} QueryAnswers(isIP: string -> bool, e: AliasEntries, pairs: seq<(string, string)>, id: string,
                                        tld: string, domains: seq<string>, recs: seq<Record>, view: View)
    requires pairs != [] && (forall i :: 0 <= i < |pairs| ==>
      IsPair(pairs[i])) && AllDigits(id) && id != "" && tld != ""
    requires FindTLD(ShortName(pairs, id, tld), domains) == tld && NoAlias(e, ShortName(pairs, id, tld))
    ensures var name := ShortName(pairs, id, tld);
      var matches := (r: Record) => Fits(pairs, r) && id in r.groupIDs && r.domain == tld;
      AnswersName(ResolvedIPs(isIP, Expansions(e.aliases, e.underscoreAliases, name), domains, recs, view),
                  isIP, name, matches, PairsStrategy(pairs), [id], recs, view)
  {
    var name := ShortName(pairs, id, tld);
    var matches := (r: Record) => Fits(pairs, r) && id in r.groupIDs && r.domain == tld;
    ShortCriteria(pairs, id, tld, domains);
    assert NewCriteria(name, domains) ==
      Some(ShortFields(AppendPairs(map[], pairs), "q-g" + id, "", tld)["fqdn" := [name]]);
    QuerySteering(pairs, id, tld, name);
    forall r: Record ensures Matches(NewCriteria(name, domains).value, r) <==> matches(r) {
      ShortSelects(pairs, id, tld, domains, r);
    }
    NameAnswers(isIP, e, name, matches, domains, recs, view);
  }

  // ----- A star target -----

  /** An alias target "*.group.network.deployment.domain" is stored as a query for all records under those labels. */
  lemma {:induction false} StarSelects(isIP: string -> bool, group: string, network: string, deployment: string,
                                       tld: string, domains: seq<string>, r: Record)
    requires NoDot(group) && NoDot(network) && NoDot(deployment) && IsFqdn(tld)
    requires IsLower(Middle(group, network, deployment) + ("." + tld))
    requires FindTLD(LongName("q-s0", group, network, deployment, tld), domains) == tld
    ensures Aliases.Qualified(isIP, "*." + (Middle(group, network, deployment) + ("." + tld))) ==
      LongName("q-s0", group, network, deployment, tld)
    ensures var c := NewCriteria(LongName("q-s0", group, network, deployment, tld), domains);
      c.Some? && (Matches(c.value, r) <==> LabelsFit(group, network, deployment, tld, r))
  {
    StarStored(isIP, Middle(group, network, deployment), tld);
    var pairs := StarPairs(r);
    LongSelects(pairs, group, network, deployment, tld, domains, r);
  }

  lemma {:induction false} StarStored(isIP: string -> bool, middle: string, tld: string)
    requires IsFqdn(tld) && IsLower(middle + ("." + tld))
    ensures Aliases.Qualified(isIP, "*." + (middle + ("." + tld))) == "q-s0" + "." + (middle + ("." + tld))
  {
    var rest := middle + ("." + tld);
    Aliases.QualifiedExact(isIP, "", rest);
    assert "q-s0." + rest == "q-s0" + "." + rest;
    assert ("q-s0." + rest)[|"q-s0." + rest| - 1] == tld[|tld| - 1];
  }

  /** The pairs of "q-s0": one that steers and excludes nothing. */
  lemma StarPairs(r: Record) returns (pairs: seq<(string, string)>)
    ensures pairs != [] && forall i :: 0 <= i < |pairs| ==> IsPair(pairs[i])
    ensures QueryLabel(pairs) == "q-s0" && Fits(pairs, r)
  {
    pairs := [("s", "0")];
    assert pairs[1..] == [];
    assert PrintPairs(pairs) == "s" + "0" + "";
  }

  // ----- The definitions of a blob -----

  type Definition = Encoder.AliasDefinition

  /** The records a definition is about, those with the number only if one is given. */
  predicate About(d: Definition, number: string, r: Record) {
    r.domain == d.rootDomain + "." && d.groupID in r.groupIDs && (number != "" ==> r.numID == number)
  }

  /** The records a definition asks for: of those it is about, the ones its health filter names. */
  ghost predicate Asked(d: Definition, number: string, recs: seq<Record>, view: View, r: Record) {
    var strategy := match d.healthFilter case "unhealthy" => "1" case "healthy" => "3" case "all" => "4" case _ => "0";
    Picked(x => About(d, number, x), strategy, [d.groupID], recs, view, r)
  }

  /** The query the encoder makes of a definition, for a record's number if one is given. */
  function QueryFor(d: Definition, number: string): Encoder.QueryEncoder {
    Encoder.NewQueryEncoder(d).(numID := number)
  }

  lemma {:induction false} AskedWanted(d: Definition, number: string, recs: seq<Record>, view: View, r: Record)
    ensures Encoder.Addressed(QueryFor(d, number), r) <==> About(d, number, r)
    ensures Wanted(QueryFor(d, number), recs, view, r) <==> Asked(d, number, recs, view, r)
  {
    var q := QueryFor(d, number);
    assert forall x: Record :: Encoder.Addressed(q, x) <==> About(d, number, x);
    assert NonePerhapsHealthy(q, recs, view) <==> NoneHealthy(x => About(d, number, x), [d.groupID], recs, view);
  }

  /** The initial check a definition names is the one its query asks for. */
  lemma {:induction false} CheckAsked(d: Definition, number: string)
    requires d.groupID != ""
    ensures Given(Encoder.Meaning(QueryFor(d, number)), "y") == match d.initialHealthCheck
      case "asynchronous" => ["0"] case "synchronous" => ["1"] case _ => []
  {
    PrintedStrategy(QueryFor(d, number));
  }

  /** The record's id takes the place of the placeholder in the alias. */
  ghost predicate NamedAfter(key: string, id: string, raw: string) {
    (exists pre, post :: '_' !in pre && Fqdn(key) == pre + "_" + post && raw == pre + id + post)
    || ('_' !in Fqdn(key) && raw == Fqdn(key))
  }

  lemma {:induction false} ReplacedExact(s: string, id: string)
    ensures '_' in s ==>
      exists pre, post :: '_' !in pre && s == pre + "_" + post && Encoder.ReplaceUnderscore(s, id) == pre + id + post
    ensures '_' !in s ==> Encoder.ReplaceUnderscore(s, id) == s
  {
    if '_' in s {
      var pre, post := AtUnderscore(s);
      Encoder.ReplacedFirst(pre, post, id);
    } else {
      Encoder.ReplacedNothing(s, id);
    }
  }

  lemma {:induction false} AtUnderscore(s: string) returns (pre: string, post: string)
    requires '_' in s
    ensures '_' !in pre && s == pre + "_" + post
  {
    if s[0] == '_' {
      pre, post := "", s[1..];
    } else {
      var p, q := AtUnderscore(s[1..]);
      pre, post := [s[0]] + p, q;
      assert s == [s[0]] + s[1..];
    }
  }

  lemma {:induction false} NamedAfterExact(key: string, id: string, raw: string)
    ensures NamedAfter(key, id, raw) <==> raw == Encoder.ReplaceUnderscore(Fqdn(key), id)
  {
    ReplacedExact(Fqdn(key), id);
    forall pre, post | '_' !in pre && Fqdn(key) == pre + "_" + post
      ensures Encoder.ReplaceUnderscore(Fqdn(key), id) == pre + id + post && '_' in Fqdn(key)
    {
      Encoder.ReplacedFirst(pre, post, id);
      assert Fqdn(key)[|pre|] == '_';
    }
  }

  /**
   The definition `d` of the alias `key` makes the name `raw` stand for the records it is about,
   for that number if there is one.  A uuid definition does so for each record of its group: the
   name is the alias with the record's id in place of the placeholder, the number the record's.
   */
  ghost predicate Files(b: Blob, key: string, d: Definition, raw: string, number: string) {
    && key in b.definitions && d in b.definitions[key]
    && if d.placeholderType == "uuid"
       then exists m :: m in b.records && About(d, "", m) && NamedAfter(key, m.id, raw) && number == m.numID
       else raw == Fqdn(key) && number == ""
  }

  lemma {:induction false} DefinitionFiles(b: Blob, key: string, d: Definition, raw: string, q: Encoder.QueryEncoder)
    requires key in b.definitions && d in b.definitions[key]
    ensures (raw, q) in Encoder.DefinitionEntries(Fqdn(key), d, b.records) <==>
      exists number :: Files(b, key, d, raw, number) && q == QueryFor(d, number)
  {
    if d.placeholderType == "uuid" {
      Encoder.UUIDEntryOf(Fqdn(key), d, b.records);
      UUIDFiles(b, key, d, raw, q);
    } else {
      assert q == QueryFor(d, "") <==> q == Encoder.NewQueryEncoder(d);
    }
  }

  lemma {:induction false} UUIDFiles(b: Blob, key: string, d: Definition, raw: string, q: Encoder.QueryEncoder)
    requires key in b.definitions && d in b.definitions[key] && d.placeholderType == "uuid"
    ensures (exists m :: m in b.records && Encoder.InGroup(d.groupID, d.rootDomain, m)
               && (raw, q) == Encoder.UUIDEntry(Fqdn(key), d, m)) <==>
      exists number :: Files(b, key, d, raw, number) && q == QueryFor(d, number)
  {
    forall m: Record ensures NamedAfter(key, m.id, raw) <==> raw == Encoder.ReplaceUnderscore(Fqdn(key), m.id) {
      NamedAfterExact(key, m.id, raw);
    }
    if m :| && m in b.records && Encoder.InGroup(d.groupID, d.rootDomain, m)
            && (raw, q) == Encoder.UUIDEntry(Fqdn(key), d, m) {
      assert About(d, "", m) && Files(b, key, d, raw, m.numID) && q == QueryFor(d, m.numID);
    }
    if number :| Files(b, key, d, raw, number) && q == QueryFor(d, number) {
      var m :| m in b.records && About(d, "", m) && NamedAfter(key, m.id, raw) && number == m.numID;
      assert (raw, q) == Encoder.UUIDEntry(Fqdn(key), d, m);
    }
  }

  /** A name's queries are exactly those that the blob's definitions file under it. */
  lemma {:induction false} FiledQueries(b: Blob, how: Orders, raw: string, q: Encoder.QueryEncoder)
    requires IsOrders(b, how)
    ensures q in BlobQueries(b, how, raw) <==>
      exists key, d, number :: Files(b, key, d, raw, number) && q == QueryFor(d, number)
  {
    Encoder.InQueriesOf(BlobEntries(b, how), raw, q);
    Encoder.InEntriesInOrder(how.definitions, b.records, b.definitions, (raw, q));
    forall key | key in b.definitions
      ensures (raw, q) in Encoder.AllEntries(Fqdn(key), b.definitions[key], b.records) <==>
        exists d, number :: Files(b, key, d, raw, number) && q == QueryFor(d, number)
    {
      KeyFiles(b, key, raw, q);
    }
    if key, d, number :| Files(b, key, d, raw, number) && q == QueryFor(d, number) {
      assert key in how.definitions;
    }
  }

  lemma {:induction false} KeyFiles(b: Blob, key: string, raw: string, q: Encoder.QueryEncoder)
    requires key in b.definitions
    ensures (raw, q) in Encoder.AllEntries(Fqdn(key), b.definitions[key], b.records) <==>
      exists d, number :: Files(b, key, d, raw, number) && q == QueryFor(d, number)
  {
    Encoder.InAllEntries(Fqdn(key), b.definitions[key], b.records, (raw, q));
    forall d | d in b.definitions[key]
      ensures (raw, q) in Encoder.DefinitionEntries(Fqdn(key), d, b.records) <==>
        exists number :: Files(b, key, d, raw, number) && q == QueryFor(d, number)
    {
      DefinitionFiles(b, key, d, raw, q);
    }
  }

  /** Some definition filed under `raw` asks for the record. */
  ghost predicate AskedUnder(b: Blob, raw: string, view: View, r: Record) {
    exists key, d, number :: Files(b, key, d, raw, number) && Asked(d, number, b.records, view, r)
  }

  /** Some definition filed under `raw` is about the record. */
  ghost predicate AboutUnder(b: Blob, raw: string, r: Record) {
    r in b.records && exists key, d, number :: Files(b, key, d, raw, number) && About(d, number, r)
  }

  /** The answer that the blob's definitions filed under `raw` ask for. */
  ghost predicate AnswersDefinitions(result: Result<seq<Record>>, b: Blob, raw: string, view: View) {
    && (result.Failed? <==> forall r :: !AboutUnder(b, raw, r))
    && (result.Success? ==> forall r :: r in result.value <==> AskedUnder(b, raw, view, r))
  }

  /** The same answer, on the queries and on the definitions. */
  lemma {:induction false} QueriesToDefinitions(names: seq<string>, b: Blob, how: Orders, raw: string,
                                                domains: seq<string>, view: View)
    requires IsOrders(b, how) && AnswersExactly(names, BlobQueries(b, how, raw), domains, b.records, view)
    ensures AnswersDefinitions(ResolvedRecords(names, domains, b.records, view), b, raw, view)
  {
    forall r: Record ensures AddressedBySome(BlobQueries(b, how, raw), b.records, r) <==> AboutUnder(b, raw, r) {
      SomeAbout(b, how, raw, r);
    }
    if ResolvedRecords(names, domains, b.records, view).Success? {
      forall r: Record
        ensures (exists i: nat :: WantedAt(BlobQueries(b, how, raw), b.records, view, r, i)) <==>
          AskedUnder(b, raw, view, r)
      {
        SomeAsked(b, how, raw, view, r);
      }
    }
  }

  /** A query at position `i` belongs to a definition filed under the name. */
  lemma {:induction false} QueryFiled(b: Blob, how: Orders, raw: string, i: nat)
    returns (key: string, d: Definition, number: string)
    requires IsOrders(b, how) && i < |BlobQueries(b, how, raw)|
    ensures Files(b, key, d, raw, number) && BlobQueries(b, how, raw)[i] == QueryFor(d, number)
  {
    FiledQueries(b, how, raw, BlobQueries(b, how, raw)[i]);
    key, d, number :| Files(b, key, d, raw, number) && BlobQueries(b, how, raw)[i] == QueryFor(d, number);
  }

  lemma {:induction false} FiledQuery(b: Blob, how: Orders, raw: string, key: string, d: Definition, number: string)
    returns (i: nat)
    requires IsOrders(b, how) && Files(b, key, d, raw, number)
    ensures i < |BlobQueries(b, how, raw)| && BlobQueries(b, how, raw)[i] == QueryFor(d, number)
  {
    FiledQueries(b, how, raw, QueryFor(d, number));
    i :| 0 <= i < |BlobQueries(b, how, raw)| && BlobQueries(b, how, raw)[i] == QueryFor(d, number);
  }

  lemma {:induction false} SomeAbout(b: Blob, how: Orders, raw: string, r: Record)
    requires IsOrders(b, how)
    ensures AddressedBySome(BlobQueries(b, how, raw), b.records, r) <==> AboutUnder(b, raw, r)
  {
    if AddressedBySome(BlobQueries(b, how, raw), b.records, r) {
      var i: nat :| AddressedAt(BlobQueries(b, how, raw), b.records, r, i);
      var key, d, number := QueryFiled(b, how, raw, i);
      assert About(d, number, r);
    }
    if AboutUnder(b, raw, r) {
      var key, d, number :| Files(b, key, d, raw, number) && About(d, number, r);
      var i := FiledQuery(b, how, raw, key, d, number);
      assert AddressedAt(BlobQueries(b, how, raw), b.records, r, i);
    }
  }

  lemma {:induction false} SomeAsked(b: Blob, how: Orders, raw: string, view: View, r: Record)
    requires IsOrders(b, how)
    ensures (exists i: nat :: WantedAt(BlobQueries(b, how, raw), b.records, view, r, i)) <==>
      AskedUnder(b, raw, view, r)
  {
    if i: nat :| WantedAt(BlobQueries(b, how, raw), b.records, view, r, i) {
      var key, d, number := QueryFiled(b, how, raw, i);
      AskedWanted(d, number, b.records, view, r);
    }
    if AskedUnder(b, raw, view, r) {
      var key, d, number :| Files(b, key, d, raw, number) && Asked(d, number, b.records, view, r);
      var i := FiledQuery(b, how, raw, key, d, number);
      AskedWanted(d, number, b.records, view, r);
      assert WantedAt(BlobQueries(b, how, raw), b.records, view, r, i);
    }
  }

  /**
   From the definitions of a blob to the answer: a name that the base does not define, and that
   some definition is filed under, resolves to exactly the records that those definitions ask for.
   */
  lemma {:induction false} DefinitionsAnswer(b: Blob, how: Orders, base: AliasEntries, isIP: string -> bool,
                                             domains: seq<string>, view: View, name: string) returns (raw: string)
    requires IsOrders(b, how) && name !in base.aliases && Readable(b, how, (false, name), isIP, domains)
    requires exists other :: SpelledAs(b, how, (false, name), other)
    ensures SpelledAs(b, how, (false, name), raw)
    ensures var e := base.ExtendedBy(AliasesOf(b, isIP, how));
      AnswersDefinitions(ResolvedRecords(Expansions(e.aliases, e.underscoreAliases, name), domains, b.records, view),
                         b, raw, view)
  {
    raw := BlobAnswers(b, how, base, isIP, domains, view, name);
    var e := base.ExtendedBy(AliasesOf(b, isIP, how));
    QueriesToDefinitions(Expansions(e.aliases, e.underscoreAliases, name), b, how, raw, domains, view);
  }

  /** The same for an alias "_.rest": any name of one label more resolves to what its definitions ask for. */
  lemma {:induction false} UnderscoreDefinitionsAnswer(b: Blob, how: Orders, base: AliasEntries, isIP: string -> bool,
                                                       domains: seq<string>, view: View, first: string, rest: string)
    returns (raw: string)
    requires NoDot(first) && IsOrders(b, how) && Readable(b, how, (true, rest), isIP, domains)
    requires exists other :: SpelledAs(b, how, (true, rest), other)
    requires rest !in base.underscoreAliases
    requires first + "." + rest !in base.ExtendedBy(AliasesOf(b, isIP, how)).aliases
    ensures SpelledAs(b, how, (true, rest), raw)
    ensures var e := base.ExtendedBy(AliasesOf(b, isIP, how));
      AnswersDefinitions(
        ResolvedRecords(Expansions(e.aliases, e.underscoreAliases, first + "." + rest), domains, b.records, view),
        b, raw, view)
  {
    raw := UnderscoreAnswers(b, how, base, isIP, domains, view, first, rest);
    var e := base.ExtendedBy(AliasesOf(b, isIP, how));
    QueriesToDefinitions(Expansions(e.aliases, e.underscoreAliases, first + "." + rest), b, how, raw, domains, view);
  }

  /** A name under which a definition is filed is one of the blob's alias names. */
  lemma {:induction false} FiledIsSpelled(b: Blob, how: Orders, key: string, d: Definition, raw: string, number: string)
    requires IsOrders(b, how) && Files(b, key, d, raw, number)
    ensures raw in EncodedAliases(b, how)
  {
    FiledQueries(b, how, raw, QueryFor(d, number));
    Encoder.QueriesOfNames(BlobEntries(b, how), raw);
  }

  /** The id in front of "_.rest" is what distinguishes the names of a uuid alias. */
  lemma {:induction false} UUIDName(rest: string, id: string, other: string)
    requires IsFqdn(rest)
    ensures NamedAfter("_." + rest, other, id + "." + rest) <==> other == id
  {
    var key := "_." + rest;
    NamedAfterExact(key, other, id + "." + rest);
    assert Fqdn(key) == key && key == "" + "_" + ("." + rest);
    Encoder.ReplacedFirst("", "." + rest, other);
    assert "" + other + ("." + rest) == other + "." + rest;
    if other + "." + rest == id + "." + rest {
      assert |other| == |id|;
      assert other == (other + "." + rest)[..|other|] && id == (id + "." + rest)[..|id|];
    }
  }

  /**
   The name of an instance under a uuid alias: with "_.rest" defined by one uuid definition and
   nothing else filed under the name, `id + "." + rest` resolves to exactly the records of the
   definition's group whose number is that of a group record with this id, as far as the
   definition's health filter keeps them.
   */
  lemma {:induction false} UUIDAnswers(b: Blob, how: Orders, base: AliasEntries, isIP: string -> bool,
                                       domains: seq<string>, view: View, rest: string, d: Definition, id: string,
                                       m: Record)
    requires IsOrders(b, how) && Canonical(id + "." + rest) && IsFqdn(rest) && !HasPrefix(id + "." + rest, "_.")
    requires id + "." + rest !in base.aliases && Readable(b, how, (false, id + "." + rest), isIP, domains)
    requires "_." + rest in b.definitions && d in b.definitions["_." + rest] && d.placeholderType == "uuid"
    requires m in b.records && About(d, "", m) && m.id == id
    requires forall other :: SpelledAs(b, how, (false, id + "." + rest), other) ==> other == id + "." + rest
    requires forall key, d', number :: Files(b, key, d', id + "." + rest, number) ==> key == "_." + rest && d' == d
    ensures var e := base.ExtendedBy(AliasesOf(b, isIP, how));
      var names := Expansions(e.aliases, e.underscoreAliases, id + "." + rest);
      var result := ResolvedRecords(names, domains, b.records, view);
      && result.Success?
      && forall r :: r in result.value <==> AskedForId(b, d, id, view, r)
  {
    var key, name := "_." + rest, id + "." + rest;
    forall x: Record ensures NamedAfter(key, x.id, name) <==> x.id == id { UUIDName(rest, id, x.id); }
    assert Files(b, key, d, name, m.numID);
    FiledIsSpelled(b, how, key, d, name, m.numID);
    Aliases.AliasKeyExact(name, "");
    assert SpelledAs(b, how, (false, name), name);
    var raw := DefinitionsAnswer(b, how, base, isIP, domains, view, name);
    assert raw == name && About(d, m.numID, m);
    forall r: Record ensures AskedUnder(b, name, view, r) <==> AskedForId(b, d, id, view, r) {
      UUIDAsked(b, key, d, name, id, view, r);
    }
    assert AboutUnder(b, name, m);
  }

  /** The definition asks for the record under the number of a group record with this id. */
  ghost predicate AskedForId(b: Blob, d: Definition, id: string, view: View, r: Record) {
    exists x :: x in b.records && About(d, "", x) && x.id == id && Asked(d, x.numID, b.records, view, r)
  }

  lemma {:induction false} UUIDAsked(b: Blob, key: string, d: Definition, name: string, id: string, view: View,
                                     r: Record)
    requires key in b.definitions && d in b.definitions[key] && d.placeholderType == "uuid"
    requires forall x: Record :: NamedAfter(key, x.id, name) <==> x.id == id
    requires forall k, d', number :: Files(b, k, d', name, number) ==> k == key && d' == d
    ensures AskedUnder(b, name, view, r) <==> AskedForId(b, d, id, view, r)
  {
    if x :| x in b.records && About(d, "", x) && x.id == id && Asked(d, x.numID, b.records, view, r) {
      assert Files(b, key, d, name, x.numID);
    }
  }
}
