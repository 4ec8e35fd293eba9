/** What queried names mean: which records each form of a name selects. */
module QueryMeaning {
  import opened Strings
  import opened Record
  import opened Query
  import opened Criteria

  // ----- Pairs -----

  /** The values given for a key, in order. */
  function ValuesOf(pairs: seq<(string, string)>, key: string): seq<string> {
    if pairs == [] then []
    else (if pairs[0].0 == key && pairs[0].1 != "" then [pairs[0].1] else []) + ValuesOf(pairs[1..], key)
  }

  /** The values of a key, none if it is missing. */
  function Given(c: Criteria, key: string): seq<string> { if key in c then c[key] else [] }

  lemma AppendedOne(c: Criteria, pair: (string, string), key: string)
    ensures var next := Append(c, pair.0, pair.1);
      && (key in next <==> key in c || ValuesOf([pair], key) != [])
      && Given(next, key) == Given(c, key) + ValuesOf([pair], key)
  {
  }

  lemma ValuesNext(pairs: seq<(string, string)>, key: string)
    requires pairs != []
    ensures ValuesOf(pairs, key) == ValuesOf([pairs[0]], key) + ValuesOf(pairs[1..], key)
  {
  }

  /** Appending pairs adds each key's values behind those it had. */
  lemma {:induction false} AppendedValues(c: Criteria, pairs: seq<(string, string)>, key: string)
    ensures var r := AppendPairs(c, pairs);
      && (key in r <==> key in c || ValuesOf(pairs, key) != [])
      && Given(r, key) == Given(c, key) + ValuesOf(pairs, key)
    decreases |pairs|
  {
    if pairs == [] {
    } else {
      var first, rest := ValuesOf([pairs[0]], key), ValuesOf(pairs[1..], key);
      AppendedOne(c, pairs[0], key);
      ValuesNext(pairs, key);
      AppendedValues(Append(c, pairs[0].0, pairs[0].1), pairs[1..], key);
      assert Given(c, key) + first + rest == Given(c, key) + (first + rest);
    }
  }

  /** Values of one key are alternatives, and different keys must all be met. */
  lemma {:induction false} PairsMatch(pairs: seq<(string, string)>, r: Record)
    ensures Matches(AppendPairs(map[], pairs), r) <==>
      forall key :: ValuesOf(pairs, key) != [] && !IsSteering(key) ==> AnyMatches(key, ValuesOf(pairs, key), r)
  {
    var c := AppendPairs(map[], pairs);
    forall key ensures (key in c <==> ValuesOf(pairs, key) != []) && (key in c ==> c[key] == ValuesOf(pairs, key)) {
      AppendedValues(map[], pairs, key);
      assert [] + ValuesOf(pairs, key) == ValuesOf(pairs, key);
    }
  }

  /** A key the scanner knows, and a number. */
  predicate IsPair(pair: (string, string)) {
    pair.0 in {"a", "i", "s", "m", "n", "y"} && pair.1 != "" && AllDigits(pair.1)
  }

  function PrintPairs(pairs: seq<(string, string)>): string {
    if pairs == [] then "" else pairs[0].0 + pairs[0].1 + PrintPairs(pairs[1..])
  }

  lemma PrintsLetterFirst(pairs: seq<(string, string)>)
    requires forall i :: 0 <= i < |pairs| ==> IsPair(pairs[i])
    ensures PrintPairs(pairs) == "" || !IsDigit(PrintPairs(pairs)[0])
  {
    if pairs != [] { assert PrintPairs(pairs)[0] == pairs[0].0[0]; }
  }

  /** The scanner reads back any list of pairs, in order, repetitions included. */
  lemma {:induction false} ScanPrinted(pairs: seq<(string, string)>)
    requires forall i :: 0 <= i < |pairs| ==> IsPair(pairs[i])
    ensures Scan(PrintPairs(pairs)) == pairs
  {
    if pairs == [] {
    } else {
      var rest := pairs[1..];
      PrintsLetterFirst(rest);
      ScanPrinted(rest);
      assert pairs[0].0 == [pairs[0].0[0]];
      ScanPair(pairs[0].0[0], pairs[0].1, PrintPairs(rest));
    }
  }

  /** A key and a digit stand at position `i`: a pair begins there. */
  predicate PairAt(s: string, i: nat) {
    i + 1 < |s| && [s[i]] in {"a", "i", "s", "m", "n", "y"} && IsDigit(s[i + 1])
  }

  /** The scanner passes over everything up to where a pair begins. */
  lemma {:induction false} ScanSkips(junk: string, rest: string)
    requires forall i :: 0 <= i < |junk| ==> !PairAt(junk + rest, i)
    ensures Scan(junk + rest) == Scan(rest)
  {
    var s := junk + rest;
    if junk == "" {
      assert s == rest;
    } else {
      assert !PairAt(s, 0);
      assert s[1..] == junk[1..] + rest;
      forall i | 0 <= i < |junk[1..]| ensures !PairAt(junk[1..] + rest, i) { assert !PairAt(s, i + 1); }
      ScanSkips(junk[1..], rest);
      assert |s| < 2 ==> rest == "";
    }
  }

  /** No values are given, or this is one of them. */
  predicate OneOf(field: string, values: seq<string>) {
    values == [] || field in values
  }

  lemma {:induction false} KnownKeys(pairs: seq<(string, string)>, key: string)
    requires forall i :: 0 <= i < |pairs| ==> IsPair(pairs[i])
    ensures ValuesOf(pairs, key) != [] ==> key in {"a", "i", "s", "m", "n", "y"}
  {
    if pairs == [] {
    } else {
      KnownKeys(pairs[1..], key);
      if pairs[0].0 == key { assert key == [key[0]]; }
    }
  }

  /** What each selecting key asks of a record. */
  lemma KeyTable(values: seq<string>, r: Record)
    ensures AnyMatches("a", values, r) <==> r.azID in values
    ensures AnyMatches("i", values, r) <==> r.instanceIndex in values
    ensures AnyMatches("m", values, r) <==> r.numID in values
    ensures AnyMatches("n", values, r) <==> r.networkID in values
  {
    forall i | 0 <= i < |values|
      ensures FieldMatches("a", values[i], r) <==> r.azID == values[i]
      ensures FieldMatches("i", values[i], r) <==> r.instanceIndex == values[i]
      ensures FieldMatches("m", values[i], r) <==> r.numID == values[i]
      ensures FieldMatches("n", values[i], r) <==> r.networkID == values[i]
    {
    }
  }

  /** The record's zone, index, number and network are each among the values given for them, if any are. */
  predicate Fits(pairs: seq<(string, string)>, r: Record) {
    && OneOf(r.azID, ValuesOf(pairs, "a")) && OneOf(r.instanceIndex, ValuesOf(pairs, "i"))
    && OneOf(r.numID, ValuesOf(pairs, "m")) && OneOf(r.networkID, ValuesOf(pairs, "n"))
  }

  lemma {:induction false} KeyFits(pairs: seq<(string, string)>, r: Record, key: string)
    requires forall i :: 0 <= i < |pairs| ==> IsPair(pairs[i])
    requires Fits(pairs, r) && ValuesOf(pairs, key) != [] && !IsSteering(key)
    ensures AnyMatches(key, ValuesOf(pairs, key), r)
  {
    KnownKeys(pairs, key);
    KeyTable(ValuesOf(pairs, key), r);
  }

  lemma {:induction false} KeysFit(pairs: seq<(string, string)>, r: Record)
    requires forall key :: ValuesOf(pairs, key) != [] && !IsSteering(key) ==> AnyMatches(key, ValuesOf(pairs, key), r)
    ensures Fits(pairs, r)
  {
    KeyTable(ValuesOf(pairs, "a"), r);
    KeyTable(ValuesOf(pairs, "i"), r);
    KeyTable(ValuesOf(pairs, "m"), r);
    KeyTable(ValuesOf(pairs, "n"), r);
  }

  lemma {:induction false} PairsFit(pairs: seq<(string, string)>, r: Record)
    requires forall i :: 0 <= i < |pairs| ==> IsPair(pairs[i])
    ensures Matches(AppendPairs(map[], pairs), r) <==> Fits(pairs, r)
  {
    PairsMatch(pairs, r);
    if Matches(AppendPairs(map[], pairs), r) {
      KeysFit(pairs, r);
    } else if Fits(pairs, r) {
      forall key | ValuesOf(pairs, key) != [] && !IsSteering(key) ensures AnyMatches(key, ValuesOf(pairs, key), r) {
        KeyFits(pairs, r, key);
      }
    }
  }

  /** A query of key-value pairs, as text, selects exactly the records that fit the pairs. */
  lemma {:induction false} PairsSelect(pairs: seq<(string, string)>, r: Record)
    requires pairs != [] && forall i :: 0 <= i < |pairs| ==> IsPair(pairs[i])
    ensures ShortQueries(map[], "q-" + PrintPairs(pairs)).Some?
    ensures Matches(ShortQueries(map[], "q-" + PrintPairs(pairs)).value, r) <==> Fits(pairs, r)
  {
    ScanPrinted(pairs);
    assert ("q-" + PrintPairs(pairs))[2..] == PrintPairs(pairs);
    PairsFit(pairs, r);
  }

  // ----- Globs -----

  lemma LeadingStar(field: string, rest: string)
    ensures GlobMatches(field, "*" + rest) <==> HasSuffix(field, rest)
    ensures HasSuffix(field, rest) <==> exists s :: field == s + rest
  {
    var leading := "*" + rest;
    assert leading[1..] == rest && leading[0] == '*';
    if HasSuffix(field, rest) { assert field == field[..|field| - |rest|] + rest; }
    if s :| field == s + rest { SuffixOf(s, rest); }
  }

  lemma TrailingStar(field: string, rest: string)
    requires rest != "" && rest[0] != '*'
    ensures GlobMatches(field, rest + "*") <==> HasPrefix(field, rest)
    ensures HasPrefix(field, rest) <==> exists s :: field == rest + s
  {
    var trailing := rest + "*";
    assert trailing[0] != '*' && trailing[..|trailing| - 1] == rest;
    SuffixOf(rest, "*");
    if HasPrefix(field, rest) { assert field == rest + field[|rest|..]; }
    if s :| field == rest + s { assert field[..|rest|] == rest; }
  }

  /** A leading star stands for any beginning, a trailing one for any end; without a star the name itself is meant. */
  lemma GlobMeaning(field: string, rest: string)
    ensures NameMatches(field, "*" + rest) <==> exists s :: field == s + rest
    ensures rest != "" && rest[0] != '*' ==> (NameMatches(field, rest + "*") <==> exists s :: field == rest + s)
    ensures '*' !in rest ==> (NameMatches(field, rest) <==> field == rest)
  {
    assert ("*" + rest)[0] == '*' && (rest + "*")[|rest|] == '*';
    LeadingStar(field, rest);
    if rest != "" && rest[0] != '*' { TrailingStar(field, rest); }
  }

  /** A star anywhere else makes a pattern that nothing matches. */
  lemma InnerStarNeverMatches(field: string, value: string)
    requires '*' in value && value[0] != '*' && value[|value| - 1] != '*'
    ensures !NameMatches(field, value)
  {
    assert value[|value| - 1..] == [value[|value| - 1]];
  }

  // ----- The domain of a name -----

  /** The domain found is the first listed one that is a suffix of the name, dot boundary or not. */
  lemma {:induction false} FindsFirst(fqdn: string, domains: seq<string>, i: nat)
    requires i < |domains| && HasSuffix(fqdn, domains[i]) && forall j :: 0 <= j < i ==> !HasSuffix(fqdn, domains[j])
    ensures FindTLD(fqdn, domains) == domains[i]
  {
    if i == 0 {
    } else {
      FindsFirst(fqdn, domains[1..], i - 1);
    }
  }

  // ----- Short names -----

  lemma {:induction false} ParseOneGroup(first: string, group: string, tld: string)
    requires NoDot(group)
    ensures ParseGroup(first, group, tld) ==
      Parsed(ShortForm(if IsQuery(first) then first else "", group, tld, if IsQuery(first) then "" else first))
  {
    SplitNoDot(group);
  }

  lemma TrimGroup(group: string, tld: string)
    ensures var rest := group + "." + tld; HasSuffix(rest, "." + tld) && TrimSuffix(rest, "." + tld) == group
  {
    assert group + "." + tld == group + ("." + tld);
    SuffixOf(group, "." + tld);
  }

  /** A label, one group segment and a listed domain parse as a short form with the same parts. */
  lemma {:induction false} ParseShort(first: string, group: string, tld: string, domains: seq<string>)
    requires NoDot(first) && NoDot(group) && tld != "" && group + "." + tld != "bosh-agent-id."
    requires FindTLD(first + "." + (group + "." + tld), domains) == tld
    ensures ParseQuery(first + "." + (group + "." + tld), domains) ==
      Parsed(ShortForm(if IsQuery(first) then first else "", group, tld, if IsQuery(first) then "" else first))
  {
    CutAt(first, group + "." + tld);
    TrimGroup(group, tld);
    ParseOneGroup(first, group, tld);
    assert BOSH_AGENT_TLD + "." == "bosh-agent-id.";
  }

  // ----- Long names -----

  /** The labels between the first one and the domain of a long name. */
  function Middle(group: string, network: string, deployment: string): string {
    group + "." + (network + "." + deployment)
  }

  function LongName(first: string, group: string, network: string, deployment: string, tld: string): string {
    first + "." + (Middle(group, network, deployment) + ("." + tld))
  }

  lemma {:induction false} SplitMiddle(group: string, network: string, deployment: string)
    requires NoDot(group) && NoDot(network) && NoDot(deployment)
    ensures Split(Middle(group, network, deployment)) == [group, network, deployment]
  {
    SplitAt(group, network + "." + deployment);
    SplitAt(network, deployment);
    SplitNoDot(deployment);
  }

  /** What follows the first label of a long name has more dots than the agents' domain. */
  lemma LongIsNoAgent(group: string, network: string, deployment: string, tld: string)
    ensures Middle(group, network, deployment) + ("." + tld) != BOSH_AGENT_TLD + "."
  {
    var rest := Middle(group, network, deployment) + ("." + tld);
    assert rest[|group|] == '.' && rest[|group| + 1 + |network|] == '.';
    var agent := "bosh-agent-id.";
    assert BOSH_AGENT_TLD + "." == agent;
    assert forall i :: 0 <= i < |agent| - 1 ==> agent[i] != '.';
  }

  /** A long name in a listed domain parses into its labels. */
  lemma {:induction false} ParseLong(first: string, group: string, network: string, deployment: string, tld: string,
                                     domains: seq<string>)
    requires NoDot(first) && NoDot(group) && NoDot(network) && NoDot(deployment) && tld != ""
    requires FindTLD(LongName(first, group, network, deployment, tld), domains) == tld
    ensures ParseQuery(LongName(first, group, network, deployment, tld), domains) ==
      Parsed(LongForm(if IsQuery(first) then first else "", group, tld,
                      if IsQuery(first) then "" else first, network, deployment))
  {
    CutAt(first, Middle(group, network, deployment) + ("." + tld));
    LongIsNoAgent(group, network, deployment, tld);
    SuffixOf(Middle(group, network, deployment), "." + tld);
    SplitMiddle(group, network, deployment);
  }

  /** A name does not parse at all exactly when it has no dot. */
  lemma MalformedIffNoDot(name: string, domains: seq<string>)
    ensures ParseQuery(name, domains) == DomainMalformed <==> NoDot(name)
  {
    match Cut(name)
    case None =>
    case Some((first, rest)) => assert name[|first|] == '.';
  }

  /** Between the first label and the domain stand one label or three; any other number is refused. */
  lemma {:induction false} OtherLengthsRefused(first: string, middle: string, tld: string, domains: seq<string>)
    requires NoDot(first) && tld != "" && middle + "." + tld != "bosh-agent-id."
    requires FindTLD(first + "." + (middle + "." + tld), domains) == tld
    ensures ParseQuery(first + "." + (middle + "." + tld), domains).Parsed? <==>
      |Split(middle)| == 1 || |Split(middle)| == 3
  {
    CutAt(first, middle + "." + tld);
    TrimGroup(middle, tld);
    assert BOSH_AGENT_TLD + "." == "bosh-agent-id.";
  }

  // ----- What the fields of a name select -----

  /** One more field is one more condition, unless it is empty. */
  lemma {:induction false} OneMore(c: Criteria, key: string, value: string, r: Record)
    requires key !in c && !IsSteering(key)
    ensures Matches(Append(c, key, value), r) <==> Matches(c, r) && (value == "" || FieldMatches(key, value, r))
  {
    if value != "" {
      var more := Append(c, key, value);
      assert [] + [value] == [value];
      assert more == c[key := [value]];
      assert AnyMatches(key, [value], r) <==> FieldMatches(key, [value][0], r);
      if Matches(more, r) {
        forall field | field in c.Keys && !IsSteering(field) ensures AnyMatches(field, c[field], r) {
          assert AnyMatches(field, more[field], r);
        }
        assert AnyMatches(key, more[key], r);
      }
    }
  }

  /** A field that only steers is no condition. */
  lemma {:induction false} SteeringIgnored(c: Criteria, key: string, values: seq<string>, r: Record)
    requires IsSteering(key)
    ensures Matches(c[key := values], r) <==> Matches(c, r)
  {
    var more := c[key := values];
    if Matches(more, r) {
      forall field | field in c.Keys && !IsSteering(field) ensures AnyMatches(field, c[field], r) {
        assert AnyMatches(field, more[field], r);
      }
    }
  }

  /** The criteria of a parsed name match as those of its form do. */
  lemma {:induction false} FormSelects(name: string, domains: seq<string>, form: QueryForm, c: Criteria, r: Record)
    requires ParseQuery(name, domains) == Parsed(form) && ParseCriteria(form) == Some(c)
    ensures NewCriteria(name, domains) == Some(c["fqdn" := [name]])
    ensures Matches(NewCriteria(name, domains).value, r) <==> Matches(c, r)
  {
    SteeringIgnored(c, "fqdn", [name], r);
  }

  lemma FieldTable(value: string, r: Record)
    ensures FieldMatches("instanceName", value, r) <==> r.id == value
    ensures FieldMatches("instanceGroupName", value, r) <==> NameMatches(r.group, value)
    ensures FieldMatches("network", value, r) <==> NameMatches(r.network, value)
    ensures FieldMatches("deployment", value, r) <==> NameMatches(r.deployment, value)
    ensures FieldMatches("domain", value, r) <==> r.domain == value
    ensures FieldMatches("agentID", value, r) <==> r.agentID == value
    ensures FieldMatches("g", value, r) <==> value in r.groupIDs
  {
  }

  /** The label is no group number, or the record is in that group. */
  ghost predicate GroupFits(group: string, r: Record) {
    forall id :: AllDigits(id) && id != "" && group == "q-g" + id ==> id in r.groupIDs
  }

  lemma GroupIDExact(group: string)
    ensures GroupID(group).Some? ==>
      group == "q-g" + GroupID(group).value && AllDigits(GroupID(group).value) && GroupID(group).value != ""
    ensures forall id :: AllDigits(id) && id != "" && group == "q-g" + id ==> GroupID(group) == Some(id)
  {
    if GroupID(group).Some? { assert group == group[..3] + group[3..]; }
    forall id | AllDigits(id) && id != "" && group == "q-g" + id ensures GroupID(group) == Some(id) {
      assert group[..3] == "q-g" && group[3..] == id;
    }
  }

  /** A group segment is a condition exactly when it is a group number. */
  lemma {:induction false} GroupSelects(c: Criteria, group: string, r: Record)
    requires "g" !in c
    ensures Matches(AppendGroup(c, group), r) <==> Matches(c, r) && GroupFits(group, r)
    ensures AppendGroup(c, group).Keys <= c.Keys + {"g"}
  {
    GroupIDExact(group);
    match GroupID(group)
    case None =>
    case Some(id) =>
      OneMore(c, "g", id, r);
      FieldTable(id, r);
  }

  /** The instance, group and domain of a short form are its conditions. */
  lemma {:induction false} ShortFieldsSelect(c: Criteria, group: string, instance: string, tld: string, r: Record)
    requires tld != "" && forall key :: key in {"g", "instanceName", "domain"} ==> key !in c
    ensures Matches(ShortFields(c, group, instance, tld), r) <==>
      Matches(c, r) && GroupFits(group, r) && (instance == "" || r.id == instance) && r.domain == tld
  {
    var c1 := AppendGroup(c, group);
    var c2 := Append(c1, "instanceName", instance);
    GroupSelects(c, group, r);
    OneMore(c1, "instanceName", instance, r);
    OneMore(c2, "domain", tld, r);
    FieldTable(instance, r);
    FieldTable(tld, r);
  }

  /** Two more fields are two more conditions. */
  lemma {:induction false} TwoMore(c: Criteria, k1: string, v1: string, k2: string, v2: string, r: Record)
    requires k1 !in c && k2 !in c && k1 != k2 && !IsSteering(k1) && !IsSteering(k2)
    ensures var more := Append(Append(c, k1, v1), k2, v2);
      && more.Keys <= c.Keys + {k1, k2}
      && (Matches(more, r) <==>
            Matches(c, r) && (v1 == "" || FieldMatches(k1, v1, r)) && (v2 == "" || FieldMatches(k2, v2, r)))
  {
    OneMore(c, k1, v1, r);
    OneMore(Append(c, k1, v1), k2, v2, r);
  }

  lemma LabelTable(instance: string, group: string, network: string, deployment: string, tld: string, r: Record)
    ensures FieldMatches("instanceName", instance, r) <==> r.id == instance
    ensures FieldMatches("instanceGroupName", group, r) <==> NameMatches(r.group, group)
    ensures FieldMatches("network", network, r) <==> NameMatches(r.network, network)
    ensures FieldMatches("deployment", deployment, r) <==> NameMatches(r.deployment, deployment)
    ensures FieldMatches("domain", tld, r) <==> r.domain == tld
  {
    FieldTable(instance, r);
    FieldTable(group, r);
    FieldTable(network, r);
    FieldTable(deployment, r);
    FieldTable(tld, r);
  }

  /** A record fits the labels of a long name, globs included; an empty label is no condition. */
  ghost predicate LabelsFit(group: string, network: string, deployment: string, tld: string, r: Record) {
    && (group == "" || NameMatches(r.group, group)) && (network == "" || NameMatches(r.network, network))
    && (deployment == "" || NameMatches(r.deployment, deployment)) && GroupFits(group, r) && r.domain == tld
  }

  lemma {:induction false} GroupAndDomain(c: Criteria, group: string, tld: string, r: Record)
    requires "g" !in c && "domain" !in c && tld != ""
    ensures Matches(Append(AppendGroup(c, group), "domain", tld), r) <==>
      Matches(c, r) && GroupFits(group, r) && r.domain == tld
  {
    GroupSelects(c, group, r);
    OneMore(AppendGroup(c, group), "domain", tld, r);
    FieldTable(tld, r);
  }

  /** A long form's fields up to the group number. */
  function Named(c: Criteria, group: string, instance: string, network: string, deployment: string): Criteria {
    Append(Append(Append(Append(c, "instanceName", instance), "instanceGroupName", group), "network", network),
           "deployment", deployment)
  }

  lemma {:induction false} NamedSelects(c: Criteria, group: string, instance: string, network: string,
                                        deployment: string, r: Record)
    requires forall key :: key in {"instanceName", "instanceGroupName", "network", "deployment"} ==> key !in c
    ensures var named := Named(c, group, instance, network, deployment);
      && named.Keys <= c.Keys + {"instanceName", "instanceGroupName", "network", "deployment"}
      && (Matches(named, r) <==>
            && Matches(c, r) && (instance == "" || r.id == instance) && (group == "" || NameMatches(r.group, group))
            && (network == "" || NameMatches(r.network, network))
            && (deployment == "" || NameMatches(r.deployment, deployment)))
  {
    var c2 := Append(Append(c, "instanceName", instance), "instanceGroupName", group);
    TwoMore(c, "instanceName", instance, "instanceGroupName", group, r);
    TwoMore(c2, "network", network, "deployment", deployment, r);
    LabelTable(instance, group, network, deployment, "", r);
  }

  /** The instance and the labels of a long form are its conditions. */
  lemma {:induction false} LongFieldsSelect(c: Criteria, group: string, instance: string, network: string,
                                            deployment: string, tld: string, r: Record)
    requires tld != ""
    requires forall key :: key in {"instanceName", "instanceGroupName", "network", "deployment", "g", "domain"} ==>
      key !in c
    ensures Matches(LongFields(c, group, instance, network, deployment, tld), r) <==>
      Matches(c, r) && (instance == "" || r.id == instance) && LabelsFit(group, network, deployment, tld, r)
  {
    var named := Named(c, group, instance, network, deployment);
    NamedSelects(c, group, instance, network, deployment, r);
    GroupAndDomain(named, group, tld, r);
    assert LongFields(c, group, instance, network, deployment, tld) == Append(AppendGroup(named, group), "domain", tld);
  }

  // ----- What an instance's name selects -----

  /**
   The long name of an instance selects exactly the records with that instance id and domain
   whose group, network and deployment match the labels, globs included.
   */
  lemma {:induction false} InstanceSelects(first: string, group: string, network: string, deployment: string,
                                           tld: string, domains: seq<string>, r: Record)
    requires NoDot(first) && NoDot(group) && NoDot(network) && NoDot(deployment) && tld != ""
    requires !HasPrefix(first, "q-")
    requires FindTLD(LongName(first, group, network, deployment, tld), domains) == tld
    ensures NewCriteria(LongName(first, group, network, deployment, tld), domains).Some?
    ensures Matches(NewCriteria(LongName(first, group, network, deployment, tld), domains).value, r) <==>
      (first == "" || r.id == first) && LabelsFit(group, network, deployment, tld, r)
  {
    ParseLong(first, group, network, deployment, tld, domains);
    LongFieldsSelect(map[], group, first, network, deployment, tld, r);
    FormSelects(LongName(first, group, network, deployment, tld), domains,
                LongForm("", group, tld, first, network, deployment),
                LongFields(map[], group, first, network, deployment, tld), r);
  }

  /** The short name of an instance selects by its id, its group number if the label is one, and its domain. */
  lemma {:induction false} ShortInstanceSelects(first: string, group: string, tld: string, domains: seq<string>,
                                                r: Record)
    requires NoDot(first) && NoDot(group)
    requires tld != "" && !HasPrefix(first, "q-") && group + "." + tld != "bosh-agent-id."
    requires FindTLD(first + "." + (group + "." + tld), domains) == tld
    ensures NewCriteria(first + "." + (group + "." + tld), domains).Some?
    ensures Matches(NewCriteria(first + "." + (group + "." + tld), domains).value, r) <==>
      (first == "" || r.id == first) && GroupFits(group, r) && r.domain == tld
  {
    ParseShort(first, group, tld, domains);
    ShortFieldsSelect(map[], group, first, tld, r);
    FormSelects(first + "." + (group + "." + tld), domains, ShortForm("", group, tld, first),
                ShortFields(map[], group, first, tld), r);
  }

  /** The name of an agent selects the records of that agent, whatever domains are listed. */
  lemma {:induction false} AgentSelects(first: string, domains: seq<string>, r: Record)
    requires NoDot(first)
    ensures NewCriteria(first + "." + "bosh-agent-id.", domains).Some?
    ensures Matches(NewCriteria(first + "." + "bosh-agent-id.", domains).value, r) <==>
      first == "" || r.agentID == first
  {
    CutAt(first, "bosh-agent-id.");
    assert BOSH_AGENT_TLD + "." == "bosh-agent-id.";
    OneMore(map[], "agentID", first, r);
    FieldTable(first, r);
    FormSelects(first + "." + "bosh-agent-id.", domains, AgentIDForm(first), Append(map[], "agentID", first), r);
  }

  /** A name in no listed domain selects by its first label alone, as an instance id. */
  lemma {:induction false} OutsideSelects(first: string, rest: string, domains: seq<string>, r: Record)
    requires NoDot(first) && rest != "bosh-agent-id."
    requires forall d :: d in domains ==> !HasSuffix(first + "." + rest, d)
    ensures NewCriteria(first + "." + rest, domains).Some?
    ensures Matches(NewCriteria(first + "." + rest, domains).value, r) <==> first == "" || r.id == first
  {
    CutAt(first, rest);
    assert BOSH_AGENT_TLD + "." == "bosh-agent-id.";
    assert FindTLD(first + "." + rest, domains) == "";
    OneMore(map[], "instanceName", first, r);
    FieldTable(first, r);
    FormSelects(first + "." + rest, domains, NonBoshDNSForm(first), Append(map[], "instanceName", first), r);
  }

  // ----- What a whole query selects -----

  /** Scanned pairs leave every field alone that is no key of theirs. */
  lemma {:induction false} PairsOnly(pairs: seq<(string, string)>, key: string)
    requires (forall i :: 0 <= i < |pairs| ==> IsPair(pairs[i])) && key !in {"a", "i", "s", "m", "n", "y"}
    ensures key !in AppendPairs(map[], pairs)
  {
    KnownKeys(pairs, key);
    AppendedValues(map[], pairs, key);
  }

  /** The first label of a query of pairs. */
  function QueryLabel(pairs: seq<(string, string)>): string { "q-" + PrintPairs(pairs) }

  lemma {:induction false} PrintsNoDot(pairs: seq<(string, string)>)
    requires forall i :: 0 <= i < |pairs| ==> IsPair(pairs[i])
    ensures NoDot(PrintPairs(pairs))
  {
    if pairs == [] {
    } else {
      PrintsNoDot(pairs[1..]);
      DigitsNoDot(pairs[0].1);
      assert NoDot(pairs[0].0 + pairs[0].1);
    }
  }

  lemma LabelShape(text: string)
    requires NoDot(text)
    ensures NoDot("q-" + text) && IsQuery("q-" + text) && ("q-" + text)[2..] == text
  {
    assert ("q-" + text)[..2] == "q-";
  }

  lemma {:induction false} LabelPairs(pairs: seq<(string, string)>)
    requires pairs != [] && forall i :: 0 <= i < |pairs| ==> IsPair(pairs[i])
    ensures NoDot(QueryLabel(pairs)) && IsQuery(QueryLabel(pairs))
    ensures ShortQueries(map[], QueryLabel(pairs)) == Some(AppendPairs(map[], pairs))
  {
    PrintsNoDot(pairs);
    LabelShape(PrintPairs(pairs));
    ScanPrinted(pairs);
  }

  function ShortName(pairs: seq<(string, string)>, id: string, tld: string): string {
    QueryLabel(pairs) + "." + ("q-g" + id + "." + tld)
  }

  /** The criteria of a whole short query: its pairs, its group, its domain and its name. */
  lemma {:induction false} ShortCriteria(pairs: seq<(string, string)>, id: string, tld: string, domains: seq<string>)
    requires pairs != [] && forall i :: 0 <= i < |pairs| ==> IsPair(pairs[i])
    requires AllDigits(id) && id != "" && tld != "" && FindTLD(ShortName(pairs, id, tld), domains) == tld
    ensures ParseQuery(ShortName(pairs, id, tld), domains) == Parsed(ShortForm(QueryLabel(pairs), "q-g" + id, tld, ""))
    ensures ParseCriteria(ShortForm(QueryLabel(pairs), "q-g" + id, tld, "")) ==
      Some(ShortFields(AppendPairs(map[], pairs), "q-g" + id, "", tld))
  {
    LabelPairs(pairs);
    DigitsNoDot(id);
    var rest := "q-g" + id + "." + tld;
    assert NoDot("q-g" + id) && rest[0] == 'q';
    ParseShort(QueryLabel(pairs), "q-g" + id, tld, domains);
  }

  lemma OnlyGroup(id: string, r: Record)
    requires AllDigits(id) && id != ""
    ensures GroupFits("q-g" + id, r) <==> id in r.groupIDs
  {
    GroupIDExact("q-g" + id);
  }

  /** A whole short query, from its text: its pairs, its group and its domain, and nothing else. */
  lemma {:induction false} ShortSelects(pairs: seq<(string, string)>, id: string, tld: string, domains: seq<string>,
                                        r: Record)
    requires pairs != [] && forall i :: 0 <= i < |pairs| ==> IsPair(pairs[i])
    requires AllDigits(id) && id != "" && tld != "" && FindTLD(ShortName(pairs, id, tld), domains) == tld
    ensures NewCriteria(ShortName(pairs, id, tld), domains).Some?
    ensures Matches(NewCriteria(ShortName(pairs, id, tld), domains).value, r) <==>
      Fits(pairs, r) && id in r.groupIDs && r.domain == tld
  {
    var c := AppendPairs(map[], pairs);
    ShortCriteria(pairs, id, tld, domains);
    PairsOnly(pairs, "g");
    PairsOnly(pairs, "instanceName");
    PairsOnly(pairs, "domain");
    ShortFieldsSelect(c, "q-g" + id, "", tld, r);
    OnlyGroup(id, r);
    PairsFit(pairs, r);
    FormSelects(ShortName(pairs, id, tld), domains, ShortForm(QueryLabel(pairs), "q-g" + id, tld, ""),
                ShortFields(c, "q-g" + id, "", tld), r);
  }

  /** A whole long query, from its text: its pairs, and the labels of its group, network, deployment and domain. */
  lemma {:induction false} LongSelects(pairs: seq<(string, string)>, group: string, network: string, deployment: string,
                                       tld: string, domains: seq<string>, r: Record)
    requires pairs != [] && forall i :: 0 <= i < |pairs| ==> IsPair(pairs[i])
    requires NoDot(group) && NoDot(network) && NoDot(deployment) && tld != ""
    requires FindTLD(LongName(QueryLabel(pairs), group, network, deployment, tld), domains) == tld
    ensures var c := NewCriteria(LongName(QueryLabel(pairs), group, network, deployment, tld), domains);
      c.Some? && (Matches(c.value, r) <==> Fits(pairs, r) && LabelsFit(group, network, deployment, tld, r))
  {
    var first, c := QueryLabel(pairs), AppendPairs(map[], pairs);
    LabelPairs(pairs);
    ParseLong(first, group, network, deployment, tld, domains);
    forall key | key in {"instanceName", "instanceGroupName", "network", "deployment", "g", "domain"}
      ensures key !in c
    {
      PairsOnly(pairs, key);
    }
    LongFieldsSelect(c, group, "", network, deployment, tld, r);
    PairsFit(pairs, r);
    FormSelects(LongName(first, group, network, deployment, tld), domains,
                LongForm(first, group, tld, "", network, deployment),
                LongFields(c, group, "", network, deployment, tld), r);
  }

  /** A first label that starts as a query but holds no pair makes the whole name illegal. */
  lemma {:induction false} NoPairsRefused(text: string, group: string, tld: string, domains: seq<string>)
    requires NoDot(text) && NoDot(group) && tld != "" && group + "." + tld != "bosh-agent-id."
    requires forall i :: 0 <= i < |text| ==> !PairAt(text, i)
    requires FindTLD(("q-" + text) + "." + (group + "." + tld), domains) == tld
    ensures NewCriteria(("q-" + text) + "." + (group + "." + tld), domains).None?
  {
    LabelShape(text);
    ParseShort("q-" + text, group, tld, domains);
    assert text + "" == text;
    ScanSkips(text, "");
  }
}
