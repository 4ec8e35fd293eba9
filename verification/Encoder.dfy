/** Printing alias definitions as queries, and reading them back. */
module Encoder {
  import opened Strings
  import opened Record
  import opened Query
  import opened Criteria
  import opened Enumeration
  import QueryMeaning

  datatype AliasDefinition = AliasDefinition(
    groupID: string, rootDomain: string, placeholderType: string, healthFilter: string, initialHealthCheck: string)

  datatype QueryEncoder = QueryEncoder(
    healthFilter: string, initialHealthCheck: string, groupID: string, rootDomain: string, numID: string)

  function NewQueryEncoder(d: AliasDefinition): QueryEncoder {
    QueryEncoder(d.healthFilter, d.initialHealthCheck, d.groupID, d.rootDomain, "")
  }

  function HealthCode(filter: string): (code: string)
    ensures |code| == 1 && AllDigits(code)
  {
    match filter
    case "unhealthy" => "1"
    case "healthy" => "3"
    case "all" => "4"
    case _ => "0"
  }

  function CheckCode(check: string): (code: string)
    ensures |code| <= 1 && AllDigits(code)
  {
    match check
    case "asynchronous" => "0"
    case "synchronous" => "1"
    case _ => ""
  }

  /** A key and its number, or nothing when there is no number. */
  function Pair(key: string, number: string): string {
    if number == "" then "" else key + number
  }

  /** The first segment without its "q-". */
  function EncodePairs(q: QueryEncoder): string {
    Pair("m", q.numID) + Pair("s", HealthCode(q.healthFilter)) + Pair("y", CheckCode(q.initialHealthCheck))
  }

  function FirstSegment(q: QueryEncoder): string { "q-" + EncodePairs(q) }

  function GroupSegment(q: QueryEncoder): string { "q-g" + q.groupID }

  function Encode(q: QueryEncoder): string {
    FirstSegment(q) + "." + (GroupSegment(q) + "." + q.rootDomain)
  }

  // ----- What a query means -----

  /** Identifiers are numbers, and the root domain is a lower-case name without a trailing dot. */
  ghost predicate Plain(q: QueryEncoder) {
    && AllDigits(q.numID) && AllDigits(q.groupID) && q.groupID != ""
    && q.rootDomain != "" && !IsFqdn(q.rootDomain) && IsLower(q.rootDomain)
  }

  /** The root domain is listed, and no other listed domain is a string suffix of the name. */
  ghost predicate OnlyTLD(name: string, root: string, domains: seq<string>) {
    root in domains && forall d :: d in domains && HasSuffix(name, d) ==> d == root
  }

  function Field(key: string, value: string): Criteria {
    if value == "" then map[] else map[key := [value]]
  }

  function Pairs(q: QueryEncoder): Criteria {
    Field("m", q.numID) + Field("s", HealthCode(q.healthFilter)) + Field("y", CheckCode(q.initialHealthCheck))
  }

  /** The criteria an encoder stands for. */
  function Meaning(q: QueryEncoder): Criteria {
    Pairs(q) + Field("g", q.groupID) + Field("domain", q.rootDomain + ".") + Field("fqdn", Fqdn(Encode(q)))
  }

  // ----- Round trip -----

  function Printed(key: string, number: string): seq<(string, string)> {
    if number == "" then [] else [(key, number)]
  }

  lemma {:induction false} ScanOne(k: char, d: string, rest: string)
    requires IsKey(k) && AllDigits(d) && (rest == "" || !IsDigit(rest[0]))
    ensures Scan(Pair([k], d) + rest) == Printed([k], d) + Scan(rest)
  {
    if d == "" {
      assert Pair([k], d) + rest == rest;
    } else {
      ScanPair(k, d, rest);
    }
  }

  /** Scanning printed pairs gives the pairs, in order. */
  lemma {:induction false} ScanTwo(s: string, y: string)
    requires AllDigits(s) && AllDigits(y)
    ensures Scan(Pair("s", s) + Pair("y", y)) == Printed("s", s) + Printed("y", y)
  {
    ScanOne('y', y, "");
    assert Pair("y", y) + "" == Pair("y", y);
    assert Printed("y", y) + [] == Printed("y", y);
    ScanOne('s', s, Pair("y", y));
  }

  lemma ScanRegroup(a: string, b: string, c: string, pa: seq<(string, string)>, pb: seq<(string, string)>,
                    pc: seq<(string, string)>)
    requires Scan(a + (b + c)) == pa + (pb + pc)
    ensures Scan(a + b + c) == pa + pb + pc
  {
    assert a + b + c == a + (b + c) && pa + (pb + pc) == pa + pb + pc;
  }

  lemma PairsHead(s: string, y: string)
    ensures var rest := Pair("s", s) + Pair("y", y); rest == "" || !IsDigit(rest[0])
  {
  }

  lemma {:induction false} ScanThree(m: string, s: string, y: string)
    requires AllDigits(m) && AllDigits(s) && AllDigits(y)
    ensures Scan(Pair("m", m) + Pair("s", s) + Pair("y", y)) == Printed("m", m) + Printed("s", s) + Printed("y", y)
  {
    ScanTwo(s, y);
    PairsHead(s, y);
    ScanOne('m', m, Pair("s", s) + Pair("y", y));
    ScanRegroup(Pair("m", m), Pair("s", s), Pair("y", y), Printed("m", m), Printed("s", s), Printed("y", y));
  }

  /** Scanning the printed first segment gives the printed pairs, in order. */
  lemma {:induction false} ScanEncoded(q: QueryEncoder)
    requires AllDigits(q.numID)
    ensures Scan(EncodePairs(q)) ==
      Printed("m", q.numID) + Printed("s", HealthCode(q.healthFilter)) + Printed("y", CheckCode(q.initialHealthCheck))
  {
    ScanThree(q.numID, HealthCode(q.healthFilter), CheckCode(q.initialHealthCheck));
  }

  lemma {:induction false} FindOnlyTLD(name: string, root: string, domains: seq<string>)
    requires OnlyTLD(name, root, domains) && HasSuffix(name, root)
    ensures FindTLD(name, domains) == root
  {
    if domains[0] != root {
      assert domains[0] in domains;
      FindOnlyTLD(name, root, domains[1..]);
    }
  }

  lemma SegmentsNoDot(q: QueryEncoder)
    requires AllDigits(q.numID) && AllDigits(q.groupID)
    ensures NoDot(FirstSegment(q)) && NoDot(GroupSegment(q))
  {
    DigitsNoDot(q.numID);
    DigitsNoDot(q.groupID);
    DigitsNoDot(HealthCode(q.healthFilter));
    DigitsNoDot(CheckCode(q.initialHealthCheck));
    assert NoDot(Pair("m", q.numID)) && NoDot(Pair("s", HealthCode(q.healthFilter)))
        && NoDot(Pair("y", CheckCode(q.initialHealthCheck)));
  }

  lemma QualifiedShape(first: string, group: string, root: string)
    requires root != "" && !IsFqdn(root)
    ensures Fqdn(first + "." + (group + "." + root)) == first + "." + (group + "." + (root + "."))
  {
    var name := first + "." + (group + "." + root);
    assert name[|name| - 1] == root[|root| - 1];
    assert (group + "." + root) + "." == group + "." + (root + ".");
    assert name + "." == first + "." + ((group + "." + root) + ".");
  }

  lemma {:induction false} AppendThree(m: string, s: string, y: string)
    ensures AppendPairs(map[], Printed("m", m) + Printed("s", s) + Printed("y", y)) ==
      Field("m", m) + Field("s", s) + Field("y", y)
  {
    var none: Criteria := map[];
    assert none + Field("m", m) == Field("m", m);
    AppendPrinted(map[], "m", m, Printed("s", s) + Printed("y", y));
    AppendPrinted(Field("m", m), "s", s, Printed("y", y));
    AppendPrinted(Field("m", m) + Field("s", s), "y", y, []);
    assert Printed("m", m) + (Printed("s", s) + Printed("y", y)) == Printed("m", m) + Printed("s", s) + Printed("y", y);
    assert Printed("y", y) + [] == Printed("y", y);
  }

  lemma {:induction false} AppendFields(q: QueryEncoder)
    requires Plain(q)
    ensures AppendPairs(map[], Scan(EncodePairs(q))) == Pairs(q)
  {
    ScanEncoded(q);
    AppendThree(q.numID, HealthCode(q.healthFilter), CheckCode(q.initialHealthCheck));
  }

  lemma AppendNew(c: Criteria, key: string, value: string)
    requires key !in c
    ensures Append(c, key, value) == c + Field(key, value)
  {
    if value == "" { assert c + Field(key, value) == c; } else { assert [] + [value] == [value]; }
  }

  lemma {:induction false} AppendPrinted(c: Criteria, key: string, number: string, rest: seq<(string, string)>)
    requires key !in c
    ensures AppendPairs(c, Printed(key, number) + rest) == AppendPairs(c + Field(key, number), rest)
  {
    if number == "" {
      assert Printed(key, number) + rest == rest && c + Field(key, number) == c;
    } else {
      var all := Printed(key, number) + rest;
      assert all[0] == (key, number) && all[1..] == rest;
      AppendNew(c, key, number);
    }
  }

  lemma {:induction false} QueryPairs(q: QueryEncoder)
    requires Plain(q)
    ensures ShortQueries(map[], FirstSegment(q)) == Some(Pairs(q))
  {
    var first := FirstSegment(q);
    assert first[..2] == "q-" && first[2..] == EncodePairs(q);
    AppendFields(q);
    ScanEncoded(q);
  }

  lemma {:induction false} GroupFields(c: Criteria, id: string, domain: string)
    requires AllDigits(id) && id != "" && "g" !in c && "domain" !in c
    ensures ShortFields(c, "q-g" + id, "", domain) == c + Field("g", id) + Field("domain", domain)
  {
    var group := "q-g" + id;
    assert group[..3] == "q-g" && group[3..] == id;
    AppendNew(c, "g", id);
    AppendNew(c + Field("g", id), "domain", domain);
  }

  lemma CriteriaOf(name: string, domains: seq<string>, form: QueryForm, c: Criteria)
    requires ParseQuery(name, domains) == Parsed(form) && ParseCriteria(form) == Some(c) && name != ""
    ensures NewCriteria(name, domains) == Some(c + Field("fqdn", name))
  {
    assert c["fqdn" := [name]] == c + Field("fqdn", name);
  }

  /** The short form a printed query parses as. */
  function Form(q: QueryEncoder): QueryForm {
    ShortForm(FirstSegment(q), GroupSegment(q), q.rootDomain + ".", "")
  }

  lemma {:induction false} FormParsed(q: QueryEncoder, domains: seq<string>)
    requires Plain(q) && FindTLD(Fqdn(Encode(q)), domains) == q.rootDomain + "."
    ensures ParseQuery(Fqdn(Encode(q)), domains) == Parsed(Form(q))
  {
    var first, group := FirstSegment(q), GroupSegment(q);
    SegmentsNoDot(q);
    QualifiedShape(first, group, q.rootDomain);
    assert first[..2] == "q-" && (group + "." + (q.rootDomain + "."))[0] == 'q';
    QueryMeaning.ParseShort(first, group, q.rootDomain + ".", domains);
  }

  lemma {:induction false} FormCriteria(q: QueryEncoder)
    requires Plain(q)
    ensures ParseCriteria(Form(q)) == Some(Pairs(q) + Field("g", q.groupID) + Field("domain", q.rootDomain + "."))
  {
    QueryPairs(q);
    GroupFields(Pairs(q), q.groupID, q.rootDomain + ".");
  }

  lemma {:induction false} ScanKeys(s: string)
    ensures forall i :: 0 <= i < |Scan(s)| ==> |Scan(s)[i].0| == 1
    decreases |s|
  {
    if |s| >= 2 {
      ScanKeys(s[if IsKey(s[0]) && IsDigit(s[1]) then DigitRun(s[1..]) + 1 else 1..]);
    }
  }

  lemma {:induction false} PairsKeepOthers(c: Criteria, pairs: seq<(string, string)>, key: string)
    requires key !in c && forall i :: 0 <= i < |pairs| ==> pairs[i].0 != key
    ensures key !in AppendPairs(c, pairs)
    decreases |pairs|
  {
    if pairs == [] {
    } else {
      PairsKeepOthers(Append(c, pairs[0].0, pairs[0].1), pairs[1..], key);
    }
  }

  /** The domain criterion is the domain the form was parsed with. */
  lemma {:induction false} DomainCriterion(form: QueryForm, c: Criteria)
    requires (form.ShortForm? || form.LongForm?) && form.domain != "" && ParseCriteria(form) == Some(c)
    ensures "domain" in c && c["domain"] == [form.domain]
  {
    var pairs := ShortQueries(map[], form.query).value;
    if IsQuery(form.query) {
      ScanKeys(form.query[2..]);
      PairsKeepOthers(map[], Scan(form.query[2..]), "domain");
    }
    assert "domain" !in pairs;
    assert [] + [form.domain] == [form.domain];
  }

  /** A name whose domain is found to be `tld` cannot have another domain among its criteria. */
  lemma {:induction false} CriteriaNameTLD(name: string, domains: seq<string>, c: Criteria)
    requires NewCriteria(name, domains) == Some(c) && "domain" in c
    ensures c["domain"] == [FindTLD(name, domains)]
  {
    var form := ParseQuery(name, domains).form;
    if form.ShortForm? || form.LongForm? {
      assert form.domain == FindTLD(name, domains);
      DomainCriterion(form, ParseCriteria(form).value);
    }
  }

  /**
   Printing and parsing: the qualified query of a plain encoder reads back as exactly the
   criteria the encoder stands for, if and only if the first listed domain that ends the name
   as a string is the encoder's root domain.
   */
  lemma {:induction false} RoundTripExact(q: QueryEncoder, domains: seq<string>)
    requires Plain(q)
    ensures NewCriteria(Fqdn(Encode(q)), domains) == Some(Meaning(q)) <==>
      FindTLD(Fqdn(Encode(q)), domains) == q.rootDomain + "."
  {
    var name, tld := Fqdn(Encode(q)), q.rootDomain + ".";
    if FindTLD(name, domains) == tld {
      FormParsed(q, domains);
      FormCriteria(q);
      CriteriaOf(name, domains, Form(q), Pairs(q) + Field("g", q.groupID) + Field("domain", tld));
    } else if NewCriteria(name, domains) == Some(Meaning(q)) {
      CriteriaNameTLD(name, domains, Meaning(q));
    }
  }

  /** In particular, in whatever order the domains are listed, when no other one is a suffix of the name. */
  /**
   Of two nested root domains, the outer one listed first is taken for the inner one's: the query
   asks for the records of the wrong domain.  Listed last, it does no harm.
   */
  lemma {:induction false} NestedDomainsMisread()
    ensures var q := QueryEncoder("", "", "7", "a.bosh", "");
      && Plain(q)
      && NewCriteria(Fqdn(Encode(q)), ["bosh.", "a.bosh."]) != Some(Meaning(q))
      && NewCriteria(Fqdn(Encode(q)), ["a.bosh.", "bosh."]) == Some(Meaning(q))
  {
    var q := QueryEncoder("", "", "7", "a.bosh", "");
    var outer, inner := ["bosh.", "a.bosh."], ["a.bosh.", "bosh."];
    NestedPlain();
    NestedSuffixes(q);
    assert q.rootDomain + "." == "a.bosh.";
    assert FindTLD(Fqdn(Encode(q)), outer) == "bosh." && FindTLD(Fqdn(Encode(q)), inner) == "a.bosh.";
    RoundTripExact(q, outer);
    RoundTripExact(q, inner);
  }

  lemma SuffixInSuffix(s: string, t: string, u: string)
    requires HasSuffix(s, t) && HasSuffix(t, u)
    ensures HasSuffix(s, u)
  {
    assert s[|s| - |u|..] == s[|s| - |t|..][|t| - |u|..];
  }

  lemma NestedSuffixes(q: QueryEncoder)
    requires q.rootDomain == "a.bosh"
    ensures HasSuffix(Fqdn(Encode(q)), "a.bosh.") && HasSuffix(Fqdn(Encode(q)), "bosh.")
  {
    assert "a.bosh"[5] == 'h';
    QualifiedShape(FirstSegment(q), GroupSegment(q), "a.bosh");
    NameEndsWithRoot(FirstSegment(q), GroupSegment(q), "a.bosh.");
    SuffixOf("a.", "bosh.");
    SuffixInSuffix(Fqdn(Encode(q)), "a.bosh.", "bosh.");
  }

  lemma NestedPlain()
    ensures Plain(QueryEncoder("", "", "7", "a.bosh", ""))
  {
    var root := "a.bosh";
    assert root[|root| - 1] == 'h';
    assert ToLower(root) == root;
  }

  lemma {:induction false} RoundTrip(q: QueryEncoder, domains: seq<string>)
    requires Plain(q) && OnlyTLD(Fqdn(Encode(q)), q.rootDomain + ".", domains)
    ensures NewCriteria(Fqdn(Encode(q)), domains) == Some(Meaning(q))
  {
    RoundTripExact(q, domains);
    var first, group := FirstSegment(q), GroupSegment(q);
    QualifiedShape(first, group, q.rootDomain);
    NameEndsWithRoot(first, group, q.rootDomain + ".");
    FindOnlyTLD(Fqdn(Encode(q)), q.rootDomain + ".", domains);
  }

  lemma NameEndsWithRoot(first: string, group: string, tld: string)
    ensures HasSuffix(first + "." + (group + "." + tld), tld)
  {
    assert first + "." + (group + "." + tld) == (first + "." + (group + ".")) + tld;
    SuffixOf(first + "." + (group + "."), tld);
  }

  // ----- What an encoded query selects -----

  /** The record belongs to the group, in the root domain. */
  predicate InGroup(groupID: string, rootDomain: string, r: Record) {
    r.domain == rootDomain + "." && groupID in r.groupIDs
  }

  /** The records a query is about: its group's, or the one with its number if it has one. */
  predicate Addressed(q: QueryEncoder, r: Record) {
    InGroup(q.groupID, q.rootDomain, r) && (q.numID != "" ==> r.numID == q.numID)
  }

  lemma AnySingle(field: string, value: string, r: Record)
    ensures AnyMatches(field, [value], r) <==> FieldMatches(field, value, r)
  {
    assert [value][0] == value;
  }

  lemma {:induction false} MeaningGroup(q: QueryEncoder)
    requires q.groupID != ""
    ensures var c := Meaning(q);
      "g" in c && c["g"] == [q.groupID] && "domain" in c && c["domain"] == [q.rootDomain + "."]
  {
  }

  lemma {:induction false} MeaningNumber(q: QueryEncoder)
    ensures var c := Meaning(q); ("m" in c <==> q.numID != "") && ("m" in c ==> c["m"] == [q.numID])
  {
  }

  lemma FieldKeys(key: string, value: string)
    ensures Field(key, value).Keys <= {key}
  {
  }

  /** A field that is neither group, domain nor name comes from the pairs. */
  lemma {:induction false} MeaningIsPairs(q: QueryEncoder, key: string)
    requires key !in {"g", "domain", "fqdn"}
    ensures QueryMeaning.Given(Meaning(q), key) == QueryMeaning.Given(Pairs(q), key)
    ensures key in Meaning(q) <==> key in Pairs(q)
  {
    FieldKeys("g", q.groupID);
    FieldKeys("domain", q.rootDomain + ".");
    FieldKeys("fqdn", Fqdn(Encode(q)));
  }

  lemma ThreeFields(m: string, s: string, y: string)
    requires s != ""
    ensures var c := Field("m", m) + Field("s", s) + Field("y", y);
      "s" in c && c["s"] == [s] && QueryMeaning.Given(c, "y") == if y == "" then [] else [y]
  {
  }

  lemma {:induction false} MeaningSteering(q: QueryEncoder)
    ensures "s" in Meaning(q) && Meaning(q)["s"] == [HealthCode(q.healthFilter)]
    ensures QueryMeaning.Given(Meaning(q), "y") ==
      if CheckCode(q.initialHealthCheck) == "" then [] else [CheckCode(q.initialHealthCheck)]
  {
    ThreeFields(q.numID, HealthCode(q.healthFilter), CheckCode(q.initialHealthCheck));
    MeaningIsPairs(q, "s");
    MeaningIsPairs(q, "y");
  }

  lemma {:induction false} MeaningOnly(q: QueryEncoder, f: string)
    requires f in Meaning(q) && !IsSteering(f)
    ensures f == "g" || f == "domain" || f == "m"
  {
    FieldKeys("m", q.numID);
    FieldKeys("s", HealthCode(q.healthFilter));
    FieldKeys("y", CheckCode(q.initialHealthCheck));
    FieldKeys("g", q.groupID);
    FieldKeys("domain", q.rootDomain + ".");
    FieldKeys("fqdn", Fqdn(Encode(q)));
    assert Pairs(q).Keys <= {"m"} + {"s"} + {"y"};
  }

  lemma FieldMeanings(q: QueryEncoder, r: Record)
    ensures FieldMatches("g", q.groupID, r) <==> q.groupID in r.groupIDs
    ensures FieldMatches("domain", q.rootDomain + ".", r) <==> r.domain == q.rootDomain + "."
    ensures FieldMatches("m", q.numID, r) <==> r.numID == q.numID
  {
  }

  /** The criteria of a query select the group's records, or the one with the number if there is one. */
  lemma {:induction false} MeaningSelects(q: QueryEncoder, r: Record)
    requires q.groupID != ""
    ensures Matches(Meaning(q), r) <==> Addressed(q, r)
  {
    MeaningGroup(q);
    MeaningNumber(q);
    forall f | f in Meaning(q) && !IsSteering(f) ensures f == "g" || f == "domain" || f == "m" { MeaningOnly(q, f); }
    FieldMeanings(q, r);
    AnySingle("g", q.groupID, r);
    AnySingle("domain", q.rootDomain + ".", r);
    AnySingle("m", q.numID, r);
    assert !IsSteering("g") && !IsSteering("domain") && !IsSteering("m");
  }

  /** Filtering by an encoded query keeps exactly those records, each as often as it occurs. */
  lemma {:induction false} EncodedSelects(q: QueryEncoder, domains: seq<string>, recs: seq<Record>, r: Record)
    requires Plain(q) && OnlyTLD(Fqdn(Encode(q)), q.rootDomain + ".", domains)
    ensures NewCriteria(Fqdn(Encode(q)), domains).Some?
    ensures var kept := Filtered(NewCriteria(Fqdn(Encode(q)), domains).value, recs);
      && (r in kept <==> r in recs && Addressed(q, r))
      && multiset(kept)[r] == if Addressed(q, r) then multiset(recs)[r] else 0
  {
    RoundTrip(q, domains);
    FilteredExact(Meaning(q), recs, r);
    MeaningSelects(q, r);
  }

  // ----- Expanding alias definitions -----

  /** strings.Replace(s, "_", id, 1). */
  function ReplaceUnderscore(s: string, id: string): string {
    if s == "" then "" else if s[0] == '_' then id + s[1..] else [s[0]] + ReplaceUnderscore(s[1..], id)
  }

  /** The first underscore, and no other, becomes the id. */
  lemma {:induction false} ReplacedFirst(pre: string, post: string, id: string)
    requires '_' !in pre
    ensures ReplaceUnderscore(pre + "_" + post, id) == pre + id + post
  {
    var s := pre + "_" + post;
    if pre == "" {
      assert s[1..] == post && s[0] == '_';
      assert pre + id + post == id + post;
    } else {
      assert s[1..] == pre[1..] + "_" + post && s[0] == pre[0];
      assert '_' !in pre[1..] && pre[0] in pre;
      ReplacedFirst(pre[1..], post, id);
      assert [pre[0]] + (pre[1..] + id + post) == pre + id + post;
    }
  }

  lemma {:induction false} ReplacedNothing(s: string, id: string)
    requires '_' !in s
    ensures ReplaceUnderscore(s, id) == s
  {
    if s == "" {
    } else {
      assert s[0] in s && '_' !in s[1..];
      ReplacedNothing(s[1..], id);
    }
  }

  type Entry = (string, QueryEncoder)

  /** A record's own name, and a query for its number. */
  function UUIDEntry(domain: string, d: AliasDefinition, r: Record): Entry {
    (ReplaceUnderscore(domain, r.id), NewQueryEncoder(d).(numID := r.numID))
  }

  /** What the loop appends, record by record. */
  function UUIDEntries(domain: string, d: AliasDefinition, rs: seq<Record>): seq<Entry> {
    if rs == [] then []
    else
      var front, last := UUIDEntries(domain, d, rs[..|rs| - 1]), rs[|rs| - 1];
      if InGroup(d.groupID, d.rootDomain, last) then front + [UUIDEntry(domain, d, last)] else front
  }

  function DefinitionEntries(domain: string, d: AliasDefinition, rs: seq<Record>): seq<Entry> {
    if d.placeholderType == "uuid" then UUIDEntries(domain, d, rs) else [(domain, NewQueryEncoder(d))]
  }

  function AllEntries(domain: string, ds: seq<AliasDefinition>, rs: seq<Record>): seq<Entry> {
    if ds == [] then []
    else AllEntries(domain, ds[..|ds| - 1], rs) + DefinitionEntries(domain, ds[|ds| - 1], rs)
  }

  /** The entries of one name, in order. */
  function QueriesOf(entries: seq<Entry>, name: string): seq<QueryEncoder> {
    if entries == [] then []
    else
      var front, last := QueriesOf(entries[..|entries| - 1], name), entries[|entries| - 1];
      if last.0 == name then front + [last.1] else front
  }

  /** `aliases` lists, for every name with an entry, exactly that name's entries in order. */
  ghost predicate Collects(aliases: map<string, seq<QueryEncoder>>, entries: seq<Entry>) {
    && (forall name :: name in aliases <==> QueriesOf(entries, name) != [])
    && (forall name :: name in aliases ==> aliases[name] == QueriesOf(entries, name))
  }

  class AliasEncoder {
    var aliases: map<string, seq<QueryEncoder>>

    constructor ()
      ensures aliases == map[]
    {
      aliases := map[];
    }

    method Append(domain: string, q: QueryEncoder, ghost entries: seq<Entry>)
      requires Collects(aliases, entries)
      modifies this
      ensures Collects(aliases, entries + [(domain, q)])
    {
      if domain !in aliases {
        aliases := aliases[domain := []];
      }
      aliases := aliases[domain := aliases[domain] + [q]];
      assert (entries + [(domain, q)])[..|entries|] == entries;
    }

    method AppendUUIDQueries(domain: string, d: AliasDefinition, rs: seq<Record>, ghost entries: seq<Entry>)
      requires Collects(aliases, entries)
      modifies this
      ensures Collects(aliases, entries + UUIDEntries(domain, d, rs))
    {
      assert entries + [] == entries;
      for i := 0 to |rs|
        invariant Collects(aliases, entries + UUIDEntries(domain, d, rs[..i]))
      {
        assert rs[..i + 1][..i] == rs[..i];
        var rec := rs[i];
        if rec.domain == d.rootDomain + "." {
          var found := false;
          for j := 0 to |rec.groupIDs|
            invariant found <==> d.groupID in rec.groupIDs[..j]
          {
            found := found || rec.groupIDs[j] == d.groupID;
          }
          assert rec.groupIDs[..|rec.groupIDs|] == rec.groupIDs;
          if found {
            var q := NewQueryEncoder(d).(numID := rec.numID);
            ghost var sofar, next := UUIDEntries(domain, d, rs[..i]), UUIDEntry(domain, d, rec);
            Append(ReplaceUnderscore(domain, rec.id), q, entries + sofar);
            assert entries + sofar + [next] == entries + (sofar + [next]);
          }
        }
      }
      assert rs[..|rs|] == rs;
    }

    /** The definitions of one alias, in order. */
    method AppendDefinitions(domain: string, ds: seq<AliasDefinition>, rs: seq<Record>, ghost entries: seq<Entry>)
      requires Collects(aliases, entries)
      modifies this
      ensures Collects(aliases, entries + AllEntries(domain, ds, rs))
    {
      assert entries + [] == entries;
      for i := 0 to |ds|
        invariant Collects(aliases, entries + AllEntries(domain, ds[..i], rs))
      {
        assert ds[..i + 1][..i] == ds[..i];
        ghost var sofar := AllEntries(domain, ds[..i], rs);
        if ds[i].placeholderType == "uuid" {
          AppendUUIDQueries(domain, ds[i], rs, entries + sofar);
        } else {
          Append(domain, NewQueryEncoder(ds[i]), entries + sofar);
        }
        assert entries + sofar + DefinitionEntries(domain, ds[i], rs) ==
               entries + (sofar + DefinitionEntries(domain, ds[i], rs));
      }
      assert ds[..|ds|] == ds;
    }

    method EncodeDomains() returns (ret: map<string, seq<string>>)
      ensures ret.Keys == aliases.Keys
      ensures forall name :: name in ret ==> ret[name] == EncodeAll(aliases[name])
    {
      ret := map[];
      var rest := aliases.Keys;
      while rest != {}
        invariant rest <= aliases.Keys && ret.Keys == aliases.Keys - rest
        invariant forall name :: name in ret ==> ret[name] == EncodeAll(aliases[name])
      {
        var domain :| domain in rest;
        rest := rest - {domain};
        var encoded := EncodeQueries(aliases[domain]);
        ret := ret[domain := encoded];
      }
    }

    /** Go's map order is arbitrary: `order` tells in which order the definitions were met. */
    method EncodeAliasesIntoQueries(rs: seq<Record>, definitions: map<string, seq<AliasDefinition>>)
      returns (ret: map<string, seq<string>>, ghost order: seq<string>)
      modifies this
      ensures Enumerates(order, definitions.Keys) && ret == EncodedFrom(EntriesInOrder(order, rs, definitions))
    {
      aliases := map[];
      order := [];
      var rest := definitions.Keys;
      while rest != {}
        invariant rest <= definitions.Keys && Enumerates(order, definitions.Keys - rest)
        invariant Collects(aliases, EntriesInOrder(order, rs, definitions))
      {
        var key :| key in rest;
        EnumeratesMore(order, definitions.Keys - rest, key);
        assert definitions.Keys - (rest - {key}) == definitions.Keys - rest + {key};
        rest := rest - {key};
        AppendDefinitions(Fqdn(key), definitions[key], rs, EntriesInOrder(order, rs, definitions));
        assert (order + [key])[..|order|] == order;
        order := order + [key];
      }
      assert definitions.Keys - rest == definitions.Keys;
      ret := EncodeDomains();
      CollectedNames(aliases, EntriesInOrder(order, rs, definitions));
    }
  }

  /** The names that have entries, each with its queries printed in order. */
  ghost function EncodedFrom(entries: seq<Entry>): map<string, seq<string>> {
    map name | name in EntryNames(entries) :: EncodeAll(QueriesOf(entries, name))
  }

  ghost function EntryNames(entries: seq<Entry>): set<string> {
    set e | e in entries :: e.0
  }

  lemma {:induction false} QueriesOfNames(entries: seq<Entry>, name: string)
    ensures QueriesOf(entries, name) != [] <==> name in EntryNames(entries)
  {
    if entries == [] {
    } else {
      var front, last := entries[..|entries| - 1], entries[|entries| - 1];
      QueriesOfNames(front, name);
      assert entries == front + [last];
      if name in EntryNames(front) { var e :| e in front && e.0 == name; assert e in entries; }
      assert last in entries;
    }
  }

  lemma {:induction false} CollectedNames(aliases: map<string, seq<QueryEncoder>>, entries: seq<Entry>)
    requires Collects(aliases, entries)
    ensures aliases.Keys == EntryNames(entries)
  {
    forall name ensures name in aliases <==> name in EntryNames(entries) { QueriesOfNames(entries, name); }
  }

  /** The inner loop of encodeDomains. */
  method EncodeQueries(qs: seq<QueryEncoder>) returns (encoded: seq<string>)
    ensures encoded == EncodeAll(qs)
  {
    encoded := [];
    ghost var all := EncodeAll(qs);
    for i := 0 to |qs|
      invariant encoded == all[..i]
    {
      PrefixNext(all, i);
      encoded := encoded + [Fqdn(Encode(qs[i]))];
    }
  }

  function EncodeAll(qs: seq<QueryEncoder>): (names: seq<string>)
    ensures |names| == |qs| && forall i :: 0 <= i < |qs| ==> names[i] == Fqdn(Encode(qs[i]))
  {
    seq(|qs|, i requires 0 <= i < |qs| => Fqdn(Encode(qs[i])))
  }

  ghost function EntriesInOrder(order: seq<string>, rs: seq<Record>,
                                definitions: map<string, seq<AliasDefinition>>): seq<Entry> {
    if order == [] then []
    else
      var last := order[|order| - 1];
      EntriesInOrder(order[..|order| - 1], rs, definitions)
      + if last in definitions then AllEntries(Fqdn(last), definitions[last], rs) else []
  }

  lemma {:induction false} InQueriesOf(entries: seq<Entry>, name: string, q: QueryEncoder)
    ensures q in QueriesOf(entries, name) <==> (name, q) in entries
  {
    if entries == [] {
    } else {
      var front, last := entries[..|entries| - 1], entries[|entries| - 1];
      assert entries == front + [last];
      InQueriesOf(front, name, q);
    }
  }

  lemma {:induction false} InAllEntries(domain: string, ds: seq<AliasDefinition>, rs: seq<Record>, e: Entry)
    ensures e in AllEntries(domain, ds, rs) <==> exists d :: d in ds && e in DefinitionEntries(domain, d, rs)
  {
    if ds == [] {
    } else {
      var front, last := ds[..|ds| - 1], ds[|ds| - 1];
      assert ds == front + [last];
      InAllEntries(domain, front, rs, e);
    }
  }

  lemma {:induction false} InEntriesInOrder(order: seq<string>, rs: seq<Record>,
                                            definitions: map<string, seq<AliasDefinition>>, e: Entry)
    ensures e in EntriesInOrder(order, rs, definitions) <==>
      exists key :: key in order && key in definitions && e in AllEntries(Fqdn(key), definitions[key], rs)
  {
    if order == [] {
    } else {
      var front, last := order[..|order| - 1], order[|order| - 1];
      assert order == front + [last];
      InEntriesInOrder(front, rs, definitions, e);
    }
  }

  /** Every alias name the encoder lists is a non-empty name. */
  lemma {:induction false} NamesNotEmpty(order: seq<string>, rs: seq<Record>,
                                         definitions: map<string, seq<AliasDefinition>>)
    ensures forall e :: e in EntriesInOrder(order, rs, definitions) ==> e.0 != ""
  {
    if order == [] {
    } else {
      NamesNotEmpty(order[..|order| - 1], rs, definitions);
      var last := order[|order| - 1];
      if last in definitions { AllEntryNames(Fqdn(last), definitions[last], rs); }
    }
  }

  lemma {:induction false} AllEntryNames(domain: string, ds: seq<AliasDefinition>, rs: seq<Record>)
    requires IsFqdn(domain)
    ensures forall e :: e in AllEntries(domain, ds, rs) ==> e.0 != ""
  {
    if ds == [] {
    } else {
      AllEntryNames(domain, ds[..|ds| - 1], rs);
      UUIDEntryOf(domain, ds[|ds| - 1], rs);
      forall r: Record ensures ReplaceUnderscore(domain, r.id) != "" { ReplacedNonEmpty(domain, r.id); }
    }
  }

  lemma {:induction false} ReplacedNonEmpty(domain: string, id: string)
    requires IsFqdn(domain)
    ensures ReplaceUnderscore(domain, id) != ""
  {
    if |domain| > 1 && domain[0] == '_' { assert id + domain[1..] != ""; }
  }

  // ----- What a uuid alias selects -----

  /** The records of a group, in their order. */
  function GroupMembers(d: AliasDefinition, rs: seq<Record>): seq<Record> {
    if rs == [] then []
    else
      var front, last := GroupMembers(d, rs[..|rs| - 1]), rs[|rs| - 1];
      if InGroup(d.groupID, d.rootDomain, last) then front + [last] else front
  }

  /** A group has each of its records as often as it occurs, and no other. */
  lemma {:induction false} GroupMembersExact(d: AliasDefinition, rs: seq<Record>, r: Record)
    ensures multiset(GroupMembers(d, rs))[r] == if InGroup(d.groupID, d.rootDomain, r) then multiset(rs)[r] else 0
    ensures r in GroupMembers(d, rs) <==> r in rs && InGroup(d.groupID, d.rootDomain, r)
  {
    if rs == [] {
    } else {
      var front, last := rs[..|rs| - 1], rs[|rs| - 1];
      assert rs == front + [last];
      GroupMembersExact(d, front, r);
    }
  }

  /** A uuid definition has exactly one entry per record of its group, in the records' order. */
  lemma {:induction false} UUIDEntriesExact(domain: string, d: AliasDefinition, rs: seq<Record>)
    ensures |UUIDEntries(domain, d, rs)| == |GroupMembers(d, rs)|
    ensures forall i :: 0 <= i < |GroupMembers(d, rs)| ==>
      UUIDEntries(domain, d, rs)[i] == UUIDEntry(domain, d, GroupMembers(d, rs)[i])
  {
    if rs == [] {
    } else {
      UUIDEntriesExact(domain, d, rs[..|rs| - 1]);
    }
  }

  /** An entry belongs to a record of the group, and each such record has its entry. */
  lemma {:induction false} UUIDEntryOf(domain: string, d: AliasDefinition, rs: seq<Record>)
    ensures forall e :: e in UUIDEntries(domain, d, rs) ==>
      exists r :: r in rs && InGroup(d.groupID, d.rootDomain, r) && e == UUIDEntry(domain, d, r)
    ensures forall r :: r in rs && InGroup(d.groupID, d.rootDomain, r) ==>
      UUIDEntry(domain, d, r) in UUIDEntries(domain, d, rs)
  {
    var entries, members := UUIDEntries(domain, d, rs), GroupMembers(d, rs);
    UUIDEntriesExact(domain, d, rs);
    forall e | e in entries
      ensures exists r :: r in rs && InGroup(d.groupID, d.rootDomain, r) && e == UUIDEntry(domain, d, r)
    {
      var i :| 0 <= i < |entries| && entries[i] == e;
      GroupMembersExact(d, rs, members[i]);
    }
    forall r | r in rs && InGroup(d.groupID, d.rootDomain, r) ensures UUIDEntry(domain, d, r) in entries {
      GroupMembersExact(d, rs, r);
      var i :| 0 <= i < |members| && members[i] == r;
      assert entries[i] == UUIDEntry(domain, d, r);
    }
  }

  /** Every name a uuid definition can expand to is plain, and only the root domain ends it. */
  ghost predicate PlainDefinition(d: AliasDefinition, rs: seq<Record>, domains: seq<string>) {
    forall r :: r in rs && InGroup(d.groupID, d.rootDomain, r) ==>
      && Plain(UUIDEntry("", d, r).1)
      && OnlyTLD(Fqdn(Encode(UUIDEntry("", d, r).1)), d.rootDomain + ".", domains)
  }

  /** The record is selected by one of the entries' queries. */
  ghost predicate SelectedBy(entries: seq<Entry>, domains: seq<string>, recs: seq<Record>, r: Record) {
    exists i :: && 0 <= i < |entries|
                && var c := NewCriteria(Fqdn(Encode(entries[i].1)), domains); c.Some? && r in Filtered(c.value, recs)
  }

  /** Taken together, the queries a uuid alias expands to select exactly the group's records. */
  lemma {:induction false} UUIDSelects(domain: string, d: AliasDefinition, rs: seq<Record>, domains: seq<string>,
                                       r: Record)
    requires PlainDefinition(d, rs, domains)
    ensures SelectedBy(UUIDEntries(domain, d, rs), domains, rs, r) <==> r in rs && InGroup(d.groupID, d.rootDomain, r)
  {
    var entries := UUIDEntries(domain, d, rs);
    UUIDEntryOf(domain, d, rs);
    if r in rs && InGroup(d.groupID, d.rootDomain, r) {
      var i :| 0 <= i < |entries| && entries[i] == UUIDEntry(domain, d, r);
      EncodedSelects(entries[i].1, domains, rs, r);
    }
    if SelectedBy(entries, domains, rs, r) {
      var i :| && 0 <= i < |entries|
               && var c := NewCriteria(Fqdn(Encode(entries[i].1)), domains); c.Some? && r in Filtered(c.value, rs);
      assert entries[i] in entries;
      EncodedSelects(entries[i].1, domains, rs, r);
    }
  }
}
