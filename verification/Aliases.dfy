/**
 Alias configurations.  A Config is a value, as in the source, but its two maps are references:
 copies of a Config share them, and Merge and ReducedForm write into them in place.
 net.ParseIP is outside the program: it is the parameter `isIP`.
 */
module Aliases {
  import opened Strings
  import opened AliasGraph
  import opened Enumeration

  class AliasMap {
    var entries: Graph

    constructor ()
      ensures entries == map[]
    {
      entries := map[];
    }
  }

  datatype Config = Config(aliases: AliasMap, underscoreAliases: AliasMap, aliasHosts: seq<string>)

  /** What the two maps of a config hold. */
  datatype AliasEntries = AliasEntries(aliases: Graph, underscoreAliases: Graph) {

    /** Every name defined is lower-case and fully qualified. */
    ghost predicate Canonical() {
      && (forall k :: k in aliases ==> Strings.Canonical(k))
      && (forall k :: k in underscoreAliases ==> Strings.Canonical(k))
    }

    /** These entries, extended by `other` where they define nothing. */
    function ExtendedBy(other: AliasEntries): AliasEntries {
      AliasEntries(Preferring(aliases, other.aliases), Preferring(underscoreAliases, other.underscoreAliases))
    }
  }

  ghost function Entries(c: Config): AliasEntries
    reads c.aliases, c.underscoreAliases
  {
    AliasEntries(c.aliases.entries, c.underscoreAliases.entries)
  }

  /** The two maps of a config. */
  function Maps(c: Config): set<AliasMap> { {c.aliases, c.underscoreAliases} }

  /** The two maps are apart, and every name they define is lower-case and fully qualified. */
  ghost predicate Stored(c: Config)
    reads c.aliases, c.underscoreAliases
  {
    c.aliases != c.underscoreAliases && Entries(c).Canonical()
  }

  method NewConfig() returns (c: Config)
    ensures Stored(c) && fresh(c.aliases) && fresh(c.underscoreAliases)
    ensures Entries(c) == AliasEntries(map[], map[]) && c.aliasHosts == []
  {
    var a := new AliasMap();
    var u := new AliasMap();
    c := Config(a, u, []);
  }

  // ----- Loading -----

  /** How one target is stored: a leading "*." becomes a query for everything, an IP stays as it is. */
  function Qualified(isIP: string -> bool, raw: string): string {
    var domain := ToLower(raw);
    if HasPrefix(domain, "*.") then Fqdn("q-s0" + Fqdn(domain)[1..])
    else if isIP(domain) then domain
    else Fqdn(domain)
  }

  function QualifiedAll(isIP: string -> bool, raws: seq<string>): (r: seq<string>)
    ensures |r| == |raws| && forall i :: 0 <= i < |raws| ==> r[i] == Qualified(isIP, raws[i])
  {
    seq(|raws|, i requires 0 <= i < |raws| => Qualified(isIP, raws[i]))
  }

  /** Which of the two maps an alias goes to (true for "_." aliases), and its key there. */
  function AliasKey(raw: string): (r: (bool, string))
    ensures Canonical(r.1)
  {
    var alias := ToLower(raw);
    LowerFqdn(raw);
    LowerFqdn(raw[if |raw| >= 2 then 2 else 0..]);
    if HasPrefix(alias, "_.") then
      assert alias[2..] == ToLower(raw[2..]);
      (true, Fqdn(alias[2..]))
    else (false, Fqdn(alias))
  }

  /** An alias "_.rest" goes to the underscore side under "rest", any other to the plain side under its name. */
  lemma AliasKeyExact(raw: string, rest: string)
    ensures AliasKey("_." + rest) == (true, Fqdn(ToLower(rest)))
    ensures !HasPrefix(raw, "_.") ==> AliasKey(raw) == (false, Fqdn(ToLower(raw)))
  {
    LowerConcat("_.", rest);
    assert ToLower("_.") == "_.";
    assert (ToLower("_.") + ToLower(rest))[2..] == ToLower(rest);
    LowerPrefix(raw, "_.");
  }

  /** A target "*.rest" becomes a query for all of "rest"; an address stays as it is; any other becomes a full name. */
  lemma {:induction false} QualifiedExact(isIP: string -> bool, raw: string, rest: string)
    ensures Qualified(isIP, "*." + rest) == Fqdn("q-s0." + ToLower(rest))
    ensures !HasPrefix(raw, "*.") && isIP(ToLower(raw)) ==> Qualified(isIP, raw) == ToLower(raw)
    ensures !HasPrefix(raw, "*.") && !isIP(ToLower(raw)) ==> Qualified(isIP, raw) == Fqdn(ToLower(raw))
  {
    LowerConcat("*.", rest);
    assert ToLower("*.") == "*.";
    StarQualified(ToLower(rest));
    LowerPrefix(raw, "*.");
  }

  lemma StarQualified(rest: string)
    ensures HasPrefix("*." + rest, "*.") && Fqdn("q-s0" + Fqdn("*." + rest)[1..]) == Fqdn("q-s0." + rest)
  {
    var full := Fqdn("*." + rest);
    assert ("*." + rest)[..2] == "*.";
    if IsFqdn("*." + rest) {
      assert full[1..] == "." + rest;
      assert "q-s0" + ("." + rest) == "q-s0." + rest;
    } else {
      assert full[1..] == "." + rest + ".";
      assert "q-s0" + ("." + rest + ".") == ("q-s0." + rest) + ".";
    }
  }

  /** The entries after one alias has been set. */
  function Set(e: AliasEntries, isIP: string -> bool, raw: string, domains: seq<string>): (r: AliasEntries)
    ensures e.Canonical() ==> r.Canonical()
  {
    var (underscore, key) := AliasKey(raw);
    var qualified := QualifiedAll(isIP, domains);
    if underscore then e.(underscoreAliases := e.underscoreAliases[key := qualified])
    else e.(aliases := e.aliases[key := qualified])
  }

  /** The loop over the targets in setAlias. */
  method QualifyAll(domains: seq<string>, isIP: string -> bool) returns (qualified: seq<string>)
    ensures qualified == QualifiedAll(isIP, domains)
  {
    qualified := [];
    ghost var all := QualifiedAll(isIP, domains);
    for i := 0 to |domains|
      invariant qualified == all[..i]
    {
      PrefixNext(all, i);
      qualified := qualified + [Qualified(isIP, domains[i])];
    }
    assert all[..|all|] == all;
  }

  method SetAlias(c: Config, raw: string, domains: seq<string>, isIP: string -> bool) returns (ok: bool)
    requires Stored(c)
    modifies c.aliases, c.underscoreAliases
    ensures Stored(c) && (ok <==> raw != "")
    ensures Entries(c) == if ok then Set(old(Entries(c)), isIP, raw, domains) else old(Entries(c))
  {
    if raw == "" {
      return false;
    }
    var qualified := QualifyAll(domains, isIP);
    var (underscore, key) := AliasKey(raw);
    if underscore {
      c.underscoreAliases.entries := c.underscoreAliases.entries[key := qualified];
    } else {
      c.aliases.entries := c.aliases.entries[key := qualified];
    }
    assert Entries(c) == Set(old(Entries(c)), isIP, raw, domains);
    return true;
  }

  /** The entries after the loaded aliases were set in a given order. */
  ghost function LoadInOrder(load: Graph, order: seq<string>, isIP: string -> bool): (e: AliasEntries)
    ensures e.Canonical()
  {
    if order == [] then AliasEntries(map[], map[])
    else
      var front, last := LoadInOrder(load, order[..|order| - 1], isIP), order[|order| - 1];
      if last in load then Set(front, isIP, last, load[last]) else front
  }

  /**
   Go's map order is arbitrary, so the loop takes the aliases in any order; two spellings of one
   alias overwrite each other, and `order` tells which one stays.
   */
  method NewConfigFromMap(load: Graph, isIP: string -> bool) returns (c: Config, ok: bool, ghost order: seq<string>)
    ensures Stored(c) && fresh(c.aliases) && fresh(c.underscoreAliases)
    ensures ok <==> "" !in load
    ensures ok ==> Enumerates(order, load.Keys) && Entries(c) == LoadInOrder(load, order, isIP)
    ensures ok ==> IsHostList(c.aliasHosts, c.aliases.entries.Keys + c.underscoreAliases.entries.Keys)
  {
    c := NewConfig();
    order := [];
    var rest := load.Keys;
    while rest != {}
      invariant rest <= load.Keys && "" !in load.Keys - rest && Enumerates(order, load.Keys - rest)
      invariant Stored(c) && fresh(c.aliases) && fresh(c.underscoreAliases)
      invariant Entries(c) == LoadInOrder(load, order, isIP)
    {
      var raw :| raw in rest;
      EnumeratesMore(order, load.Keys - rest, raw);
      assert load.Keys - (rest - {raw}) == load.Keys - rest + {raw};
      rest := rest - {raw};
      ok := SetAlias(c, raw, load[raw], isIP);
      if !ok {
        return;
      }
      assert (order + [raw])[..|order|] == order;
      order := order + [raw];
    }
    assert load.Keys - rest == load.Keys;
    var hosts := GetAliasHosts(c);
    c := c.(aliasHosts := hosts);
    ok := true;
  }

  ghost predicate LoadedFrom(load: Graph, isIP: string -> bool, underscore: bool, k: string, targets: seq<string>,
                             raw: string) {
    raw in load && AliasKey(raw) == (underscore, k) && targets == QualifiedAll(isIP, load[raw])
  }

  ghost function Side(e: AliasEntries, underscore: bool): Graph {
    if underscore then e.underscoreAliases else e.aliases
  }

  /** Every entry comes from a loaded alias with that key, whatever the order. */
  lemma {:induction false} EntryLoaded(load: Graph, order: seq<string>, isIP: string -> bool, underscore: bool,
                                       k: string)
    requires k in Side(LoadInOrder(load, order, isIP), underscore)
    ensures var targets := Side(LoadInOrder(load, order, isIP), underscore)[k];
      exists raw :: LoadedFrom(load, isIP, underscore, k, targets, raw)
  {
    var last := order[|order| - 1];
    if last in load && AliasKey(last) == (underscore, k) {
      assert LoadedFrom(load, isIP, underscore, k, Side(LoadInOrder(load, order, isIP), underscore)[k], last);
    } else {
      EntryLoaded(load, order[..|order| - 1], isIP, underscore, k);
    }
  }

  /** Every loaded alias has an entry under its key, whatever the order. */
  lemma {:induction false} LoadedHasEntry(load: Graph, order: seq<string>, isIP: string -> bool, raw: string)
    requires raw in load && raw in order
    ensures AliasKey(raw).1 in Side(LoadInOrder(load, order, isIP), AliasKey(raw).0)
  {
    if order[|order| - 1] != raw {
      LoadedHasEntry(load, order[..|order| - 1], isIP, raw);
    }
  }

  // ----- Lookup -----

  /** A "_." target takes the first label of the name that was asked for. */
  function Substituted(first: string, domain: string): string {
    if HasPrefix(domain, "_.") then first + "." + domain[2..] else domain
  }

  /** Resolutions: the alias itself, or the "_." alias of what follows the first label. */
  function Resolutions(aliases: Graph, underscoreAliases: Graph, name: string): Option<seq<string>> {
    if name in aliases then Some(aliases[name])
    else match Cut(name)
      case None => None
      case Some((first, rest)) =>
        if rest in underscoreAliases then
          var domains := underscoreAliases[rest];
          Some(seq(|domains|, i requires 0 <= i < |domains| => Substituted(first, domains[i])))
        else None
  }

  /** A "_." target takes the place of its underscore from the name asked for; any other target stays. */
  lemma {:induction false} UnderscoreTargets(aliases: Graph, underscoreAliases: Graph, first: string, rest: string,
                                             i: nat)
    requires NoDot(first) && first + "." + rest !in aliases
    requires rest in underscoreAliases && i < |underscoreAliases[rest]|
    ensures var names := Resolutions(aliases, underscoreAliases, first + "." + rest);
      && names.Some? && |names.value| == |underscoreAliases[rest]|
      && (forall t :: underscoreAliases[rest][i] == "_." + t ==> names.value[i] == first + "." + t)
      && (!HasPrefix(underscoreAliases[rest][i], "_.") ==> names.value[i] == underscoreAliases[rest][i])
  {
    CutAt(first, rest);
    var target := underscoreAliases[rest][i];
    forall t | target == "_." + t ensures Substituted(first, target) == first + "." + t {
      assert target[..2] == "_." && target[2..] == t;
    }
  }

  // ----- Merging -----

  /** All of `mine`, and of `theirs` what `mine` does not define. */
  function Preferring(mine: Graph, theirs: Graph): (r: Graph)
    ensures r.Keys == mine.Keys + theirs.Keys
    ensures forall k :: k in r ==> r[k] == if k in mine then mine[k] else theirs[k]
  {
    theirs + mine
  }

  /** What the base defines stays as it is, and what it does not define comes from the other side. */
  lemma BaseWins(base: AliasEntries, other: AliasEntries, name: string)
    ensures var e := base.ExtendedBy(other);
      && (name in base.aliases ==> Resolutions(e.aliases, e.underscoreAliases, name) == Some(base.aliases[name]))
      && (name !in base.aliases && name in other.aliases ==>
            Resolutions(e.aliases, e.underscoreAliases, name) == Some(other.aliases[name]))
  {
  }

  lemma NothingExtended(e: AliasEntries)
    ensures AliasEntries(map[], map[]).ExtendedBy(e) == e
  {
  }

  method MergeMap(mine: AliasMap, theirs: AliasMap)
    modifies mine
    ensures mine.entries == Preferring(old(mine.entries), old(theirs.entries))
  {
    var source := theirs.entries;
    var rest := source.Keys;
    while rest != {}
      invariant rest <= source.Keys
      invariant mine.entries.Keys == old(mine.entries).Keys + (source.Keys - rest)
      invariant forall k :: k in mine.entries ==>
        mine.entries[k] == if k in old(mine.entries) then old(mine.entries)[k] else source[k]
    {
      var alias :| alias in rest;
      rest := rest - {alias};
      if alias !in mine.entries {
        mine.entries := mine.entries[alias := source[alias]];
      }
    }
  }

  /** Writes into the receiver's maps and answers a Config that shares them. */
  method Merge(c: Config, other: Config) returns (r: Config)
    requires Stored(c) && Stored(other)
    requires c.aliases != other.underscoreAliases && c.underscoreAliases != other.aliases
    modifies c.aliases, c.underscoreAliases
    ensures r.aliases == c.aliases && r.underscoreAliases == c.underscoreAliases && Stored(r)
    ensures Entries(r) == old(Entries(c)).ExtendedBy(old(Entries(other)))
    ensures IsHostList(r.aliasHosts, r.aliases.entries.Keys + r.underscoreAliases.entries.Keys)
  {
    MergeMap(c.aliases, other.aliases);
    MergeMap(c.underscoreAliases, other.underscoreAliases);
    var hosts := GetAliasHosts(c);
    r := c.(aliasHosts := hosts);
  }

  // ----- Alias hosts -----

  ghost predicate HasParent(hosts: set<string>, h: string) {
    exists p :: p in hosts && p != h && IsSubDomain(p, h)
  }

  /** `list` holds, without repetition, the hosts that lie below no other host. */
  ghost predicate IsHostList(list: seq<string>, hosts: set<string>) {
    && Distinct(list)
    && (forall h :: h in list <==> h in hosts && !HasParent(hosts, h))
  }

  /** Whether some other host is a parent of `host`. */
  method FindParent(hosts: set<string>, host: string) returns (found: bool)
    ensures found <==> HasParent(hosts, host)
  {
    var rest := hosts;
    while rest != {}
      invariant rest <= hosts
      invariant forall p :: p in hosts - rest && p != host ==> !IsSubDomain(p, host)
    {
      var p :| p in rest;
      rest := rest - {p};
      if p != host && IsSubDomain(p, host) {
        return true;
      }
    }
    return false;
  }

  /** sort.Strings at the end only permutes the list; the order is left open here. */
  method GetAliasHosts(c: Config) returns (list: seq<string>)
    requires Stored(c)
    ensures IsHostList(list, c.aliases.entries.Keys + c.underscoreAliases.entries.Keys)
  {
    var hosts := c.aliases.entries.Keys + c.underscoreAliases.entries.Keys;
    var rest := hosts;
    list := [];
    while rest != {}
      invariant rest <= hosts
      invariant Distinct(list)
      invariant forall h :: h in list <==> h in hosts - rest && !HasParent(hosts, h)
    {
      var host :| host in rest;
      rest := rest - {host};
      var found := FindParent(hosts, host);
      if !found {
        list := list + [Fqdn(host)];
      }
    }
  }

  /** No listed host lies below another one. */
  lemma HostsAntichain(list: seq<string>, hosts: set<string>)
    requires IsHostList(list, hosts)
    ensures forall g, h :: g in list && h in list && g != h ==> !IsSubDomain(g, h)
  {
  }

  /** Every host lies at or below a listed one. */
  lemma {:induction false} HostsCover(list: seq<string>, hosts: set<string>, h: string) returns (top: string)
    requires IsHostList(list, hosts) && h in hosts && forall k :: k in hosts ==> Canonical(k)
    ensures top in list && IsSubDomain(top, h)
    decreases |Labels(h)|
  {
    if h in list {
      top := h;
    } else {
      var p :| p in hosts && p != h && IsSubDomain(p, h);
      StrictParent(p, h);
      top := HostsCover(list, hosts, p);
      SubDomainTransitive(top, p, h);
    }
  }

  /** A name that resolves lies at or below a listed alias host. */
  lemma ResolvedBelowHost(aliases: Graph, underscoreAliases: Graph, list: seq<string>, name: string)
    requires IsHostList(list, aliases.Keys + underscoreAliases.Keys)
    requires forall k :: k in aliases.Keys + underscoreAliases.Keys ==> Canonical(k)
    requires Resolutions(aliases, underscoreAliases, name).Some?
    ensures exists top :: top in list && IsSubDomain(top, name)
  {
    var hosts := aliases.Keys + underscoreAliases.Keys;
    if name in aliases {
      var top := HostsCover(list, hosts, name);
    } else {
      var (first, rest) := Cut(name).value;
      var top := HostsCover(list, hosts, rest);
      BelowItsTail(first, rest);
      SubDomainTransitive(top, rest, name);
    }
  }

  // ----- Reducing -----

  /** `h` maps the alias `a` to the ordered leaves of its unfolding in `g`. */
  ghost predicate Expands(g: Graph, h: Graph, a: string) {
    a in h && exists t: Tree :: t.name == a && Unfolds(g, t) && h[a] == Leaves(t)
  }

  ghost predicate IsExpansion(g: Graph, h: Graph) {
    h.Keys == g.Keys && forall a :: a in g ==> Expands(g, h, a)
  }

  /** The aliases in `done` are expanded, the others are as they were. */
  ghost predicate PartlyExpanded(g: Graph, h: Graph, done: seq<string>) {
    h.Keys == g.Keys && forall a :: a in g ==> if a in done then Expands(g, h, a) else h[a] == g[a]
  }

  datatype ReduceResult = Success(config: Config) | Failure(alias: string)

  ghost predicate IsOrder(order: seq<string>, g: Graph) {
    forall a :: a in order <==> a in g
  }

  /** The first `i` aliases of the order reach no cycle and have been expanded. */
  ghost predicate ExpandedUpTo(g: Graph, h: Graph, order: seq<string>, i: nat) {
    && i <= |order| && PartlyExpanded(g, h, order[..i])
    && forall j :: 0 <= j < i ==> !ReachesCycle(g, order[j])
  }

  lemma PartlyIsRewritten(g: Graph, h: Graph, done: seq<string>)
    requires PartlyExpanded(g, h, done)
    ensures Rewritten(g, h)
  {
    forall b | b in g ensures h[b] == g[b] || exists t: Tree :: t.name == b && Unfolds(g, t) && h[b] == Leaves(t) {
      assert if b in done then Expands(g, h, b) else h[b] == g[b];
    }
  }

  /** One turn of ReducedForm's loop. */
  lemma {:induction false} ExpandOne(g: Graph, h: Graph, order: seq<string>, i: nat)
    requires IsOrder(order, g) && i < |order| && ExpandedUpTo(g, h, order, i)
    ensures Reduce(h, order[i], 0).RecursionDetected? ==> ReachesCycle(g, order[i]) && HasCycle(g)
    ensures Reduce(h, order[i], 0).Expanded? ==>
      ExpandedUpTo(g, h[order[i] := Reduce(h, order[i], 0).names], order, i + 1)
  {
    var a := order[i];
    PartlyIsRewritten(g, h, order[..i]);
    ReduceExact(g, h, a);
    CycleSomewhere(g);
    if Reduce(h, a, 0).Expanded? {
      var h' := h[a := Reduce(h, a, 0).names];
      assert order[..i + 1] == order[..i] + [a];
      forall b | b in g ensures if b in order[..i + 1] then Expands(g, h', b) else h'[b] == g[b] {
        if b == a {
          var t: Tree :| t.name == a && Unfolds(g, t);
          assert h'[a] == Leaves(t);
        } else if b in order[..i] {
          assert Expands(g, h, b);
        }
      }
    }
  }

  lemma {:induction false} AllExpanded(g: Graph, h: Graph, order: seq<string>)
    requires IsOrder(order, g) && ExpandedUpTo(g, h, order, |order|)
    ensures IsExpansion(g, h) && !HasCycle(g)
  {
    assert order[..|order|] == order;
    CycleSomewhere(g);
  }

  /**
   `order` lists the aliases: the source sorts them, and the result holds for every order.  On
   success every alias maps to the leaves of its unfolding in the original graph; the failure
   names the first alias from which a cycle can be reached, after the earlier ones were expanded.
   */
  method ReducedForm(c: Config, order: seq<string>) returns (r: ReduceResult, ghost i: nat)
    requires IsOrder(order, c.aliases.entries)
    modifies c.aliases
    ensures r.Failure? <==> HasCycle(old(c.aliases.entries))
    ensures r.Success? ==> r.config == c && IsExpansion(old(c.aliases.entries), c.aliases.entries)
    ensures r.Failure? ==> ExpandedUpTo(old(c.aliases.entries), c.aliases.entries, order, i)
    ensures r.Failure? ==> i < |order| && r.alias == order[i] && ReachesCycle(old(c.aliases.entries), r.alias)
  {
    ghost var g := c.aliases.entries;
    i := 0;
    for k := 0 to |order|
      invariant i == k && ExpandedUpTo(g, c.aliases.entries, order, k)
    {
      ExpandOne(g, c.aliases.entries, order, k);
      var resolved := Reduce(c.aliases.entries, order[k], 0);
      if resolved.RecursionDetected? {
        return Failure(order[k]), k;
      }
      c.aliases.entries := c.aliases.entries[order[k] := resolved.names];
      i := k + 1;
    }
    AllExpanded(g, c.aliases.entries, order);
    return Success(c), i;
  }

  ghost predicate NoTargetIsAlias(g: Graph) {
    forall a, d :: a in g && d in g[a] ==> d !in g
  }

  method IsReduced(c: Config) returns (reduced: bool)
    ensures reduced <==> NoTargetIsAlias(c.aliases.entries)
  {
    var g := c.aliases.entries;
    var rest := g.Keys;
    while rest != {}
      invariant rest <= g.Keys
      invariant forall a, d :: a in g.Keys - rest && d in g[a] ==> d !in g
    {
      var a :| a in rest;
      rest := rest - {a};
      for i := 0 to |g[a]|
        invariant forall j :: 0 <= j < i ==> g[a][j] !in g
      {
        if g[a][i] in g {
          return false;
        }
      }
    }
    return true;
  }

  /** A fully expanded graph is reduced: it passes IsReduced. */
  lemma {:induction false} ExpansionReduced(g: Graph, h: Graph)
    requires IsExpansion(g, h)
    ensures NoTargetIsAlias(h)
  {
    forall a, d | a in h && d in h[a] ensures d !in h {
      var t: Tree :| t.name == a && Unfolds(g, t) && h[a] == Leaves(t);
      LeavesAreNoAliases(g, t);
    }
  }

  /** Expansions are unique, so the processing order does not matter. */
  lemma {:induction false} ExpansionUnique(g: Graph, h: Graph, k: Graph)
    requires IsExpansion(g, h) && IsExpansion(g, k)
    ensures h == k
  {
    forall a | a in g ensures h[a] == k[a] {
      var t: Tree :| t.name == a && Unfolds(g, t) && h[a] == Leaves(t);
      var u: Tree :| u.name == a && Unfolds(g, u) && k[a] == Leaves(u);
      UnfoldingUnique(g, t, u);
    }
  }

  /** Reducing again succeeds and changes nothing. */
  lemma {:induction false} ReduceAgain(g: Graph, h: Graph)
    requires IsExpansion(g, h)
    ensures !HasCycle(h) && IsExpansion(h, h) && forall k :: IsExpansion(h, k) ==> k == h
  {
    ExpansionReduced(g, h);
    forall a | a in h ensures Expands(h, h, a) && !ReachesCycle(h, a) {
      var t := Node(a, seq(|h[a]|, i requires 0 <= i < |h[a]| => Leaf(h[a][i])));
      assert Unfolds(h, t);
      LeavesOfLeaves(t.children, h[a]);
      TreeIffNoCycle(h, a);
    }
    CycleSomewhere(h);
    forall k | IsExpansion(h, k) ensures k == h { ExpansionUnique(h, h, k); }
  }

  lemma {:induction false} LeavesOfLeaves(ts: seq<Tree>, names: seq<string>)
    requires |ts| == |names| && forall i :: 0 <= i < |ts| ==> ts[i] == Leaf(names[i])
    ensures AllLeaves(ts) == names
  {
    if ts == [] {
    } else {
      LeavesOfLeaves(ts[1..], names[1..]);
      assert [names[0]] + names[1..] == names;
    }
  }
}
