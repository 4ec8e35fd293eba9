/** The record set and the mux together: what is served is what is registered. */
module Serving {
  import opened Strings
  import opened Enumeration
  import Aliases
  import RecordSet
  import Registrar

  /** The registrar holds the domains that the record set provides. */
  ghost predicate Registered(records: RecordSet.RecordSet, registrar: Registrar.HandlerRegistrar)
    reads records, registrar
  {
    registrar.Valid() && registrar.domains == Members(records.Domains())
  }

  /** Some pattern that the mux handles covers the name. */
  ghost predicate Routed(registrar: Registrar.HandlerRegistrar, name: string)
    reads registrar
  {
    exists pattern :: pattern in Registrar.Handled(registrar.calls) && IsSubDomain(pattern, name)
  }

  /** Every name that an alias of the set resolves lies at or below a pattern the mux handles. */
  lemma AliasRouted(records: RecordSet.RecordSet, registrar: Registrar.HandlerRegistrar, name: string)
    requires records.Valid() && Registered(records, registrar)
    requires Aliases.Resolutions(records.merged.aliases, records.merged.underscoreAliases, name).Some?
    ensures Routed(registrar, name)
  {
    var e, list := records.merged, records.mergedAliasList.aliasHosts;
    Aliases.ResolvedBelowHost(e.aliases, e.underscoreAliases, list, name);
    var top :| top in list && IsSubDomain(top, name);
    assert top in records.Domains();
  }

  /** And so does every name below the domain of a record. */
  lemma RecordRouted(records: RecordSet.RecordSet, registrar: Registrar.HandlerRegistrar, i: nat, name: string)
    requires records.Valid() && Registered(records, registrar)
    requires i < |records.records| && IsSubDomain(records.records[i].domain, name)
    ensures Routed(registrar, name)
  {
    assert records.records[i].domain in records.Domains();
  }
}
