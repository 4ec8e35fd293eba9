/** Keeping the patterns registered with the DNS mux equal to the domains served. */
module Registrar {
  import opened Enumeration

  datatype MuxCall = Handle(pattern: string) | HandleRemove(pattern: string)

  /** The patterns handled and not removed since. */
  function Handled(calls: seq<MuxCall>): set<string> {
    if calls == [] then {}
    else After(Handled(calls[..|calls| - 1]), calls[|calls| - 1])
  }

  function After(handled: set<string>, call: MuxCall): set<string> {
    match call
    case Handle(pattern) => handled + {pattern}
    case HandleRemove(pattern) => handled - {pattern}
  }

  lemma HandledNext(calls: seq<MuxCall>, call: MuxCall)
    ensures Handled(calls + [call]) == After(Handled(calls), call)
  {
    assert (calls + [call])[..|calls|] == calls;
  }

  class HandlerRegistrar {
    var domains: set<string>
    var calls: seq<MuxCall>   // the calls made to the mux

    ghost predicate Valid()
      reads this
    {
      Handled(calls) == domains
    }

    constructor ()
      ensures Valid() && domains == {} && calls == []
    {
      domains, calls := {}, [];
    }

    /**
     One update: afterwards the domains, and the patterns left in the mux, are exactly the list.
     A pattern is handled only if it was not, and removed only if it was, each once.
     */
    method UpdateDomainRegistrations(list: seq<string>) returns (ghost added: seq<string>, ghost removed: seq<string>)
      requires Valid()
      modifies this
      ensures Valid() && domains == Members(list)
      ensures |calls| == |old(calls)| + |added| + |removed| && calls[..|old(calls)|] == old(calls)
      ensures forall i :: 0 <= i < |added| ==> calls[|old(calls)| + i] == Handle(added[i])
      ensures forall i :: 0 <= i < |removed| ==> calls[|old(calls)| + |added| + i] == HandleRemove(removed[i])
      ensures Enumerates(added, Members(list) - old(domains)) && Enumerates(removed, old(domains) - Members(list))
    {
      var currentDomains := domains;
      added, removed := [], [];
      for i := 0 to |list|
        invariant currentDomains == old(domains) - Members(list[..i])
        invariant domains == old(domains) + Members(list[..i]) && Handled(calls) == domains
        invariant Enumerates(added, Members(list[..i]) - old(domains))
        invariant |calls| == |old(calls)| + |added| && calls[..|old(calls)|] == old(calls)
        invariant forall k :: 0 <= k < |added| ==> calls[|old(calls)| + k] == Handle(added[k])
      {
        var domain := list[i];
        assert Members(list[..i + 1]) == Members(list[..i]) + {domain};
        currentDomains := currentDomains - {domain};
        if domain !in domains {
          EnumeratesMore(added, Members(list[..i]) - old(domains), domain);
          assert Members(list[..i + 1]) - old(domains) == Members(list[..i]) - old(domains) + {domain};
          added := added + [domain];
          domains := domains + {domain};
          HandledNext(calls, Handle(domain));
          calls := calls + [Handle(domain)];
        } else {
          assert Members(list[..i + 1]) - old(domains) == Members(list[..i]) - old(domains);
        }
      }
      assert list[..|list|] == list;
      removed := RemoveAll(currentDomains);
    }

    /** The second loop: unregister what is no longer listed. */
    method RemoveAll(gone: set<string>) returns (ghost removed: seq<string>)
      requires Valid() && gone <= domains
      modifies this
      ensures Valid() && domains == old(domains) - gone && Enumerates(removed, gone)
      ensures |calls| == |old(calls)| + |removed| && calls[..|old(calls)|] == old(calls)
      ensures forall k :: 0 <= k < |removed| ==> calls[|old(calls)| + k] == HandleRemove(removed[k])
    {
      var rest := gone;
      removed := [];
      while rest != {}
        invariant rest <= gone && domains == old(domains) - (gone - rest) && Handled(calls) == domains
        invariant Enumerates(removed, gone - rest)
        invariant |calls| == |old(calls)| + |removed| && calls[..|old(calls)|] == old(calls)
        invariant forall k :: 0 <= k < |removed| ==> calls[|old(calls)| + k] == HandleRemove(removed[k])
      {
        var domain :| domain in rest;
        EnumeratesMore(removed, gone - rest, domain);
        assert gone - (rest - {domain}) == gone - rest + {domain};
        rest := rest - {domain};
        removed := removed + [domain];
        domains := domains - {domain};
        HandledNext(calls, HandleRemove(domain));
        calls := calls + [HandleRemove(domain)];
      }
      assert gone - rest == gone;
    }

    /** Over any run of updates, both equal the latest list. */
    method UpdateAll(lists: seq<seq<string>>)
      requires Valid()
      modifies this
      ensures Valid()
      ensures lists != [] ==> domains == Members(lists[|lists| - 1]) == Handled(calls)
    {
      for i := 0 to |lists|
        invariant Valid() && (i > 0 ==> domains == Members(lists[i - 1]))
      {
        ghost var _, _ := UpdateDomainRegistrations(lists[i]);
      }
    }
  }
}
