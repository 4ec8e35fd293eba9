/** The least-recently-used list of names, as a plain sequence from oldest to newest. */
module LruList {
  import opened Enumeration

  function Without(s: seq<string>, x: string): seq<string> {
    if s == [] then [] else if s[0] == x then Without(s[1..], x) else [s[0]] + Without(s[1..], x)
  }

  lemma {:induction false} WithoutAbsent(s: seq<string>, x: string)
    requires x !in s
    ensures Without(s, x) == s
  {
    if s == [] {
    } else {
      WithoutAbsent(s[1..], x);
      assert [s[0]] + s[1..] == s;
    }
  }

  lemma {:induction false} WithoutMembers(s: seq<string>, x: string)
    ensures forall y :: y in Without(s, x) <==> y in s && y != x
    ensures Distinct(s) ==> Distinct(Without(s, x))
  {
    if s == [] {
    } else {
      WithoutMembers(s[1..], x);
      assert s == [s[0]] + s[1..];
      if Distinct(s) {
        assert forall i :: 0 <= i < |s| - 1 ==> s[1..][i] == s[i + 1];
        assert s[0] !in Without(s[1..], x);
      }
    }
  }

  lemma {:induction false} WithoutAt(s: seq<string>, x: string, k: nat)
    requires Distinct(s) && k < |s| && s[k] == x
    ensures Without(s, x) == s[..k] + s[k + 1..]
  {
    if k == 0 {
      WithoutAbsent(s[1..], x);
      assert s[..0] + s[1..] == s[1..];
    } else {
      WithoutAt(s[1..], x, k - 1);
      assert [s[0]] + (s[1..][..k - 1] + s[1..][k..]) == s[..k] + s[k + 1..];
    }
  }

  lemma {:induction false} DistinctCount(s: seq<string>)
    requires Distinct(s)
    ensures |Members(s)| == |s|
  {
    if s == [] {
    } else {
      var last := s[|s| - 1];
      DistinctCount(s[..|s| - 1]);
      var front := s[..|s| - 1];
      assert s == front + [last];
      assert Members(s) == Members(front) + {last};
    }
  }

  /** Touch on the sequence: move or append to the newest end, and drop the oldest if there is no room. */
  function Touched(s: seq<string>, x: string, cap: nat): seq<string> {
    if x in s then Without(s, x) + [x]
    else if |s| < cap || s == [] then s + [x]
    else s[1..] + [x]
  }

  /** What Touch answers: the name dropped, or the empty string. */
  function Evicted(s: seq<string>, x: string, cap: nat): string {
    if x in s || |s| < cap || s == [] then "" else s[0]
  }

  // ----- Whole histories of touches -----

  /** The list after a history of touches. */
  function AfterTouches(history: seq<string>, cap: nat): seq<string> {
    if history == [] then []
    else Touched(AfterTouches(history[..|history| - 1], cap), history[|history| - 1], cap)
  }

  lemma {:induction false} AfterTouch(history: seq<string>, x: string, cap: nat)
    ensures AfterTouches(history + [x], cap) == Touched(AfterTouches(history, cap), x, cap)
  {
    assert (history + [x])[..|history|] == history;
  }

  /** The names of a history, each where it was touched last. */
  ghost function ByLastTouch(history: seq<string>): seq<string> {
    if history == [] then []
    else if history[0] in history[1..] then ByLastTouch(history[1..])
    else [history[0]] + ByLastTouch(history[1..])
  }

  ghost function Newest(s: seq<string>, n: nat): seq<string> {
    if |s| <= n then s else s[|s| - n..]
  }

  lemma {:induction false} ByLastTouchMembers(history: seq<string>)
    ensures Distinct(ByLastTouch(history))
    ensures forall x :: x in ByLastTouch(history) <==> x in history
  {
    if history == [] {
    } else {
      ByLastTouchMembers(history[1..]);
      assert history == [history[0]] + history[1..];
    }
  }

  lemma {:induction false} WithoutConcat(s: seq<string>, t: seq<string>, x: string)
    ensures Without(s + t, x) == Without(s, x) + Without(t, x)
  {
    if s == [] {
      assert s + t == t;
    } else {
      WithoutConcat(s[1..], t, x);
      assert (s + t)[1..] == s[1..] + t && (s + t)[0] == s[0];
      if s[0] != x {
        var kept, more := Without(s[1..], x), Without(t, x);
        assert [s[0]] + (kept + more) == ([s[0]] + kept) + more;
      }
    }
  }

  lemma {:induction false} ByLastTouchAppend(history: seq<string>, x: string)
    ensures ByLastTouch(history + [x]) == Without(ByLastTouch(history), x) + [x]
  {
    if history == [] {
      assert history + [x] == [x];
      assert [x][1..] == [];
    } else {
      ByLastTouchAppend(history[1..], x);
      assert (history + [x])[1..] == history[1..] + [x];
    }
  }

  lemma NewestOfConcat(s: seq<string>, t: seq<string>, n: nat)
    requires |t| >= n || (s == [] && |t| <= n)
    ensures Newest(s + t, n) == Newest(t, n)
  {
    if |t| >= n {
      assert (s + t)[|s| + |t| - n..] == t[|t| - n..];
    } else {
      assert s + t == t;
    }
  }

  /** The parts of a sequence without repetition have none, and share nothing. */
  lemma DistinctParts(older: seq<string>, newer: seq<string>, j: nat)
    requires Distinct(older + newer) && j < |newer|
    ensures Distinct(newer) && newer[j] !in older
  {
    var all := older + newer;
    assert forall i :: 0 <= i < |newer| ==> newer[i] == all[|older| + i];
    assert forall i :: 0 <= i < |older| ==> older[i] == all[i];
  }

  lemma {:induction false} TouchKnown(older: seq<string>, newer: seq<string>, x: string, cap: nat)
    requires 1 <= cap && Distinct(older + newer) && x in newer && |newer| <= cap && (older == [] || |newer| == cap)
    ensures Touched(newer, x, cap) == Newest(Without(older + newer, x) + [x], cap)
  {
    var all := older + newer;
    var j :| 0 <= j < |newer| && newer[j] == x;
    DistinctParts(older, newer, j);
    WithoutAbsent(older, x);
    WithoutAt(newer, x, j);
    WithoutConcat(older, newer, x);
    assert Without(all, x) + [x] == older + (Without(newer, x) + [x]);
    NewestOfConcat(older, Without(newer, x) + [x], cap);
  }

  lemma {:induction false} TouchNew(older: seq<string>, newer: seq<string>, x: string, cap: nat)
    requires 1 <= cap && x !in newer && |newer| <= cap && (older == [] || |newer| == cap)
    ensures Touched(newer, x, cap) == Newest(Without(older + newer, x) + [x], cap)
  {
    WithoutAbsent(newer, x);
    WithoutConcat(older, newer, x);
    assert Without(older + newer, x) + [x] == Without(older, x) + (newer + [x]);
    NewestOfConcat(Without(older, x), newer + [x], cap);
  }

  /** Touching the newest part of a list is the newest part of the touched list. */
  lemma {:induction false} TouchNewest(recent: seq<string>, x: string, cap: nat)
    requires 1 <= cap && Distinct(recent)
    ensures Touched(Newest(recent, cap), x, cap) == Newest(Without(recent, x) + [x], cap)
  {
    var k := if |recent| <= cap then 0 else |recent| - cap;
    var older, newer := recent[..k], recent[k..];
    assert recent == older + newer && newer == Newest(recent, cap);
    if x in newer { TouchKnown(older, newer, x, cap); } else { TouchNew(older, newer, x, cap); }
  }

  /** After any history, the list is exactly the most recently touched names, oldest touch first. */
  lemma {:induction false} HoldsMostRecent(history: seq<string>, cap: nat)
    requires 1 <= cap
    ensures AfterTouches(history, cap) == Newest(ByLastTouch(history), cap)
  {
    if history == [] {
    } else {
      var front, last := history[..|history| - 1], history[|history| - 1];
      HoldsMostRecent(front, cap);
      ByLastTouchMembers(front);
      TouchNewest(ByLastTouch(front), last, cap);
      ByLastTouchAppend(front, last);
      assert history == front + [last];
    }
  }

  /** It holds min(cap, number of distinct names ever touched) names, all different. */
  lemma {:induction false} HoldsThatMany(history: seq<string>, cap: nat)
    requires 1 <= cap
    ensures var held, distinct := AfterTouches(history, cap), |Members(history)|;
      |held| == (if distinct <= cap then distinct else cap) && Distinct(held)
  {
    HoldsMostRecent(history, cap);
    ByLastTouchMembers(history);
    DistinctCount(ByLastTouch(history));
    assert Members(history) == Members(ByLastTouch(history));
  }
}

/** The doubly linked list between two sentinels, and the map from names to links. */
module Transcript {
  import opened Enumeration
  import opened LruList

  class Link {
    const name: string
    var prev: Link?
    var next: Link?

    constructor (name: string)
      ensures this.name == name && prev == null && next == null
    {
      this.name := name;
      prev, next := null, null;
    }

    /** Take this link out of its chain; its own links keep their values. */
    method Remove()
      requires prev != null && next != null
      modifies prev`next, next`prev
      ensures prev == old(prev) && next == old(next)
      ensures prev.next == next && next.prev == prev
    {
      prev.next := next;
      next.prev := prev;
    }

    /** Put `after` behind this link. */
    method Append(after: Link)
      requires next != null && after != this && after != next
      modifies this`next, next`prev, after`prev, after`next
      ensures next == after && after.prev == this && after.next == old(next) && old(next).prev == after
    {
      after.next := next;
      next.prev := after;
      next := after;
      after.prev := this;
    }
  }

  /** Neighbours in the chain point at each other, and no link occurs twice. */
  ghost predicate Linked(chain: seq<Link>)
    reads chain
  {
    && (forall i {:trigger chain[i].next} :: 0 <= i < |chain| - 1 ==> chain[i].next == chain[i + 1])
    && (forall i {:trigger chain[i].prev} :: 1 <= i < |chain| ==> chain[i].prev == chain[i - 1])
    && Distinct(chain)
  }

  function NamesOf(links: seq<Link>): (s: seq<string>)
    ensures |s| == |links| && forall i :: 0 <= i < |links| ==> s[i] == links[i].name
  {
    seq(|links|, i requires 0 <= i < |links| => links[i].name)
  }

  lemma NamesWithout(links: seq<Link>, k: nat)
    requires k < |links| && Distinct(NamesOf(links))
    ensures links[k].name in NamesOf(links)
    ensures NamesOf(links[..k] + links[k + 1..]) == Without(NamesOf(links), links[k].name)
  {
    var names := NamesOf(links);
    assert names[k] == links[k].name;
    WithoutAt(names, names[k], k);
    assert NamesOf(links[..k] + links[k + 1..]) == names[..k] + names[k + 1..];
  }

  lemma MembersWithout(links: seq<Link>, k: nat)
    requires k < |links|
    ensures forall l :: l in links <==> l in links[..k] + links[k + 1..] || l == links[k]
  {
    assert links == links[..k] + [links[k]] + links[k + 1..];
  }

  /** Where position `i` was before position `k + 1` was taken out. */
  ghost function Before(i: nat, k: nat): nat { if i <= k then i else i + 1 }

  /** Taking one element out of a sequence without repetition leaves none, and the element is gone. */
  lemma DistinctWithout(was: seq<Link>, now: seq<Link>, k: nat)
    requires |was| == |now| + 1 && k < |now| && Distinct(was)
    requires forall i :: 0 <= i < |now| ==> now[i] == was[Before(i, k)]
    ensures Distinct(now) && was[k + 1] !in now
  {
  }

  lemma ChainWithout(tail: Link, links: seq<Link>, head: Link, k: nat)
    requires k < |links|
    ensures var was, now := [tail] + links + [head], [tail] + (links[..k] + links[k + 1..]) + [head];
      |was| == |now| + 1 && forall i :: 0 <= i < |now| ==> now[i] == was[Before(i, k)]
  {
  }

  class PriorityLimitedTranscript {
    var names: map<string, Link>
    const tail: Link
    const head: Link
    var length: nat
    const cap: nat
    ghost var links: seq<Link>   // from oldest to newest
    ghost var repr: set<Link>
    ghost var history: seq<string>   // every name ever touched

    ghost function Chain(): seq<Link>
      reads this
    {
      [tail] + links + [head]
    }

    /** The links sit between the sentinels, and point at their neighbours. */
    ghost predicate Chained()
      reads this, repr
    {
      && tail in repr && head in repr && (forall l :: l in links ==> l in repr)
      && (forall l :: l in Chain() ==> l in repr) && Linked(Chain())
    }

    /** The map names exactly the links, and the links in `loose` besides. */
    ghost predicate Consistent(loose: set<Link>)
      reads this, repr
    {
      && 1 <= cap && Chained() && length == |links|
      && (forall l :: l in loose ==> l in repr && l !in Chain() && l.name in names && names[l.name] == l)
      && (forall l :: l in links ==> l.name in names && names[l.name] == l)
      && (forall s :: s in names ==> (names[s] in links || names[s] in loose) && names[s].name == s)
    }

    ghost predicate Settled()
      reads this, repr
    {
      Consistent({}) && length <= cap
    }

    ghost predicate Valid()
      reads this, repr
    {
      Settled() && Names() == AfterTouches(history, cap)
    }

    /** The names from oldest to newest. */
    ghost function Names(): seq<string>
      reads this
    {
      NamesOf(links)
    }

    /** With cap 0 the first Touch would follow the head sentinel's nil link. */
    constructor (cap: nat)
      requires 1 <= cap
      ensures Valid() && fresh(repr) && this.cap == cap && history == [] && Names() == []
    {
      var h := new Link("");
      var t := new Link("");
      t.next := h;
      h.prev := t;
      this.cap := cap;
      names, length := map[], 0;
      head, tail, links, repr, history := h, t, [], {h, t}, [];
    }

    /** Take the k-th link out of the chain. */
    method Unlink(that: Link, ghost k: nat)
      requires Chained() && k < |links| && links[k] == that
      modifies this`links, repr
      ensures Chained() && links == old(links)[..k] + old(links)[k + 1..]
      ensures that !in Chain()
    {
      ghost var was := Chain();
      assert was[k + 1] == that;
      that.Remove();
      links := links[..k] + links[k + 1..];
      ghost var now := Chain();
      ChainWithout(tail, old(links), head, k);
      DistinctWithout(was, now, k);
      MembersWithout(old(links), k);
      forall i | 0 <= i < |now| - 1 ensures now[i].next == now[i + 1] && now[i + 1].prev == now[i] {
        assert now[i] == was[Before(i, k)] && now[i + 1] == was[Before(i + 1, k)];
      }
    }

    /** Put a link at the newest end. */
    method LinkNewest(that: Link)
      requires Chained() && that !in Chain() && that in repr
      modifies this`links, repr
      ensures Chained() && links == old(links) + [that]
    {
      ghost var was := Chain();
      assert was[|links| + 1] == head;
      var newest := head.prev;
      assert was[|links|] == newest;
      newest.Append(that);
      links := links + [that];
      ghost var now := Chain();
      assert now == was[..|was| - 1] + [that, head];
      assert forall i :: 0 <= i < |was| - 1 ==> now[i] == was[i];
      assert now[|was| - 1] == that && now[|was|] == head;
    }

    /** Touch's first branch: take the name's link out of the chain. */
    method LiftKnown(s: string) returns (that: Link)
      requires Settled() && s in names
      modifies this, repr
      ensures Consistent({that}) && that.name == s
      ensures repr == old(repr) && history == old(history) && length == old(length) - 1
      ensures s in old(Names()) && Names() == Without(old(Names()), s)
    {
      that := names[s];
      ghost var k :| 0 <= k < |links| && links[k] == that;
      NamesDistinct();
      NamesWithout(links, k);
      MembersWithout(links, k);
      Unlink(that, k);
      length := length - 1;
    }

    /** Touch's second branch: a new link, already in the map. */
    method LiftNew(s: string) returns (that: Link)
      requires Settled() && s !in names
      modifies this
      ensures Consistent({that}) && that.name == s
      ensures fresh(that) && repr == old(repr) + {that} && history == old(history)
      ensures links == old(links) && s !in Names()
    {
      that := new Link(s);
      assert forall i :: 0 <= i < |links| ==> links[i] in links;
      names := names[s := that];
      repr := repr + {that};
      assert Chain() == old(Chain());
    }

    /** Different links have different names. */
    lemma NamesDistinct()
      requires Settled()
      ensures Distinct(Names())
    {
      forall i, j | 0 <= i < j < |links| ensures links[i].name != links[j].name {
        assert links[i] in links && links[j] in links;
        assert Chain()[i + 1] == links[i] && Chain()[j + 1] == links[j];
      }
    }

    /** The middle of Touch: drop the oldest link when there is no room. */
    method MakeRoom(that: Link) returns (removed: string)
      requires Consistent({that})
      modifies this, repr
      ensures Consistent({that}) && repr == old(repr) && history == old(history)
      ensures if old(length) >= cap then links == old(links)[1..] && removed == old(links)[0].name
              else links == old(links) && removed == ""
    {
      removed := "";
      if length >= cap {
        assert Chain()[0] == tail && Chain()[1] == links[0];
        var oldest := tail.next;
        Unlink(oldest, 0);
        names := names - {oldest.name};
        length := length - 1;
        removed := oldest.name;
      }
    }

    /** The end of Touch. */
    method Attach(that: Link)
      requires Consistent({that}) && length < cap
      modifies this, repr
      ensures Settled() && links == old(links) + [that]
      ensures repr == old(repr) && history == old(history) + [that.name]
    {
      history := history + [that.name];
      LinkNewest(that);
      length := length + 1;
    }

    method TouchLinks(s: string) returns (removed: string)
      requires Settled()
      modifies this, repr
      ensures Settled() && fresh(repr - old(repr)) && history == old(history) + [s]
      ensures Names() == Touched(old(Names()), s, cap) && removed == Evicted(old(Names()), s, cap)
    {
      var that: Link;
      if s in names {
        that := LiftKnown(s);
      } else {
        that := LiftNew(s);
      }
      ghost var lifted := links;
      removed := MakeRoom(that);
      ghost var kept := links;
      Attach(that);
      TouchedNames(old(Names()), lifted, kept, that, cap);
    }

    /** Touch, against the whole history. */
    method Touch(s: string) returns (removed: string)
      requires Valid()
      modifies this, repr
      ensures Valid() && fresh(repr - old(repr)) && history == old(history) + [s]
      ensures Names() == Touched(old(Names()), s, cap) && removed == Evicted(old(Names()), s, cap)
    {
      AfterTouch(history, s, cap);
      removed := TouchLinks(s);
    }

    /** The names in the map, in no particular order. */
    method Registry() returns (r: seq<string>)
      requires Valid()
      ensures |r| == length == |names| && Distinct(r)
      ensures forall s :: s in r <==> s in Names()
      ensures Names() == Newest(ByLastTouch(history), cap)
    {
      HoldsMostRecent(history, cap);
      r := [];
      var rest := names.Keys;
      while rest != {}
        invariant rest <= names.Keys && |r| + |rest| == |names.Keys| && Distinct(r)
        invariant forall i :: 0 <= i < |r| ==> r[i] in names.Keys - rest
        invariant forall s :: s in names.Keys - rest ==> s in r
      {
        var s :| s in rest;
        rest := rest - {s};
        r := r + [s];
      }
      MapMatchesLinks();
    }

    /** The map holds exactly the names of the links, one each. */
    lemma MapMatchesLinks()
      requires Settled()
      ensures |names| == length && forall s :: s in names <==> s in Names()
    {
      NamesDistinct();
      forall s | s in names ensures s in Names() {
        var k :| 0 <= k < |links| && links[k] == names[s];
        assert Names()[k] == s;
      }
      forall s | s in Names() ensures s in names {
        var k :| 0 <= k < |links| && links[k].name == s;
        assert links[k] in links;
      }
      assert names.Keys == set s | s in Names();
      DistinctCount(Names());
    }
  }

  /** The three parts of Touch together do what Touched says. */
  lemma {:induction false} TouchedNames(names: seq<string>, lifted: seq<Link>, kept: seq<Link>, that: Link, cap: nat)
    requires 1 <= cap && |names| <= cap
    requires if that.name in names then NamesOf(lifted) == Without(names, that.name) && |lifted| < |names|
             else NamesOf(lifted) == names
    requires kept == if |lifted| >= cap then lifted[1..] else lifted
    ensures NamesOf(kept + [that]) == Touched(names, that.name, cap)
    ensures Evicted(names, that.name, cap) == if |lifted| >= cap then lifted[0].name else ""
  {
    assert NamesOf(kept + [that]) == NamesOf(kept) + [that.name];
    if |lifted| >= cap { assert NamesOf(kept) == NamesOf(lifted)[1..]; }
  }
}
