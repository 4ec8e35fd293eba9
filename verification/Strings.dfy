/** The string and domain-name functions the program takes from its libraries, on ASCII names. */
module Strings {

  predicate HasPrefix(s: string, p: string) { p <= s }

  predicate HasSuffix(s: string, p: string) { |p| <= |s| && s[|s| - |p|..] == p }

  function TrimSuffix(s: string, p: string): string {
    if HasSuffix(s, p) then s[..|s| - |p|] else s
  }

  lemma SuffixOf(s: string, t: string)
    ensures HasSuffix(s + t, t) && TrimSuffix(s + t, t) == s
  {
    assert (s + t)[|s|..] == t && (s + t)[..|s|] == s;
  }

  function LowerChar(c: char): char {
    if 'A' <= c <= 'Z' then (c as int + 32) as char else c
  }

  function ToLower(s: string): (r: string)
    ensures |r| == |s| && forall i :: 0 <= i < |s| ==> r[i] == LowerChar(s[i])
  {
    seq(|s|, i requires 0 <= i < |s| => LowerChar(s[i]))
  }

  /** Lower-casing turns each capital letter into its small letter. */
  lemma LowerAlphabet()
    ensures ToLower("ABCDEFGHIJKLMNOPQRSTUVWXYZ") == "abcdefghijklmnopqrstuvwxyz"
    ensures forall c: char :: c < 'A' || 'Z' < c ==> ToLower([c]) == [c]
  {
  }

  predicate IsLower(s: string) { ToLower(s) == s }

  lemma LowerAgain(s: string)
    ensures IsLower(ToLower(s))
  {
  }

  lemma LowerConcat(s: string, t: string)
    ensures ToLower(s + t) == ToLower(s) + ToLower(t)
  {
  }

  /** Lower-casing does not touch a prefix without letters, nor make one. */
  lemma LowerPrefix(s: string, p: string)
    requires forall c :: c in p ==> !('A' <= c <= 'Z') && !('a' <= c <= 'z')
    ensures HasPrefix(ToLower(s), p) <==> HasPrefix(s, p)
  {
    assert forall i :: 0 <= i < |p| ==> p[i] in p;
    if |p| <= |s| {
      assert forall i :: 0 <= i < |p| ==> (LowerChar(s[i]) == p[i] <==> s[i] == p[i]);
    }
  }

  predicate IsDigit(c: char) { '0' <= c <= '9' }

  predicate AllDigits(s: string) { forall i :: 0 <= i < |s| ==> IsDigit(s[i]) }

  predicate NoDot(s: string) { forall i :: 0 <= i < |s| ==> s[i] != '.' }

  lemma DigitsNoDot(s: string)
    requires AllDigits(s)
    ensures NoDot(s)
  {
    assert forall i :: 0 <= i < |s| ==> IsDigit(s[i]);
  }

  /** A fully qualified name ends with a dot. */
  predicate IsFqdn(s: string) { s != "" && s[|s| - 1] == '.' }

  function Fqdn(s: string): (r: string)
    ensures IsFqdn(r)
  {
    if IsFqdn(s) then s else s + "."
  }

  /** Lower-case and fully qualified: the form of every name an alias config stores. */
  predicate Canonical(s: string) { IsFqdn(s) && IsLower(s) }

  lemma LowerFqdn(s: string)
    ensures Canonical(Fqdn(ToLower(s)))
  {
    LowerAgain(s);
    if !IsFqdn(ToLower(s)) { LowerConcat(ToLower(s), "."); }
  }

  // ----- Splitting at dots -----

  datatype Option<T> = None | Some(value: T)

  /** strings.SplitN(s, ".", 2): what stands before and after the first dot, if there is one. */
  function Cut(s: string): (r: Option<(string, string)>)
    ensures r.Some? ==> s == r.value.0 + "." + r.value.1 && NoDot(r.value.0)
    ensures r.None? ==> NoDot(s)
  {
    if s == "" then None
    else if s[0] == '.' then Some(("", s[1..]))
    else match Cut(s[1..])
      case None => None
      case Some((head, tail)) => Some(([s[0]] + head, tail))
  }

  lemma {:induction false} CutAt(head: string, tail: string)
    requires NoDot(head)
    ensures Cut(head + "." + tail) == Some((head, tail))
  {
    if head == "" {
    } else {
      CutAt(head[1..], tail);
      assert (head + "." + tail)[1..] == head[1..] + "." + tail;
      assert [head[0]] + head[1..] == head;
    }
  }

  /** strings.Split(s, "."). */
  function Split(s: string): (parts: seq<string>)
    ensures |parts| >= 1 && forall i :: 0 <= i < |parts| ==> NoDot(parts[i])
  {
    if s == "" then [""] else Push(s[0], Split(s[1..]))
  }

  /** The parts of a string that starts with `c`, given those of the rest. */
  function Push(c: char, parts: seq<string>): (r: seq<string>)
    requires |parts| >= 1 && forall i :: 0 <= i < |parts| ==> NoDot(parts[i])
    ensures |r| >= 1 && forall i :: 0 <= i < |r| ==> NoDot(r[i])
  {
    if c == '.' then [""] + parts
    else
      assert NoDot(parts[0]) && NoDot([c] + parts[0]);
      [[c] + parts[0]] + parts[1..]
  }

  lemma PushConcat(c: char, parts: seq<string>, more: seq<string>)
    requires |parts| >= 1 && forall i :: 0 <= i < |parts| ==> NoDot(parts[i])
    requires forall i :: 0 <= i < |more| ==> NoDot(more[i])
    ensures Push(c, parts + more) == Push(c, parts) + more
  {
  }

  function Join(parts: seq<string>, sep: string): string {
    if parts == [] then "" else if |parts| == 1 then parts[0] else parts[0] + sep + Join(parts[1..], sep)
  }

  lemma {:induction false} SplitNoDot(s: string)
    requires NoDot(s)
    ensures Split(s) == [s]
  {
    if s == "" {
    } else {
      SplitNoDot(s[1..]);
      assert [s[0]] + s[1..] == s;
    }
  }

  lemma {:induction false} SplitAt(head: string, tail: string)
    requires NoDot(head)
    ensures Split(head + "." + tail) == [head] + Split(tail)
  {
    if head == "" {
      assert ("" + "." + tail)[1..] == tail;
    } else {
      SplitAt(head[1..], tail);
      assert (head + "." + tail)[1..] == head[1..] + "." + tail;
      assert [head[0]] + head[1..] == head;
    }
  }

  /** Splitting at any one dot splits both sides. */
  lemma {:induction false} SplitConcat(s: string, t: string)
    ensures Split(s + "." + t) == Split(s) + Split(t)
  {
    var whole := s + "." + t;
    if s == "" {
      assert whole[1..] == t && whole[0] == '.';
    } else {
      SplitConcat(s[1..], t);
      assert whole[1..] == s[1..] + "." + t && whole[0] == s[0];
      PushConcat(s[0], Split(s[1..]), Split(t));
    }
  }

  lemma {:induction false} SplitJoin(parts: seq<string>)
    requires parts != [] && forall i :: 0 <= i < |parts| ==> NoDot(parts[i])
    ensures Split(Join(parts, ".")) == parts
  {
    if |parts| == 1 {
      SplitNoDot(parts[0]);
    } else {
      SplitJoin(parts[1..]);
      SplitAt(parts[0], Join(parts[1..], "."));
    }
  }

  lemma {:induction false} JoinSplit(s: string)
    ensures Join(Split(s), ".") == s
  {
    if s == "" {
    } else {
      JoinSplit(s[1..]);
      var rest := Split(s[1..]);
      if s[0] != '.' {
        var parts := Split(s);
        assert parts[1..] == rest[1..];
      }
    }
  }

  // ----- The subdomain order -----

  /** The labels of a name; the root has none. */
  function Labels(s: string): seq<string> {
    if s == "." then [] else if IsFqdn(s) then Split(s[..|s| - 1]) else Split(s)
  }

  /** Qualified names with the same labels are the same name. */
  lemma LabelsInjective(s: string, t: string)
    requires IsFqdn(s) && IsFqdn(t) && Labels(s) == Labels(t)
    ensures s == t
  {
    JoinSplit(s[..|s| - 1]);
    JoinSplit(t[..|t| - 1]);
    assert s == s[..|s| - 1] + "." && t == t[..|t| - 1] + ".";
  }

  /** dns.IsSubDomain: the labels of `parent` end those of `child`, letter case aside. */
  predicate IsSubDomain(parent: string, child: string) {
    var p, c := Labels(ToLower(parent)), Labels(ToLower(child));
    |p| <= |c| && c[|c| - |p|..] == p
  }

  /** Between canonical names the order is that of string suffixes at a dot. */
  lemma {:induction false} SubDomainExact(parent: string, child: string)
    requires Canonical(parent) && Canonical(child) && parent != "."
    ensures IsSubDomain(parent, child) <==> child == parent || exists x :: child == x + "." + parent
  {
    if x :| child == x + "." + parent { BelowAny(x, parent); }
    if IsSubDomain(parent, child) && child != parent { var x := AboveAny(parent, child); }
  }

  /** A name is its labels, joined, and a dot. */
  lemma NameOfLabels(s: string)
    requires IsFqdn(s) && s != "."
    ensures Labels(s) != [] && s == Join(Labels(s), ".") + "."
  {
    JoinSplit(s[..|s| - 1]);
    assert s == s[..|s| - 1] + ".";
  }

  lemma {:induction false} AboveAny(parent: string, child: string) returns (x: string)
    requires Canonical(parent) && Canonical(child) && parent != "." && parent != child && IsSubDomain(parent, child)
    ensures child == x + "." + parent
  {
    var p, c := Labels(parent), Labels(child);
    StrictParent(parent, child);
    NameOfLabels(parent);
    NameOfLabels(child);
    var front := c[..|c| - |p|];
    assert c == front + p;
    JoinParts(front, p);
    x := Join(front, ".");
    assert (x + "." + Join(p, ".")) + "." == x + "." + (Join(p, ".") + ".");
  }

  lemma {:induction false} JoinParts(s: seq<string>, t: seq<string>)
    requires s != [] && t != []
    ensures Join(s + t, ".") == Join(s, ".") + "." + Join(t, ".")
  {
    if |s| == 1 {
      assert (s + t)[1..] == t;
    } else {
      assert (s + t)[1..] == s[1..] + t;
      JoinParts(s[1..], t);
    }
  }

  lemma {:induction false} BelowAny(x: string, parent: string)
    requires Canonical(parent) && parent != "." && Canonical(x + "." + parent)
    ensures IsSubDomain(parent, x + "." + parent)
  {
    var child, front := x + "." + parent, parent[..|parent| - 1];
    assert child[..|child| - 1] == x + "." + front && child[|child| - 1] == '.';
    SplitConcat(x, front);
  }

  lemma SubDomainTransitive(a: string, b: string, c: string)
    requires IsSubDomain(a, b) && IsSubDomain(b, c)
    ensures IsSubDomain(a, c)
  {
    var la, lb, lc := Labels(ToLower(a)), Labels(ToLower(b)), Labels(ToLower(c));
    assert lc[|lc| - |la|..] == lc[|lc| - |lb|..][|lb| - |la|..];
  }

  /** Between different canonical names the order is strict: the parent has fewer labels. */
  lemma StrictParent(parent: string, child: string)
    requires Canonical(parent) && Canonical(child) && parent != child && IsSubDomain(parent, child)
    ensures |Labels(parent)| < |Labels(child)|
  {
    if |Labels(parent)| == |Labels(child)| {
      assert Labels(child)[0..] == Labels(child);
      LabelsInjective(parent, child);
    }
  }

  lemma LowerNoDot(s: string)
    requires NoDot(s)
    ensures NoDot(ToLower(s))
  {
    assert forall i :: 0 <= i < |s| ==> LowerChar(s[i]) != '.';
  }

  lemma LabelsCons(head: string, tail: string)
    requires NoDot(head) && IsFqdn(tail) && tail != "."
    ensures Labels(head + "." + tail) == [head] + Labels(tail)
  {
    var rest := tail[..|tail| - 1];
    var name := head + "." + tail;
    assert name[..|name| - 1] == head + "." + rest;
    assert name[|name| - 1] == '.' && name != ".";
    SplitAt(head, rest);
  }

  /** A name is a subdomain of what follows its first label. */
  lemma BelowItsTail(head: string, tail: string)
    requires NoDot(head) && Canonical(tail)
    ensures IsSubDomain(tail, head + "." + tail)
  {
    LowerConcat(head + ".", tail);
    LowerConcat(head, ".");
    assert ToLower(head + "." + tail) == ToLower(head) + "." + tail;
    LowerNoDot(head);
    if tail != "." { LabelsCons(ToLower(head), tail); }
  }
}

/** Orders in which Go may hand out the keys of a map. */
module Enumeration {

  ghost predicate Distinct<T>(s: seq<T>) {
    forall i, j :: 0 <= i < j < |s| ==> s[i] != s[j]
  }

  function Members(list: seq<string>): set<string> {
    set x | x in list
  }

  lemma MembersLast(front: seq<string>, last: string)
    ensures Members(front + [last]) == Members(front) + {last}
  {
  }

  lemma PrefixNext(names: seq<string>, i: nat)
    requires i < |names|
    ensures names[..i + 1] == names[..i] + [names[i]] && names[..|names|] == names
  {
  }

  ghost predicate Enumerates(order: seq<string>, keys: set<string>) {
    (forall k :: k in order <==> k in keys) && Distinct(order)
  }

  lemma EnumeratesMore(order: seq<string>, keys: set<string>, k: string)
    requires Enumerates(order, keys) && k !in keys
    ensures Enumerates(order + [k], keys + {k})
  {
    assert forall i :: 0 <= i < |order| ==> order[i] in order;
  }
}
