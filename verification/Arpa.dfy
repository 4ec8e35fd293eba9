/** Reverse lookups: from the arpa name of an address back to the address. */
module Arpa {
  import opened Strings

  // ----- The conversion -----

  function Reversed<T>(ss: seq<T>): (r: seq<T>)
    ensures |r| == |ss| && forall i :: 0 <= i < |ss| ==> r[i] == ss[|ss| - 1 - i]
  {
    seq(|ss|, i requires 0 <= i < |ss| => ss[|ss| - 1 - i])
  }

  /** strings.TrimRight: drop trailing characters of the set. */
  function TrimRight(s: string, cut: string): (r: string)
    ensures r <= s && (r == "" || r[|r| - 1] !in cut)
  {
    if s != "" && s[|s| - 1] in cut then TrimRight(s[..|s| - 1], cut) else s
  }

  const IP6 := ".ip6.arpa."
  const IN_ADDR := ".in-addr.arpa."

  function Padded(parts: seq<string>): (r: seq<string>)
    decreases 32 - |parts|
    ensures parts <= r && |r| == if |parts| < 32 then 32 else |parts|
    ensures forall i :: |parts| <= i < |r| ==> r[i] == "0"
  {
    if |parts| < 32 then Padded(parts + ["0"]) else parts
  }

  function Concat(parts: seq<string>): string {
    if parts == [] then "" else parts[0] + Concat(parts[1..])
  }

  /** Groups of four, with colons between them. */
  function Grouped(parts: seq<string>): string {
    if |parts| <= 4 then Concat(parts) else Concat(parts[..4]) + ":" + Grouped(parts[4..])
  }

  function Converted(q: string): Option<string> {
    var query := ToLower(q);
    if HasSuffix(query, IP6) then Some(Grouped(Padded(Reversed(Split(TrimRight(query, IP6))))))
    else if HasSuffix(query, IN_ADDR) then Some(Join(Reversed(Split(TrimRight(query, IN_ADDR))), "."))
    else None
  }

  /** A name that ends in neither reverse domain is refused, and only such a name. */
  lemma RefusedIffForeign(q: string)
    ensures Converted(q) == None <==> !HasSuffix(ToLower(q), ".ip6.arpa.") && !HasSuffix(ToLower(q), ".in-addr.arpa.")
  {
  }

  method Reverse(ss: seq<string>) returns (r: array<string>)
    ensures fresh(r) && r[..] == Reversed(ss)
  {
    r := new string[|ss|](_ => "");
    for i := 0 to |ss|
      invariant forall j :: 0 <= j < i ==> r[|ss| - 1 - j] == ss[j]
    {
      r[|ss| - i - 1] := ss[i];
    }
    assert forall k :: 0 <= k < |ss| ==> r[..][k] == ss[|ss| - 1 - k];
  }

  /** What the printing loop still appends from the i-th part on. */
  function Rest(parts: seq<string>, i: nat): string
    requires i <= |parts|
    decreases |parts| - i
  {
    if i == |parts| then ""
    else parts[i] + (if i % 4 == 3 && i < |parts| - 1 then ":" else "") + Rest(parts, i + 1)
  }

  /** The printing loop. */
  method PrintGroups(parts: seq<string>) returns (response: string)
    ensures response == Grouped(parts)
  {
    response := "";
    ghost var whole := Rest(parts, 0);
    assert "" + whole == whole;
    for i := 0 to |parts|
      invariant response + Rest(parts, i) == whole
    {
      PrintStep(response, parts, i);
      response := response + parts[i];
      if i % 4 == 3 && i < |parts| - 1 {
        response := response + ":";
      }
    }
    RestEnd(response, parts);
  }

  /** What one turn of the loop prints, and what it leaves to print. */
  lemma {:induction false} PrintStep(response: string, parts: seq<string>, i: nat)
    requires i < |parts|
    ensures response + Rest(parts, i) == if i % 4 == 3 && i < |parts| - 1
      then (response + parts[i] + ":") + Rest(parts, i + 1) else (response + parts[i]) + Rest(parts, i + 1)
  {
    RestStep(parts, i);
    var next := Rest(parts, i + 1);
    if i % 4 == 3 && i < |parts| - 1 {
      Regroup(response, parts[i], ":" + next);
      Regroup(response + parts[i], ":", next);
    } else {
      Regroup(response, parts[i], next);
    }
  }

  lemma {:induction false} RestEnd(response: string, parts: seq<string>)
    ensures response + Rest(parts, |parts|) == response && Rest(parts, 0) == Grouped(parts)
  {
    assert response + "" == response;
    RestGrouped(parts, 0);
    assert parts[0..] == parts;
  }

  /** The padding loop. */
  method Pad(segments: seq<string>) returns (parts: seq<string>)
    ensures parts == Padded(segments)
  {
    parts := segments;
    while |parts| < 32
      invariant Padded(parts) == Padded(segments)
      decreases 32 - |parts|
    {
      parts := parts + ["0"];
    }
  }

  method ConvertToRecordIP(q: string) returns (r: Option<string>)
    ensures r == Converted(q)
  {
    var query := ToLower(q);
    if HasSuffix(query, IP6) {
      var reversed := Reverse(Split(TrimRight(query, IP6)));
      var parts := Pad(reversed[..]);
      var response := PrintGroups(parts);
      return Some(response);
    } else if HasSuffix(query, IN_ADDR) {
      var reversed := Reverse(Split(TrimRight(query, IN_ADDR)));
      return Some(Join(reversed[..], "."));
    }
    return None;
  }

  /** From the start of a group, the loop prints the groups that are left. */
  lemma {:induction false} RestGrouped(parts: seq<string>, i: nat)
    requires i <= |parts| && i % 4 == 0
    ensures Rest(parts, i) == Grouped(parts[i..])
    decreases |parts| - i
  {
    if |parts| - i <= 4 {
      RestLast(parts, i);
    } else {
      RestGrouped(parts, i + 4);
      RestOfGroup(parts, i, 4);
      assert parts[i..][4..] == parts[i + 4..] && parts[i..][..4] == parts[i..i + 4];
      var group := Concat(parts[i..i + 4]);
      assert group + (":" + Rest(parts, i + 4)) == group + ":" + Rest(parts, i + 4);
    }
  }

  lemma {:induction false} RestLast(parts: seq<string>, i: nat)
    requires i <= |parts| && (|parts| - i) + i % 4 <= 4
    ensures Rest(parts, i) == Concat(parts[i..])
    decreases |parts| - i
  {
    if i < |parts| {
      RestLast(parts, i + 1);
      assert parts[i..][1..] == parts[i + 1..];
      assert parts[i] + "" + Rest(parts, i + 1) == parts[i] + Rest(parts, i + 1);
    }
  }

  /** From `k` parts before the end of a group, the loop prints those parts, a colon, and goes on. */
  lemma {:induction false} RestOfGroup(parts: seq<string>, i: nat, k: nat)
    requires 1 <= k && i % 4 + k == 4 && i + k < |parts|
    ensures Rest(parts, i) == Concat(parts[i..i + k]) + (":" + Rest(parts, i + k))
    decreases k
  {
    var group, after := parts[i..i + k], ":" + Rest(parts, i + k);
    RestStep(parts, i);
    assert Concat(group) == parts[i] + Concat(group[1..]);
    if k == 1 {
      assert group[1..] == [];
      assert parts[i] + "" == parts[i];
    } else {
      RestOfNext(parts, i, k);
      assert group[1..] == parts[i + 1..i + k];
      calc {
        Rest(parts, i);
        parts[i] + Rest(parts, i + 1);
        parts[i] + (Concat(group[1..]) + after);
        { Regroup(parts[i], Concat(group[1..]), after); }
        (parts[i] + Concat(group[1..])) + after;
        Concat(group) + after;
      }
    }
  }

  lemma {:induction false} RestOfNext(parts: seq<string>, i: nat, k: nat)
    requires 2 <= k && i % 4 + k == 4 && i + k < |parts|
    ensures Rest(parts, i + 1) == Concat(parts[i + 1..i + k]) + (":" + Rest(parts, i + k))
    decreases k, 0
  {
    NextInGroup(i);
    RestOfGroup(parts, i + 1, k - 1);
    assert i + 1 + (k - 1) == i + k;
  }

  lemma NextInGroup(i: nat)
    requires i % 4 < 3
    ensures (i + 1) % 4 == i % 4 + 1
  {
  }

  lemma Regroup(a: string, b: string, c: string)
    ensures a + (b + c) == (a + b) + c
  {
  }

  lemma {:induction false} RestStep(parts: seq<string>, i: nat)
    requires i < |parts|
    ensures Rest(parts, i) == if i % 4 == 3 && i < |parts| - 1
      then parts[i] + (":" + Rest(parts, i + 1)) else parts[i] + Rest(parts, i + 1)
  {
    assert parts[i] + ":" + Rest(parts, i + 1) == parts[i] + (":" + Rest(parts, i + 1));
    assert parts[i] + "" + Rest(parts, i + 1) == parts[i] + Rest(parts, i + 1);
  }

  // ----- Reverse names convert back -----

  lemma {:induction false} TrimTail(s: string, t: string, cut: string)
    requires (s == "" || s[|s| - 1] !in cut) && forall i :: 0 <= i < |t| ==> t[i] in cut
    ensures TrimRight(s + t, cut) == s
  {
    if t == "" {
      assert s + t == s;
    } else {
      assert (s + t)[..|s| + |t| - 1] == s + t[..|t| - 1];
      TrimTail(s, t[..|t| - 1], cut);
    }
  }

  lemma {:induction false} JoinLast(parts: seq<string>)
    requires parts != [] && parts[|parts| - 1] != ""
    ensures Join(parts, ".") != ""
    ensures Join(parts, ".")[|Join(parts, ".")| - 1] == parts[|parts| - 1][|parts[|parts| - 1]| - 1]
  {
    if |parts| > 1 { JoinLast(parts[1..]); }
  }

  lemma ReversedTwice<T>(s: seq<T>)
    ensures Reversed(Reversed(s)) == s
  {
  }

  /** The name under in-addr.arpa of the octets, per section 3.5 of RFC 1035. */
  function InAddrName(octets: seq<string>): string {
    Join(Reversed(octets), ".") + IN_ADDR
  }

  lemma InAddrSuffix(base: string)
    ensures HasSuffix(base + IN_ADDR, IN_ADDR) && !HasSuffix(base + IN_ADDR, IP6)
  {
    var query := base + IN_ADDR;
    assert query[|query| - |IN_ADDR|..] == IN_ADDR;
    assert query[|query| - |IP6|..][0] == IN_ADDR[4];
  }

  lemma InAddrTrimmed(base: string)
    requires base != "" && IsDigit(base[|base| - 1])
    ensures TrimRight(base + IN_ADDR, IN_ADDR) == base
  {
    DigitNotInCut(base[|base| - 1]);
    TailInCut();
    TrimTail(base, IN_ADDR, IN_ADDR);
  }

  lemma {:induction false} ConvertedInAddr(q: string, base: string, parts: seq<string>)
    requires ToLower(q) == base + IN_ADDR && base != "" && IsDigit(base[|base| - 1]) && Split(base) == parts
    ensures Converted(q) == Some(Join(Reversed(parts), "."))
  {
    InAddrSuffix(base);
    InAddrTrimmed(base);
  }

  /** Converting the in-addr.arpa name of an IPv4 address gives back its dotted form. */
  lemma {:induction false} InAddrRoundTrip(octets: seq<string>, q: string)
    requires octets != [] && (forall i :: 0 <= i < |octets| ==> octets[i] != "" && AllDigits(octets[i]))
    requires ToLower(q) == InAddrName(octets)
    ensures Converted(q) == Some(Join(octets, "."))
  {
    var parts := Reversed(octets);
    forall i | 0 <= i < |parts| ensures NoDot(parts[i]) { DigitsNoDot(octets[|octets| - 1 - i]); }
    JoinLast(parts);
    SplitJoin(parts);
    ConvertedInAddr(q, Join(parts, "."), parts);
    ReversedTwice(octets);
  }

  lemma DigitNotInCut(c: char)
    requires IsDigit(c)
    ensures c !in IN_ADDR
  {
  }

  lemma TailInCut()
    ensures forall i :: 0 <= i < |IN_ADDR| ==> IN_ADDR[i] in IN_ADDR
    ensures forall i :: 0 <= i < |IP6| ==> IP6[i] in IP6
  {
  }

  // ----- IPv6 -----

  predicate IsNibble(c: char) { IsDigit(c) || 'a' <= c <= 'f' }

  /** The nibbles as one-character names. */
  function Names(nibbles: string): (r: seq<string>)
    ensures |r| == |nibbles| && forall i :: 0 <= i < |nibbles| ==> r[i] == [nibbles[i]]
  {
    seq(|nibbles|, i requires 0 <= i < |nibbles| => [nibbles[i]])
  }

  /** The name under ip6.arpa of the nibbles, most significant first, per section 2.5 of RFC 3596. */
  function Ip6Name(nibbles: string): string {
    Join(Reversed(Names(nibbles)), ".") + IP6
  }

  lemma Ip6Suffix(base: string)
    ensures HasSuffix(base + IP6, IP6)
  {
    assert (base + IP6)[|base|..] == IP6;
  }

  lemma NibblesInCut(c: char)
    requires IsNibble(c)
    ensures c in IP6 <==> c == '6' || c == 'a'
  {
  }

  lemma {:induction false} ConvertedIp6(q: string, base: string, parts: seq<string>)
    requires ToLower(q) == base + IP6 && Split(TrimRight(base + IP6, IP6)) == parts
    ensures Converted(q) == Some(Grouped(Padded(Reversed(parts))))
  {
    Ip6Suffix(base);
  }

  /** If the most significant nibble is not trimmed, the conversion gives the expanded form. */
  lemma {:induction false} Ip6Kept(nibbles: string, q: string)
    requires nibbles != "" && (forall i :: 0 <= i < |nibbles| ==> IsNibble(nibbles[i]))
    requires nibbles[0] != '6' && nibbles[0] != 'a' && ToLower(q) == Ip6Name(nibbles)
    ensures Converted(q) == Some(Grouped(Padded(Names(nibbles))))
  {
    var parts := Reversed(Names(nibbles));
    var base := Join(parts, ".");
    JoinLast(parts);
    NibblesInCut(nibbles[0]);
    TailInCut();
    TrimTail(base, IP6, IP6);
    SplitJoin(parts);
    ConvertedIp6(q, base, parts);
    ReversedTwice(Names(nibbles));
  }

  /** In the joined name, every other character is a dot. */
  lemma {:induction false} JoinAlternates(parts: seq<string>, i: nat)
    requires (forall k :: 0 <= k < |parts| ==> |parts[k]| == 1 && NoDot(parts[k])) && i < |Join(parts, ".")|
    ensures Join(parts, ".")[i] == '.' <==> i % 2 == 1
    ensures i % 2 == 0 ==> i / 2 < |parts| && [Join(parts, ".")[i]] == parts[i / 2]
  {
    if |parts| == 1 {
      assert NoDot(parts[0]);
    } else if i >= 2 {
      JoinAlternates(parts[1..], i - 2);
    } else {
      assert NoDot(parts[0]);
    }
  }

  /** What is left of the name ends with a one-character segment. */
  lemma {:induction false} LastSegment(parts: seq<string>, r: string)
    requires (forall k :: 0 <= k < |parts| ==> |parts[k]| == 1 && NoDot(parts[k]))
    requires r != "" && r <= Join(parts, ".") && r[|r| - 1] != '.'
    ensures var segments := Split(r); segments[|segments| - 1] == [r[|r| - 1]]
  {
    var n := |r|;
    assert r[n - 1] == Join(parts, ".")[n - 1];
    JoinAlternates(parts, n - 1);
    SplitNoDot([r[n - 1]]);
    if n > 1 {
      JoinAlternates(parts, n - 2);
      assert r[n - 2] == Join(parts, ".")[n - 2];
      assert r == r[..n - 2] + "." + [r[n - 1]];
      SplitConcat(r[..n - 2], [r[n - 1]]);
    } else {
      assert r == [r[0]];
    }
  }

  lemma {:induction false} ConcatFirst(parts: seq<string>)
    requires parts != []
    ensures parts[0] <= Concat(parts)
  {
  }

  /** The printed form starts with the first part. */
  lemma {:induction false} GroupedFirst(parts: seq<string>)
    requires parts != []
    ensures parts[0] <= Grouped(parts)
  {
    if |parts| <= 4 { ConcatFirst(parts); } else { ConcatFirst(parts[..4]); }
  }

  /** If it is trimmed, the conversion starts with another character. */
  lemma {:induction false} Ip6Trimmed(nibbles: string, q: string)
    requires nibbles != "" && (forall i :: 0 <= i < |nibbles| ==> IsNibble(nibbles[i]))
    requires (nibbles[0] == '6' || nibbles[0] == 'a') && ToLower(q) == Ip6Name(nibbles)
    ensures Converted(q).Some? && Converted(q).value != "" && Converted(q).value[0] != nibbles[0]
  {
    var parts := Reversed(Names(nibbles));
    var base := Join(parts, ".");
    var r := TrimRight(base + IP6, IP6);
    ConvertedIp6(q, base, Split(r));
    var printed := Padded(Reversed(Split(r)));
    if r == "" {
      GroupedFirstTwo(printed);
    } else {
      TrimmedWithin(base);
      LastSegment(parts, r);
      GroupedFirst(printed);
      assert printed[0] == [r[|r| - 1]];
      NibblesInCut(nibbles[0]);
    }
  }

  /** Trimming takes the whole suffix. */
  lemma {:induction false} TrimmedWithin(base: string)
    ensures TrimRight(base + IP6, IP6) <= base && (TrimRight(base + IP6, IP6) != "" ==>
      TrimRight(base + IP6, IP6)[|TrimRight(base + IP6, IP6)| - 1] !in IP6)
  {
    TailInCut();
    var s, r := base + IP6, TrimRight(base + IP6, IP6);
    assert forall k :: |base| <= k < |s| ==> s[k] in IP6;
    assert r <= s && (r != "" ==> r[|r| - 1] == s[|r| - 1]);
    assert |r| <= |base|;
  }

  lemma GroupedFirstTwo(parts: seq<string>)
    requires |parts| == 32 && parts[0] == "" && parts[1] == "0"
    ensures Grouped(parts) != "" && Grouped(parts)[0] == '0'
  {
    var four := parts[..4];
    assert Concat(four) == "" + Concat(four[1..]);
    assert Concat(four[1..]) == "0" + Concat(four[1..][1..]);
  }

  /**
   Converting the ip6.arpa name of an address gives its expanded form if and only if the most
   significant nibble is neither 6 nor a: those two characters are in the set that TrimRight cuts.
   */
  lemma {:induction false} Ip6RoundTrip(nibbles: string, q: string)
    requires nibbles != "" && (forall i :: 0 <= i < |nibbles| ==> IsNibble(nibbles[i]))
    requires ToLower(q) == Ip6Name(nibbles)
    ensures Converted(q) == Some(Grouped(Padded(Names(nibbles)))) <==> nibbles[0] != '6' && nibbles[0] != 'a'
  {
    if nibbles[0] != '6' && nibbles[0] != 'a' {
      Ip6Kept(nibbles, q);
    } else {
      Ip6Trimmed(nibbles, q);
      GroupedFirst(Padded(Names(nibbles)));
    }
  }

  // ----- The expanded form of a whole address -----

  /** The nibbles in groups of four. */
  function Chunks(nibbles: string): seq<string> {
    if |nibbles| <= 4 then [nibbles] else [nibbles[..4]] + Chunks(nibbles[4..])
  }

  lemma {:induction false} ConcatNames(nibbles: string)
    ensures Concat(Names(nibbles)) == nibbles
  {
    if nibbles == "" {
    } else {
      assert Names(nibbles)[1..] == Names(nibbles[1..]);
      ConcatNames(nibbles[1..]);
    }
  }

  lemma {:induction false} GroupedNames(nibbles: string)
    ensures Grouped(Names(nibbles)) == Join(Chunks(nibbles), ":")
  {
    if |nibbles| <= 4 {
      ConcatNames(nibbles);
    } else {
      assert Names(nibbles)[..4] == Names(nibbles[..4]) && Names(nibbles)[4..] == Names(nibbles[4..]);
      ConcatNames(nibbles[..4]);
      GroupedNames(nibbles[4..]);
      assert Chunks(nibbles)[1..] == Chunks(nibbles[4..]);
    }
  }

  /** The eight groups of a whole address. */
  function EightGroups(n: string): seq<string>
    requires |n| == 32
  {
    [n[..4], n[4..8], n[8..12], n[12..16], n[16..20], n[20..24], n[24..28], n[28..]]
  }

  lemma ChunksFrom(n: string, i: nat)
    requires |n| == 32 && i + 4 < 32
    ensures Chunks(n[i..]) == [n[i..i + 4]] + Chunks(n[i + 4..])
  {
    assert n[i..][..4] == n[i..i + 4] && n[i..][4..] == n[i + 4..];
  }

  lemma {:induction false} ChunksOfFirst(n: string)
    requires |n| == 32
    ensures Chunks(n) == [n[..4], n[4..8], n[8..12], n[12..16]] + Chunks(n[16..])
  {
    ChunksFrom(n, 12);
    ChunksFrom(n, 8);
    assert Chunks(n[8..]) == [n[8..12], n[12..16]] + Chunks(n[16..]);
    ChunksFrom(n, 4);
    ChunksFrom(n, 0);
    assert n[0..] == n && n[0..4] == n[..4];
  }

  lemma {:induction false} ChunksOfAddress(n: string)
    requires |n| == 32
    ensures Chunks(n) == EightGroups(n)
  {
    assert Chunks(n[28..]) == [n[28..]];
    ChunksFrom(n, 24);
    assert Chunks(n[24..]) == [n[24..28], n[28..]];
    ChunksFrom(n, 20);
    assert Chunks(n[20..]) == [n[20..24], n[24..28], n[28..]];
    ChunksFrom(n, 16);
    assert Chunks(n[16..]) == [n[16..20], n[20..24], n[24..28], n[28..]];
    ChunksOfFirst(n);
  }

  /**
   The name of a whole IPv6 address converts to its eight groups of four nibbles, joined by
   colons, exactly when the most significant nibble is neither 6 nor a.
   */
  lemma {:induction false} Ip6Address(nibbles: string, q: string)
    requires |nibbles| == 32 && (forall i :: 0 <= i < |nibbles| ==> IsNibble(nibbles[i]))
    requires ToLower(q) == Ip6Name(nibbles)
    ensures Converted(q) == Some(Join(EightGroups(nibbles), ":")) <==> nibbles[0] != '6' && nibbles[0] != 'a'
  {
    Ip6RoundTrip(nibbles, q);
    GroupedNames(nibbles);
    ChunksOfAddress(nibbles);
    assert Padded(Names(nibbles)) == Names(nibbles);
  }
}
