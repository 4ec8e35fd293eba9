/**
 The alias graph behind ReducedForm.  An alias unfolds to a tree whose leaves are the names
 that are no aliases; the tree is finite exactly when no cycle can be reached from the alias.
 */
module AliasGraph {
  import opened Enumeration

  type Graph = map<string, seq<string>>

  // ----- Unfolding trees: the reference meaning of an alias -----

  datatype Tree = Leaf(name: string) | Node(name: string, children: seq<Tree>)

  /** `t` is the full expansion of its root name in `g`. */
  ghost predicate Unfolds(g: Graph, t: Tree) {
    match t
    case Leaf(n) => n !in g
    case Node(n, cs) =>
      && n in g && |cs| == |g[n]|
      && forall i :: 0 <= i < |cs| ==> cs[i].name == g[n][i] && Unfolds(g, cs[i])
  }

  ghost predicate HasTree(g: Graph, a: string) {
    exists t: Tree :: t.name == a && Unfolds(g, t)
  }

  /** The leaves from left to right: the ordered expansion of the root. */
  ghost function Leaves(t: Tree): seq<string> {
    match t
    case Leaf(n) => [n]
    case Node(_, cs) => AllLeaves(cs)
  }

  ghost function AllLeaves(ts: seq<Tree>): seq<string> {
    if ts == [] then [] else Leaves(ts[0]) + AllLeaves(ts[1..])
  }

  ghost function Size(t: Tree): nat {
    match t
    case Leaf(_) => 1
    case Node(_, cs) => 1 + TotalSize(cs)
  }

  ghost function TotalSize(ts: seq<Tree>): nat {
    if ts == [] then 0 else Size(ts[0]) + TotalSize(ts[1..])
  }

  lemma {:induction false} ChildSmaller(ts: seq<Tree>, i: nat)
    requires i < |ts|
    ensures Size(ts[i]) <= TotalSize(ts)
  {
    if i == 0 {
    } else {
      ChildSmaller(ts[1..], i - 1);
    }
  }

  /** A name has at most one unfolding. */
  lemma {:induction false} UnfoldingUnique(g: Graph, t: Tree, u: Tree)
    requires Unfolds(g, t) && Unfolds(g, u) && t.name == u.name
    ensures t == u
    decreases t
  {
    if t.Node? {
      forall i | 0 <= i < |t.children| ensures t.children[i] == u.children[i] {
        UnfoldingUnique(g, t.children[i], u.children[i]);
      }
      assert t.children == u.children;
    }
  }

  lemma {:induction false} LeavesAreNoAliases(g: Graph, t: Tree)
    requires Unfolds(g, t)
    ensures forall x :: x in Leaves(t) ==> x !in g
    decreases t, 0
  {
    if t.Node? { AllLeavesAreNoAliases(g, t.children); }
  }

  lemma {:induction false} AllLeavesAreNoAliases(g: Graph, ts: seq<Tree>)
    requires forall i :: 0 <= i < |ts| ==> Unfolds(g, ts[i])
    ensures forall x :: x in AllLeaves(ts) ==> x !in g
    decreases ts, 1
  {
    if ts == [] {
    } else {
      LeavesAreNoAliases(g, ts[0]);
      AllLeavesAreNoAliases(g, ts[1..]);
    }
  }

  // ----- Paths and cycles -----

  ghost predicate Edge(g: Graph, a: string, b: string) { a in g && b in g[a] }

  ghost predicate Path(g: Graph, p: seq<string>) {
    |p| >= 1 && forall i :: 0 <= i < |p| - 1 ==> Edge(g, p[i], p[i + 1])
  }

  ghost predicate HasCycle(g: Graph) {
    exists p :: Path(g, p) && |p| >= 2 && p[0] == p[|p| - 1]
  }

  /** The path `p` starts at `a` and comes back to its i-th name. */
  ghost predicate Returns(g: Graph, a: string, p: seq<string>, i: nat) {
    Path(g, p) && p[0] == a && i < |p| - 1 && p[i] == p[|p| - 1]
  }

  /** Some path from `a` comes back to a name it has already passed. */
  ghost predicate ReachesCycle(g: Graph, a: string) {
    exists p, i: nat :: Returns(g, a, p, i)
  }

  lemma SubPath(g: Graph, p: seq<string>, lo: nat, hi: nat)
    requires Path(g, p) && lo < hi <= |p|
    ensures Path(g, p[lo..hi])
  {
    forall j | 0 <= j < hi - lo - 1 ensures Edge(g, p[lo..hi][j], p[lo..hi][j + 1]) {
      assert Edge(g, p[lo + j], p[lo + j + 1]);
    }
  }

  lemma {:induction false} CycleSomewhere(g: Graph)
    ensures HasCycle(g) <==> exists a :: a in g && ReachesCycle(g, a)
  {
    if HasCycle(g) {
      var p :| Path(g, p) && |p| >= 2 && p[0] == p[|p| - 1];
      assert Edge(g, p[0], p[1]) && Returns(g, p[0], p, 0);
    }
    if a :| a in g && ReachesCycle(g, a) {
      var p, i: nat :| Returns(g, a, p, i);
      SubPath(g, p, i, |p|);
      var c := p[i..|p|];
      assert c[0] == c[|c| - 1];
    }
  }

  /** Following a path through an unfolding leads to an unfolding of the path's last name. */
  lemma {:induction false} Follow(g: Graph, t: Tree, p: seq<string>) returns (s: Tree)
    requires Unfolds(g, t) && Path(g, p) && t.name == p[0]
    ensures Unfolds(g, s) && s.name == p[|p| - 1] && Size(s) + |p| - 1 <= Size(t)
    decreases t
  {
    if |p| == 1 {
      s := t;
    } else {
      assert Edge(g, p[0], p[1]);
      var i :| 0 <= i < |g[p[0]]| && g[p[0]][i] == p[1];
      ChildSmaller(t.children, i);
      SubPath(g, p, 1, |p|);
      s := Follow(g, t.children[i], p[1..]);
    }
  }

  lemma {:induction false} NoTreeOnCycle(g: Graph, t: Tree, p: seq<string>, i: nat)
    requires Unfolds(g, t) && Path(g, p) && t.name == p[0] && i < |p| - 1
    ensures p[i] != p[|p| - 1]
  {
    var head, tail := p[..i + 1], p[i..];
    SubPath(g, p, 0, i + 1);
    SubPath(g, p, i, |p|);
    var u := Follow(g, t, head);
    var s := Follow(g, u, tail);
    if s.name == u.name {
      UnfoldingUnique(g, s, u);
      assert false;
    }
  }

  /** Distinct members of a finite set are no more than the set has. */
  lemma {:induction false} Pigeonhole(xs: seq<string>, s: set<string>)
    requires forall i :: 0 <= i < |xs| ==> xs[i] in s
    requires Distinct(xs)
    ensures |xs| <= |s|
  {
    if xs == [] {
    } else {
      var last := xs[|xs| - 1];
      Pigeonhole(xs[..|xs| - 1], s - {last});
    }
  }

  /** A path that starts where no cycle is reachable has at most one name that is no alias. */
  lemma {:induction false} PathBounded(g: Graph, p: seq<string>)
    requires Path(g, p) && !ReachesCycle(g, p[0])
    ensures |p| <= |g| + 1
  {
    var q := p[..|p| - 1];
    forall i | 0 <= i < |q| ensures q[i] in g.Keys {
      assert Edge(g, p[i], p[i + 1]);
    }
    forall i, j | 0 <= i < j < |q| ensures q[i] != q[j] {
      SubPath(g, p, 0, j + 1);
      assert q[i] == q[j] ==> Returns(g, p[0], p[..j + 1], i);
    }
    Pigeonhole(q, g.Keys);
  }

  /** Where no cycle can be reached, the unfolding exists. */
  lemma {:induction false} Grow(g: Graph, p: seq<string>) returns (t: Tree)
    requires Path(g, p) && !ReachesCycle(g, p[0])
    ensures t.name == p[|p| - 1] && Unfolds(g, t)
    decreases |g| + 1 - |p|
  {
    var a := p[|p| - 1];
    if a !in g {
      t := Leaf(a);
    } else {
      var children: seq<Tree> := [];
      for i := 0 to |g[a]|
        invariant |children| == i
        invariant forall j :: 0 <= j < i ==> children[j].name == g[a][j] && Unfolds(g, children[j])
      {
        var q := p + [g[a][i]];
        assert forall j :: 0 <= j < |q| - 1 ==> Edge(g, q[j], q[j + 1]);
        PathBounded(g, q);
        var child := Grow(g, q);
        children := children + [child];
      }
      t := Node(a, children);
    }
  }

  /** An alias unfolds to a finite tree exactly when no cycle can be reached from it. */
  lemma {:induction false} TreeIffNoCycle(g: Graph, a: string)
    ensures HasTree(g, a) <==> !ReachesCycle(g, a)
  {
    if HasTree(g, a) && ReachesCycle(g, a) {
      var t: Tree :| t.name == a && Unfolds(g, t);
      var p, i: nat :| Returns(g, a, p, i);
      NoTreeOnCycle(g, t, p, i);
    }
    if !ReachesCycle(g, a) {
      assert Path(g, [a]);
      var t := Grow(g, [a]);
    }
  }

  // ----- How deep an unfolding is -----

  ghost predicate HeightAtMost(t: Tree, k: int) {
    match t
    case Leaf(_) => 0 <= k
    case Node(_, cs) => 1 <= k && forall i :: 0 <= i < |cs| ==> HeightAtMost(cs[i], k - 1)
  }

  /** An unfolding below a path of length |p| has height at most |g| + 1 - |p|: names on a path differ. */
  lemma {:induction false} HeightBelow(g: Graph, t: Tree, p: seq<string>)
    requires Unfolds(g, t) && Path(g, p) && t.name == p[|p| - 1] && !ReachesCycle(g, p[0])
    ensures HeightAtMost(t, |g| + 1 - |p|)
    decreases t
  {
    PathBounded(g, p);
    if t.Node? {
      forall i | 0 <= i < |t.children| ensures HeightAtMost(t.children[i], |g| - |p|) {
        var q := p + [t.children[i].name];
        assert forall j :: 0 <= j < |q| - 1 ==> Edge(g, q[j], q[j + 1]);
        PathBounded(g, q);
        HeightBelow(g, t.children[i], q);
      }
      if |g| + 1 - |p| < 1 {
        // p would consist of all aliases and end in one more
        forall i | 0 <= i < |p| ensures p[i] in g.Keys {
          if i < |p| - 1 { assert Edge(g, p[i], p[i + 1]); }
        }
        forall i, j | 0 <= i < j < |p| ensures p[i] != p[j] {
          SubPath(g, p, 0, j + 1);
          assert p[i] == p[j] ==> Returns(g, p[0], p[..j + 1], i);
        }
        Pigeonhole(p, g.Keys);
      }
    }
  }

  /** The pigeonhole bound: an unfolding is no deeper than the graph has aliases. */
  lemma {:induction false} HeightBound(g: Graph, t: Tree)
    requires Unfolds(g, t)
    ensures HeightAtMost(t, |g|)
  {
    TreeIffNoCycle(g, t.name);
    assert Path(g, [t.name]);
    HeightBelow(g, t, [t.name]);
  }

  // ----- The bounded recursion -----

  datatype Reduced = Expanded(names: seq<string>) | RecursionDetected

  /** reduce2: expand `alias`, giving up below a fixed depth. */
  function Reduce(g: Graph, alias: string, depth: nat): Reduced
    requires depth <= |g| + 2
    decreases |g| + 2 - depth, 0
  {
    if depth > |g| + 1 then RecursionDetected
    else if alias !in g then Expanded([alias])
    else ReduceAll(g, g[alias], depth + 1)
  }

  function ReduceAll(g: Graph, targets: seq<string>, depth: nat): Reduced
    requires depth <= |g| + 2
    decreases |g| + 2 - depth, 1 + |targets|
  {
    if targets == [] then Expanded([])
    else
      match Reduce(g, targets[0], depth)
      case RecursionDetected => RecursionDetected
      case Expanded(first) =>
        match ReduceAll(g, targets[1..], depth)
        case RecursionDetected => RecursionDetected
        case Expanded(rest) => Expanded(first + rest)
  }

  /** `h` is `g` with some aliases already replaced by their full expansions. */
  ghost predicate Rewritten(g: Graph, h: Graph) {
    && h.Keys == g.Keys
    && forall a :: a in g ==> h[a] == g[a] || exists t: Tree :: t.name == a && Unfolds(g, t) && h[a] == Leaves(t)
  }

  lemma {:induction false} ReduceLeaves(h: Graph, names: seq<string>, depth: nat)
    requires depth <= |h| + 1 && forall x :: x in names ==> x !in h
    ensures ReduceAll(h, names, depth) == Expanded(names)
  {
    if names == [] {
    } else {
      ReduceLeaves(h, names[1..], depth);
      assert [names[0]] + names[1..] == names;
    }
  }

  /** Expansion in a partly rewritten graph yields the leaves of the original unfolding. */
  lemma {:induction false} ReduceYields(g: Graph, h: Graph, t: Tree, depth: nat, k: nat)
    requires Rewritten(g, h) && Unfolds(g, t) && HeightAtMost(t, k) && depth + k <= |g| + 1
    ensures |h| == |g| && Reduce(h, t.name, depth) == Expanded(Leaves(t))
    decreases t, 0
  {
    assert |h| == |h.Keys| && |g| == |g.Keys|;
    if t.Node? {
      if h[t.name] == g[t.name] {
        ReduceAllYields(g, h, t.children, g[t.name], depth + 1, k - 1);
      } else {
        var u: Tree :| u.name == t.name && Unfolds(g, u) && h[t.name] == Leaves(u);
        UnfoldingUnique(g, t, u);
        LeavesAreNoAliases(g, t);
        ReduceLeaves(h, Leaves(t), depth + 1);
      }
    }
  }

  lemma {:induction false} ReduceAllYields(g: Graph, h: Graph, ts: seq<Tree>, targets: seq<string>, depth: nat, k: nat)
    requires Rewritten(g, h) && |ts| == |targets| && depth + k <= |g| + 1
    requires forall i :: 0 <= i < |ts| ==> ts[i].name == targets[i] && Unfolds(g, ts[i]) && HeightAtMost(ts[i], k)
    ensures |h| == |g| && ReduceAll(h, targets, depth) == Expanded(AllLeaves(ts))
    decreases ts, 1
  {
    assert |h| == |h.Keys| && |g| == |g.Keys|;
    if ts == [] {
    } else {
      ReduceYields(g, h, ts[0], depth, k);
      ReduceAllYields(g, h, ts[1..], targets[1..], depth, k);
    }
  }

  /** An expansion that does not give up exhibits the unfolding. */
  lemma {:induction false} ReduceTree(g: Graph, h: Graph, a: string, depth: nat) returns (t: Tree)
    requires Rewritten(g, h) && depth <= |h| + 2 && Reduce(h, a, depth).Expanded?
    ensures t.name == a && Unfolds(g, t)
    decreases |h| + 2 - depth, 0
  {
    if a !in g {
      t := Leaf(a);
    } else if h[a] == g[a] {
      var ts := ReduceTrees(g, h, g[a], depth + 1);
      t := Node(a, ts);
    } else {
      t :| t.name == a && Unfolds(g, t) && h[a] == Leaves(t);
    }
  }

  lemma {:induction false} ReduceTrees(g: Graph, h: Graph, targets: seq<string>, depth: nat) returns (ts: seq<Tree>)
    requires Rewritten(g, h) && depth <= |h| + 2 && ReduceAll(h, targets, depth).Expanded?
    ensures |ts| == |targets|
    ensures forall i :: 0 <= i < |ts| ==> ts[i].name == targets[i] && Unfolds(g, ts[i])
    decreases |h| + 2 - depth, 1 + |targets|
  {
    if targets == [] {
      ts := [];
    } else {
      var t := ReduceTree(g, h, targets[0], depth);
      var rest := ReduceTrees(g, h, targets[1..], depth);
      ts := [t] + rest;
    }
  }

  /**
   In a graph whose earlier aliases have been rewritten in place, the depth guard fires exactly
   on the aliases from which the original graph reaches a cycle; otherwise the expansion is the
   ordered leaves of the original unfolding.
   */
  lemma {:induction false} ReduceExact(g: Graph, h: Graph, a: string)
    requires Rewritten(g, h)
    ensures Reduce(h, a, 0).RecursionDetected? <==> ReachesCycle(g, a)
    ensures forall t: Tree :: t.name == a && Unfolds(g, t) ==> Reduce(h, a, 0) == Expanded(Leaves(t))
    ensures Reduce(h, a, 0).Expanded? ==> HasTree(g, a)
  {
    TreeIffNoCycle(g, a);
    forall t: Tree | t.name == a && Unfolds(g, t) ensures Reduce(h, a, 0) == Expanded(Leaves(t)) {
      HeightBound(g, t);
      ReduceYields(g, h, t, 0, |g|);
    }
    if Reduce(h, a, 0).Expanded? {
      var t := ReduceTree(g, h, a, 0);
    }
  }
}
