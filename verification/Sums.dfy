/** Totals and counts over sequences, and how a single update changes them. */
module Sums {

  /** The total of `f` over the elements of `s`. */
  ghost function Total<T>(f: T -> int, s: seq<T>): int {
    if s == [] then 0 else f(s[0]) + Total(f, s[1..])
  }

  /** Replacing one element changes the total by the difference of the two weights. */
  lemma {:induction false} TotalUpdate<T>(f: T -> int, s: seq<T>, i: nat, x: T)
    requires i < |s|
    ensures Total(f, s[i := x]) == Total(f, s) - f(s[i]) + f(x)
  {
    if i == 0 {
      assert s[i := x][1..] == s[1..];
    } else {
      TotalUpdate(f, s[1..], i - 1, x);
      assert s[i := x][1..] == s[1..][i - 1 := x];
    }
  }

  /** A pointwise smaller sequence has a smaller total. */
  lemma {:induction false} TotalMonotone<T>(f: T -> int, s: seq<T>, t: seq<T>)
    requires |s| == |t|
    requires forall i :: 0 <= i < |s| ==> f(s[i]) <= f(t[i])
    ensures Total(f, s) <= Total(f, t)
  {
    if s == [] {
    } else {
      forall i | 0 <= i < |s[1..]| ensures f(s[1..][i]) <= f(t[1..][i]) {
        assert f(s[i + 1]) <= f(t[i + 1]);
      }
      TotalMonotone(f, s[1..], t[1..]);
    }
  }

  /** Totals of non-negative weights are non-negative, and each element is at most the total. */
  lemma {:induction false} TotalBounds<T>(f: T -> int, s: seq<T>)
    requires forall i :: 0 <= i < |s| ==> 0 <= f(s[i])
    ensures 0 <= Total(f, s)
    ensures forall i :: 0 <= i < |s| ==> f(s[i]) <= Total(f, s)
  {
    if s == [] {
    } else {
      forall i | 0 <= i < |s[1..]| ensures 0 <= f(s[1..][i]) {
        assert 0 <= f(s[i + 1]);
      }
      TotalBounds(f, s[1..]);
      forall i | 0 <= i < |s| ensures f(s[i]) <= Total(f, s) {
        if i > 0 { assert s[i] == s[1..][i - 1]; }
      }
    }
  }

  /** The total of a concatenation is the sum of the totals. */
  lemma {:induction false} TotalConcat<T>(f: T -> int, s: seq<T>, t: seq<T>)
    ensures Total(f, s + t) == Total(f, s) + Total(f, t)
  {
    if s == [] {
      assert s + t == t;
    } else {
      TotalConcat(f, s[1..], t);
      assert (s + t)[1..] == s[1..] + t;
    }
  }

  /** A sequence whose elements all weigh `w` has total `w * |s|`. */
  lemma {:induction false} TotalConstant<T>(f: T -> int, s: seq<T>, w: int)
    requires forall i :: 0 <= i < |s| ==> f(s[i]) == w
    ensures Total(f, s) == w * |s|
  {
    if s == [] {
    } else {
      forall i | 0 <= i < |s[1..]| ensures f(s[1..][i]) == w {
        assert f(s[i + 1]) == w;
      }
      TotalConstant(f, s[1..], w);
    }
  }
}
