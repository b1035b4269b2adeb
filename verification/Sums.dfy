/** Finite sums over sequences, and the counting facts every component reuses. */
module Sums {

  /** The sum of f over the elements of s. */
  function Sum<T>(f: T -> int, s: seq<T>): int {
    if s == [] then 0 else Sum(f, s[..|s| - 1]) + f(s[|s| - 1])
  }

  /** The parts of ss one after another. */
  function Flatten<T>(ss: seq<seq<T>>): seq<T> {
    if ss == [] then [] else Flatten(ss[..|ss| - 1]) + ss[|ss| - 1]
  }

  lemma {:induction false} SumConcat<T>(f: T -> int, s: seq<T>, t: seq<T>)
    ensures Sum(f, s + t) == Sum(f, s) + Sum(f, t)
  {
    if t == [] {
      assert s + t == s;
    } else {
      SumConcat(f, s, t[..|t| - 1]);
      assert (s + t)[..|s + t| - 1] == s + t[..|t| - 1];
    }
  }

  lemma SumOne<T>(f: T -> int, x: T)
    ensures Sum(f, [x]) == f(x)
  {
    assert [x][..0] == [];
  }

  /** Taking one element out takes its summand out. */
  lemma {:induction false} SumRemove<T>(f: T -> int, s: seq<T>, i: nat)
    requires i < |s|
    ensures Sum(f, s) == Sum(f, s[..i] + s[i + 1..]) + f(s[i])
    ensures multiset(s[..i] + s[i + 1..]) == multiset(s) - multiset{s[i]}
  {
    assert s == s[..i] + ([s[i]] + s[i + 1..]);
    SumConcat(f, s[..i], [s[i]] + s[i + 1..]);
    SumConcat(f, [s[i]], s[i + 1..]);
    SumConcat(f, s[..i], s[i + 1..]);
    assert Sum(f, [s[i]]) == f(s[i]);
  }

  /** Sums do not depend on the order of the elements. */
  lemma {:induction false} SumPermutation<T>(f: T -> int, s: seq<T>, t: seq<T>)
    requires multiset(s) == multiset(t)
    ensures Sum(f, s) == Sum(f, t)
    decreases |s|
  {
    if s == [] {
      assert |multiset(t)| == 0;
    } else {
      var last := |s| - 1;
      assert s[last] in multiset(t);
      var i :| 0 <= i < |t| && t[i] == s[last];
      SumRemove(f, s, last);
      SumRemove(f, t, i);
      SumPermutation(f, s[..last] + s[last + 1..], t[..i] + t[i + 1..]);
    }
  }

  /** Summing part by part is summing the whole. */
  lemma {:induction false} SumFlatten<T>(f: T -> int, ss: seq<seq<T>>)
    ensures Sum(f, Flatten(ss)) == Sum((s: seq<T>) => Sum(f, s), ss)
  {
    if ss != [] {
      SumFlatten(f, ss[..|ss| - 1]);
      SumConcat(f, Flatten(ss[..|ss| - 1]), ss[|ss| - 1]);
    }
  }

  lemma {:induction false} SumBelow<T>(f: T -> int, s: seq<T>, bound: int)
    requires forall x :: x in s ==> f(x) <= bound
    ensures Sum(f, s) <= |s| * bound
  {
    if s != [] {
      SumBelow(f, s[..|s| - 1], bound);
    }
  }

  lemma {:induction false} SumAbove<T>(f: T -> int, s: seq<T>, bound: int)
    requires forall x :: x in s ==> f(x) >= bound
    ensures Sum(f, s) >= |s| * bound
  {
    if s != [] {
      SumAbove(f, s[..|s| - 1], bound);
    }
  }

  lemma {:induction false} SumExtensional<T>(f: T -> int, g: T -> int, s: seq<T>)
    requires forall x :: x in s ==> f(x) == g(x)
    ensures Sum(f, s) == Sum(g, s)
  {
    if s != [] {
      SumExtensional(f, g, s[..|s| - 1]);
    }
  }

  /** An element at two places has multiplicity two at least. */
  lemma SeenTwice<T>(s: seq<T>, i: nat, j: nat)
    requires i < j < |s| && s[i] == s[j]
    ensures multiset(s)[s[i]] >= 2
  {
    assert s == s[..j] + s[j..];
    assert s[i] in s[..j] && s[j] in s[j..];
    assert multiset(s[..j])[s[i]] >= 1 && multiset(s[j..])[s[i]] >= 1;
  }
}
