/** Sequence helpers the server shares: removing repeats while keeping
    first appearances, filtering, reversing, and the clamp every paginated query applies to its
    `limit` argument. */
module Lists {
  import opened Wrappers

  /** The position of the first element of `xs` whose key is `k`: what an
      index query's `.first()` returns when the table keeps its documents
      in insertion order. */
  function FirstWith<T>(xs: seq<T>, key: T -> string, k: string): (r: Option<nat>)
    ensures r.Some? ==> r.value < |xs| && key(xs[r.value]) == k
    ensures r.Some? ==> forall j :: 0 <= j < r.value ==> key(xs[j]) != k
    ensures r.None? ==> forall j :: 0 <= j < |xs| ==> key(xs[j]) != k
  {
    if xs == [] then None
    else if key(xs[0]) == k then Some(0)
    else
      var rest := FirstWith(xs[1..], key, k);
      if rest.Some? then Some(rest.value + 1) else None
  }

  /** The key of every element of `xs`, in order. */
  function KeysOf<T>(xs: seq<T>, key: T -> string): (r: seq<string>)
    ensures |r| == |xs| && forall i :: 0 <= i < |xs| ==> r[i] == key(xs[i])
  {
    if xs == [] then [] else [key(xs[0])] + KeysOf(xs[1..], key)
  }

  /** No element occurs twice. */
  predicate NoDups<T(==,!new)>(s: seq<T>) {
    forall i, j :: 0 <= i < j < |s| ==> s[i] != s[j]
  }

  /** The position of the first occurrence of `x` in `xs`. */
  function FirstIndex<T(==,!new)>(xs: seq<T>, x: T): (k: nat)
    requires x in xs
    ensures k < |xs| && xs[k] == x
    ensures forall j :: 0 <= j < k ==> xs[j] != x
  {
    if xs[0] == x then 0 else 1 + FirstIndex(xs[1..], x)
  }

  /** The elements of `xs` without repeats, each where it first appears:
      what `Array.from(new Set(xs))` builds, and what a loop that pushes
      every key not seen before builds. */
  function Dedup<T(==,!new)>(xs: seq<T>): (d: seq<T>)
    ensures forall x :: x in d <==> x in xs
    ensures NoDups(d)
    ensures |d| <= |xs|
  {
    if xs == [] then []
    else
      var prev := Dedup(xs[..|xs| - 1]);
      var x := xs[|xs| - 1];
      assert xs == xs[..|xs| - 1] + [x];
      if x in prev then prev else prev + [x]
  }

  /** Looking only at a prefix of the input does not move an element's
      first occurrence. */
  lemma FirstIndexPrefix<T(!new)>(xs: seq<T>, n: nat, x: T)
    requires n <= |xs| && x in xs[..n]
    ensures x in xs && FirstIndex(xs, x) == FirstIndex(xs[..n], x)
  {
    var k := FirstIndex(xs[..n], x);
    assert xs[k] == x;
    var f := FirstIndex(xs, x);
    assert f <= k;
    assert xs[..n][f] == x;
  }

  /** `Dedup` keeps the order of first appearances. */
  lemma {:induction false} DedupOrder<T(!new)>(xs: seq<T>)
    ensures forall i, j :: 0 <= i < j < |Dedup(xs)| ==>
      FirstIndex(xs, Dedup(xs)[i]) < FirstIndex(xs, Dedup(xs)[j])
  {
    if xs != [] {
      var n := |xs| - 1;
      var init := xs[..n];
      var prev := Dedup(init);
      DedupOrder(init);
      assert forall i :: 0 <= i < |prev| ==> prev[i] in prev;
      FirstIndicesKept(xs, prev);
      if xs[n] in prev {
        assert Dedup(xs) == prev;
      } else {
        LastFirstIndex(xs);
        assert Dedup(xs) == prev + [xs[n]];
      }
    }
  }

  /** Elements of the input but its last keep their first index, which
      comes before the last position. */
  lemma FirstIndicesKept<T(!new)>(xs: seq<T>, prev: seq<T>)
    requires xs != []
    requires forall i :: 0 <= i < |prev| ==> prev[i] in xs[..|xs| - 1]
    requires forall i, j :: 0 <= i < j < |prev| ==>
      FirstIndex(xs[..|xs| - 1], prev[i]) < FirstIndex(xs[..|xs| - 1], prev[j])
    ensures forall i :: 0 <= i < |prev| ==> prev[i] in xs
    ensures forall i :: 0 <= i < |prev| ==> FirstIndex(xs, prev[i]) < |xs| - 1
    ensures forall i, j :: 0 <= i < j < |prev| ==> FirstIndex(xs, prev[i]) < FirstIndex(xs, prev[j])
  {
    forall i | 0 <= i < |prev|
      ensures prev[i] in xs && FirstIndex(xs, prev[i]) == FirstIndex(xs[..|xs| - 1], prev[i])
    {
      FirstIndexPrefix(xs, |xs| - 1, prev[i]);
    }
  }

  /** An element first seen at the last position has that position as its
      first index. */
  lemma LastFirstIndex<T(!new)>(xs: seq<T>)
    requires xs != [] && xs[|xs| - 1] !in xs[..|xs| - 1]
    ensures FirstIndex(xs, xs[|xs| - 1]) == |xs| - 1
  {
    var n := |xs| - 1;
    forall j | 0 <= j < n ensures xs[j] != xs[n] {
      assert xs[j] == xs[..n][j];
    }
  }

  /** `Dedup` of a prefix is a prefix of `Dedup` of the whole input. */
  lemma {:induction false} DedupPrefix<T(!new)>(xs: seq<T>, k: nat)
    requires k <= |xs|
    ensures |Dedup(xs[..k])| <= |Dedup(xs)|
    ensures Dedup(xs)[..|Dedup(xs[..k])|] == Dedup(xs[..k])
    decreases |xs| - k
  {
    if k == |xs| {
      assert xs[..k] == xs;
    } else {
      var n := |xs| - 1;
      DedupPrefix(xs[..n], k);
      assert xs[..n][..k] == xs[..k];
    }
  }

  /** One more input element adds at most one output element. */
  lemma DedupStep<T(!new)>(xs: seq<T>, k: nat)
    requires k < |xs|
    ensures Dedup(xs[..k + 1]) == if xs[k] in Dedup(xs[..k]) then Dedup(xs[..k]) else Dedup(xs[..k]) + [xs[k]]
  {
    assert xs[..k + 1][..k] == xs[..k];
  }

  function Max1(n: int): int {
    if n < 1 then 1 else n
  }

  function Min(a: int, b: int): int {
    if a < b then a else b
  }

  /** The loop of `getPlayerHistory`: push every key not seen before and
      stop once `limit` keys are collected. The result is the first
      `limit` distinct keys in order of first appearance (at least one key
      is always taken before the limit is checked). */
  method UniqueUpTo<T(==,!new)>(keys: seq<T>, limit: int) returns (unique: seq<T>)
    ensures unique == Dedup(keys)[..Min(Max1(limit), |Dedup(keys)|)]
    ensures NoDups(unique) && |unique| <= Max1(limit)
  {
    var seen: set<T> := {};
    unique := [];
    var k := 0;
    while k < |keys|
      invariant 0 <= k <= |keys|
      invariant unique == Dedup(keys[..k])
      invariant forall x :: x in seen <==> x in unique
      invariant |unique| < Max1(limit)
      decreases |keys| - k
    {
      var key := keys[k];
      DedupStep(keys, k);
      if key !in seen {
        seen := seen + {key};
        unique := unique + [key];
      }
      k := k + 1;
      if |unique| >= limit {
        DedupPrefix(keys, k);
        return;
      }
    }
    assert keys[..k] == keys;
  }

  /** The elements of `xs` that satisfy `p`, in their order in `xs`. */
  function Keep<T(!new)>(xs: seq<T>, p: T -> bool): (r: seq<T>)
    ensures |r| <= |xs|
    ensures forall x :: x in r <==> x in xs && p(x)
  {
    if xs == [] then [] else (if p(xs[0]) then [xs[0]] else []) + Keep(xs[1..], p)
  }

  /** Filtering a sequence with one more element at the end filters the
      rest and keeps that element exactly when it satisfies `p`. */
  lemma {:induction false} KeepSnoc<T(!new)>(xs: seq<T>, x: T, p: T -> bool)
    ensures Keep(xs + [x], p) == Keep(xs, p) + (if p(x) then [x] else [])
  {
    if xs != [] {
      assert (xs + [x])[1..] == xs[1..] + [x];
      KeepSnoc(xs[1..], x, p);
    }
  }

  /** Filtering a sequence without repeats gives one without repeats. */
  lemma {:induction false} KeepNoDups<T(!new)>(xs: seq<T>, p: T -> bool)
    requires NoDups(xs)
    ensures NoDups(Keep(xs, p))
  {
    if xs != [] {
      assert NoDups(xs[1..]) by {
        assert forall i :: 0 <= i < |xs[1..]| ==> xs[1..][i] == xs[i + 1];
      }
      KeepNoDups(xs[1..], p);
      assert xs[0] !in xs[1..];
    }
  }

  /** The elements of `xs` in the opposite order. */
  function Reverse<T(!new)>(xs: seq<T>): (r: seq<T>)
    ensures |r| == |xs|
    ensures forall x :: x in r <==> x in xs
  {
    if xs == [] then [] else Reverse(xs[1..]) + [xs[0]]
  }

  /** Position `i` of the reversal holds the element `i` places from the end. */
  lemma {:induction false} ReverseIndex<T(!new)>(xs: seq<T>)
    ensures forall i :: 0 <= i < |xs| ==> Reverse(xs)[i] == xs[|xs| - 1 - i]
  {
    if xs != [] {
      ReverseIndex(xs[1..]);
    }
  }

  /** Reversing a sequence with one more element at the end puts that
      element first. */
  lemma ReverseSnoc<T(!new)>(xs: seq<T>, x: T)
    ensures Reverse(xs + [x]) == [x] + Reverse(xs)
  {
    ReverseIndex(xs);
    ReverseIndex(xs + [x]);
    assert forall i :: 0 <= i < |xs| + 1 ==> Reverse(xs + [x])[i] == ([x] + Reverse(xs))[i];
  }

  /** `Math.min(Math.max(arg ?? default, 1), 100)`. */
  function ClampLimit(arg: Option<int>, default: int): (n: int)
    ensures 1 <= n <= 100
    ensures var requested := arg.GetOr(default);
      && (1 <= requested <= 100 ==> n == requested)
      && (requested < 1 ==> n == 1)
      && (requested > 100 ==> n == 100)
  {
    var requested := arg.GetOr(default);
    if requested < 1 then 1 else if requested > 100 then 100 else requested
  }

  /** Clamping a clamped limit again changes nothing. */
  lemma ClampLimitIdempotent(arg: Option<int>, default: int, default': int)
    ensures ClampLimit(Some(ClampLimit(arg, default)), default') == ClampLimit(arg, default)
  {
  }
}
