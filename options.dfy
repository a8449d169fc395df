/** The candidate set of one cell or one group view: a flag per value (or per
    position) plus a cached count of the flags that are set. */
module Candidates {

  datatype Options = Options(numOpts: nat, isOpt: seq<bool>)

  /** 1 for a set flag, 0 otherwise. */
  function Bit(b: bool): nat
  {
    if b then 1 else 0
  }

  /** The number of set flags. */
  function Count(s: seq<bool>): (c: nat)
    ensures c <= |s|
    ensures c == 0 <==> forall k :: 0 <= k < |s| ==> !s[k]
  {
    if |s| == 0 then 0 else Count(s[..|s| - 1]) + Bit(s[|s| - 1])
  }

  /** `o` has `n` flags and its cached count is right. */
  ghost predicate WellFormed(o: Options, n: nat)
  {
    |o.isOpt| == n && o.numOpts == Count(o.isOpt)
  }

  /** A well-formed set that still admits at least one candidate. */
  ghost predicate Live(o: Options, n: nat)
  {
    WellFormed(o, n) && o.numOpts >= 1
  }

  /** Every flag of `a` is set in `b`. */
  ghost predicate Within(a: Options, b: Options)
  {
    |a.isOpt| == |b.isOpt| && forall k :: 0 <= k < |a.isOpt| && a.isOpt[k] ==> b.isOpt[k]
  }

  /** The default candidate set: every one of the `n` values is allowed. */
  function Full(n: nat): (r: Options)
    ensures WellFormed(r, n) && r.numOpts == n
    ensures forall k :: 0 <= k < n ==> r.isOpt[k]
  {
    CountAllTrue(seq(n, _ => true));
    Options(n, seq(n, _ => true))
  }

  /** Takes candidate `opt` out of a set that keeps another one. */
  function Remove(o: Options, opt: nat): (r: Options)
    requires WellFormed(o, |o.isOpt|)
    requires opt < |o.isOpt| && o.isOpt[opt] && o.numOpts > 1
    ensures WellFormed(r, |o.isOpt|) && r.numOpts == o.numOpts - 1 && r.numOpts >= 1
    ensures !r.isOpt[opt]
    ensures forall k :: 0 <= k < |o.isOpt| && k != opt ==> r.isOpt[k] == o.isOpt[k]
  {
    CountUpdate(o.isOpt, opt, false);
    Options(o.numOpts - 1, o.isOpt[opt := false])
  }

  /** The candidates allowed by either set. */
  function Union(a: Options, b: Options): (r: Options)
    requires |a.isOpt| == |b.isOpt|
    ensures WellFormed(r, |a.isOpt|)
    ensures forall k :: 0 <= k < |a.isOpt| ==> r.isOpt[k] == (a.isOpt[k] || b.isOpt[k])
  {
    var flags := seq(|a.isOpt|, k requires 0 <= k < |a.isOpt| => a.isOpt[k] || b.isOpt[k]);
    Options(Count(flags), flags)
  }

  /** Unions the flags of `b` into `a`, recounting as it goes. */
  method Merge(a: Options, b: Options) returns (r: Options)
    requires |a.isOpt| == |b.isOpt|
    ensures r == Union(a, b)
  {
    var n := |a.isOpt|;
    var flags := a.isOpt;
    var numOpts: nat := 0;
    var opt := 0;
    while opt < n
      invariant opt <= n && |flags| == n
      invariant forall k :: 0 <= k < opt ==> flags[k] == (a.isOpt[k] || b.isOpt[k])
      invariant forall k :: opt <= k < n ==> flags[k] == a.isOpt[k]
      invariant numOpts == Count(flags[..opt])
    {
      flags := flags[opt := flags[opt] || b.isOpt[opt]];
      assert flags[..opt + 1][..opt] == flags[..opt];
      numOpts := numOpts + Bit(flags[opt]);
      opt := opt + 1;
    }
    assert flags[..n] == flags;
    r := Options(numOpts, flags);
    assert r.isOpt == Union(a, b).isOpt;
  }

  /** The single remaining candidate of a set with count 1. */
  method Get(o: Options) returns (opt: nat)
    requires WellFormed(o, |o.isOpt|) && o.numOpts == 1
    ensures opt < |o.isOpt| && o.isOpt[opt]
    ensures forall k :: 0 <= k < |o.isOpt| && k != opt ==> !o.isOpt[k]
  {
    opt := 0;
    while !o.isOpt[opt]
      invariant exists k :: opt <= k < |o.isOpt| && o.isOpt[k]
      decreases |o.isOpt| - opt
    {
      opt := opt + 1;
    }
    CountOne(o.isOpt, opt);
  }

  // Facts about Count.

  lemma {:induction false} CountUpdate(s: seq<bool>, i: nat, b: bool)
    requires i < |s|
    ensures Count(s[i := b]) + Bit(s[i]) == Count(s) + Bit(b)
    decreases |s|
  {
    var t := s[i := b];
    var last := |s| - 1;
    assert t[..last] == if i == last then s[..last] else s[..last][i := b];
    if i < last {
      CountUpdate(s[..last], i, b);
    }
  }

  /** Writing flag `i` and extending a counted prefix over it. */
  lemma CountMark(s: seq<bool>, i: nat, b: bool)
    requires i < |s|
    ensures Count(s[i := b][..i + 1]) == Count(s[..i]) + Bit(b)
  {
    assert s[i := b][..i + 1][..i] == s[..i];
  }

  /** Counting is monotone in the flags, strictly when a flag is lost. */
  lemma {:induction false} CountWithin(a: seq<bool>, b: seq<bool>)
    requires |a| == |b| && forall k :: 0 <= k < |a| && a[k] ==> b[k]
    ensures Count(a) <= Count(b)
    ensures (exists k :: 0 <= k < |a| && b[k] && !a[k]) ==> Count(a) < Count(b)
    decreases |a|
  {
    if |a| > 0 {
      var last := |a| - 1;
      CountWithin(a[..last], b[..last]);
      if exists k :: 0 <= k < |a| && b[k] && !a[k] {
        var k :| 0 <= k < |a| && b[k] && !a[k];
        if k < last {
          assert b[..last][k] && !a[..last][k];
        }
      }
    }
  }

  /** With flag `i` set, a count of 1 means no other flag is set, and back. */
  lemma {:induction false} CountOne(s: seq<bool>, i: nat)
    requires i < |s| && s[i]
    ensures Count(s) == 1 <==> forall k :: 0 <= k < |s| && k != i ==> !s[k]
    decreases |s|
  {
    var last := |s| - 1;
    if i == last {
      assert Count(s) == Count(s[..last]) + 1;
      assert (forall k :: 0 <= k < |s| && k != i ==> !s[k]) <==> (forall k :: 0 <= k < last ==> !s[..last][k]);
    } else {
      CountOne(s[..last], i);
      if s[last] {
        assert Count(s[..last]) >= 1;
      }
      assert (forall k :: 0 <= k < |s| && k != i ==> !s[k]) <==>
        (!s[last] && forall k :: 0 <= k < last && k != i ==> !s[..last][k]);
    }
  }

  /** All flags are set exactly when the count is the length. */
  lemma {:induction false} CountAllTrue(s: seq<bool>)
    ensures Count(s) == |s| <==> forall k :: 0 <= k < |s| ==> s[k]
    decreases |s|
  {
    if |s| > 0 {
      var last := |s| - 1;
      CountAllTrue(s[..last]);
      assert (forall k :: 0 <= k < |s| ==> s[k]) <==> s[last] && forall k :: 0 <= k < last ==> s[..last][k];
    }
  }

  // Facts about candidate sets.

  /** A set with two different flags set has more than one candidate. */
  lemma TwoFlags(o: Options, a: nat, b: nat)
    requires WellFormed(o, |o.isOpt|) && a < |o.isOpt| && b < |o.isOpt| && a != b
    requires o.isOpt[a] && o.isOpt[b]
    ensures o.numOpts > 1
  {
    CountOne(o.isOpt, a);
  }

  /** A live set that lies within a singleton is that singleton. */
  lemma SingletonStable(a: Options, b: Options, n: nat, v: nat)
    requires Live(a, n) && WellFormed(b, n) && Within(a, b)
    requires v < n && b.isOpt[v] && b.numOpts == 1
    ensures a.isOpt == b.isOpt && a.numOpts == 1
  {
    CountOne(b.isOpt, v);
    assert a.isOpt[v];
    CountOne(a.isOpt, v);
  }

  /** The union is the smallest set containing both operands; it is live when
      either operand is, and a well-formed set united with itself is unchanged. */
  lemma UnionBounds(a: Options, b: Options, n: nat)
    requires WellFormed(a, n) && WellFormed(b, n)
    ensures Within(a, Union(a, b)) && Within(b, Union(a, b))
    ensures forall c: Options :: Within(a, c) && Within(b, c) ==> Within(Union(a, b), c)
    ensures Live(a, n) || Live(b, n) ==> Live(Union(a, b), n)
    ensures a == b ==> Union(a, b) == a
  {
    var u := Union(a, b);
    CountWithin(a.isOpt, u.isOpt);
    CountWithin(b.isOpt, u.isOpt);
    if a == b {
      assert u.isOpt == a.isOpt;
    }
  }

  /** A set within another, with one of the other's flags missing, has a
      smaller count. */
  lemma ShrinkCount(a: Options, b: Options, n: nat)
    requires WellFormed(a, n) && WellFormed(b, n) && Within(a, b)
    ensures a.numOpts <= b.numOpts
    ensures a.isOpt != b.isOpt ==> a.numOpts < b.numOpts
  {
    if a.isOpt != b.isOpt {
      var k :| 0 <= k < n && a.isOpt[k] != b.isOpt[k];
    }
    CountWithin(a.isOpt, b.isOpt);
  }
}
