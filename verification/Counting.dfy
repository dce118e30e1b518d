/** How many elements of a sequence satisfy a predicate, and how that changes as the
    sequence is used as a queue or as a pool of tasks. */
module Counting {
  import opened Wire

  ghost function Count<T>(s: seq<T>, p: T -> bool): nat {
    if s == [] then 0
    else Count(s[..|s| - 1], p) + if p(s[|s| - 1]) then 1 else 0
  }

  lemma CountPush<T>(s: seq<T>, x: T, p: T -> bool)
    ensures Count(s + [x], p) == Count(s, p) + if p(x) then 1 else 0
  {
    assert (s + [x])[..|s|] == s;
  }

  lemma {:induction false} CountWithout<T>(s: seq<T>, k: nat, p: T -> bool)
    requires k < |s|
    ensures Count(Without(s, k), p) == Count(s, p) - if p(s[k]) then 1 else 0
  {
    var n := |s| - 1;
    if k < n {
      CountWithout(s[..n], k, p);
      assert Without(s, k)[..n - 1] == Without(s[..n], k);
    } else {
      assert Without(s, k) == s[..n];
    }
  }

  lemma CountPop<T>(s: seq<T>, p: T -> bool)
    requires s != []
    ensures Count(s[1..], p) == Count(s, p) - if p(s[0]) then 1 else 0
  {
    CountWithout(s, 0, p);
    assert Without(s, 0) == s[1..];
  }

  lemma CountAt<T>(s: seq<T>, k: nat, p: T -> bool)
    requires k < |s| && p(s[k])
    ensures Count(s, p) >= 1
  {
    CountWithout(s, k, p);
  }

  lemma {:induction false} CountWitness<T>(s: seq<T>, p: T -> bool) returns (k: nat)
    requires Count(s, p) >= 1
    ensures k < |s| && p(s[k])
  {
    var n := |s| - 1;
    if p(s[n]) {
      k := n;
    } else {
      k := CountWitness(s[..n], p);
    }
  }

  lemma {:induction false} CountUpdate<T>(s: seq<T>, i: nat, v: T, p: T -> bool)
    requires i < |s|
    ensures Count(s[i := v], p) == Count(s, p) - (if p(s[i]) then 1 else 0) + if p(v) then 1 else 0
  {
    CountWithout(s, i, p);
    CountWithout(s[i := v], i, p);
    assert Without(s, i) == Without(s[i := v], i);
  }

  lemma {:induction false} CountNone<T>(s: seq<T>, p: T -> bool)
    requires forall x | x in s :: !p(x)
    ensures Count(s, p) == 0
  {
    if s != [] {
      CountNone(s[..|s| - 1], p);
    }
  }

  lemma {:induction false} CountImplies<T>(s: seq<T>, p: T -> bool, q: T -> bool)
    requires forall x | x in s && p(x) :: q(x)
    ensures Count(s, p) <= Count(s, q)
  {
    if s != [] {
      CountImplies(s[..|s| - 1], p, q);
    }
  }
}
