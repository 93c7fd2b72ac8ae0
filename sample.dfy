/** Preparation of the sample of times-to-failure: sorting, sum, mean, maximum. */
module Sample {

  function Sum(s: seq<nat>): nat
  {
    if s == [] then 0 else s[0] + Sum(s[1..])
  }

  predicate IsAscending(s: seq<nat>)
  {
    forall i, j :: 0 <= i < j < |s| ==> s[i] <= s[j]
  }

  /** Inserts `x` into an ascending sequence, keeping it ascending. */
  function Insert(x: nat, s: seq<nat>): (r: seq<nat>)
    requires IsAscending(s)
    ensures IsAscending(r)
    ensures multiset(r) == multiset(s) + multiset{x}
  {
    if s == [] then [x]
    else if x <= s[0] then [x] + s
    else
      var rest := Insert(x, s[1..]);
      assert s == [s[0]] + s[1..];
      PrependBelow(s[0], s[1..], x, rest);
      [s[0]] + rest
  }

  /** A head not above an ascending tail, nor above `x`, stays below the tail with `x` added. */
  lemma {:induction false} PrependBelow(h: nat, tail: seq<nat>, x: nat, rest: seq<nat>)
    requires IsAscending([h] + tail) && h <= x
    requires IsAscending(rest) && multiset(rest) == multiset(tail) + multiset{x}
    ensures IsAscending([h] + rest)
  {
    forall k | 0 <= k < |rest|
      ensures h <= rest[k]
    {
      assert rest[k] in multiset(rest);
      if rest[k] != x {
        assert rest[k] in multiset(tail);
        var j :| 0 <= j < |tail| && tail[j] == rest[k];
        assert ([h] + tail)[0] == h && ([h] + tail)[j + 1] == tail[j];
      }
    }
    forall i, j | 0 <= i < j < |[h] + rest|
      ensures ([h] + rest)[i] <= ([h] + rest)[j]
    {
      if i > 0 {
        assert ([h] + rest)[i] == rest[i - 1];
      }
    }
  }

  /** Python's `sorted`: an ascending rearrangement of the sample. */
  function SortAscending(s: seq<nat>): (r: seq<nat>)
    ensures IsAscending(r)
    ensures multiset(r) == multiset(s)
  {
    if s == [] then []
    else
      assert s == [s[0]] + s[1..];
      Insert(s[0], SortAscending(s[1..]))
  }

  /** Python's `max` on a non-empty sample. */
  function Max(s: seq<nat>): (m: nat)
    requires |s| > 0
    ensures m in s
    ensures forall i :: 0 <= i < |s| ==> s[i] <= m
  {
    if |s| == 1 then s[0]
    else
      var rest := Max(s[1..]);
      if s[0] >= rest then s[0] else rest
  }

  /** The arithmetic mean `sum / len`; the empty sample has none. */
  function Mean(s: seq<nat>): real
    requires |s| > 0
  {
    Sum(s) as real / |s| as real
  }

  lemma {:induction false} SumAtMost(s: seq<nat>, bound: nat)
    requires forall i :: 0 <= i < |s| ==> s[i] <= bound
    ensures Sum(s) <= |s| * bound
  {
    if s != [] {
      SumAtMost(s[1..], bound);
    }
  }

  /** The mean lies between 0 and the largest observation. */
  lemma {:induction false} MeanBounds(s: seq<nat>)
    requires |s| > 0
    ensures 0.0 <= Mean(s) <= Max(s) as real
  {
    MeanAtMost(s, Max(s));
  }

  lemma {:induction false} MeanAtMost(s: seq<nat>, bound: nat)
    requires |s| > 0
    requires forall i :: 0 <= i < |s| ==> s[i] <= bound
    ensures 0.0 <= Mean(s) <= bound as real
  {
    SumAtMost(s, bound);
    RatioAtMost(Sum(s), |s|, bound);
  }

  lemma {:induction false} RatioAtMost(t: nat, n: nat, bound: nat)
    requires n > 0 && t <= n * bound
    ensures 0.0 <= (t as real) / (n as real) <= bound as real
  {
    assert (n * bound) as real == n as real * bound as real;
    assert (t as real) <= (n as real) * (bound as real);
  }

  /** The largest element does not depend on the order of the sample; so the
      maximum of the sorted copy equals the maximum of the caller's list. */
  lemma {:induction false} MaxOfPermutation(a: seq<nat>, b: seq<nat>)
    requires |a| > 0 && multiset(a) == multiset(b)
    ensures |b| > 0 && Max(a) == Max(b)
  {
    assert |b| == |multiset(b)| == |multiset(a)| == |a|;
    var ma, mb := Max(a), Max(b);
    assert ma in multiset(b);
    assert mb in multiset(a);
    var i :| 0 <= i < |b| && b[i] == ma;
    var j :| 0 <= j < |a| && a[j] == mb;
  }

  /** Sorting preserves the sum, so the mean of the sorted copy is the mean of the input. */
  lemma {:induction false} SumOfPermutation(a: seq<nat>, b: seq<nat>)
    requires multiset(a) == multiset(b)
    ensures Sum(a) == Sum(b)
    decreases |a|
  {
    if a != [] {
      assert a[0] in multiset(b);
      var k :| 0 <= k < |b| && b[k] == a[0];
      var rest := b[..k] + b[k + 1..];
      MultisetRemove(b, k);
      MultisetTail(a);
      SumOfPermutation(a[1..], rest);
      SumRemove(b, k);
    }
  }

  lemma {:induction false} MultisetRemove(s: seq<nat>, k: nat)
    requires k < |s|
    ensures multiset(s[..k] + s[k + 1..]) == multiset(s) - multiset{s[k]}
  {
    assert s == s[..k] + [s[k]] + s[k + 1..];
  }

  lemma {:induction false} MultisetTail(s: seq<nat>)
    requires s != []
    ensures multiset(s[1..]) == multiset(s) - multiset{s[0]}
  {
    assert s == [s[0]] + s[1..];
  }

  lemma {:induction false} SumRemove(s: seq<nat>, k: nat)
    requires k < |s|
    ensures Sum(s) == s[k] + Sum(s[..k] + s[k + 1..])
  {
    var rest := s[..k] + s[k + 1..];
    if k > 0 {
      var tail := s[1..];
      var j: nat := k - 1;
      SumRemove(tail, j);
      assert rest[1..] == tail[..j] + tail[j + 1..];
      assert rest[0] == s[0];
    } else {
      assert rest == s[1..];
    }
  }

}
