/**
 * The order in which a drill presents its items: the identity
 * `[0, 1, ..., n - 1]`, or a random permutation of it. The random source is
 * a parameter: `rand(i)` is the number the generator returns when the
 * shuffle asks for a position at step `i`.
 */
module DrillOrder {

  /** `[0, 1, ..., n - 1]`: `list(range(n))`, `[...Array(n)].map((_, i) => i)`. */
  function Range(n: nat): (r: seq<nat>)
    ensures |r| == n
    ensures forall k :: 0 <= k < n ==> r[k] == k
  {
    if n == 0 then [] else Range(n - 1) + [n - 1]
  }

  /** `p` lists every position of an `n`-item drill: a permutation of `Range(n)`. */
  ghost predicate IsOrderOf(p: seq<nat>, n: nat) {
    multiset(p) == multiset(Range(n))
  }

  /** Each position of the drill occurs exactly once in `Range(n)`. */
  lemma {:induction false} RangeCountsOnce(n: nat, x: nat)
    ensures multiset(Range(n))[x] == if x < n then 1 else 0
  {
    if n > 0 {
      RangeCountsOnce(n - 1, x);
      RangeGrows(n, x);
    }
  }

  lemma RangeGrows(n: nat, x: nat)
    requires n > 0
    ensures multiset(Range(n))[x] == multiset(Range(n - 1))[x] + if x == n - 1 then 1 else 0
  {
    var last: nat := n - 1;
    assert Range(n) == Range(n - 1) + [last];
    assert multiset(Range(n)) == multiset(Range(n - 1)) + multiset{last};
  }

  /**
   * Traversing a presentation order visits every item exactly once: it has
   * one entry per item, every entry is a valid position, every position
   * occurs, and no position repeats.
   */
  lemma OrderVisitsEachOnce(p: seq<nat>, n: nat)
    requires IsOrderOf(p, n)
    ensures |p| == n
    ensures forall k :: 0 <= k < |p| ==> p[k] < n
    ensures forall x :: 0 <= x < n ==> x in p
    ensures forall i, j :: 0 <= i < j < |p| ==> p[i] != p[j]
  {
    assert |p| == |multiset(p)| == |multiset(Range(n))| == n;
    forall k | 0 <= k < |p| ensures p[k] < n {
      RangeCountsOnce(n, p[k]);
      assert p[k] in multiset(p);
    }
    forall x | 0 <= x < n ensures x in p {
      RangeCountsOnce(n, x);
      assert x in multiset(p);
    }
    forall i, j | 0 <= i < j < |p| ensures p[i] != p[j] {
      if p[i] == p[j] {
        RepeatCountsTwice(p, i, j);
        RangeCountsOnce(n, p[i]);
        assert false;
      }
    }
  }

  /** A value found at two positions occurs at least twice. */
  lemma RepeatCountsTwice(p: seq<nat>, i: nat, j: nat)
    requires i < j < |p| && p[i] == p[j]
    ensures multiset(p)[p[i]] >= 2
  {
    assert p == p[..j] + p[j..];
    assert multiset(p) == multiset(p[..j]) + multiset(p[j..]);
    assert p[..j][i] == p[i];
    assert p[j..][0] == p[j];
  }

  /**
   * `random.shuffle` on the list in place (Fisher-Yates): for `i` from the
   * last position down to 1, swap position `i` with a position `j <= i`.
   */
  method Shuffle(a: array<nat>, rand: nat -> nat)
    modifies a
    ensures multiset(a[..]) == old(multiset(a[..]))
  {
    var i := a.Length;
    while i > 1
      invariant 0 <= i <= a.Length
      invariant multiset(a[..]) == old(multiset(a[..]))
    {
      i := i - 1;
      var j := rand(i) % (i + 1);
      a[i], a[j] := a[j], a[i];
    }
  }

  /**
   * `createDrillDataIndex`: the identity order, or with `shuffle` some
   * permutation of it (the source sorts with a random comparator; here the
   * random swaps stand for it, since only "some permutation" is promised).
   */
  method CreateDrillDataIndex(length: nat, shuffle: bool, rand: nat -> nat) returns (index: seq<nat>)
    ensures IsOrderOf(index, length)
    ensures !shuffle ==> index == Range(length)
  {
    var drillDataIndex := new nat[length](i => i);
    assert drillDataIndex[..] == Range(length);
    if shuffle {
      Shuffle(drillDataIndex, rand);
    }
    index := drillDataIndex[..];
  }
}
