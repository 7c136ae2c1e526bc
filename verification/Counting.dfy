/** Cardinalities of index ranges and of injective images: the pigeonhole steps of the order arguments. */
module Counting {
  predicate Within(lo: nat, k: nat, hi: nat) {
    lo <= k < hi
  }

  ghost function Range(lo: nat, hi: nat): set<nat>
    requires lo <= hi
  {
    set k: nat | k < hi && Within(lo, k, hi)
  }

  lemma RangeSize(lo: nat, hi: nat)
    requires lo <= hi
    ensures |Range(lo, hi)| == hi - lo
    decreases hi - lo
  {
    if lo < hi {
      RangeSize(lo + 1, hi);
      assert Range(lo, hi) == Range(lo + 1, hi) + {lo};
    } else {
      assert Range(lo, hi) == {};
    }
  }

  ghost predicate InjectiveOn(p: seq<nat>, s: set<nat>) {
    forall i, j :: i in s && j in s && i < |p| && j < |p| && i != j ==> p[i] != p[j]
  }

  ghost function Image(p: seq<nat>, s: set<nat>): set<nat>
    requires forall i :: i in s ==> i < |p|
  {
    set i | i in s :: p[i]
  }

  lemma ImageSize(p: seq<nat>, s: set<nat>)
    requires forall i :: i in s ==> i < |p|
    requires InjectiveOn(p, s)
    ensures |Image(p, s)| == |s|
  {
    if s == {} {
      assert Image(p, s) == {};
    } else {
      var x :| x in s;
      ImageSize(p, s - {x});
      assert Image(p, s) == Image(p, s - {x}) + {p[x]};
      assert p[x] !in Image(p, s - {x});
    }
  }

  lemma SubsetSize<T>(a: set<T>, b: set<T>)
    requires a <= b
    ensures |a| <= |b|
    ensures |a| == |b| ==> a == b
  {
    assert b == a + (b - a);
    assert |b| == |a| + |b - a|;
  }

  lemma ImageAtMost(p: seq<nat>, s: set<nat>)
    requires forall i :: i in s ==> i < |p|
    ensures |Image(p, s)| <= |s|
  {
    if s == {} {
      assert Image(p, s) == {};
    } else {
      var x :| x in s;
      ImageAtMost(p, s - {x});
      assert Image(p, s) == Image(p, s - {x}) + {p[x]};
    }
  }

  /** As many distinct values as the list is long, all from the list, leave no value of the list out. */
  lemma CoversList(p: seq<nat>, list: seq<nat>, v: nat)
    requires |p| == |list| && InjectiveOn(p, Range(0, |p|))
    requires forall k :: 0 <= k < |p| ==> p[k] in list
    requires v in list
    ensures exists k :: 0 <= k < |p| && p[k] == v
  {
    var all := Range(0, |p|);
    RangeSize(0, |p|);
    ImageSize(p, all);
    ImageAtMost(list, all);
    forall x | x in Image(p, all) ensures x in Image(list, all) {
      var k :| 0 <= k < |list| && list[k] == x;
      assert k in all;
    }
    SubsetSize(Image(p, all), Image(list, all));
    var k :| 0 <= k < |list| && list[k] == v;
    assert k in all && v in Image(list, all);
  }

  /** n distinct values below n are all the values below n. */
  lemma CoversRange(p: seq<nat>, v: nat)
    requires InjectiveOn(p, Range(0, |p|)) && v < |p|
    requires forall k :: 0 <= k < |p| ==> p[k] < |p|
    ensures exists k :: 0 <= k < |p| && p[k] == v
  {
    var list := seq(|p|, i requires 0 <= i < |p| => i as nat);
    assert list[v] == v;
    forall k | 0 <= k < |p| ensures p[k] in list {
      assert list[p[k]] == p[k];
    }
    CoversList(p, list, v);
  }
}
