/** Grouping by key, as the engine does it with an insertion-ordered `Map`:
    keys are visited in the order of their first occurrence, and a group is
    a clash when it holds more than one element. */
module Grouping {

  predicate NoDuplicates<K(==,!new)>(ks: seq<K>) {
    forall i, j :: 0 <= i < j < |ks| ==> ks[i] != ks[j]
  }

  /** How many times `k` occurs in `ks` (the value `map.get(k)` reaches). */
  function Count<K(==,!new)>(ks: seq<K>, k: K): (n: nat)
    ensures n <= |ks|
    ensures n > 0 <==> k in ks
  {
    if |ks| == 0 then 0
    else
      assert ks == ks[..|ks| - 1] + [ks[|ks| - 1]];
      Count(ks[..|ks| - 1], k) + (if ks[|ks| - 1] == k then 1 else 0)
  }

  /** The keys of `ks` once each, in order of first occurrence: the iteration
      order of a JavaScript `Map` filled from `ks`. */
  function Distinct<K(==,!new)>(ks: seq<K>): (d: seq<K>)
    ensures forall k :: k in d <==> k in ks
    ensures NoDuplicates(d)
    ensures |d| <= |ks|
  {
    if |ks| == 0 then []
    else
      assert ks == ks[..|ks| - 1] + [ks[|ks| - 1]];
      var p := Distinct(ks[..|ks| - 1]);
      if ks[|ks| - 1] in p then p else p + [ks[|ks| - 1]]
  }

  /** The keys among `d` whose group in `ks` holds more than one element. */
  function Crowded<K(==,!new)>(d: seq<K>, ks: seq<K>): (c: seq<K>)
  {
    if |d| == 0 then []
    else
      var rest := Crowded(d[..|d| - 1], ks);
      if Count(ks, d[|d| - 1]) > 1 then rest + [d[|d| - 1]] else rest
  }

  /** The clashing keys of `ks`, in first-occurrence order. */
  function Clashes<K(==,!new)>(ks: seq<K>): seq<K>
  {
    Crowded(Distinct(ks), ks)
  }

  /** `xs.map(key)`. */
  function Keys<T, K(==,!new)>(xs: seq<T>, key: T -> K): (ks: seq<K>)
    ensures |ks| == |xs|
    ensures forall i :: 0 <= i < |xs| ==> ks[i] == key(xs[i])
  {
    if |xs| == 0 then [] else [key(xs[0])] + Keys(xs[1..], key)
  }

  /** The elements of `xs` whose key is `k`, in order: the array the source
      pushes onto under that key. */
  function Members<T, K(==,!new)>(xs: seq<T>, key: T -> K, k: K): (ms: seq<T>)
    ensures forall m :: m in ms ==> m in xs && key(m) == k
    ensures forall x :: x in xs && key(x) == k ==> x in ms
  {
    if |xs| == 0 then []
    else if key(xs[0]) == k then [xs[0]] + Members(xs[1..], key, k)
    else Members(xs[1..], key, k)
  }

  // ----- counting facts -----

  lemma {:induction false} CountAppend<K(!new)>(ks: seq<K>, x: K, k: K)
    ensures Count(ks + [x], k) == Count(ks, k) + (if x == k then 1 else 0)
  {
    assert (ks + [x])[..|ks|] == ks;
  }

  lemma {:induction false} CountConcat<K(!new)>(a: seq<K>, b: seq<K>, k: K)
    ensures Count(a + b, k) == Count(a, k) + Count(b, k)
    decreases |b|
  {
    if |b| == 0 {
      assert a + b == a;
    } else {
      var b' := b[..|b| - 1];
      assert a + b == (a + b') + [b[|b| - 1]];
      assert b == b' + [b[|b| - 1]];
      CountAppend(a + b', b[|b| - 1], k);
      CountAppend(b', b[|b| - 1], k);
      CountConcat(a, b', k);
    }
  }

  lemma {:induction false} KeysConcat<T, K(!new)>(a: seq<T>, b: seq<T>, key: T -> K)
    ensures Keys(a + b, key) == Keys(a, key) + Keys(b, key)
  {
    var l := Keys(a + b, key);
    var r := Keys(a, key) + Keys(b, key);
    assert |l| == |r|;
    forall i | 0 <= i < |l| ensures l[i] == r[i] {
      if i < |a| { assert (a + b)[i] == a[i]; } else { assert (a + b)[i] == b[i - |a|]; }
    }
  }

  /** A key no element has occurs zero times. */
  lemma {:induction false} CountAbsent<T, K(!new)>(xs: seq<T>, key: T -> K, k: K)
    requires forall x :: x in xs ==> key(x) != k
    ensures Count(Keys(xs, key), k) == 0
  {
    var ks := Keys(xs, key);
    forall i | 0 <= i < |ks| ensures ks[i] != k {
      assert xs[i] in xs;
    }
  }

  /** The group of `k` has exactly `Count` members. */
  lemma {:induction false} MembersCount<T, K(!new)>(xs: seq<T>, key: T -> K, k: K)
    ensures |Members(xs, key, k)| == Count(Keys(xs, key), k)
  {
    if |xs| > 0 {
      MembersCount(xs[1..], key, k);
      assert Keys(xs, key) == [key(xs[0])] + Keys(xs[1..], key);
      CountConcat([key(xs[0])], Keys(xs[1..], key), k);
      assert [key(xs[0])] == [] + [key(xs[0])];
      CountAppend([], key(xs[0]), k);
    }
  }

  /** The last element of a duplicate-free sequence is new to its prefix. */
  lemma NoDuplicatesSplit<K(!new)>(ks: seq<K>)
    requires |ks| > 0
    ensures NoDuplicates(ks) <==> NoDuplicates(ks[..|ks| - 1]) && ks[|ks| - 1] !in ks[..|ks| - 1]
  {
    var p := ks[..|ks| - 1];
    var x := ks[|ks| - 1];
    if NoDuplicates(ks) {
      forall i, j | 0 <= i < j < |p| ensures p[i] != p[j] { assert p[i] == ks[i] && p[j] == ks[j]; }
      forall i | 0 <= i < |p| ensures p[i] != x { assert p[i] == ks[i]; }
    }
    if NoDuplicates(p) && x !in p {
      forall i, j | 0 <= i < j < |ks| ensures ks[i] != ks[j] {
        assert ks[i] == p[i];
        if j < |ks| - 1 { assert ks[j] == p[j]; }
      }
    }
  }

  /** A key found at two positions occurs more than once. */
  lemma {:induction false} RepeatedCount<K(!new)>(ks: seq<K>, i: int, j: int)
    requires 0 <= i < j < |ks| && ks[i] == ks[j]
    ensures Count(ks, ks[i]) > 1
    decreases |ks|
  {
    var p := ks[..|ks| - 1];
    var x := ks[|ks| - 1];
    assert ks == p + [x];
    CountAppend(p, x, ks[i]);
    if j == |ks| - 1 {
      assert p[i] == x;
    } else {
      assert p[i] == ks[i] && p[j] == ks[j];
      RepeatedCount(p, i, j);
    }
  }

  /** A duplicate-free sequence has every key at most once, and conversely. */
  lemma {:induction false} NoDuplicatesIffCountsAtMostOne<K(!new)>(ks: seq<K>)
    ensures NoDuplicates(ks) <==> forall k :: Count(ks, k) <= 1
  {
    if |ks| == 0 {
      forall k ensures Count(ks, k) <= 1 { }
    } else {
      var p := ks[..|ks| - 1];
      var x := ks[|ks| - 1];
      assert ks == p + [x];
      NoDuplicatesIffCountsAtMostOne(p);
      NoDuplicatesSplit(ks);
      forall k ensures Count(ks, k) == Count(p, k) + (if x == k then 1 else 0) {
        CountAppend(p, x, k);
      }
      if !NoDuplicates(ks) {
        if !NoDuplicates(p) {
          var k :| Count(p, k) > 1;
          assert Count(ks, k) > 1;
        } else {
          assert x in p;
          assert Count(ks, x) > 1;
        }
      } else {
        forall k ensures Count(ks, k) <= 1 {
          assert Count(p, k) <= 1;
          if k == x {
            assert x !in p;
            assert Count(p, x) == 0;
          }
        }
      }
    }
  }

  // ----- clash keys -----

  /** `Crowded` keeps exactly the keys of `d` whose group is crowded, each once
      when `d` has no duplicates. */
  lemma {:induction false} CrowdedExact<K(!new)>(d: seq<K>, ks: seq<K>)
    ensures forall k :: k in Crowded(d, ks) <==> k in d && Count(ks, k) > 1
    ensures NoDuplicates(d) ==> NoDuplicates(Crowded(d, ks))
  {
    if |d| > 0 {
      var p := d[..|d| - 1];
      assert d == p + [d[|d| - 1]];
      CrowdedExact(p, ks);
      if NoDuplicates(d) {
        assert NoDuplicates(p) by {
          forall i, j | 0 <= i < j < |p| ensures p[i] != p[j] { assert p[i] == d[i] && p[j] == d[j]; }
        }
        assert d[|d| - 1] !in p by {
          forall i | 0 <= i < |p| ensures p[i] != d[|d| - 1] { assert p[i] == d[i]; }
        }
      }
    }
  }

  /** The clash keys are exactly the keys occurring more than once, and each
      appears once. */
  lemma ClashesExact<K(!new)>(ks: seq<K>)
    ensures forall k :: k in Clashes(ks) <==> Count(ks, k) > 1
    ensures NoDuplicates(Clashes(ks))
  {
    CrowdedExact(Distinct(ks), ks);
  }

  /** There is no clash exactly when no key repeats. */
  lemma NoClashesIff<K(!new)>(ks: seq<K>)
    ensures Clashes(ks) == [] <==> NoDuplicates(ks)
  {
    ClashesExact(ks);
    NoDuplicatesIffCountsAtMostOne(ks);
    if Clashes(ks) != [] {
      assert Count(ks, Clashes(ks)[0]) > 1;
    }
  }

  // ----- sums over groups -----

  /** The sum of the group sizes of the keys in `d`. */
  function SumCounts<K(==,!new)>(d: seq<K>, ks: seq<K>): nat
  {
    if |d| == 0 then 0 else SumCounts(d[..|d| - 1], ks) + Count(ks, d[|d| - 1])
  }

  /** Σ (k - 1) over the groups of the keys in `cs`: the clash penalty sum. */
  function Excess<K(==,!new)>(cs: seq<K>, ks: seq<K>): int
  {
    if |cs| == 0 then 0 else Excess(cs[..|cs| - 1], ks) + (Count(ks, cs[|cs| - 1]) - 1)
  }

  lemma {:induction false} SumCountsAppendKey<K(!new)>(d: seq<K>, ks: seq<K>, x: K)
    requires NoDuplicates(d)
    ensures SumCounts(d, ks + [x]) == SumCounts(d, ks) + (if x in d then 1 else 0)
  {
    if |d| > 0 {
      var p := d[..|d| - 1];
      assert d == p + [d[|d| - 1]];
      assert NoDuplicates(p) by {
        forall i, j | 0 <= i < j < |p| ensures p[i] != p[j] { assert p[i] == d[i] && p[j] == d[j]; }
      }
      assert d[|d| - 1] !in p by {
        forall i | 0 <= i < |p| ensures p[i] != d[|d| - 1] { assert p[i] == d[i]; }
      }
      SumCountsAppendKey(p, ks, x);
      CountAppend(ks, x, d[|d| - 1]);
    }
  }

  /** Every element belongs to exactly one group: the group sizes add up to
      the length. */
  lemma {:induction false} SumCountsDistinct<K(!new)>(ks: seq<K>)
    ensures SumCounts(Distinct(ks), ks) == |ks|
  {
    if |ks| > 0 {
      var p := ks[..|ks| - 1];
      var x := ks[|ks| - 1];
      assert ks == p + [x];
      var d := Distinct(p);
      SumCountsDistinct(p);
      SumCountsAppendKey(d, p, x);
      if x !in p {
        assert Distinct(ks) == d + [x];
        assert (d + [x])[..|d|] == d;
        CountAppend(p, x, x);
      }
    }
  }

  lemma {:induction false} ExcessOfCrowded<K(!new)>(d: seq<K>, ks: seq<K>)
    requires forall k :: k in d ==> k in ks
    ensures Excess(Crowded(d, ks), ks) + |d| == SumCounts(d, ks)
  {
    if |d| > 0 {
      var p := d[..|d| - 1];
      var k := d[|d| - 1];
      assert forall j :: j in p ==> j in d;
      ExcessOfCrowded(p, ks);
      var c := Crowded(p, ks);
      if Count(ks, k) > 1 {
        assert (c + [k])[..|c|] == c;
      } else {
        assert Count(ks, k) == 1;
      }
    }
  }

  /** Σ (k - 1) over the clash groups equals the number of elements minus the
      number of distinct keys: every element beyond the first of its key. */
  lemma ExcessIsLengthMinusDistinct<K(!new)>(ks: seq<K>)
    ensures Excess(Clashes(ks), ks) == |ks| - |Distinct(ks)|
  {
    ExcessOfCrowded(Distinct(ks), ks);
    SumCountsDistinct(ks);
  }

  /** A duplicate-free sequence is as long as the set of its elements. */
  lemma {:induction false} NoDuplicatesCardinality<K(!new)>(d: seq<K>)
    requires NoDuplicates(d)
    ensures |set k | k in d| == |d|
  {
    if |d| > 0 {
      var p := d[..|d| - 1];
      var x := d[|d| - 1];
      assert d == p + [x];
      assert NoDuplicates(p) by {
        forall i, j | 0 <= i < j < |p| ensures p[i] != p[j] { assert p[i] == d[i] && p[j] == d[j]; }
      }
      assert x !in p by {
        forall i | 0 <= i < |p| ensures p[i] != x { assert p[i] == d[i]; }
      }
      NoDuplicatesCardinality(p);
      assert (set k | k in d) == (set k | k in p) + {x};
    }
  }

  /** The number of groups is the number of distinct keys. */
  lemma DistinctCardinality<K(!new)>(ks: seq<K>)
    ensures |Distinct(ks)| == |set k | k in ks|
  {
    NoDuplicatesCardinality(Distinct(ks));
    assert (set k | k in Distinct(ks)) == (set k | k in ks);
  }

  /** The clash penalty sum in terms of the set of keys alone. */
  lemma ExcessIsLengthMinusKeySet<K(!new)>(ks: seq<K>)
    ensures Excess(Clashes(ks), ks) == |ks| - |set k | k in ks|
  {
    ExcessIsLengthMinusDistinct(ks);
    DistinctCardinality(ks);
  }

}
