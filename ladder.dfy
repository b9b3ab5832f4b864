/**
 * The merge step both aggregators share: a JavaScript `Map` from a price key
 * to a running total, filled by `m.set(p, (m.get(p) || 0) + q)` for every
 * level in turn, then read back in insertion order, sorted and annotated with
 * running totals.
 *
 * A `Map` is modelled as its entries in insertion order (`Entries<K>`): `set`
 * on a present key replaces the value where it stands, on a new key appends.
 * The React aggregator keys on the price text (`K = string`), the vanilla one
 * on the parsed price (`K = real`).
 */
module Ladder {
  import opened MarketTypes
  import opened Sorting

  type Entries<K> = seq<(K, real)>

  predicate HasKey<K(==)>(e: seq<(K, real)>, k: K) {
    exists i | 0 <= i < |e| :: e[i].0 == k
  }

  ghost predicate DistinctKeys<K>(e: seq<(K, real)>) {
    forall i, j :: 0 <= i < j < |e| ==> e[i].0 != e[j].0
  }

  /** `m.get(k) || 0`. */
  function GetOrZero<K(==)>(e: Entries<K>, k: K): real
  {
    if e == [] then 0.0
    else if e[0].0 == k then e[0].1
    else GetOrZero(e[1..], k)
  }

  /** `m.set(k, v)`. */
  function Put<K(==)>(e: Entries<K>, k: K, v: real): Entries<K>
  {
    if e == [] then [(k, v)]
    else if e[0].0 == k then [(k, v)] + e[1..]
    else [e[0]] + Put(e[1..], k, v)
  }

  lemma DistinctKeysTail<K>(e: Entries<K>)
    requires e != [] && DistinctKeys(e)
    ensures DistinctKeys(e[1..])
  {
    forall i, j | 0 <= i < j < |e[1..]| ensures e[1..][i].0 != e[1..][j].0 {
      assert e[1..][i] == e[i + 1] && e[1..][j] == e[j + 1];
    }
  }

  lemma HasKeyTail<K>(e: Entries<K>, k: K)
    requires e != [] && e[0].0 != k
    ensures HasKey(e, k) <==> HasKey(e[1..], k)
  {
    if HasKey(e[1..], k) {
      var i :| 0 <= i < |e[1..]| && e[1..][i].0 == k;
      assert e[i + 1].0 == k;
    }
    if HasKey(e, k) {
      var i :| 0 <= i < |e| && e[i].0 == k;
      assert e[1..][i - 1].0 == k;
    }
  }

  /** A missing key reads as 0; a present one reads as its value. */
  lemma {:induction false} GetOrZeroSpec<K>(e: Entries<K>, k: K)
    ensures !HasKey(e, k) ==> GetOrZero(e, k) == 0.0
    ensures DistinctKeys(e) ==> forall i :: 0 <= i < |e| && e[i].0 == k ==> GetOrZero(e, k) == e[i].1
  {
    if e != [] && e[0].0 != k {
      HasKeyTail(e, k);
      GetOrZeroSpec(e[1..], k);
      if DistinctKeys(e) {
        DistinctKeysTail(e);
        forall i | 0 <= i < |e| && e[i].0 == k ensures GetOrZero(e, k) == e[i].1 {
          assert e[1..][i - 1] == e[i];
        }
      }
    }
  }

  /** Setting a new key appends it; setting a present key replaces its value where it stands. */
  lemma {:induction false} PutSpec<K>(e: Entries<K>, k: K, v: real)
    ensures !HasKey(e, k) ==> Put(e, k, v) == e + [(k, v)]
    ensures HasKey(e, k) && DistinctKeys(e) ==>
      |Put(e, k, v)| == |e| && forall i :: 0 <= i < |e| ==> Put(e, k, v)[i] == (if e[i].0 == k then (k, v) else e[i])
  {
    if e != [] && e[0].0 != k {
      HasKeyTail(e, k);
      PutSpec(e[1..], k, v);
      if DistinctKeys(e) {
        DistinctKeysTail(e);
      }
      assert e == [e[0]] + e[1..];
    } else if e != [] && DistinctKeys(e) {
      forall i | 0 < i < |e| ensures e[i].0 != k {
        assert e[0].0 != e[i].0;
      }
    }
  }

  /** The entries of the Map after adding every pair of `ps`, in order. */
  function Group<K(==)>(ps: seq<(K, real)>): Entries<K>
  {
    if ps == [] then []
    else
      var m := Group(ps[..|ps| - 1]);
      var k := ps[|ps| - 1].0;
      Put(m, k, GetOrZero(m, k) + ps[|ps| - 1].1)
  }

  /** Adding one more pair is one `m.set(k, (m.get(k) || 0) + q)`. */
  lemma GroupSnoc<K>(ps: seq<(K, real)>, x: (K, real))
    ensures Group(ps + [x]) == Put(Group(ps), x.0, GetOrZero(Group(ps), x.0) + x.1)
  {
    assert (ps + [x])[..|ps|] == ps;
  }

  /** Total quantity of the pairs of `ps` whose key is `k`. */
  function SumAt<K(==)>(ps: seq<(K, real)>, k: K): real
  {
    if ps == [] then 0.0
    else SumAt(ps[..|ps| - 1], k) + (if ps[|ps| - 1].0 == k then ps[|ps| - 1].1 else 0.0)
  }

  /** Total quantity of all pairs, added left to right. */
  function PairSum<K>(ps: seq<(K, real)>): real
  {
    if ps == [] then 0.0 else PairSum(ps[..|ps| - 1]) + ps[|ps| - 1].1
  }

  lemma HasKeySnoc<K>(ps: seq<(K, real)>, k: K)
    requires ps != []
    ensures HasKey(ps, k) <==> HasKey(ps[..|ps| - 1], k) || ps[|ps| - 1].0 == k
  {
    var init := ps[..|ps| - 1];
    if HasKey(init, k) {
      var i :| 0 <= i < |init| && init[i].0 == k;
      assert ps[i].0 == k;
    }
    if HasKey(ps, k) && ps[|ps| - 1].0 != k {
      var i :| 0 <= i < |ps| && ps[i].0 == k;
      assert init[i].0 == k;
    }
  }

  lemma {:induction false} SumAtAbsent<K>(ps: seq<(K, real)>, k: K)
    requires !HasKey(ps, k)
    ensures SumAt(ps, k) == 0.0
  {
    if ps != [] {
      HasKeySnoc(ps, k);
      SumAtAbsent(ps[..|ps| - 1], k);
    }
  }

  /**
   * The Map holds each key of `ps` exactly once, and nothing else, and the
   * value at a key is the total quantity of the pairs carrying that key.
   */
  lemma {:induction false} GroupSpec<K>(ps: seq<(K, real)>)
    ensures DistinctKeys(Group(ps))
    ensures forall k :: HasKey(Group(ps), k) <==> HasKey(ps, k)
    ensures forall i :: 0 <= i < |Group(ps)| ==> Group(ps)[i].1 == SumAt(ps, Group(ps)[i].0)
  {
    if ps != [] {
      var init := ps[..|ps| - 1];
      var k := ps[|ps| - 1].0;
      var q := ps[|ps| - 1].1;
      GroupSpec(init);
      var m := Group(init);
      var r := Group(ps);
      assert r == Put(m, k, GetOrZero(m, k) + q);
      GetOrZeroSpec(m, k);
      PutSpec(m, k, GetOrZero(m, k) + q);
      forall k' ensures HasKey(ps, k') <==> HasKey(init, k') || k == k' {
        HasKeySnoc(ps, k');
      }
      if HasKey(m, k) {
        assert |r| == |m|;
        forall k' ensures HasKey(r, k') <==> HasKey(m, k') {
          if HasKey(r, k') {
            var i :| 0 <= i < |r| && r[i].0 == k';
            assert m[i].0 == k';
          }
          if HasKey(m, k') {
            var i :| 0 <= i < |m| && m[i].0 == k';
            assert r[i].0 == k';
          }
        }
        forall i | 0 <= i < |r| ensures r[i].1 == SumAt(ps, r[i].0) {
          if m[i].0 != k {
            assert r[i] == m[i];
          }
        }
      } else {
        SumAtAbsent(init, k);
        assert r == m + [(k, 0.0 + q)];
        forall k' ensures HasKey(r, k') <==> HasKey(m, k') || k == k' {
          HasKeySnoc(r, k');
          assert r[..|r| - 1] == m;
        }
        forall i | 0 <= i < |r| ensures r[i].1 == SumAt(ps, r[i].0) {
          if i < |m| {
            assert r[i] == m[i];
            assert m[i].0 != k;
          }
        }
        forall i, j | 0 <= i < j < |r| ensures r[i].0 != r[j].0 {
          if j == |m| {
            assert r[i] == m[i];
          }
        }
      }
    }
  }

  lemma {:induction false} PairSumAppend<K>(a: seq<(K, real)>, b: seq<(K, real)>)
    ensures PairSum(a + b) == PairSum(a) + PairSum(b)
    decreases |b|
  {
    if b != [] {
      assert (a + b)[..|a + b| - 1] == a + b[..|b| - 1];
      PairSumAppend(a, b[..|b| - 1]);
    } else {
      assert a + b == a;
    }
  }

  /** `m.set(k, v)` replaces the quantity `m.get(k) || 0` by `v` in the total. */
  lemma {:induction false} PutTotal<K>(e: Entries<K>, k: K, v: real)
    ensures PairSum(Put(e, k, v)) == PairSum(e) - GetOrZero(e, k) + v
  {
    if e == [] {
      assert PairSum([(k, v)]) == PairSum([(k, v)][..0]) + v;
    } else if e[0].0 == k {
      PairSumAppend([(k, v)], e[1..]);
      PairSumAppend([e[0]], e[1..]);
      assert e == [e[0]] + e[1..];
      assert PairSum([(k, v)]) == PairSum([(k, v)][..0]) + v;
      assert PairSum([e[0]]) == PairSum([e[0]][..0]) + e[0].1;
    } else {
      PutTotal(e[1..], k, v);
      PairSumAppend([e[0]], Put(e[1..], k, v));
      PairSumAppend([e[0]], e[1..]);
      assert e == [e[0]] + e[1..];
    }
  }

  /** Grouping neither creates nor loses quantity. */
  lemma {:induction false} GroupTotal<K>(ps: seq<(K, real)>)
    ensures PairSum(Group(ps)) == PairSum(ps)
  {
    if ps != [] {
      var init := ps[..|ps| - 1];
      var m := Group(init);
      var k := ps[|ps| - 1].0;
      GroupTotal(init);
      PutTotal(m, k, GetOrZero(m, k) + ps[|ps| - 1].1);
    }
  }

  lemma {:induction false} InsertTotal<K>(x: (K, real), s: seq<(K, real)>, le: ((K, real), (K, real)) -> bool)
    ensures PairSum(Insert(x, s, le)) == x.1 + PairSum(s)
  {
    if s == [] {
      assert PairSum([x]) == PairSum([x][..0]) + x.1;
    } else if le(x, s[0]) {
      PairSumAppend([x], s);
      assert PairSum([x]) == PairSum([x][..0]) + x.1;
    } else {
      InsertTotal(x, s[1..], le);
      PairSumAppend([s[0]], Insert(x, s[1..], le));
      PairSumAppend([s[0]], s[1..]);
      assert s == [s[0]] + s[1..];
    }
  }

  /** Sorting neither creates nor loses quantity. */
  lemma {:induction false} SortTotal<K>(s: seq<(K, real)>, le: ((K, real), (K, real)) -> bool)
    ensures PairSum(Sort(s, le)) == PairSum(s)
  {
    if s != [] {
      SortTotal(s[1..], le);
      InsertTotal(s[0], Sort(s[1..], le), le);
      PairSumAppend([s[0]], s[1..]);
      assert s == [s[0]] + s[1..];
    }
  }

  /** Distinct keys stay distinct behind a head whose key none of them has. */
  lemma ConsKeys<K>(h: (K, real), t: seq<(K, real)>)
    requires DistinctKeys(t)
    requires forall j :: 0 <= j < |t| ==> t[j].0 != h.0
    ensures DistinctKeys([h] + t)
  {
    var r := [h] + t;
    forall i, j | 0 <= i < j < |r| ensures r[i].0 != r[j].0 {
      assert r[j] == t[j - 1];
      if i > 0 {
        assert r[i] == t[i - 1];
      }
    }
  }

  lemma {:induction false} InsertKeys<K>(x: (K, real), s: seq<(K, real)>, le: ((K, real), (K, real)) -> bool)
    requires DistinctKeys(s)
    requires !HasKey(s, x.0)
    ensures DistinctKeys(Insert(x, s, le))
  {
    if s == [] {
    } else if le(x, s[0]) {
      ConsKeys(x, s);
    } else {
      var t := s[1..];
      assert DistinctKeys(t) by {
        forall i, j | 0 <= i < j < |t| ensures t[i].0 != t[j].0 {
          assert t[i] == s[i + 1] && t[j] == s[j + 1];
        }
      }
      assert !HasKey(t, x.0) by {
        forall i | 0 <= i < |t| ensures t[i].0 != x.0 {
          assert t[i] == s[i + 1];
        }
      }
      InsertKeys(x, t, le);
      InsertPermutes(x, t, le);
      var u := Insert(x, t, le);
      forall j | 0 <= j < |u| ensures u[j].0 != s[0].0 {
        assert u[j] in multiset(u);
        if u[j] != x {
          assert u[j] in multiset(t);
          var k :| 0 <= k < |t| && t[k] == u[j];
          assert s[k + 1] == u[j];
        }
      }
      ConsKeys(s[0], u);
    }
  }

  /** Sorting keeps the keys and keeps them distinct. */
  lemma {:induction false} SortKeys<K>(s: seq<(K, real)>, le: ((K, real), (K, real)) -> bool)
    requires DistinctKeys(s)
    ensures DistinctKeys(Sort(s, le))
    ensures forall k :: HasKey(Sort(s, le), k) <==> HasKey(s, k)
  {
    SortPermutes(s, le);
    var r := Sort(s, le);
    forall k ensures HasKey(r, k) <==> HasKey(s, k) {
      if HasKey(r, k) {
        var i :| 0 <= i < |r| && r[i].0 == k;
        assert r[i] in multiset(s);
        var j :| 0 <= j < |s| && s[j] == r[i];
      }
      if HasKey(s, k) {
        var i :| 0 <= i < |s| && s[i].0 == k;
        assert s[i] in multiset(r);
        var j :| 0 <= j < |r| && r[j] == s[i];
      }
    }
    if s != [] {
      var t := s[1..];
      assert DistinctKeys(t) by {
        forall i, j | 0 <= i < j < |t| ensures t[i].0 != t[j].0 {
          assert t[i] == s[i + 1] && t[j] == s[j + 1];
        }
      }
      SortKeys(t, le);
      assert !HasKey(Sort(t, le), s[0].0) by {
        forall i | 0 <= i < |t| ensures t[i].0 != s[0].0 {
          assert t[i] == s[i + 1];
        }
      }
      InsertKeys(s[0], Sort(t, le), le);
    }
  }

  /** Every entry of a sorted Map is an entry of the Map. */
  lemma SortedEntryIsEntry<K>(s: seq<(K, real)>, le: ((K, real), (K, real)) -> bool, i: nat)
    requires i < |Sort(s, le)|
    ensures exists j :: 0 <= j < |s| && s[j] == Sort(s, le)[i]
  {
    SortPermutes(s, le);
    assert Sort(s, le)[i] in multiset(s);
  }

  /**
   * The entries as ladder levels, each with the total of the quantities up to
   * and including it: what `arr.slice(0, index + 1).reduce(...)` computes.
   */
  function WithCumulative<P>(e: seq<(P, real)>): (r: seq<Level<P>>)
    ensures |r| == |e|
    ensures forall i :: 0 <= i < |e| ==> r[i].price == e[i].0 && r[i].quantity == e[i].1
    ensures PrefixSums(r)
  {
    var r := seq(|e|, i requires 0 <= i < |e| => Level(e[i].0, e[i].1, PairSum(e[..i + 1])));
    forall i | 0 <= i < |r| ensures r[i].cumulative == QuantitySum(r[..i + 1]) {
      PrefixTotalsAgree(e, r, i + 1);
    }
    r
  }

  lemma {:induction false} PrefixTotalsAgree<P>(e: seq<(P, real)>, r: seq<Level<P>>, n: nat)
    requires |r| == |e| && n <= |e|
    requires forall i :: 0 <= i < |e| ==> r[i].quantity == e[i].1
    ensures QuantitySum(r[..n]) == PairSum(e[..n])
  {
    if n > 0 {
      PrefixTotalsAgree(e, r, n - 1);
      assert r[..n][..n - 1] == r[..n - 1];
      assert e[..n][..n - 1] == e[..n - 1];
    }
  }

  /** The last running total is the total quantity of the entries. */
  lemma WithCumulativeTotal<P>(e: seq<(P, real)>)
    requires e != []
    ensures WithCumulative(e)[|e| - 1].cumulative == PairSum(e)
  {
    assert e[..|e|] == e;
  }
}
