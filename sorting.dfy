/**
 * Stable sorting with a caller-supplied "may precede" relation.
 *
 * `Array.prototype.sort` is stable, so for a consistent comparator `cmp` the
 * order it produces is the insertion sort below with `le(a, b)` standing for
 * `cmp(a, b) <= 0`. Every ordering in the frontend (exchange grouping, price
 * ladders, stats-table columns) is a call of it with its own relation.
 */
module Sorting {

  /** `le` is total and transitive: what a consistent comparator gives. */
  ghost predicate TotalPreorder<T(!new)>(le: (T, T) -> bool) {
    && (forall a, b :: le(a, b) || le(b, a))
    && (forall a, b, c :: le(a, b) && le(b, c) ==> le(a, c))
  }

  /** Every element may precede every later one. */
  ghost predicate SortedBy<T>(s: seq<T>, le: (T, T) -> bool) {
    forall i, j :: 0 <= i < j < |s| ==> le(s[i], s[j])
  }

  /** Places `x` just before the first element it may precede. */
  function Insert<T>(x: T, s: seq<T>, le: (T, T) -> bool): (r: seq<T>)
    ensures |r| == |s| + 1
  {
    if s == [] then [x]
    else if le(x, s[0]) then [x] + s
    else [s[0]] + Insert(x, s[1..], le)
  }

  /** The stable sort of `s`: each element is inserted into the sorted rest. */
  function Sort<T>(s: seq<T>, le: (T, T) -> bool): (r: seq<T>)
    ensures |r| == |s|
  {
    if s == [] then [] else Insert(s[0], Sort(s[1..], le), le)
  }

  lemma {:induction false} InsertPermutes<T>(x: T, s: seq<T>, le: (T, T) -> bool)
    ensures multiset(Insert(x, s, le)) == multiset(s) + multiset{x}
  {
    if s != [] && !le(x, s[0]) {
      InsertPermutes(x, s[1..], le);
      assert s == [s[0]] + s[1..];
    }
  }

  /** Sorting only reorders: the result is a permutation of the input. */
  lemma {:induction false} SortPermutes<T>(s: seq<T>, le: (T, T) -> bool)
    ensures multiset(Sort(s, le)) == multiset(s)
  {
    if s != [] {
      SortPermutes(s[1..], le);
      InsertPermutes(s[0], Sort(s[1..], le), le);
      assert s == [s[0]] + s[1..];
    }
  }

  /** A sorted sequence stays sorted behind a head that may precede all of it. */
  lemma ConsSorted<T>(h: T, t: seq<T>, le: (T, T) -> bool)
    requires SortedBy(t, le)
    requires forall j :: 0 <= j < |t| ==> le(h, t[j])
    ensures SortedBy([h] + t, le)
  {
    var r := [h] + t;
    forall i, j | 0 <= i < j < |r| ensures le(r[i], r[j]) {
      assert r[j] == t[j - 1];
      if i > 0 {
        assert r[i] == t[i - 1];
      }
    }
  }

  lemma {:induction false} InsertSorted<T(!new)>(x: T, s: seq<T>, le: (T, T) -> bool)
    requires TotalPreorder(le)
    requires SortedBy(s, le)
    ensures SortedBy(Insert(x, s, le), le)
  {
    if s == [] {
    } else if le(x, s[0]) {
      forall j | 0 <= j < |s| ensures le(x, s[j]) {
        assert j > 0 ==> le(s[0], s[j]);
      }
      ConsSorted(x, s, le);
    } else {
      var tail := s[1..];
      var t := Insert(x, tail, le);
      assert SortedBy(tail, le) by {
        forall i, j | 0 <= i < j < |tail| ensures le(tail[i], tail[j]) {
          assert tail[i] == s[i + 1] && tail[j] == s[j + 1];
        }
      }
      InsertSorted(x, tail, le);
      InsertPermutes(x, tail, le);
      forall j | 0 <= j < |t| ensures le(s[0], t[j]) {
        assert t[j] in multiset(t);
        if t[j] != x {
          assert t[j] in multiset(tail);
          var k :| 0 <= k < |tail| && tail[k] == t[j];
          assert s[k + 1] == t[j];
        }
      }
      ConsSorted(s[0], t, le);
    }
  }

  /** Sorting with a consistent comparator yields a sorted permutation. */
  lemma {:induction false} SortSorted<T(!new)>(s: seq<T>, le: (T, T) -> bool)
    requires TotalPreorder(le)
    ensures SortedBy(Sort(s, le), le)
    ensures multiset(Sort(s, le)) == multiset(s)
  {
    if s != [] {
      SortSorted(s[1..], le);
      InsertSorted(s[0], Sort(s[1..], le), le);
      SortPermutes(s, le);
    }
  }

  /** A sequence that is already in order is left as it is. */
  lemma {:induction false} SortOfSorted<T>(s: seq<T>, le: (T, T) -> bool)
    requires SortedBy(s, le)
    ensures Sort(s, le) == s
  {
    if s != [] {
      assert SortedBy(s[1..], le) by {
        forall i, j | 0 <= i < j < |s[1..]| ensures le(s[1..][i], s[1..][j]) {
          assert s[1..][i] == s[i + 1] && s[1..][j] == s[j + 1];
        }
      }
      SortOfSorted(s[1..], le);
      if |s| > 1 {
        assert le(s[0], s[1]);
        assert s[1..][0] == s[1];
      }
      assert s == [s[0]] + s[1..];
    }
  }

  /** A comparator that calls every pair a tie leaves the input order unchanged. */
  lemma AllTiesKeepOrder<T>(s: seq<T>, le: (T, T) -> bool)
    requires forall a, b :: le(a, b)
    ensures Sort(s, le) == s
  {
    SortOfSorted(s, le);
  }

  /** `Insert` as a splice: `x` goes in at position `m` when the first `m`
      elements are exactly those it may not precede. */
  lemma {:induction false} InsertAt<T>(x: T, s: seq<T>, le: (T, T) -> bool, m: nat)
    requires m <= |s|
    requires forall t :: 0 <= t < m ==> !le(x, s[t])
    requires m < |s| ==> le(x, s[m])
    ensures Insert(x, s, le) == s[..m] + [x] + s[m..]
  {
    if m == 0 {
      assert s[..0] + [x] + s[0..] == [x] + s;
    } else {
      var tail := s[1..];
      assert !le(x, s[0]);
      assert Insert(x, s, le) == [s[0]] + Insert(x, tail, le);
      forall t | 0 <= t < m - 1 ensures !le(x, tail[t]) {
        assert tail[t] == s[t + 1];
      }
      assert m - 1 < |tail| ==> tail[m - 1] == s[m];
      InsertAt(x, tail, le, m - 1);
      calc {
        Insert(x, s, le);
        [s[0]] + Insert(x, tail, le);
        [s[0]] + (tail[..m - 1] + [x] + tail[m - 1..]);
        { assert tail[..m - 1] == s[1..m] && tail[m - 1..] == s[m..]; }
        [s[0]] + (s[1..m] + [x] + s[m..]);
        { assert [s[0]] + s[1..m] == s[..m]; }
        s[..m] + [x] + s[m..];
      }
    }
  }

  /**
   * The engine's in-place sort: `a` ends up holding the stable sort of what it
   * held. Elements are inserted from the right into the sorted suffix.
   */
  method SortInPlace<T>(a: array<T>, le: (T, T) -> bool)
    modifies a
    ensures a[..] == Sort(old(a[..]), le)
  {
    ghost var input := a[..];
    var i := a.Length;
    while i > 0
      invariant 0 <= i <= a.Length
      invariant a[..i] == input[..i]
      invariant a[i..] == Sort(input[i..], le)
    {
      i := i - 1;
      assert input[i..] == [input[i]] + input[i + 1..];
      InsertIntoSuffix(a, i, le);
      assert a[..i] == input[..i];
    }
    assert a[..] == a[0..];
  }

  /** Moves `a[i]` right, past the elements of the suffix it may not precede. */
  method InsertIntoSuffix<T>(a: array<T>, i: nat, le: (T, T) -> bool)
    requires i < a.Length
    modifies a
    ensures a[..i] == old(a[..i])
    ensures a[i..] == Insert(old(a[i]), old(a[i + 1..]), le)
  {
    var x := a[i];
    ghost var sorted := a[i + 1..];
    var j := ShiftWhileBefore(a, i, x, le);
    a[j] := x;
    InsertAt(x, sorted, le, j - i);
    SpliceAt(a[..], i, j, x, sorted);
  }

  /**
   * Shifts the suffix after `i` left by one while `x` may not precede its
   * next element; `j` is the hole left for `x`.
   */
  method ShiftWhileBefore<T>(a: array<T>, i: nat, x: T, le: (T, T) -> bool) returns (j: nat)
    requires i < a.Length
    modifies a
    ensures i <= j < a.Length
    ensures a[..i] == old(a[..i])
    ensures forall k :: i <= k < j ==> a[k] == old(a[k + 1])
    ensures forall k :: j < k < a.Length ==> a[k] == old(a[k])
    ensures forall t :: i < t <= j ==> !le(x, old(a[t]))
    ensures j + 1 < a.Length ==> le(x, old(a[j + 1]))
  {
    j := i;
    while j + 1 < a.Length && !le(x, a[j + 1])
      invariant i <= j < a.Length
      invariant a[..i] == old(a[..i])
      invariant forall k :: i <= k < j ==> a[k] == old(a[k + 1])
      invariant forall k :: j < k < a.Length ==> a[k] == old(a[k])
      invariant forall t :: i < t <= j ==> !le(x, old(a[t]))
    {
      a[j] := a[j + 1];
      j := j + 1;
    }
  }

  /** The suffix of `arr` from `i` is `sorted` with `x` spliced in at `j - i`. */
  lemma SpliceAt<T>(arr: seq<T>, i: nat, j: nat, x: T, sorted: seq<T>)
    requires i <= j < |arr| && |sorted| == |arr| - i - 1
    requires forall k :: i <= k < j ==> arr[k] == sorted[k - i]
    requires arr[j] == x
    requires forall k :: j < k < |arr| ==> arr[k] == sorted[k - i - 1]
    ensures arr[i..] == sorted[..j - i] + [x] + sorted[j - i..]
  {
    var spliced := sorted[..j - i] + [x] + sorted[j - i..];
    forall k | i <= k < |arr| ensures arr[k] == spliced[k - i] {
      if k < j {
        assert spliced[k - i] == sorted[k - i];
      } else if k > j {
        assert spliced[k - i] == sorted[k - i - 1];
      }
    }
  }
}
