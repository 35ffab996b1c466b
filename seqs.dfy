/**
 * `Array.prototype.filter` and the stable `Array.prototype.sort` (stable since ECMAScript 2019),
 * as functions on sequences. A sort comparator is given as the relation "a may stay before b"
 * (`compare(a, b) <= 0`), which a well-behaved comparator makes a total preorder.
 */
module Seqs {

  // ---------------------------------------------------------------- filter

  /** Every position moved one place on. */
  function Shift(t: seq<nat>): (r: seq<nat>)
    ensures |r| == |t|
    ensures forall k :: 0 <= k < |t| ==> r[k] == t[k] + 1
  {
    seq(|t|, k requires 0 <= k < |t| => t[k] + 1)
  }

  /**
   * The positions of `s` whose elements pass `p`, in increasing order (every passing
   * position is among them: PassingComplete).
   */
  ghost function Passing<T>(s: seq<T>, p: T -> bool): (idx: seq<nat>)
    ensures |idx| <= |s|
    ensures forall k :: 0 <= k < |idx| ==> idx[k] < |s| && p(s[idx[k]])
    ensures forall k, l :: 0 <= k < l < |idx| ==> idx[k] < idx[l]
  {
    if s == [] then []
    else
      var t := s[1..];
      var rest := Passing(t, p);
      var shifted := Shift(rest);
      var head: seq<nat> := if p(s[0]) then [0] else [];
      assert forall k :: 0 <= k < |shifted| ==> shifted[k] < |s| && s[shifted[k]] == t[rest[k]];
      head + shifted
  }

  /** No passing position is missed. */
  lemma {:induction false} PassingComplete<T>(s: seq<T>, p: T -> bool, i: nat)
    requires i < |s| && p(s[i])
    ensures i in Passing(s, p)
  {
    if i == 0 {
      assert Passing(s, p)[0] == 0;
    } else {
      var t := s[1..];
      assert t[i - 1] == s[i];
      PassingComplete(t, p, i - 1);
      var rest := Passing(t, p);
      var k :| 0 <= k < |rest| && rest[k] == i - 1;
      var head: seq<nat> := if p(s[0]) then [0] else [];
      var shifted := Shift(rest);
      assert shifted[k] == i;
      assert Passing(s, p) == head + shifted;
      assert (head + shifted)[|head| + k] == i;
    }
  }

  /**
   * `r` is the order-preserving subsequence of `s` made of exactly the elements that pass
   * `p`: its k-th element is the k-th passing element of `s`.
   */
  ghost predicate KeepsInOrder<T>(r: seq<T>, s: seq<T>, p: T -> bool) {
    var idx := Passing(s, p);
    |r| == |idx| && forall k :: 0 <= k < |r| ==> r[k] == s[idx[k]]
  }

  /** `Array.prototype.filter`: the passing elements, each once, in their order in `s`. */
  function Filter<T>(s: seq<T>, p: T -> bool): (r: seq<T>)
    ensures KeepsInOrder(r, s, p)
    ensures forall i :: 0 <= i < |r| ==> p(r[i])
  {
    if s == [] then []
    else
      var t := s[1..];
      var rest := Filter(t, p);
      var head := if p(s[0]) then [s[0]] else [];
      var r := head + rest;
      assert KeepsInOrder(r, s, p) by {
        var idx := Passing(s, p);
        var ridx := Passing(t, p);
        assert idx == (if p(s[0]) then [0] else []) + Shift(ridx);
        forall k | 0 <= k < |r| ensures r[k] == s[idx[k]] {
          if k >= |head| {
            assert r[k] == rest[k - |head|] == t[ridx[k - |head|]];
          }
        }
      }
      r
  }

  /** The filter holds exactly the elements of `s` that pass `p`. */
  lemma FilterMembers<T>(s: seq<T>, p: T -> bool)
    ensures forall x :: x in Filter(s, p) <==> x in s && p(x)
  {
    var r := Filter(s, p);
    var idx := Passing(s, p);
    forall x | x in r ensures x in s {
      var k :| 0 <= k < |r| && r[k] == x;
      assert s[idx[k]] == x;
    }
    forall x | x in s && p(x) ensures x in r {
      var i :| 0 <= i < |s| && s[i] == x;
      PassingComplete(s, p, i);
      var k :| 0 <= k < |idx| && idx[k] == i;
      assert r[k] == x;
    }
  }

  /** Filtering distributes over concatenation. */
  lemma {:induction false} FilterAppend<T>(a: seq<T>, b: seq<T>, p: T -> bool)
    ensures Filter(a + b, p) == Filter(a, p) + Filter(b, p)
  {
    if a == [] {
      assert a + b == b;
    } else {
      assert (a + b)[1..] == a[1..] + b;
      FilterAppend(a[1..], b, p);
    }
  }

  /** A filter that keeps everything is the identity. */
  lemma {:induction false} FilterAll<T>(s: seq<T>, p: T -> bool)
    requires forall x :: x in s ==> p(x)
    ensures Filter(s, p) == s
  {
    if s != [] {
      FilterAll(s[1..], p);
    }
  }

  /**
   * Two complementary filters split a sequence exactly: every element goes to one side,
   * so the two results together are a permutation of the input.
   */
  lemma {:induction false} FilterPartition<T>(s: seq<T>, p: T -> bool, q: T -> bool)
    requires forall x :: q(x) <==> !p(x)
    ensures multiset(Filter(s, p)) + multiset(Filter(s, q)) == multiset(s)
    ensures |Filter(s, p)| + |Filter(s, q)| == |s|
  {
    if s != [] {
      FilterPartition(s[1..], p, q);
      assert s == [s[0]] + s[1..];
    }
  }

  // ---------------------------------------------------------------- stable sort

  ghost predicate TotalPreorder<T(!new)>(le: (T, T) -> bool) {
    && (forall x, y :: le(x, y) || le(y, x))
    && (forall x, y, z :: le(x, y) && le(y, z) ==> le(x, z))
  }

  /** Every element may stay before every later one. */
  ghost predicate Sorted<T>(s: seq<T>, le: (T, T) -> bool) {
    forall i, j :: 0 <= i < j < |s| ==> le(s[i], s[j])
  }

  /**
   * Inserts `x`, which came before every element of `s` in the input, in front of the first
   * element it may stay before: it only moves past elements that must precede it.
   */
  function Insert<T>(x: T, s: seq<T>, le: (T, T) -> bool): (r: seq<T>)
    ensures multiset(r) == multiset(s) + multiset{x}
    ensures |r| == |s| + 1
  {
    if s == [] then [x]
    else if le(x, s[0]) then [x] + s
    else
      assert s == [s[0]] + s[1..];
      [s[0]] + Insert(x, s[1..], le)
  }

  /** A stable sort: insertion sort from the back, each element inserted in front of its equals. */
  function Sort<T>(s: seq<T>, le: (T, T) -> bool): (r: seq<T>)
    ensures multiset(r) == multiset(s)
    ensures |r| == |s|
  {
    if s == [] then []
    else
      assert s == [s[0]] + s[1..];
      Insert(s[0], Sort(s[1..], le), le)
  }

  lemma {:induction false} InsertSorted<T(!new)>(x: T, s: seq<T>, le: (T, T) -> bool)
    requires TotalPreorder(le)
    requires Sorted(s, le)
    ensures Sorted(Insert(x, s, le), le)
  {
    if s != [] && !le(x, s[0]) {
      InsertSorted(x, s[1..], le);
      var r := Insert(x, s, le);
      var t := Insert(x, s[1..], le);
      assert r == [s[0]] + t;
      assert le(s[0], x);
      forall k | 0 <= k < |t| ensures le(s[0], t[k]) {
        assert t[k] in multiset(t);
        assert t[k] == x || t[k] in multiset(s[1..]);
        if t[k] != x {
          assert t[k] in s[1..];
        }
      }
    }
  }

  /** The sorted output respects the comparator everywhere. */
  lemma {:induction false} SortSorted<T(!new)>(s: seq<T>, le: (T, T) -> bool)
    requires TotalPreorder(le)
    ensures Sorted(Sort(s, le), le)
  {
    if s != [] {
      SortSorted(s[1..], le);
      InsertSorted(s[0], Sort(s[1..], le), le);
    }
  }

  /** The elements of `s` equivalent to `z` under `le`, in their order in `s`. */
  function EquivClass<T>(s: seq<T>, z: T, le: (T, T) -> bool): (r: seq<T>)
    ensures |r| <= |s|
  {
    if s == [] then []
    else (if le(s[0], z) && le(z, s[0]) then [s[0]] else []) + EquivClass(s[1..], z, le)
  }

  /** If `y` must precede `x` and `x` may precede `z`, then `y` must precede `z` too. */
  lemma StrictlyBefore<T(!new)>(le: (T, T) -> bool, x: T, y: T, z: T)
    requires TotalPreorder(le)
    requires !le(x, y) && le(x, z)
    ensures !le(z, y)
  {
  }

  /** The class of a list with a known head: the head's contribution, then the tail's. */
  lemma EquivClassCons<T>(a: T, t: seq<T>, z: T, le: (T, T) -> bool)
    ensures EquivClass([a] + t, z, le)
         == (if le(a, z) && le(z, a) then [a] else []) + EquivClass(t, z, le)
  {
    assert ([a] + t)[1..] == t;
  }

  /** Prepending the same element to two lists whose classes differ by a prefix `head`. */
  lemma EquivClassConsBoth<T>(a: T, t: seq<T>, u: seq<T>, z: T, le: (T, T) -> bool, head: seq<T>)
    requires EquivClass(t, z, le) == head + EquivClass(u, z, le)
    requires head != [] ==> !(le(a, z) && le(z, a))
    ensures EquivClass([a] + t, z, le) == head + EquivClass([a] + u, z, le)
  {
    EquivClassCons(a, t, z, le);
    EquivClassCons(a, u, z, le);
  }

  lemma {:induction false} InsertEquivClass<T(!new)>(x: T, s: seq<T>, z: T, le: (T, T) -> bool)
    requires TotalPreorder(le)
    ensures EquivClass(Insert(x, s, le), z, le)
         == (if le(x, z) && le(z, x) then [x] else []) + EquivClass(s, z, le)
  {
    if s == [] {
    } else if le(x, s[0]) {
      EquivClassCons(x, s, z, le);
    } else {
      var head := if le(x, z) && le(z, x) then [x] else [];
      var t := Insert(x, s[1..], le);
      InsertEquivClass(x, s[1..], z, le);
      if head != [] {
        // s[0] must precede x, so it is not equivalent to z
        StrictlyBefore(le, x, s[0], z);
      }
      EquivClassConsBoth(s[0], t, s[1..], z, le, head);
      assert [s[0]] + s[1..] == s;
    }
  }

  /**
   * Stability: for every key class, the sorted output lists the elements of that class in
   * exactly their input order. Together with Sorted and the permutation this fixes the output.
   */
  lemma {:induction false} SortStable<T(!new)>(s: seq<T>, z: T, le: (T, T) -> bool)
    requires TotalPreorder(le)
    ensures EquivClass(Sort(s, le), z, le) == EquivClass(s, z, le)
  {
    if s != [] {
      SortStable(s[1..], z, le);
      InsertEquivClass(s[0], Sort(s[1..], le), z, le);
    }
  }

  /** Sorting input that is already in order changes nothing. */
  lemma {:induction false} SortOfSorted<T>(s: seq<T>, le: (T, T) -> bool)
    requires Sorted(s, le)
    ensures Sort(s, le) == s
  {
    if s != [] {
      assert Sorted(s[1..], le);
      SortOfSorted(s[1..], le);
      if |s| > 1 {
        assert le(s[0], s[1]);
        assert s[1..][0] == s[1];
      }
      assert [s[0]] + s[1..] == s;
    }
  }
}
