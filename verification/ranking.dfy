/**
 * The stable descending sort the pages get from `Array.prototype.sort` with a
 * comparator `(a, b) => key(b) - key(a)`. `SortDesc` is a reference
 * definition (an insertion sort); the lemmas show it is sorted, a permutation,
 * stable, keeps every sum over the elements, and is the only sequence with
 * these properties, so any stable sort computes it.
 */
module Ranking {
  import opened Collections

  ghost predicate SortedDesc<T>(s: seq<T>, key: T -> int) {
    forall i, j :: 0 <= i < j < |s| ==> key(s[i]) >= key(s[j])
  }

  /** A prefix of a descending sequence is descending. */
  lemma SortedDescPrefix<T>(s: seq<T>, key: T -> int, n: nat)
    requires SortedDesc(s, key) && n <= |s|
    ensures SortedDesc(s[..n], key)
  {
    assert forall i :: 0 <= i < n ==> s[..n][i] == s[i];
  }

  /** Puts `x` in front of the first element whose key is not above its own. */
  function Insert<T>(x: T, s: seq<T>, key: T -> int): (r: seq<T>)
    ensures |r| == |s| + 1
    decreases |s|
  {
    if s == [] then [x]
    else if key(s[0]) <= key(x) then [x] + s
    else [s[0]] + Insert(x, s[1..], key)
  }

  /** Descending by `key`; elements with equal keys keep their relative order. */
  function SortDesc<T>(s: seq<T>, key: T -> int): (r: seq<T>)
    ensures |r| == |s|
    decreases |s|
  {
    if s == [] then [] else Insert(s[0], SortDesc(s[1..], key), key)
  }

  lemma {:induction false} InsertPermutation<T>(x: T, s: seq<T>, key: T -> int)
    ensures multiset(Insert(x, s, key)) == multiset(s) + multiset{x}
    decreases |s|
  {
    if s != [] && key(s[0]) > key(x) {
      InsertPermutation(x, s[1..], key);
      assert s == [s[0]] + s[1..];
    }
  }

  /** Dropping the head of a sorted sequence leaves it sorted. */
  lemma SortedTail<T>(s: seq<T>, key: T -> int)
    requires s != [] && SortedDesc(s, key)
    ensures SortedDesc(s[1..], key)
  {
    var tail := s[1..];
    forall i, j | 0 <= i < j < |tail| ensures key(tail[i]) >= key(tail[j]) {
      assert tail[i] == s[i + 1] && tail[j] == s[j + 1];
    }
  }

  /** A head whose key bounds every later key, before a sorted sequence, gives a sorted sequence. */
  lemma SortedCons<T>(h: T, t: seq<T>, key: T -> int)
    requires SortedDesc(t, key)
    requires forall j :: 0 <= j < |t| ==> key(h) >= key(t[j])
    ensures SortedDesc([h] + t, key)
  {
    var r := [h] + t;
    forall i, j | 0 <= i < j < |r| ensures key(r[i]) >= key(r[j]) {
      assert r[j] == t[j - 1];
      if i > 0 {
        assert r[i] == t[i - 1];
      }
    }
  }

  /** Inserting an element whose key is at most `b` into a sequence whose keys are at most `b` keeps that bound. */
  lemma {:induction false} InsertBounded<T>(x: T, s: seq<T>, key: T -> int, b: int)
    requires key(x) <= b
    requires forall j :: 0 <= j < |s| ==> key(s[j]) <= b
    ensures forall j :: 0 <= j < |Insert(x, s, key)| ==> key(Insert(x, s, key)[j]) <= b
    decreases |s|
  {
    if s != [] && key(s[0]) > key(x) {
      var tail := s[1..];
      assert forall j :: 0 <= j < |tail| ==> tail[j] == s[j + 1];
      InsertBounded(x, tail, key, b);
      var r := Insert(x, s, key);
      assert r == [s[0]] + Insert(x, tail, key);
      forall j | 0 <= j < |r| ensures key(r[j]) <= b {
        if j > 0 {
          assert r[j] == Insert(x, tail, key)[j - 1];
        }
      }
    }
  }

  lemma {:induction false} InsertSorted<T>(x: T, s: seq<T>, key: T -> int)
    requires SortedDesc(s, key)
    ensures SortedDesc(Insert(x, s, key), key)
    decreases |s|
  {
    if s == [] {
    } else if key(s[0]) <= key(x) {
      SortedCons(x, s, key);
    } else {
      var tail := s[1..];
      SortedTail(s, key);
      InsertSorted(x, tail, key);
      assert forall j :: 0 <= j < |tail| ==> key(tail[j]) <= key(s[0]) by {
        assert forall j :: 0 <= j < |tail| ==> tail[j] == s[j + 1];
      }
      InsertBounded(x, tail, key, key(s[0]));
      SortedCons(s[0], Insert(x, tail, key), key);
    }
  }

  lemma {:induction false} InsertStable<T>(x: T, s: seq<T>, key: T -> int, k: int)
    ensures Where(Insert(x, s, key), key, k) == Where([x] + s, key, k)
    decreases |s|
  {
    if s == [] {
      assert [x] + s == [x];
    } else if key(s[0]) > key(x) {
      var tail := s[1..];
      var ins := Insert(x, tail, key);
      assert Insert(x, s, key) == [s[0]] + ins;
      assert s == [s[0]] + tail;
      InsertStable(x, tail, key, k);
      WhereCons(s[0], ins, key, k);
      WhereCons(x, tail, key, k);
      WhereCons(x, s, key, k);
      WhereCons(s[0], tail, key, k);
      if key(s[0]) == k {
        assert Where([x] + tail, key, k) == Where(tail, key, k);
      } else if key(x) == k {
        assert Where(s, key, k) == Where(tail, key, k);
      } else {
        assert Where(s, key, k) == Where(tail, key, k);
      }
    }
  }

  lemma {:induction false} InsertSum<T>(x: T, s: seq<T>, key: T -> int, val: T -> int)
    ensures SumInt(Insert(x, s, key), val) == val(x) + SumInt(s, val)
    decreases |s|
  {
    assert SumInt([x], val) == val(x) by { assert [x][..0] == []; }
    if s == [] {
    } else if key(s[0]) <= key(x) {
      SumIntConcat([x], s, val);
    } else {
      InsertSum(x, s[1..], key, val);
      SumIntConcat([s[0]], Insert(x, s[1..], key), val);
      assert SumInt([s[0]], val) == val(s[0]) by { assert [s[0]][..0] == []; }
      SumIntConcat([s[0]], s[1..], val);
      assert s == [s[0]] + s[1..];
    }
  }

  /** The sorted output is ordered non-increasingly by the key. */
  lemma {:induction false} SortDescSorted<T>(s: seq<T>, key: T -> int)
    ensures SortedDesc(SortDesc(s, key), key)
    decreases |s|
  {
    if s != [] {
      SortDescSorted(s[1..], key);
      InsertSorted(s[0], SortDesc(s[1..], key), key);
    }
  }

  /** The sorted output holds exactly the input's elements. */
  lemma {:induction false} SortDescPermutation<T>(s: seq<T>, key: T -> int)
    ensures multiset(SortDesc(s, key)) == multiset(s)
    decreases |s|
  {
    if s != [] {
      SortDescPermutation(s[1..], key);
      InsertPermutation(s[0], SortDesc(s[1..], key), key);
      assert s == [s[0]] + s[1..];
    }
  }

  /** Stability: for every key value, the elements with that key keep their order. */
  lemma {:induction false} SortDescStable<T>(s: seq<T>, key: T -> int, k: int)
    ensures Where(SortDesc(s, key), key, k) == Where(s, key, k)
    decreases |s|
  {
    if s != [] {
      var sorted := SortDesc(s[1..], key);
      InsertStable(s[0], sorted, key, k);
      WhereCons(s[0], sorted, key, k);
      SortDescStable(s[1..], key, k);
      WhereCons(s[0], s[1..], key, k);
      assert s == [s[0]] + s[1..];
    }
  }

  /** Reordering by the sort leaves every sum over the elements unchanged. */
  lemma {:induction false} SortDescSum<T>(s: seq<T>, key: T -> int, val: T -> int)
    ensures SumInt(SortDesc(s, key), val) == SumInt(s, val)
    decreases |s|
  {
    if s != [] {
      SortDescSum(s[1..], key, val);
      InsertSum(s[0], SortDesc(s[1..], key), key, val);
      SumIntConcat([s[0]], s[1..], val);
      assert SumInt([s[0]], val) == val(s[0]) by { assert [s[0]][..0] == []; }
      assert s == [s[0]] + s[1..];
    }
  }

  /** Two sequences sorted by the same key with the same elements per key value are equal. */
  lemma {:induction false} SortedWithSameGroupsEqual<T>(r: seq<T>, t: seq<T>, key: T -> int)
    requires SortedDesc(r, key) && SortedDesc(t, key)
    requires forall k :: Where(r, key, k) == Where(t, key, k)
    ensures r == t
    decreases |r|
  {
    if r == [] || t == [] {
      if r != [] {
        WhereNonEmpty(r, key, key(r[0]));
        assert false;
      }
      if t != [] {
        WhereNonEmpty(t, key, key(t[0]));
        assert false;
      }
    } else {
      var a, b := key(r[0]), key(t[0]);
      assert a <= b by {
        WhereNonEmpty(r, key, a);
        WhereNonEmpty(t, key, a);
        var i :| 0 <= i < |t| && key(t[i]) == a;
      }
      assert b <= a by {
        WhereNonEmpty(t, key, b);
        WhereNonEmpty(r, key, b);
        var i :| 0 <= i < |r| && key(r[i]) == b;
      }
      var r', t' := r[1..], t[1..];
      assert r == [r[0]] + r' && t == [t[0]] + t';
      forall k ensures Where(r', key, k) == Where(t', key, k) {
        assert Where(r, key, k) == Where(t, key, k);
        WhereCons(r[0], r', key, k);
        WhereCons(t[0], t', key, k);
        assert Where(r, key, k) == (if a == k then [r[0]] else []) + Where(r', key, k);
        assert Where(t, key, k) == (if a == k then [t[0]] else []) + Where(t', key, k);
        if k == a {
          assert ([r[0]] + Where(r', key, k))[1..] == Where(r', key, k);
          assert ([t[0]] + Where(t', key, k))[1..] == Where(t', key, k);
        } else {
          assert [] + Where(r', key, k) == Where(r', key, k);
          assert [] + Where(t', key, k) == Where(t', key, k);
        }
      }
      assert r[0] == t[0] by {
        WhereCons(r[0], r', key, a);
        WhereCons(t[0], t', key, a);
        assert Where(r, key, a)[0] == r[0];
      }
      SortedTail(r, key);
      SortedTail(t, key);
      SortedWithSameGroupsEqual(r', t', key);
    }
  }

  /**
   * Uniqueness: any arrangement of `s` that is sorted by `key` and keeps the
   * order within each key value is `SortDesc(s, key)`, so the reference sort
   * stands for every stable sort.
   */
  lemma StableSortIsSortDesc<T>(s: seq<T>, r: seq<T>, key: T -> int)
    requires SortedDesc(r, key)
    requires forall k :: Where(r, key, k) == Where(s, key, k)
    ensures r == SortDesc(s, key)
  {
    SortDescSorted(s, key);
    forall k ensures Where(r, key, k) == Where(SortDesc(s, key), key, k) {
      SortDescStable(s, key, k);
    }
    SortedWithSameGroupsEqual(r, SortDesc(s, key), key);
  }
}
