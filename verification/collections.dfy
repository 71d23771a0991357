/**
 * Sequence helpers shared by the pages: the `filter`, grouping and summing
 * idioms the components write with `forEach` and dictionaries, stated once,
 * with the facts about them the other modules rely on.
 */
module Collections {

  ghost predicate Distinct<T>(s: seq<T>) {
    forall i, j :: 0 <= i < j < |s| ==> s[i] != s[j]
  }

  /** `r` is an order-preserving subsequence of `s` (greedy matching). */
  predicate SubsequenceOf<T(==)>(r: seq<T>, s: seq<T>)
    decreases |s|
  {
    if r == [] then true
    else if s == [] then false
    else if r[0] == s[0] then SubsequenceOf(r[1..], s[1..])
    else SubsequenceOf(r, s[1..])
  }

  lemma {:induction false} SubsequenceElements<T>(r: seq<T>, s: seq<T>)
    requires SubsequenceOf(r, s)
    ensures |r| <= |s|
    ensures forall x :: x in r ==> x in s
    decreases |s|
  {
    if r != [] && s != [] {
      if r[0] == s[0] {
        SubsequenceElements(r[1..], s[1..]);
        assert r == [r[0]] + r[1..];
        assert s == [s[0]] + s[1..];
      } else {
        SubsequenceElements(r, s[1..]);
        assert s == [s[0]] + s[1..];
      }
    }
  }

  /** Any prefix of a subsequence is still a subsequence (JS `slice(0, n)`). */
  lemma {:induction false} SubsequencePrefix<T>(r: seq<T>, s: seq<T>, n: nat)
    requires SubsequenceOf(r, s) && n <= |r|
    ensures SubsequenceOf(r[..n], s)
    decreases |s|
  {
    if n == 0 || r == [] {
    } else if r[0] == s[0] {
      SubsequencePrefix(r[1..], s[1..], n - 1);
      assert r[..n][1..] == r[1..][..n - 1];
    } else {
      SubsequencePrefix(r, s[1..], n);
    }
  }

  /** JS `s.filter(p)`: the elements satisfying `p`, in their order. */
  function Filter<T(==)>(s: seq<T>, p: T -> bool): (r: seq<T>)
    ensures SubsequenceOf(r, s)
    ensures forall i :: 0 <= i < |r| ==> p(r[i]) && r[i] in s
    ensures forall i :: 0 <= i < |s| && p(s[i]) ==> s[i] in r
    decreases |s|
  {
    if s == [] then []
    else
      var rest := Filter(s[1..], p);
      assert forall i :: 0 <= i < |rest| ==> rest[i] in s[1..];
      assert forall i :: 1 <= i < |s| ==> s[i] == s[1..][i - 1];
      if p(s[0]) then
        assert ([s[0]] + rest)[1..] == rest;
        [s[0]] + rest
      else
        assert rest != [] ==> rest[0] != s[0] by {
          if rest != [] { assert rest[0] in rest; }
        }
        rest
  }

  /** A filter keeps every element exactly when every element satisfies the predicate. */
  lemma {:induction false} FilterLength<T>(s: seq<T>, p: T -> bool)
    ensures |Filter(s, p)| <= |s|
    ensures |Filter(s, p)| == |s| <==> forall i :: 0 <= i < |s| ==> p(s[i])
    ensures |Filter(s, p)| == 0 <==> forall i :: 0 <= i < |s| ==> !p(s[i])
    decreases |s|
  {
    if s != [] {
      var t := s[1..];
      FilterLength(t, p);
      assert forall i :: 1 <= i < |s| ==> s[i] == t[i - 1];
      assert (forall i :: 0 <= i < |s| ==> p(s[i])) <==> p(s[0]) && forall i :: 0 <= i < |t| ==> p(t[i]);
      assert (forall i :: 0 <= i < |s| ==> !p(s[i])) <==> !p(s[0]) && forall i :: 0 <= i < |t| ==> !p(t[i]);
      if p(s[0]) {
        assert |Filter(s, p)| == 1 + |Filter(t, p)|;
      } else {
        assert Filter(s, p) == Filter(t, p);
      }
    }
  }

  /** A filter keeps every copy of each element satisfying the predicate and no copy of the others. */
  lemma {:induction false} FilterMultiset<T>(s: seq<T>, p: T -> bool)
    ensures forall x :: multiset(Filter(s, p))[x] == if p(x) then multiset(s)[x] else 0
    decreases |s|
  {
    if s != [] {
      FilterMultiset(s[1..], p);
      assert s == [s[0]] + s[1..];
    }
  }

  /** Filtering with a predicate every element satisfies changes nothing. */
  lemma {:induction false} FilterAll<T>(s: seq<T>, p: T -> bool)
    requires forall x :: x in s ==> p(x)
    ensures Filter(s, p) == s
    decreases |s|
  {
    if s != [] {
      assert s[0] in s;
      assert forall x :: x in s[1..] ==> x in s;
      FilterAll(s[1..], p);
      assert s == [s[0]] + s[1..];
    }
  }

  /** The elements of `s` whose key is `k`, in order: one group of a `groupBy`. */
  function Where<T, K(==)>(s: seq<T>, key: T -> K, k: K): (r: seq<T>)
    ensures |r| <= |s|
    ensures forall i :: 0 <= i < |r| ==> key(r[i]) == k
    decreases |s|
  {
    if s == [] then []
    else Where(s[..|s| - 1], key, k) + (if key(s[|s| - 1]) == k then [s[|s| - 1]] else [])
  }

  lemma {:induction false} WhereAppend<T, K>(s: seq<T>, x: T, key: T -> K, k: K)
    ensures Where(s + [x], key, k) == Where(s, key, k) + (if key(x) == k then [x] else [])
  {
    assert (s + [x])[..|s|] == s;
  }

  lemma {:induction false} WhereCons<T, K>(x: T, s: seq<T>, key: T -> K, k: K)
    ensures Where([x] + s, key, k) == (if key(x) == k then [x] else []) + Where(s, key, k)
  {
    WhereConcat([x], s, key, k);
    assert [x] == [] + [x];
    WhereAppend([], x, key, k);
  }

  /** Filtering out only elements of other groups leaves group `k` as it was. */
  lemma {:induction false} WhereFilter<T, K>(s: seq<T>, p: T -> bool, key: T -> K, k: K)
    requires forall x :: key(x) == k ==> p(x)
    ensures Where(Filter(s, p), key, k) == Where(s, key, k)
    decreases |s|
  {
    if s != [] {
      var t := s[1..];
      assert s == [s[0]] + t;
      WhereFilter(t, p, key, k);
      WhereCons(s[0], t, key, k);
      if p(s[0]) {
        assert Filter(s, p) == [s[0]] + Filter(t, p);
        WhereCons(s[0], Filter(t, p), key, k);
      } else {
        assert Filter(s, p) == Filter(t, p);
      }
    }
  }

  lemma {:induction false} WhereConcat<T, K>(a: seq<T>, b: seq<T>, key: T -> K, k: K)
    ensures Where(a + b, key, k) == Where(a, key, k) + Where(b, key, k)
    decreases |b|
  {
    if b != [] {
      var b' := b[..|b| - 1];
      var x := b[|b| - 1];
      assert b == b' + [x];
      assert a + b == (a + b') + [x];
      WhereConcat(a, b', key, k);
      WhereAppend(a + b', x, key, k);
      WhereAppend(b', x, key, k);
    } else {
      assert a + b == a;
    }
  }

  /** A prefix one longer is the prefix extended by the next element. */
  lemma PrefixSnoc<T>(s: seq<T>, i: int)
    requires 0 <= i < |s|
    ensures s[..i + 1] == s[..i] + [s[i]]
  {
  }

  /** A prefix holds each element at most as often as the whole sequence. */
  lemma PrefixMultiset<T>(s: seq<T>, n: nat)
    requires n <= |s|
    ensures multiset(s[..n]) <= multiset(s)
  {
    assert s == s[..n] + s[n..];
  }

  lemma PrefixAll<T>(s: seq<T>)
    ensures s[..|s|] == s
  {
  }

  /** Every element of a group is an element of the sequence. */
  lemma {:induction false} WhereElements<T, K>(s: seq<T>, key: T -> K, k: K)
    ensures forall i :: 0 <= i < |Where(s, key, k)| ==> Where(s, key, k)[i] in s
    decreases |s|
  {
    if s != [] {
      var s' := s[..|s| - 1];
      WhereElements(s', key, k);
      assert forall i :: 0 <= i < |s'| ==> s'[i] == s[i];
    }
  }

  /** A row's group is non-empty exactly when some row has that key. */
  lemma {:induction false} WhereNonEmpty<T, K>(s: seq<T>, key: T -> K, k: K)
    ensures |Where(s, key, k)| > 0 <==> exists i :: 0 <= i < |s| && key(s[i]) == k
    decreases |s|
  {
    if s != [] {
      var s' := s[..|s| - 1];
      WhereNonEmpty(s', key, k);
      if exists i :: 0 <= i < |s| && key(s[i]) == k {
        var i :| 0 <= i < |s| && key(s[i]) == k;
        if i < |s| - 1 { assert key(s'[i]) == k; }
      }
      if exists i :: 0 <= i < |s'| && key(s'[i]) == k {
        var i :| 0 <= i < |s'| && key(s'[i]) == k;
        assert key(s[i]) == k;
      }
    }
  }

  /**
   * The keys of `s` in order of first appearance, each once: the key order
   * of a dictionary filled by a `forEach` over `s`.
   */
  function DistinctKeys<T, K(==)>(s: seq<T>, key: T -> K): (r: seq<K>)
    ensures Distinct(r)
    ensures forall i :: 0 <= i < |s| ==> key(s[i]) in r
    ensures forall j :: 0 <= j < |r| ==> exists i :: 0 <= i < |s| && key(s[i]) == r[j]
    decreases |s|
  {
    if s == [] then []
    else
      var s' := s[..|s| - 1];
      var d := DistinctKeys(s', key);
      assert forall i :: 0 <= i < |s'| ==> s'[i] == s[i];
      if key(s[|s| - 1]) in d then d else d + [key(s[|s| - 1])]
  }

  function SumInt<T>(s: seq<T>, val: T -> int): int
    decreases |s|
  {
    if s == [] then 0 else SumInt(s[..|s| - 1], val) + val(s[|s| - 1])
  }

  function SumReal<T>(s: seq<T>, val: T -> real): real
    decreases |s|
  {
    if s == [] then 0.0 else SumReal(s[..|s| - 1], val) + val(s[|s| - 1])
  }

  lemma {:induction false} SumIntConcat<T>(a: seq<T>, b: seq<T>, val: T -> int)
    ensures SumInt(a + b, val) == SumInt(a, val) + SumInt(b, val)
    decreases |b|
  {
    if b != [] {
      var b' := b[..|b| - 1];
      assert b == b' + [b[|b| - 1]];
      assert (a + b)[..|a + b| - 1] == a + b';
      SumIntConcat(a, b', val);
    } else {
      assert a + b == a;
    }
  }

  function One<T>(x: T): int { 1 }

  lemma {:induction false} SumOfOnes<T>(s: seq<T>)
    ensures SumInt(s, One) == |s|
    decreases |s|
  {
    if s != [] { SumOfOnes(s[..|s| - 1]); }
  }

  /** The sum over the groups named by `keys` of each group's sum. */
  function SumGroupsInt<T, K(==)>(keys: seq<K>, s: seq<T>, key: T -> K, val: T -> int): int
    decreases |keys|
  {
    if keys == [] then 0
    else SumInt(Where(s, key, keys[0]), val) + SumGroupsInt(keys[1..], s, key, val)
  }

  function SumGroupsReal<T, K(==)>(keys: seq<K>, s: seq<T>, key: T -> K, val: T -> real): real
    decreases |keys|
  {
    if keys == [] then 0.0
    else SumReal(Where(s, key, keys[0]), val) + SumGroupsReal(keys[1..], s, key, val)
  }

  lemma {:induction false} SumGroupsIntEmpty<T, K>(keys: seq<K>, key: T -> K, val: T -> int)
    ensures SumGroupsInt(keys, [], key, val) == 0
    decreases |keys|
  {
    if keys != [] { SumGroupsIntEmpty(keys[1..], key, val); }
  }

  lemma {:induction false} SumGroupsRealEmpty<T, K>(keys: seq<K>, key: T -> K, val: T -> real)
    ensures SumGroupsReal(keys, [], key, val) == 0.0
    decreases |keys|
  {
    if keys != [] { SumGroupsRealEmpty(keys[1..], key, val); }
  }

  /** One more row adds its value to the one group it belongs to. */
  lemma {:induction false} SumGroupsIntAppend<T, K>(keys: seq<K>, s: seq<T>, x: T, key: T -> K, val: T -> int)
    requires Distinct(keys)
    ensures SumGroupsInt(keys, s + [x], key, val)
         == SumGroupsInt(keys, s, key, val) + (if key(x) in keys then val(x) else 0)
    decreases |keys|
  {
    if keys != [] {
      WhereAppend(s, x, key, keys[0]);
      var w := Where(s, key, keys[0]);
      if key(x) == keys[0] {
        assert (w + [x])[..|w|] == w;
      }
      assert forall i, j :: 0 <= i < j < |keys[1..]| ==> keys[1..][i] != keys[1..][j] by {
        forall i, j | 0 <= i < j < |keys[1..]| ensures keys[1..][i] != keys[1..][j] {
          assert keys[1..][i] == keys[i + 1] && keys[1..][j] == keys[j + 1];
        }
      }
      SumGroupsIntAppend(keys[1..], s, x, key, val);
      assert keys == [keys[0]] + keys[1..];
      assert key(x) in keys <==> key(x) == keys[0] || key(x) in keys[1..];
      if key(x) == keys[0] {
        forall j | 0 <= j < |keys[1..]| ensures keys[1..][j] != keys[0] {
          assert keys[1..][j] == keys[j + 1];
        }
        assert key(x) !in keys[1..];
        assert SumInt(Where(s + [x], key, keys[0]), val) == SumInt(w, val) + val(x);
      } else {
        assert Where(s + [x], key, keys[0]) == w;
      }
    }
  }

  lemma {:induction false} SumGroupsRealAppend<T, K>(keys: seq<K>, s: seq<T>, x: T, key: T -> K, val: T -> real)
    requires Distinct(keys)
    ensures SumGroupsReal(keys, s + [x], key, val)
         == SumGroupsReal(keys, s, key, val) + (if key(x) in keys then val(x) else 0.0)
    decreases |keys|
  {
    if keys != [] {
      WhereAppend(s, x, key, keys[0]);
      var w := Where(s, key, keys[0]);
      if key(x) == keys[0] {
        assert (w + [x])[..|w|] == w;
      }
      assert forall i, j :: 0 <= i < j < |keys[1..]| ==> keys[1..][i] != keys[1..][j] by {
        forall i, j | 0 <= i < j < |keys[1..]| ensures keys[1..][i] != keys[1..][j] {
          assert keys[1..][i] == keys[i + 1] && keys[1..][j] == keys[j + 1];
        }
      }
      SumGroupsRealAppend(keys[1..], s, x, key, val);
      assert keys == [keys[0]] + keys[1..];
      assert key(x) in keys <==> key(x) == keys[0] || key(x) in keys[1..];
      if key(x) == keys[0] {
        forall j | 0 <= j < |keys[1..]| ensures keys[1..][j] != keys[0] {
          assert keys[1..][j] == keys[j + 1];
        }
        assert key(x) !in keys[1..];
        assert SumReal(Where(s + [x], key, keys[0]), val) == SumReal(w, val) + val(x);
      } else {
        assert Where(s + [x], key, keys[0]) == w;
      }
    }
  }

  /** Group sums over the same keys agree when the two sequences have the same groups. */
  lemma {:induction false} SumGroupsIntSame<T, K>(keys: seq<K>, s: seq<T>, t: seq<T>, key: T -> K, val: T -> int)
    requires forall j :: 0 <= j < |keys| ==> Where(s, key, keys[j]) == Where(t, key, keys[j])
    ensures SumGroupsInt(keys, s, key, val) == SumGroupsInt(keys, t, key, val)
    decreases |keys|
  {
    if keys != [] {
      assert forall j :: 0 <= j < |keys| - 1 ==> keys[1..][j] == keys[j + 1];
      SumGroupsIntSame(keys[1..], s, t, key, val);
    }
  }

  /**
   * Summing group by group over distinct keys that cover every row gives the
   * plain sum over the rows: grouping only reorders an exact sum.
   */
  lemma {:induction false} SumByGroupsInt<T, K>(keys: seq<K>, s: seq<T>, key: T -> K, val: T -> int)
    requires Distinct(keys)
    requires forall i :: 0 <= i < |s| ==> key(s[i]) in keys
    ensures SumGroupsInt(keys, s, key, val) == SumInt(s, val)
    decreases |s|
  {
    if s == [] {
      SumGroupsIntEmpty(keys, key, val);
    } else {
      var s', x := s[..|s| - 1], s[|s| - 1];
      assert s == s' + [x];
      assert forall i :: 0 <= i < |s'| ==> key(s'[i]) in keys by {
        forall i | 0 <= i < |s'| ensures key(s'[i]) in keys {
          assert s'[i] == s[i];
        }
      }
      SumByGroupsInt(keys, s', key, val);
      SumGroupsIntAppend(keys, s', x, key, val);
    }
  }

  lemma {:induction false} SumByGroupsReal<T, K>(keys: seq<K>, s: seq<T>, key: T -> K, val: T -> real)
    requires Distinct(keys)
    requires forall i :: 0 <= i < |s| ==> key(s[i]) in keys
    ensures SumGroupsReal(keys, s, key, val) == SumReal(s, val)
    decreases |s|
  {
    if s == [] {
      SumGroupsRealEmpty(keys, key, val);
    } else {
      var s', x := s[..|s| - 1], s[|s| - 1];
      assert s == s' + [x];
      assert forall i :: 0 <= i < |s'| ==> key(s'[i]) in keys by {
        forall i | 0 <= i < |s'| ensures key(s'[i]) in keys {
          assert s'[i] == s[i];
        }
      }
      SumByGroupsReal(keys, s', key, val);
      SumGroupsRealAppend(keys, s', x, key, val);
    }
  }

  /** `part / whole * 100`, with 0 for an empty whole. */
  function Percent(part: nat, whole: nat): (pct: real)
    requires part <= whole
    ensures whole == 0 ==> pct == 0.0
    ensures 0.0 <= pct <= 100.0
    ensures pct * whole as real == 100.0 * part as real
    ensures pct == 100.0 <==> whole > 0 && part == whole
    ensures pct == 0.0 <==> whole == 0 || part == 0
  {
    if whole == 0 then 0.0
    else
      ShareBounds(part, whole);
      part as real / whole as real * 100.0
  }

  /** A share of a positive whole, as a percentage, lies in [0, 100] and is 100 only for the whole. */
  lemma ShareBounds(part: int, whole: int)
    requires 0 <= part <= whole && whole > 0
    ensures 0.0 <= part as real / whole as real * 100.0 <= 100.0
    ensures part as real / whole as real * 100.0 == 100.0 <==> part == whole
    ensures part as real / whole as real * 100.0 == 0.0 <==> part == 0
    ensures part as real / whole as real * 100.0 * whole as real == 100.0 * part as real
  {
    var q := part as real / whole as real;
    assert q * whole as real == part as real;
    assert (1.0 - q) * whole as real == (whole - part) as real;
  }

  /** Terms within [0, hi] sum to at most `hi` times their number. */
  lemma {:induction false} SumRealBounds<T>(s: seq<T>, val: T -> real, hi: real)
    requires forall i :: 0 <= i < |s| ==> 0.0 <= val(s[i]) <= hi
    ensures 0.0 <= SumReal(s, val) <= hi * |s| as real
    decreases |s|
  {
    if s != [] {
      var s' := s[..|s| - 1];
      assert forall i :: 0 <= i < |s'| ==> s'[i] == s[i];
      SumRealBounds(s', val, hi);
      assert hi * |s| as real == hi * |s'| as real + hi;
    }
  }

  /** The mean of terms within [0, hi] lies within [0, hi]. */
  lemma MeanBounds(sum: real, n: int, hi: real)
    requires n > 0 && 0.0 <= sum <= hi * n as real
    ensures 0.0 <= sum / n as real <= hi
  {
    var m := sum / n as real;
    assert m * n as real == sum;
    assert (hi - m) * n as real == hi * n as real - sum;
  }

  /** Appending an element adds its key at the end exactly when the key is new. */
  lemma DistinctKeysAppend<T, K>(s: seq<T>, x: T, key: T -> K)
    ensures DistinctKeys(s + [x], key)
        == if key(x) in DistinctKeys(s, key) then DistinctKeys(s, key) else DistinctKeys(s, key) + [key(x)]
  {
    assert (s + [x])[..|s|] == s;
  }

  /** A key that no element has has an empty group. */
  lemma WhereAbsent<T, K>(s: seq<T>, key: T -> K, k: K)
    requires k !in DistinctKeys(s, key)
    ensures Where(s, key, k) == []
  {
    WhereNonEmpty(s, key, k);
  }

  /** Every element of a group satisfies `p` iff every element with that key does. */
  lemma {:induction false} WhereEvery<T, K>(s: seq<T>, key: T -> K, k: K, p: T -> bool)
    ensures (forall i :: 0 <= i < |Where(s, key, k)| ==> p(Where(s, key, k)[i]))
        <==> (forall i :: 0 <= i < |s| && key(s[i]) == k ==> p(s[i]))
    decreases |s|
  {
    if s != [] {
      var s', x := s[..|s| - 1], s[|s| - 1];
      WhereEvery(s', key, k, p);
      WhereAppend(s', x, key, k);
      var w, w' := Where(s', key, k), Where(s, key, k);
      assert s == s' + [x];
      if forall i :: 0 <= i < |w'| ==> p(w'[i]) {
        forall j | 0 <= j < |w| ensures p(w[j]) {
          assert w'[j] == w[j];
        }
        forall i | 0 <= i < |s| && key(s[i]) == k ensures p(s[i]) {
          if i < |s'| {
            assert s'[i] == s[i];
          } else {
            assert w'[|w|] == x;
          }
        }
      }
      if forall i :: 0 <= i < |s| && key(s[i]) == k ==> p(s[i]) {
        forall i | 0 <= i < |s'| && key(s'[i]) == k ensures p(s'[i]) {
          assert s'[i] == s[i];
        }
        forall i | 0 <= i < |w'| ensures p(w'[i]) {
          if i < |w| {
            assert w'[i] == w[i];
          } else {
            assert w'[i] == x;
          }
        }
      }
    }
  }

  /** Some element of a group satisfies `p` iff some element with that key does. */
  lemma {:induction false} WhereSome<T, K>(s: seq<T>, key: T -> K, k: K, p: T -> bool)
    ensures (exists i :: 0 <= i < |Where(s, key, k)| && p(Where(s, key, k)[i]))
        <==> (exists i :: 0 <= i < |s| && key(s[i]) == k && p(s[i]))
    decreases |s|
  {
    if s != [] {
      var s', x := s[..|s| - 1], s[|s| - 1];
      assert s == s' + [x];
      WhereSome(s', key, k, p);
      GroupSomeSnoc(s', x, key, k, p);
      RowsSomeSnoc(s', x, key, k, p);
    }
  }

  /** A group of `s + [x]` has a `p` element iff the group of `s` has one or `x` is one. */
  lemma GroupSomeSnoc<T, K>(s: seq<T>, x: T, key: T -> K, k: K, p: T -> bool)
    ensures (exists i :: 0 <= i < |Where(s + [x], key, k)| && p(Where(s + [x], key, k)[i]))
        <==> (exists i :: 0 <= i < |Where(s, key, k)| && p(Where(s, key, k)[i])) || (key(x) == k && p(x))
  {
    WhereAppend(s, x, key, k);
    var w, w' := Where(s, key, k), Where(s + [x], key, k);
    if exists i :: 0 <= i < |w'| && p(w'[i]) {
      var i :| 0 <= i < |w'| && p(w'[i]);
      if i < |w| {
        assert w'[i] == w[i];
      } else {
        assert w'[i] == x;
      }
    }
    if exists j :: 0 <= j < |w| && p(w[j]) {
      var j :| 0 <= j < |w| && p(w[j]);
      assert w'[j] == w[j];
    }
    if key(x) == k && p(x) {
      assert w'[|w|] == x;
    }
  }

  /** `s + [x]` has a `p` element with key `k` iff `s` has one or `x` is one. */
  lemma RowsSomeSnoc<T, K>(s: seq<T>, x: T, key: T -> K, k: K, p: T -> bool)
    ensures (exists i :: 0 <= i < |s + [x]| && key((s + [x])[i]) == k && p((s + [x])[i]))
        <==> (exists i :: 0 <= i < |s| && key(s[i]) == k && p(s[i])) || (key(x) == k && p(x))
  {
    var t := s + [x];
    if exists i :: 0 <= i < |t| && key(t[i]) == k && p(t[i]) {
      var i :| 0 <= i < |t| && key(t[i]) == k && p(t[i]);
      if i < |s| {
        assert s[i] == t[i];
      }
    }
    if exists j :: 0 <= j < |s| && key(s[j]) == k && p(s[j]) {
      var j :| 0 <= j < |s| && key(s[j]) == k && p(s[j]);
      assert t[j] == s[j];
    }
    if key(x) == k && p(x) {
      assert t[|s|] == x;
    }
  }

  /** Adding a key at the end of the key list adds that key's group sum. */
  lemma {:induction false} SumGroupsIntSnoc<T, K>(keys: seq<K>, k: K, s: seq<T>, key: T -> K, val: T -> int)
    ensures SumGroupsInt(keys + [k], s, key, val) == SumGroupsInt(keys, s, key, val) + SumInt(Where(s, key, k), val)
    decreases |keys|
  {
    if keys == [] {
      assert ([k])[1..] == [];
    } else {
      assert (keys + [k])[1..] == keys[1..] + [k];
      SumGroupsIntSnoc(keys[1..], k, s, key, val);
    }
  }

  lemma {:induction false} SumGroupsRealSnoc<T, K>(keys: seq<K>, k: K, s: seq<T>, key: T -> K, val: T -> real)
    ensures SumGroupsReal(keys + [k], s, key, val) == SumGroupsReal(keys, s, key, val) + SumReal(Where(s, key, k), val)
    decreases |keys|
  {
    if keys == [] {
      assert ([k])[1..] == [];
    } else {
      assert (keys + [k])[1..] == keys[1..] + [k];
      SumGroupsRealSnoc(keys[1..], k, s, key, val);
    }
  }

  /** A sequence without repeats has as many elements as the set of its elements. */
  lemma {:induction false} DistinctCard<T>(s: seq<T>)
    requires Distinct(s)
    ensures |set x | x in s| == |s|
    decreases |s|
  {
    if s != [] {
      var s', x := s[..|s| - 1], s[|s| - 1];
      assert Distinct(s');
      DistinctCard(s');
      assert s == s' + [x];
      assert x !in s';
      assert (set y | y in s) == (set y | y in s') + {x};
    }
  }
}
