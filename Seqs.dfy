/**
 * Generic sequence operations behind the dataframe manipulations of the
 * dashboard: boolean-mask filtering (`df[mask]`), order-preserving
 * de-duplication on a key (`drop_duplicates(keep="first")`, `unique()`),
 * and the "keeps the original relative order" relation between tables.
 */
module Seqs {

  /** `a` is obtained from `b` by dropping elements, the rest keeping their relative order. */
  predicate IsSubsequence<T(==)>(a: seq<T>, b: seq<T>)
    decreases |b|
  {
    if b == [] then a == []
    else (a != [] && a[0] == b[0] && IsSubsequence(a[1..], b[1..])) || IsSubsequence(a, b[1..])
  }

  /** No two elements of `s` share a key. */
  predicate DistinctBy<T, K(==)>(s: seq<T>, key: T -> K) {
    forall i, j :: 0 <= i < j < |s| ==> key(s[i]) != key(s[j])
  }

  /** Index `i` holds the first element of `s` with its key. */
  predicate IsFirstOfKey<T, K(==)>(s: seq<T>, key: T -> K, i: int)
    requires 0 <= i < |s|
  {
    forall k :: 0 <= k < i ==> key(s[k]) != key(s[i])
  }

  /** The position of the first occurrence of `x` in `s`. */
  function FirstIndexOf<T(==)>(s: seq<T>, x: T): (i: nat)
    requires x in s
    ensures i < |s| && s[i] == x
    ensures forall k :: 0 <= k < i ==> s[k] != x
    decreases |s|
  {
    if s[0] == x then 0
    else
      var i := FirstIndexOf(s[1..], x) + 1;
      assert forall k :: 0 < k < |s| ==> s[k] == s[1..][k - 1];
      i
  }

  // ---------------------------------------------------------------------------
  // Filtering by a boolean mask
  // ---------------------------------------------------------------------------

  /** The elements of `s` that satisfy `keep`, in their original order. */
  function Filter<T(==)>(s: seq<T>, keep: T -> bool): (r: seq<T>)
    ensures |r| <= |s|
    ensures forall i :: 0 <= i < |r| ==> r[i] in s && keep(r[i])
    ensures forall i :: 0 <= i < |s| && keep(s[i]) ==> s[i] in r
    decreases |s|
  {
    if s == [] then []
    else if keep(s[0]) then [s[0]] + Filter(s[1..], keep)
    else Filter(s[1..], keep)
  }

  /** Filtering distributes over concatenation; with the one-element case this pins Filter down. */
  lemma {:induction false} FilterConcat<T>(a: seq<T>, b: seq<T>, keep: T -> bool)
    ensures Filter(a + b, keep) == Filter(a, keep) + Filter(b, keep)
    decreases |a|
  {
    if a == [] {
      assert a + b == b;
    } else {
      var ab := a + b;
      assert ab[0] == a[0] && ab[1..] == a[1..] + b;
      FilterConcat(a[1..], b, keep);
      var rest := Filter(a[1..], keep) + Filter(b, keep);
      if keep(a[0]) {
        assert Filter(ab, keep) == [a[0]] + rest;
        assert Filter(a, keep) == [a[0]] + Filter(a[1..], keep);
      } else {
        assert Filter(ab, keep) == rest;
        assert Filter(a, keep) == Filter(a[1..], keep);
      }
    }
  }

  /** A filtered table keeps the relative order of the rows it retains. */
  lemma {:induction false} FilterIsSubsequence<T>(s: seq<T>, keep: T -> bool)
    ensures IsSubsequence(Filter(s, keep), s)
    decreases |s|
  {
    if s != [] {
      FilterIsSubsequence(s[1..], keep);
      if keep(s[0]) {
        assert Filter(s, keep)[1..] == Filter(s[1..], keep);
      }
    }
  }

  /** A filter keeps every copy of a retained element and no copy of a dropped one. */
  lemma {:induction false} FilterCount<T>(s: seq<T>, keep: T -> bool, y: T)
    ensures multiset(Filter(s, keep))[y] == if keep(y) then multiset(s)[y] else 0
    decreases |s|
  {
    if s != [] {
      FilterCount(s[1..], keep, y);
      assert s == [s[0]] + s[1..];
    }
  }

  /** Filtering cannot create two elements with the same key. */
  lemma {:induction false} FilterKeepsDistinct<T, K>(s: seq<T>, keep: T -> bool, key: T -> K)
    requires DistinctBy(s, key)
    ensures DistinctBy(Filter(s, keep), key)
    decreases |s|
  {
    if s != [] {
      var t := s[1..];
      assert DistinctBy(t, key) by {
        forall i, j | 0 <= i < j < |t| ensures key(t[i]) != key(t[j]) {
          assert t[i] == s[i + 1] && t[j] == s[j + 1];
        }
      }
      FilterKeepsDistinct(t, keep, key);
      if keep(s[0]) {
        var r := Filter(s, keep);
        assert r[1..] == Filter(t, keep);
        forall j | 0 < j < |r| ensures key(r[0]) != key(r[j]) {
          assert r[j] in t;
          var k :| 0 <= k < |t| && t[k] == r[j];
          assert s[k + 1] == r[j];
        }
        forall i, j | 0 <= i < j < |r| ensures key(r[i]) != key(r[j]) {
          if i > 0 {
            assert r[i] == r[1..][i - 1] && r[j] == r[1..][j - 1];
          }
        }
      }
    }
  }

  // ---------------------------------------------------------------------------
  // De-duplication on a key, first occurrence wins
  // ---------------------------------------------------------------------------

  /**
   * Scans `s` from the front and keeps an element exactly when its key is
   * neither in `seen` nor the key of an element kept before it.
   */
  function DedupFrom<T(==), K(==)>(s: seq<T>, key: T -> K, seen: set<K>): (r: seq<T>)
    ensures forall i :: 0 <= i < |r| ==> key(r[i]) !in seen
    ensures DistinctBy(r, key)
    ensures forall i :: 0 <= i < |r| ==> r[i] in s
    decreases |s|
  {
    if s == [] then []
    else if key(s[0]) in seen then DedupFrom(s[1..], key, seen)
    else
      var rest := DedupFrom(s[1..], key, seen + {key(s[0])});
      var r := [s[0]] + rest;
      assert forall i :: 0 < i < |r| ==> r[i] == rest[i - 1];
      r
  }

  /** The rows of `s`, keeping only the first row for each key. */
  function DedupBy<T(==), K(==)>(s: seq<T>, key: T -> K): (r: seq<T>)
    ensures DistinctBy(r, key)
    ensures forall i :: 0 <= i < |r| ==> r[i] in s
  {
    DedupFrom(s, key, {})
  }

  /** Appending one element adds it to the survivors exactly when its key is new. */
  lemma {:induction false} DedupFromSnoc<T, K>(s: seq<T>, x: T, key: T -> K, seen: set<K>)
    ensures DedupFrom(s + [x], key, seen)
            == DedupFrom(s, key, seen)
               + (if key(x) in seen || exists k :: 0 <= k < |s| && key(s[k]) == key(x) then [] else [x])
    decreases |s|
  {
    if s == [] {
      assert [] + [x] == [x];
    } else {
      var t := s[1..];
      assert (s + [x])[0] == s[0] && (s + [x])[1..] == t + [x];
      assert forall k :: 0 < k < |s| ==> s[k] == t[k - 1];
      if key(s[0]) in seen {
        DedupFromSnoc(t, x, key, seen);
      } else {
        DedupFromSnoc(t, x, key, seen + {key(s[0])});
      }
    }
  }

  /**
   * De-duplication is fixed by its value on the empty sequence and this
   * equation: a new element survives exactly when no earlier element has its key.
   */
  lemma DedupBySnoc<T, K>(s: seq<T>, x: T, key: T -> K)
    ensures DedupBy(s + [x], key)
            == DedupBy(s, key) + (if exists k :: 0 <= k < |s| && key(s[k]) == key(x) then [] else [x])
  {
    DedupFromSnoc(s, x, key, {});
  }

  lemma {:induction false} DedupFromOrder<T, K>(s: seq<T>, key: T -> K, seen: set<K>, i: int, j: int, k: int)
    requires 0 <= i < j < |DedupFrom(s, key, seen)| && 0 <= k < |s|
    requires key(s[k]) == key(DedupFrom(s, key, seen)[j])
    ensures exists m :: 0 <= m < k && key(s[m]) == key(DedupFrom(s, key, seen)[i])
    decreases |s|
  {
    var t := s[1..];
    var r := DedupFrom(s, key, seen);
    assert s[k] == t[k - 1];
    if key(s[0]) in seen {
      DedupFromOrder(t, key, seen, i, j, k - 1);
      var m :| 0 <= m < k - 1 && key(t[m]) == key(r[i]);
      assert s[m + 1] == t[m];
    } else if i == 0 {
      assert key(s[0]) == key(r[i]);
    } else {
      var seen' := seen + {key(s[0])};
      var r' := DedupFrom(t, key, seen');
      assert r[i] == r'[i - 1] && r[j] == r'[j - 1];
      DedupFromOrder(t, key, seen', i - 1, j - 1, k - 1);
      var m :| 0 <= m < k - 1 && key(t[m]) == key(r'[i - 1]);
      assert s[m + 1] == t[m];
    }
  }

  /**
   * Survivors come in order of first appearance: wherever the key of a later
   * survivor occurs in the input, the key of an earlier survivor occurred before.
   */
  lemma DedupFirstAppearanceOrder<T, K>(s: seq<T>, key: T -> K, i: int, j: int, k: int)
    requires 0 <= i < j < |DedupBy(s, key)| && 0 <= k < |s|
    requires key(s[k]) == key(DedupBy(s, key)[j])
    ensures exists m :: 0 <= m < k && key(s[m]) == key(DedupBy(s, key)[i])
  {
    DedupFromOrder(s, key, {}, i, j, k);
  }

  lemma {:induction false} DedupFromIsSubsequence<T, K>(s: seq<T>, key: T -> K, seen: set<K>)
    ensures IsSubsequence(DedupFrom(s, key, seen), s)
    decreases |s|
  {
    if s != [] {
      if key(s[0]) in seen {
        DedupFromIsSubsequence(s[1..], key, seen);
      } else {
        DedupFromIsSubsequence(s[1..], key, seen + {key(s[0])});
        assert DedupFrom(s, key, seen)[1..] == DedupFrom(s[1..], key, seen + {key(s[0])});
      }
    }
  }

  /** De-duplication keeps the original relative order of the survivors. */
  lemma DedupIsSubsequence<T, K>(s: seq<T>, key: T -> K)
    ensures IsSubsequence(DedupBy(s, key), s)
  {
    DedupFromIsSubsequence(s, key, {});
  }

  lemma {:induction false} DedupFromKeepsFirst<T, K>(s: seq<T>, key: T -> K, seen: set<K>, i: int)
    requires 0 <= i < |s| && IsFirstOfKey(s, key, i) && key(s[i]) !in seen
    ensures s[i] in DedupFrom(s, key, seen)
    decreases |s|
  {
    if i > 0 {
      var t := s[1..];
      assert t[i - 1] == s[i];
      assert IsFirstOfKey(t, key, i - 1) by {
        forall k | 0 <= k < i - 1 ensures key(t[k]) != key(t[i - 1]) {
          assert t[k] == s[k + 1];
        }
      }
      if key(s[0]) in seen {
        DedupFromKeepsFirst(t, key, seen, i - 1);
      } else {
        assert key(s[0]) != key(s[i]);
        DedupFromKeepsFirst(t, key, seen + {key(s[0])}, i - 1);
      }
    }
  }

  /** Every row that is the first of its key survives de-duplication. */
  lemma DedupKeepsFirst<T, K>(s: seq<T>, key: T -> K, i: int)
    requires 0 <= i < |s| && IsFirstOfKey(s, key, i)
    ensures s[i] in DedupBy(s, key)
  {
    DedupFromKeepsFirst(s, key, {}, i);
  }

  /** Every key of the input is still represented after de-duplication. */
  lemma {:induction false} DedupKeepsEveryKey<T, K>(s: seq<T>, key: T -> K, k: int)
    requires 0 <= k < |s|
    ensures exists j :: 0 <= j < |DedupBy(s, key)| && key(DedupBy(s, key)[j]) == key(s[k])
    decreases k
  {
    if IsFirstOfKey(s, key, k) {
      DedupKeepsFirst(s, key, k);
      var r := DedupBy(s, key);
      var j :| 0 <= j < |r| && r[j] == s[k];
    } else {
      var k' :| 0 <= k' < k && key(s[k']) == key(s[k]);
      DedupKeepsEveryKey(s, key, k');
    }
  }

  lemma {:induction false} DedupFromOnlyFirst<T, K>(s: seq<T>, key: T -> K, seen: set<K>, x: T)
    requires x in DedupFrom(s, key, seen)
    ensures exists i :: 0 <= i < |s| && s[i] == x && IsFirstOfKey(s, key, i)
    decreases |s|
  {
    var t := s[1..];
    if key(s[0]) in seen {
      DedupFromOnlyFirst(t, key, seen, x);
      var i :| 0 <= i < |t| && t[i] == x && IsFirstOfKey(t, key, i);
      assert key(x) !in seen by {
        var r := DedupFrom(s, key, seen);
        var m :| 0 <= m < |r| && r[m] == x;
      }
      assert s[i + 1] == x;
      assert IsFirstOfKey(s, key, i + 1) by {
        forall k | 0 <= k < i + 1 ensures key(s[k]) != key(s[i + 1]) {
          if k > 0 { assert s[k] == t[k - 1]; }
        }
      }
    } else if x == s[0] {
      assert IsFirstOfKey(s, key, 0);
    } else {
      var seen' := seen + {key(s[0])};
      assert x in DedupFrom(t, key, seen');
      DedupFromOnlyFirst(t, key, seen', x);
      var i :| 0 <= i < |t| && t[i] == x && IsFirstOfKey(t, key, i);
      assert key(x) != key(s[0]) by {
        var r := DedupFrom(t, key, seen');
        var m :| 0 <= m < |r| && r[m] == x;
      }
      assert s[i + 1] == x;
      assert IsFirstOfKey(s, key, i + 1) by {
        forall k | 0 <= k < i + 1 ensures key(s[k]) != key(s[i + 1]) {
          if k > 0 { assert s[k] == t[k - 1]; }
        }
      }
    }
  }

  /** Every survivor of de-duplication is the first row of its key in the input. */
  lemma DedupOnlyFirst<T, K>(s: seq<T>, key: T -> K, x: T)
    requires x in DedupBy(s, key)
    ensures exists i :: 0 <= i < |s| && s[i] == x && IsFirstOfKey(s, key, i)
  {
    DedupFromOnlyFirst(s, key, {}, x);
  }

  lemma {:induction false} DedupFromOfDistinct<T, K>(s: seq<T>, key: T -> K, seen: set<K>)
    requires DistinctBy(s, key)
    requires forall i :: 0 <= i < |s| ==> key(s[i]) !in seen
    ensures DedupFrom(s, key, seen) == s
    decreases |s|
  {
    if s != [] {
      var t := s[1..];
      var seen' := seen + {key(s[0])};
      forall i | 0 <= i < |t| ensures key(t[i]) !in seen' {
        assert t[i] == s[i + 1];
      }
      assert DistinctBy(t, key) by {
        forall i, j | 0 <= i < j < |t| ensures key(t[i]) != key(t[j]) {
          assert t[i] == s[i + 1] && t[j] == s[j + 1];
        }
      }
      DedupFromOfDistinct(t, key, seen');
      assert s == [s[0]] + t;
    }
  }

  /** A table whose keys are already distinct is left as it is. */
  lemma DedupOfDistinct<T, K>(s: seq<T>, key: T -> K)
    requires DistinctBy(s, key)
    ensures DedupBy(s, key) == s
  {
    DedupFromOfDistinct(s, key, {});
  }

  /** De-duplicating twice is the same as de-duplicating once. */
  lemma DedupIdempotent<T, K>(s: seq<T>, key: T -> K)
    ensures DedupBy(DedupBy(s, key), key) == DedupBy(s, key)
  {
    DedupOfDistinct(DedupBy(s, key), key);
  }
}
