/** `Array.prototype.sort` with a comparator `(a, b) => key(a) - key(b)`. Since
    ECMAScript 2019 that sort is stable, and a stable sort has exactly one possible
    result (lemma StableSortIsUnique), so a stable insertion sort stands for it. */
module StableSort {
  import opened Seqs

  predicate SortedBy<T>(s: seq<T>, key: T -> int) {
    forall i, j :: 0 <= i < j < |s| ==> key(s[i]) <= key(s[j])
  }

  /** The elements whose key is `k`. */
  function KeyIs<T>(key: T -> int, k: int): T -> bool {
    (x: T) => key(x) == k
  }

  /** Puts `x` after every element with a smaller key and before the rest. */
  function Insert<T>(x: T, s: seq<T>, key: T -> int): seq<T>
    decreases |s|
  {
    if s == [] || key(x) <= key(s[0]) then [x] + s
    else [s[0]] + Insert(x, s[1..], key)
  }

  function SortBy<T>(s: seq<T>, key: T -> int): seq<T>
    decreases |s|
  {
    if s == [] then [] else Insert(s[0], SortBy(s[1..], key), key)
  }

  /** The index of the first element with the smallest key. */
  function FirstMinIndex<T>(s: seq<T>, key: T -> int): (i: nat)
    requires s != []
    ensures i < |s|
    ensures forall j :: 0 <= j < |s| ==> key(s[i]) <= key(s[j])
    ensures forall j :: 0 <= j < i ==> key(s[i]) < key(s[j])
    decreases |s|
  {
    if |s| == 1 then 0
    else
      var t := FirstMinIndex(s[1..], key);
      if key(s[0]) <= key(s[1 + t]) then 0 else 1 + t
  }

  // ---------------------------------------------------------------------------
  // The result is a permutation

  lemma {:induction false} InsertMultiset<T>(x: T, s: seq<T>, key: T -> int)
    ensures multiset(Insert(x, s, key)) == multiset(s) + multiset{x}
    ensures |Insert(x, s, key)| == |s| + 1
    decreases |s|
  {
    if s != [] && key(x) > key(s[0]) {
      InsertMultiset(x, s[1..], key);
      assert s == [s[0]] + s[1..];
    }
  }

  lemma {:induction false} SortByPermutes<T>(s: seq<T>, key: T -> int)
    ensures multiset(SortBy(s, key)) == multiset(s)
    ensures |SortBy(s, key)| == |s|
    decreases |s|
  {
    if s != [] {
      SortByPermutes(s[1..], key);
      InsertMultiset(s[0], SortBy(s[1..], key), key);
      assert s == [s[0]] + s[1..];
    }
  }

  // ---------------------------------------------------------------------------
  // The result is sorted

  lemma {:induction false} InsertSorted<T>(x: T, s: seq<T>, key: T -> int)
    requires SortedBy(s, key)
    ensures SortedBy(Insert(x, s, key), key)
    decreases |s|
  {
    if s != [] && key(x) > key(s[0]) {
      var rest := Insert(x, s[1..], key);
      InsertSorted(x, s[1..], key);
      InsertMultiset(x, s[1..], key);
      forall j | 0 <= j < |rest| ensures key(s[0]) <= key(rest[j]) {
        assert rest[j] in multiset(rest);
        if rest[j] != x {
          assert rest[j] in multiset(s[1..]);
          var i :| 0 <= i < |s[1..]| && s[1..][i] == rest[j];
          assert s[1 + i] == rest[j];
        }
      }
    }
  }

  lemma {:induction false} SortBySorted<T>(s: seq<T>, key: T -> int)
    ensures SortedBy(SortBy(s, key), key)
    decreases |s|
  {
    if s != [] {
      SortBySorted(s[1..], key);
      InsertSorted(s[0], SortBy(s[1..], key), key);
    }
  }

  // ---------------------------------------------------------------------------
  // The sort is stable: elements with equal keys keep their relative order

  lemma {:induction false} InsertStable<T>(x: T, s: seq<T>, key: T -> int, k: int)
    ensures Filter(Insert(x, s, key), KeyIs(key, k))
         == (if key(x) == k then [x] else []) + Filter(s, KeyIs(key, k))
    decreases |s|
  {
    var p := KeyIs(key, k);
    if s == [] || key(x) <= key(s[0]) {
      assert ([x] + s)[1..] == s;
    } else {
      InsertStable(x, s[1..], key, k);
      assert ([s[0]] + Insert(x, s[1..], key))[1..] == Insert(x, s[1..], key);
    }
  }

  lemma {:induction false} SortByStable<T>(s: seq<T>, key: T -> int, k: int)
    ensures Filter(SortBy(s, key), KeyIs(key, k)) == Filter(s, KeyIs(key, k))
    decreases |s|
  {
    if s != [] {
      SortByStable(s[1..], key, k);
      InsertStable(s[0], SortBy(s[1..], key), key, k);
    }
  }

  /** The head of the sorted sequence is the first element with the smallest key. */
  lemma {:induction false} SortByHead<T>(s: seq<T>, key: T -> int)
    requires s != []
    ensures |SortBy(s, key)| == |s|
    ensures SortBy(s, key)[0] == s[FirstMinIndex(s, key)]
    decreases |s|
  {
    SortByPermutes(s, key);
    if |s| > 1 {
      SortByHead(s[1..], key);
    }
  }

  // ---------------------------------------------------------------------------
  // Uniqueness: a sorted sequence is determined by its key classes

  lemma {:induction false} SortedStableUnique<T>(a: seq<T>, b: seq<T>, key: T -> int)
    requires SortedBy(a, key) && SortedBy(b, key)
    requires forall k :: Filter(a, KeyIs(key, k)) == Filter(b, KeyIs(key, k))
    ensures a == b
    decreases |a| + |b|
  {
    if a == [] || b == [] {
      if a != [] {
        FilterMembership(a, KeyIs(key, key(a[0])), a[0]);
        assert false;
      } else if b != [] {
        FilterMembership(b, KeyIs(key, key(b[0])), b[0]);
        assert false;
      }
    } else {
      var ka, kb := key(a[0]), key(b[0]);
      FilterMembership(a, KeyIs(key, kb), b[0]);
      assert b[0] in Filter(b, KeyIs(key, kb));
      FilterMembership(b, KeyIs(key, ka), a[0]);
      assert a[0] in Filter(a, KeyIs(key, ka));
      var i :| 0 <= i < |a| && a[i] == b[0];
      var j :| 0 <= j < |b| && b[j] == a[0];
      assert ka <= kb && kb <= ka;
      assert Filter(a, KeyIs(key, ka))[0] == a[0];
      assert Filter(b, KeyIs(key, kb))[0] == b[0];
      forall k ensures Filter(a[1..], KeyIs(key, k)) == Filter(b[1..], KeyIs(key, k)) {
        var fa, fb := Filter(a, KeyIs(key, k)), Filter(b, KeyIs(key, k));
        assert fa == fb;
        if ka == k {
          assert Filter(a[1..], KeyIs(key, k)) == fa[1..];
          assert Filter(b[1..], KeyIs(key, k)) == fb[1..];
        } else {
          assert Filter(a[1..], KeyIs(key, k)) == fa;
          assert Filter(b[1..], KeyIs(key, k)) == fb;
        }
      }
      SortedStableUnique(a[1..], b[1..], key);
      assert a == [a[0]] + a[1..] && b == [b[0]] + b[1..];
    }
  }

  /** Any sorted, stable rearrangement of `s` is `SortBy(s, key)`: the model agrees with
      whichever stable sort the JavaScript engine runs. */
  lemma StableSortIsUnique<T>(s: seq<T>, r: seq<T>, key: T -> int)
    requires SortedBy(r, key)
    requires forall k :: Filter(r, KeyIs(key, k)) == Filter(s, KeyIs(key, k))
    ensures r == SortBy(s, key)
  {
    SortBySorted(s, key);
    forall k ensures Filter(r, KeyIs(key, k)) == Filter(SortBy(s, key), KeyIs(key, k)) {
      SortByStable(s, key, k);
    }
    SortedStableUnique(r, SortBy(s, key), key);
  }

  // ---------------------------------------------------------------------------
  // Prefixes (`slice(0, n)` of a sorted sequence)

  /** Everything a prefix leaves out ranks no lower than anything it keeps. */
  lemma PrefixDominates<T>(s: seq<T>, n: nat, key: T -> int)
    requires SortedBy(s, key) && n <= |s|
    ensures multiset(s) == multiset(s[..n]) + multiset(s[n..])
    ensures forall x, y :: x in s[..n] && y in s[n..] ==> key(x) <= key(y)
  {
    assert s == s[..n] + s[n..];
    forall x, y | x in s[..n] && y in s[n..] ensures key(x) <= key(y) {
      var i :| 0 <= i < n && s[..n][i] == x;
      var j :| 0 <= j < |s| - n && s[n..][j] == y;
      assert s[i] == x && s[n + j] == y;
    }
  }

  /** Equal-key elements of a prefix are an initial run of those of the whole. */
  lemma {:induction false} PrefixStable<T>(s: seq<T>, n: nat, p: T -> bool)
    requires n <= |s|
    ensures Filter(s[..n], p) <= Filter(s, p)
  {
    var front, back := s[..n], s[n..];
    assert s == front + back;
    FilterConcat(front, back, p);
    assert Filter(s, p) == Filter(front, p) + Filter(back, p);
  }

  // ---------------------------------------------------------------------------
  // Already sorted input

  /** Filtering keeps a sorted sequence sorted. */
  lemma {:induction false} FilterSorted<T>(s: seq<T>, p: T -> bool, key: T -> int)
    requires SortedBy(s, key)
    ensures SortedBy(Filter(s, p), key)
    decreases |s|
  {
    if s != [] {
      FilterSorted(s[1..], p, key);
      forall x | x in Filter(s[1..], p) ensures key(s[0]) <= key(x) {
        FilterMembership(s[1..], p, x);
      }
    }
  }

  /** In a sorted sequence the first smallest element is the head. */
  lemma SortedFirstMin<T>(s: seq<T>, key: T -> int)
    requires s != [] && SortedBy(s, key)
    ensures FirstMinIndex(s, key) == 0
  {
  }
}
