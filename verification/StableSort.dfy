/** The behaviour of the library's stable sort by a real key. */
module StableSort {
  import opened Sequences
  import opened Segmentation

  ghost predicate Sorted<T>(s: seq<T>, key: T -> real) {
    forall i, j :: 0 <= i < j < |s| ==> key(s[i]) <= key(s[j])
  }

  /** `x` goes behind everything whose key is not greater. */
  function Insert<T>(s: seq<T>, x: T, key: T -> real): seq<T> {
    if s == [] || key(Last(s)) <= key(x) then s + [x] else Insert(Init(s), x, key) + [Last(s)]
  }

  function SortBy<T>(s: seq<T>, key: T -> real): seq<T> {
    if s == [] then [] else Insert(SortBy(Init(s), key), Last(s), key)
  }

  /** The items with a given key, in order. */
  function WithKey<T>(s: seq<T>, key: T -> real, v: real): seq<T> {
    if s == [] then [] else WithKey(Init(s), key, v) + if key(Last(s)) == v then [Last(s)] else []
  }

  lemma {:induction false} InsertAdds<T>(s: seq<T>, x: T, key: T -> real)
    ensures multiset(Insert(s, x, key)) == multiset(s) + multiset{x}
  {
    if s != [] {
      var front, last := Init(s), Last(s);
      assert s == front + [last];
      if key(last) > key(x) {
        InsertAdds(front, x, key);
        assert Insert(s, x, key) == Insert(front, x, key) + [last];
      }
    }
  }

  lemma {:induction false} InsertSorts<T>(s: seq<T>, x: T, key: T -> real)
    requires Sorted(s, key)
    ensures Sorted(Insert(s, x, key), key)
  {
    if s != [] && key(Last(s)) > key(x) {
      InsertSorts(Init(s), x, key);
      InsertAdds(Init(s), x, key);
      var t := Insert(Init(s), x, key);
      forall i | 0 <= i < |t|
        ensures key(t[i]) <= key(Last(s))
      {
        assert t[i] in multiset(t);
        assert t[i] == x || t[i] in Init(s);
      }
    }
  }

  lemma {:induction false} InsertIsStable<T>(s: seq<T>, x: T, key: T -> real, v: real)
    ensures WithKey(Insert(s, x, key), key, v) == WithKey(s, key, v) + if key(x) == v then [x] else []
  {
    if s == [] || key(Last(s)) <= key(x) {
      assert Init(s + [x]) == s;
    } else {
      InsertIsStable(Init(s), x, key, v);
      var t, l := Insert(Init(s), x, key), Last(s);
      assert Init(t + [l]) == t;
      var a, b := if key(x) == v then [x] else [], if key(l) == v then [l] else [];
      var before := WithKey(Init(s), key, v);
      assert before + a + b == before + b + a;
    }
  }

  /** Sorted, the same items, and items with equal keys in their old order. */
  lemma {:induction false} SortByIsStableSort<T>(s: seq<T>, key: T -> real)
    ensures Sorted(SortBy(s, key), key)
    ensures multiset(SortBy(s, key)) == multiset(s)
    ensures forall v :: WithKey(SortBy(s, key), key, v) == WithKey(s, key, v)
  {
    if s != [] {
      SortByIsStableSort(Init(s), key);
      assert s == Init(s) + [Last(s)];
      InsertSorts(SortBy(Init(s), key), Last(s), key);
      InsertAdds(SortBy(Init(s), key), Last(s), key);
      forall v {
        InsertIsStable(SortBy(Init(s), key), Last(s), key, v);
      }
    }
  }

  lemma {:induction false} SortBySorted<T>(s: seq<T>, key: T -> real)
    requires Sorted(s, key)
    ensures SortBy(s, key) == s
  {
    if s != [] {
      var front, last := Init(s), Last(s);
      assert s == front + [last];
      assert Sorted(front, key);
      assert front != [] ==> key(Last(front)) <= key(last);
      SortBySorted(front, key);
      assert Insert(front, last, key) == front + [last];
    }
  }

  lemma {:induction false} WithKeyConcat<T>(a: seq<T>, b: seq<T>, key: T -> real, v: real)
    ensures WithKey(a + b, key, v) == WithKey(a, key, v) + WithKey(b, key, v)
  {
    if b == [] {
      assert a + b == a;
    } else {
      assert Init(a + b) == a + Init(b);
      WithKeyConcat(a, Init(b), key, v);
    }
  }

  lemma {:induction false} WithKeyOccurs<T>(s: seq<T>, key: T -> real, v: real)
    requires Sorted(s, key) && WithKey(s, key, v) != []
    ensures s != [] && v <= key(Last(s))
  {
    if key(Last(s)) != v {
      WithKeyOccurs(Init(s), key, v);
    }
  }

  lemma SameTail<T>(a: seq<T>, b: seq<T>, tail: seq<T>)
    requires a + tail == b + tail
    ensures a == b
  {
    assert |a| == |b|;
    assert a == (a + tail)[..|a|] && b == (b + tail)[..|b|];
  }

  /** A sorted sequence is determined by its items with each key, so there is only one stable sort. */
  lemma {:induction false} SortedIsDetermined<T>(r: seq<T>, s: seq<T>, key: T -> real)
    requires Sorted(r, key) && Sorted(s, key)
    requires forall v :: WithKey(r, key, v) == WithKey(s, key, v)
    ensures r == s
  {
    if r != [] {
      WithKeyOccurs(s, key, key(Last(r)));
    }
    if s != [] {
      WithKeyOccurs(r, key, key(Last(s)));
    }
    if r != [] && s != [] {
      var l := Last(r);
      var v := key(l);
      assert Last(WithKey(r, key, v)) == l && Last(WithKey(s, key, v)) == Last(s);
      assert Last(s) == l;
      forall u
        ensures WithKey(Init(r), key, u) == WithKey(Init(s), key, u)
      {
        var tail := if v == u then [l] else [];
        assert WithKey(r, key, u) == WithKey(Init(r), key, u) + tail;
        assert WithKey(s, key, u) == WithKey(Init(s), key, u) + tail;
        SameTail(WithKey(Init(r), key, u), WithKey(Init(s), key, u), tail);
      }
      SortedIsDetermined(Init(r), Init(s), key);
      assert r == Init(r) + [l] && s == Init(s) + [l];
    }
  }
}
