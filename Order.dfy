/**
 * `ORDER BY <text column> DESC` as SQLite evaluates it with its default BINARY
 * collation: a lexicographic comparison of the column's characters. The sort is
 * an insertion sort that keeps table order among rows with equal keys.
 */
module Order {
  import opened Seqs

  /** Lexicographic "strictly less" on strings, character by character. */
  predicate Lt(a: string, b: string)
    decreases |a|
  {
    if |a| == 0 then |b| > 0
    else if |b| == 0 then false
    else if a[0] != b[0] then a[0] < b[0]
    else Lt(a[1..], b[1..])
  }

  /** Lexicographic "less or equal". */
  predicate Le(a: string, b: string) {
    !Lt(b, a)
  }

  lemma {:induction false} LtIrreflexive(a: string)
    ensures !Lt(a, a)
    decreases |a|
  {
    if |a| > 0 {
      LtIrreflexive(a[1..]);
    }
  }

  lemma {:induction false} LtAsymmetric(a: string, b: string)
    ensures Lt(a, b) ==> !Lt(b, a)
    decreases |a|
  {
    if |a| > 0 && |b| > 0 && a[0] == b[0] {
      LtAsymmetric(a[1..], b[1..]);
    }
  }

  lemma {:induction false} LtTransitive(a: string, b: string, c: string)
    requires Lt(a, b) && Lt(b, c)
    ensures Lt(a, c)
    decreases |a|
  {
    if |a| > 0 && a[0] == b[0] && b[0] == c[0] {
      LtTransitive(a[1..], b[1..], c[1..]);
    }
  }

  lemma {:induction false} LtTotal(a: string, b: string)
    ensures a == b || Lt(a, b) || Lt(b, a)
    decreases |a|
  {
    if |a| > 0 && |b| > 0 && a[0] == b[0] {
      LtTotal(a[1..], b[1..]);
      if a[1..] == b[1..] {
        assert a == [a[0]] + a[1..] && b == [b[0]] + b[1..];
      }
    }
  }

  /** Le is a total preorder (and, on strings, a total order). */
  lemma LeTransitive(a: string, b: string, c: string)
    requires Le(a, b) && Le(b, c)
    ensures Le(a, c)
  {
    if Lt(c, a) {
      LtTotal(a, b);
      LtTotal(b, c);
      if Lt(a, b) { LtTransitive(c, a, b); LtAsymmetric(c, b); }
      else if Lt(b, c) { LtTransitive(b, c, a); LtAsymmetric(b, a); }
      else { LtIrreflexive(a); }
    }
  }

  lemma LeTotal(a: string, b: string)
    ensures Le(a, b) || Le(b, a)
  {
    LtAsymmetric(a, b);
  }

  /** Keys never increase along the sequence. */
  ghost predicate SortedDesc<T>(s: seq<T>, key: T -> string) {
    forall i, j :: 0 <= i < j < |s| ==> Le(key(s[j]), key(s[i]))
  }

  /** Puts `x` before the first element whose key is not greater than its own. */
  function Insert<T>(x: T, s: seq<T>, key: T -> string): (r: seq<T>)
    ensures multiset(r) == multiset(s) + multiset{x}
    ensures |r| == |s| + 1
    ensures r[0] == x || (|s| > 0 && r[0] == s[0])
    decreases |s|
  {
    if |s| == 0 then [x]
    else if Le(key(s[0]), key(x)) then [x] + s
    else
      assert s == [s[0]] + s[1..];
      [s[0]] + Insert(x, s[1..], key)
  }

  /** The rows ordered by `key` descending; rows with equal keys stay in table order. */
  function SortDesc<T>(s: seq<T>, key: T -> string): (r: seq<T>)
    ensures multiset(r) == multiset(s)
    ensures |r| == |s|
    decreases |s|
  {
    if |s| == 0 then []
    else
      assert s == [s[0]] + s[1..];
      Insert(s[0], SortDesc(s[1..], key), key)
  }

  /** Every key in a sorted non-empty sequence is at most the first one. */
  lemma SortedHeadBound<T>(s: seq<T>, key: T -> string, x: T)
    requires SortedDesc(s, key) && x in s
    ensures Le(key(x), key(s[0]))
  {
    var j :| 0 <= j < |s| && s[j] == x;
    if j == 0 { LtIrreflexive(key(x)); }
  }

  lemma {:induction false} InsertSorted<T>(x: T, s: seq<T>, key: T -> string)
    requires SortedDesc(s, key)
    ensures SortedDesc(Insert(x, s, key), key)
    decreases |s|
  {
    var r := Insert(x, s, key);
    if |s| == 0 {
    } else if Le(key(s[0]), key(x)) {
      forall j | 1 <= j < |r| ensures Le(key(r[j]), key(r[0])) {
        assert r[j] == s[j - 1];
        SortedHeadBound(s, key, s[j - 1]);
        LeTransitive(key(s[j - 1]), key(s[0]), key(x));
      }
    } else {
      var t := Insert(x, s[1..], key);
      InsertSorted(x, s[1..], key);
      assert r == [s[0]] + t;
      forall j | 1 <= j < |r| ensures Le(key(r[j]), key(s[0])) {
        assert r[j] == t[j - 1];
        assert r[j] in multiset(s[1..]) + multiset{x};
        if r[j] == x {
          LtAsymmetric(key(s[0]), key(x));
          LeTotal(key(x), key(s[0]));
        } else {
          assert r[j] in s;
          SortedHeadBound(s, key, r[j]);
        }
      }
    }
  }

  /** ORDER BY produces keys in descending order. */
  lemma {:induction false} SortDescSorted<T>(s: seq<T>, key: T -> string)
    ensures SortedDesc(SortDesc(s, key), key)
    decreases |s|
  {
    if |s| > 0 {
      SortDescSorted(s[1..], key);
      InsertSorted(s[0], SortDesc(s[1..], key), key);
    }
  }

  /** The first row of an ORDER BY ... DESC result has the greatest key of the table. */
  lemma SortDescHeadIsMax<T>(s: seq<T>, key: T -> string, x: T)
    requires x in s
    ensures |SortDesc(s, key)| > 0
    ensures Le(key(x), key(SortDesc(s, key)[0]))
  {
    var r := SortDesc(s, key);
    assert x in multiset(r);
    SortDescSorted(s, key);
    SortedHeadBound(r, key, x);
  }

  /** When every key is the same, the sort changes nothing: ties keep table order. */
  lemma {:induction false} SortDescAllTies<T>(s: seq<T>, key: T -> string)
    requires forall i, j :: 0 <= i < |s| && 0 <= j < |s| ==> key(s[i]) == key(s[j])
    ensures SortDesc(s, key) == s
    decreases |s|
  {
    if |s| > 0 {
      SortDescAllTies(s[1..], key);
      if |s| > 1 {
        LtIrreflexive(key(s[0]));
        assert key(s[1]) == key(s[0]);
      }
      assert s == [s[0]] + s[1..];
    }
  }

  /** When the last row's key is strictly the greatest, it comes first. */
  lemma SortDescStrictMaxFirst<T>(s: seq<T>, x: T, key: T -> string)
    requires forall y :: y in s ==> Lt(key(y), key(x))
    ensures SortDesc(s + [x], key)[0] == x
  {
    var r := SortDesc(s + [x], key);
    SortDescHeadIsMax(s + [x], key, x);
    assert r[0] in multiset(s + [x]);
  }

  /**
   * When some earlier row's key is at least the last row's, the first row of the
   * result is one of the earlier rows: ties go to the row inserted first.
   */
  lemma {:induction false} SortDescTieGoesToOlder<T>(s: seq<T>, x: T, key: T -> string)
    requires exists y :: y in s && Le(key(x), key(y))
    ensures SortDesc(s + [x], key)[0] in s
    decreases |s|
  {
    var rest := SortDesc(s[1..] + [x], key);
    assert (s + [x])[1..] == s[1..] + [x];
    assert SortDesc(s + [x], key) == Insert(s[0], rest, key);
    var y :| y in s && Le(key(x), key(y));
    if Le(key(x), key(s[0])) {
      // the head is s[0], or an element of rest with a key above s[0]'s
      if SortDesc(s + [x], key)[0] != s[0] {
        assert !Le(key(rest[0]), key(s[0]));
        assert rest[0] in multiset(s[1..] + [x]);
        assert rest[0] != x;
        assert rest[0] in s[1..];
      }
    } else {
      assert y in s[1..];
      SortDescTieGoesToOlder(s[1..], x, key);
    }
  }

  /** Filtering an ordered result equals ordering the filtered rows. */
  lemma {:induction false} FilterInsert<T>(x: T, s: seq<T>, key: T -> string, f: T -> bool)
    requires SortedDesc(s, key)
    ensures Filter(Insert(x, s, key), f)
         == if f(x) then Insert(x, Filter(s, f), key) else Filter(s, f)
    decreases |s|, 2
  {
    if |s| == 0 {
      assert Insert(x, s, key) == [x] + [];
      FilterCons(x, [], f);
    } else if Le(key(s[0]), key(x)) {
      assert Insert(x, s, key) == [x] + s;
      FilterCons(x, s, f);
      var fs := Filter(s, f);
      if f(x) && |fs| > 0 {
        FilterMember(s, f, fs[0]);
        SortedHeadBound(s, key, fs[0]);
        LeTransitive(key(fs[0]), key(s[0]), key(x));
        assert Insert(x, fs, key) == [x] + fs;
      }
    } else {
      FilterInsertBelowHead(x, s, key, f);
    }
  }

  /** The case of FilterInsert where `x` goes after the first element. */
  lemma {:induction false} FilterInsertBelowHead<T>(x: T, s: seq<T>, key: T -> string, f: T -> bool)
    requires SortedDesc(s, key) && |s| > 0 && !Le(key(s[0]), key(x))
    ensures Filter(Insert(x, s, key), f)
         == if f(x) then Insert(x, Filter(s, f), key) else Filter(s, f)
    decreases |s|, 1
  {
    var rest := Filter(s[1..], f);
    var tail := if f(x) then Insert(x, rest, key) else rest;
    FilterInsertSplit(x, s, key, f);
    assert Filter(s, f) == (if f(s[0]) then [s[0]] else []) + rest by {
      assert s == [s[0]] + s[1..];
      FilterCons(s[0], s[1..], f);
    }
    if f(s[0]) {
      if f(x) {
        InsertPastHead(x, s[0], rest, key);
      }
    } else {
      assert [] + tail == tail;
      assert [] + rest == rest;
    }
  }

  /** Filter of the insertion below the head: the head's part, then the filtered insertion into the tail. */
  lemma {:induction false} FilterInsertSplit<T>(x: T, s: seq<T>, key: T -> string, f: T -> bool)
    requires SortedDesc(s, key) && |s| > 0 && !Le(key(s[0]), key(x))
    ensures Filter(Insert(x, s, key), f)
         == (if f(s[0]) then [s[0]] else [])
            + (if f(x) then Insert(x, Filter(s[1..], f), key) else Filter(s[1..], f))
    decreases |s|, 0
  {
    var t := Insert(x, s[1..], key);
    assert SortedDesc(s[1..], key);
    FilterInsert(x, s[1..], key, f);
    assert Insert(x, s, key) == [s[0]] + t;
    FilterCons(s[0], t, f);
  }

  lemma InsertPastHead<T>(x: T, y: T, s: seq<T>, key: T -> string)
    requires !Le(key(y), key(x))
    ensures Insert(x, [y] + s, key) == [y] + Insert(x, s, key)
  {
    assert ([y] + s)[0] == y && ([y] + s)[1..] == s;
  }

  lemma SortDescCons<T>(y: T, s: seq<T>, key: T -> string)
    ensures SortDesc([y] + s, key) == Insert(y, SortDesc(s, key), key)
  {
    assert ([y] + s)[0] == y && ([y] + s)[1..] == s;
  }

  /** Filtering an ordered result equals ordering the filtered rows. */
  lemma {:induction false} FilterSortDesc<T>(s: seq<T>, key: T -> string, f: T -> bool)
    ensures Filter(SortDesc(s, key), f) == SortDesc(Filter(s, f), key)
    decreases |s|
  {
    if |s| > 0 {
      FilterSortDesc(s[1..], key, f);
      FilterSortDescStep(s, key, f);
    }
  }

  /** The inductive step of FilterSortDesc, given its claim for the tail. */
  lemma FilterSortDescStep<T>(s: seq<T>, key: T -> string, f: T -> bool)
    requires |s| > 0
    requires Filter(SortDesc(s[1..], key), f) == SortDesc(Filter(s[1..], f), key)
    ensures Filter(SortDesc(s, key), f) == SortDesc(Filter(s, f), key)
  {
    var x, u, rest := s[0], SortDesc(s[1..], key), Filter(s[1..], f);
    assert Filter(SortDesc(s, key), f) == if f(x) then Insert(x, Filter(u, f), key) else Filter(u, f) by {
      SortDescSorted(s[1..], key);
      FilterInsert(x, u, key, f);
    }
    if f(x) {
      assert Filter(s, f) == [x] + rest;
      SortDescCons(x, rest, key);
    } else {
      assert Filter(s, f) == [] + rest == rest;
    }
  }
}
