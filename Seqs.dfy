/**
 * The array and result-set operations the core uses: `Array.prototype.filter`,
 * `Array.prototype.find` (also the "first row" a single-row SQL `get` returns)
 * and SQL's `LIMIT`.
 */
module Seqs {
  import opened Types

  /** `s.filter(f)`: the elements satisfying `f`, in their original order. */
  function Filter<T>(s: seq<T>, f: T -> bool): (r: seq<T>)
    ensures |r| <= |s|
    ensures forall k :: 0 <= k < |r| ==> f(r[k])
    decreases |s|
  {
    if |s| == 0 then []
    else (if f(s[0]) then [s[0]] else []) + Filter(s[1..], f)
  }

  /** An element is kept exactly when it occurs in the input and passes the test. */
  lemma {:induction false} FilterMember<T>(s: seq<T>, f: T -> bool, x: T)
    ensures x in Filter(s, f) <==> x in s && f(x)
    decreases |s|
  {
    if |s| > 0 {
      FilterMember(s[1..], f, x);
      assert s == [s[0]] + s[1..];
    }
  }

  /** Filter of a sequence with a known first element. */
  lemma FilterCons<T>(x: T, s: seq<T>, f: T -> bool)
    ensures Filter([x] + s, f) == (if f(x) then [x] else []) + Filter(s, f)
  {
    assert ([x] + s)[1..] == s;
  }

  /**
   * Filter distributes over concatenation. Together with its value on a single
   * element this determines Filter completely, order and multiplicity included.
   */
  lemma {:induction false} FilterAppend<T>(a: seq<T>, b: seq<T>, f: T -> bool)
    ensures Filter(a + b, f) == Filter(a, f) + Filter(b, f)
    decreases |a|
  {
    if |a| > 0 {
      var h := if f(a[0]) then [a[0]] else [];
      calc {
        Filter(a + b, f);
        == { assert a + b == [a[0]] + (a[1..] + b); }
        Filter([a[0]] + (a[1..] + b), f);
        == { FilterCons(a[0], a[1..] + b, f); }
        h + Filter(a[1..] + b, f);
        == { FilterAppend(a[1..], b, f); }
        h + (Filter(a[1..], f) + Filter(b, f));
        (h + Filter(a[1..], f)) + Filter(b, f);
        == { assert a == [a[0]] + a[1..]; FilterCons(a[0], a[1..], f); }
        Filter(a, f) + Filter(b, f);
      }
    } else {
      assert a + b == b;
    }
  }

  /** An element that fails the test makes the result strictly shorter. */
  lemma {:induction false} FilterDrops<T>(s: seq<T>, f: T -> bool, k: nat)
    requires k < |s| && !f(s[k])
    ensures |Filter(s, f)| < |s|
    decreases |s|
  {
    if k > 0 {
      FilterDrops(s[1..], f, k - 1);
    }
  }

  /** Filtering keeps every element that passes, once per occurrence. */
  lemma {:induction false} FilterCount<T>(s: seq<T>, f: T -> bool, x: T)
    ensures multiset(Filter(s, f))[x] == if f(x) then multiset(s)[x] else 0
    decreases |s|
  {
    if |s| > 0 {
      FilterCount(s[1..], f, x);
      assert s == [s[0]] + s[1..];
    }
  }

  /** The position of the first element satisfying `f`, or `|s|` when there is none. */
  function FirstIndex<T>(s: seq<T>, f: T -> bool): (i: nat)
    ensures i <= |s|
    ensures forall k :: 0 <= k < i ==> !f(s[k])
    ensures i < |s| ==> f(s[i])
    decreases |s|
  {
    if |s| == 0 then 0
    else if f(s[0]) then 0
    else 1 + FirstIndex(s[1..], f)
  }

  /** `s.find(f)`: the first element satisfying `f`, or undefined. */
  function FindFirst<T>(s: seq<T>, f: T -> bool): (r: Option<T>)
    ensures r.None? <==> forall k :: 0 <= k < |s| ==> !f(s[k])
    ensures r.Some? ==> FirstIndex(s, f) < |s| && r.value == s[FirstIndex(s, f)] && f(r.value)
  {
    var i := FirstIndex(s, f);
    if i < |s| then Some(s[i]) else None
  }

  /** Appending rows never changes which earlier row is found first. */
  lemma FindFirstAppend<T>(s: seq<T>, x: T, f: T -> bool)
    ensures FindFirst(s + [x], f) == if FindFirst(s, f).Some? then FindFirst(s, f)
                                     else if f(x) then Some(x) else None
  {
    var i := FirstIndex(s, f);
    var j := FirstIndex(s + [x], f);
    assert forall k :: 0 <= k < |s| ==> (s + [x])[k] == s[k];
    assert (s + [x])[|s|] == x;
  }

  /** SQL `LIMIT n`: the first `n` rows; a negative limit means no limit. */
  function Limit<T>(s: seq<T>, n: int): (r: seq<T>)
    ensures n >= 0 ==> |r| == if n < |s| then n else |s|
    ensures n < 0 ==> r == s
    ensures r == s[..|r|]
  {
    if n < 0 || n >= |s| then s else s[..n]
  }
}
