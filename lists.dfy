/**
 * The list operations of the Python runtime that the plate pipeline relies on:
 * a list comprehension with an `if` filter, the stable built-in `sorted`
 * (with a key, and with `reverse=True` expressed as a negated key), and
 * `"".join`.
 */
module Lists {

  /** The elements of `s` that satisfy `p`, in their original order. */
  function Select<T>(s: seq<T>, p: T -> bool): seq<T>
  {
    if s == [] then [] else Select(s[..|s| - 1], p) + (if p(s[|s| - 1]) then [s[|s| - 1]] else [])
  }

  /** `[g(x) for x in s if keep(x)]`. */
  function Collect<A, B>(s: seq<A>, keep: A -> bool, g: A -> B): seq<B>
  {
    if s == [] then []
    else Collect(s[..|s| - 1], keep, g) + (if keep(s[|s| - 1]) then [g(s[|s| - 1])] else [])
  }

  /** The elements of `s` whose key is `k`, in their original order. */
  function WithKey<T>(s: seq<T>, key: T -> real, k: real): seq<T>
  {
    if s == [] then [] else (if key(s[0]) == k then [s[0]] else []) + WithKey(s[1..], key, k)
  }

  ghost predicate SortedBy<T>(s: seq<T>, key: T -> real)
  {
    forall i, j :: 0 <= i < j < |s| ==> key(s[i]) <= key(s[j])
  }

  /** Inserts `a` in front of the first element whose key is not smaller. */
  function Insert<T>(a: T, s: seq<T>, key: T -> real): seq<T>
  {
    if s == [] || key(a) <= key(s[0]) then [a] + s else [s[0]] + Insert(a, s[1..], key)
  }

  /** Python's `sorted(s, key=key)`: a stable sort, here by insertion. */
  function SortBy<T>(s: seq<T>, key: T -> real): seq<T>
  {
    if s == [] then [] else Insert(s[0], SortBy(s[1..], key), key)
  }

  /** `"".join(parts)`. */
  function Join(parts: seq<string>): string
  {
    if parts == [] then "" else Join(parts[..|parts| - 1]) + parts[|parts| - 1]
  }

  /** Joining one more part appends it. */
  lemma JoinSnoc(parts: seq<string>, x: string)
    ensures Join(parts + [x]) == Join(parts) + x
  {
    assert (parts + [x])[..|parts|] == parts;
  }

  /** The total number of characters in `parts`. */
  function TotalLength(parts: seq<string>): nat
  {
    if parts == [] then 0 else TotalLength(parts[..|parts| - 1]) + |parts[|parts| - 1]|
  }

  /** The joined string is as long as all parts together. */
  lemma {:induction false} JoinLength(parts: seq<string>)
    ensures |Join(parts)| == TotalLength(parts)
  {
    if parts != [] {
      JoinLength(parts[..|parts| - 1]);
    }
  }

  /** Joining one-character parts gives one character per part. */
  lemma {:induction false} JoinSingles(parts: seq<string>)
    requires forall i :: 0 <= i < |parts| ==> |parts[i]| == 1
    ensures |Join(parts)| == |parts|
  {
    if parts != [] {
      JoinSingles(parts[..|parts| - 1]);
    }
  }

  lemma SplitLast<T>(s: seq<T>)
    requires s != []
    ensures s == s[..|s| - 1] + [s[|s| - 1]]
  {
  }

  lemma SplitFirst<T>(s: seq<T>)
    requires s != []
    ensures s == [s[0]] + s[1..]
  {
  }

  // ----- Select -----

  lemma {:induction false} SelectMembers<T>(s: seq<T>, p: T -> bool)
    ensures forall x :: x in Select(s, p) <==> x in s && p(x)
  {
    if s != [] {
      SelectMembers(s[..|s| - 1], p);
      assert s == s[..|s| - 1] + [s[|s| - 1]];
    }
  }

  lemma {:induction false} SelectAppend<T>(a: seq<T>, b: seq<T>, p: T -> bool)
    ensures Select(a + b, p) == Select(a, p) + Select(b, p)
    decreases |b|
  {
    if b == [] {
      assert a + b == a;
    } else {
      var b' := b[..|b| - 1];
      assert (a + b)[..|a + b| - 1] == a + b';
      SelectAppend(a, b', p);
    }
  }

  /** A filter never reorders: its result embeds into its input along
      strictly increasing positions, and it leaves out no qualifying element. */
  lemma {:induction false} SelectIsSubsequence<T>(s: seq<T>, p: T -> bool) returns (idx: seq<nat>)
    ensures |idx| == |Select(s, p)|
    ensures forall k :: 0 <= k < |idx| ==> idx[k] < |s| && s[idx[k]] == Select(s, p)[k]
    ensures forall k, l :: 0 <= k < l < |idx| ==> idx[k] < idx[l]
    ensures forall i :: 0 <= i < |s| && p(s[i]) ==> i in idx
  {
    if s == [] {
      idx := [];
    } else {
      var n := |s| - 1;
      var front := SelectIsSubsequence(s[..n], p);
      var r := Select(s, p);
      assert r == Select(s[..n], p) + (if p(s[n]) then [s[n]] else []);
      idx := front + (if p(s[n]) then [n] else []);
      forall k | 0 <= k < |idx|
        ensures idx[k] < |s| && s[idx[k]] == r[k]
      {
        if k < |front| {
          assert s[..n][front[k]] == s[front[k]];
        }
      }
      forall i | 0 <= i < |s| && p(s[i])
        ensures i in idx
      {
        if i < n {
          assert s[..n][i] == s[i];
          assert i in front;
        }
      }
    }
  }

  /** `Collect` visits `s` in order: entry `k` comes from element `idx[k]`,
      which qualifies, and every qualifying element contributes. */
  lemma {:induction false} CollectIsSubsequence<A, B>(s: seq<A>, keep: A -> bool, g: A -> B) returns (idx: seq<nat>)
    ensures |idx| == |Collect(s, keep, g)|
    ensures forall k :: 0 <= k < |idx| ==> idx[k] < |s| && keep(s[idx[k]]) && Collect(s, keep, g)[k] == g(s[idx[k]])
    ensures forall k, l :: 0 <= k < l < |idx| ==> idx[k] < idx[l]
    ensures forall i :: 0 <= i < |s| && keep(s[i]) ==> i in idx
  {
    if s == [] {
      idx := [];
    } else {
      var n := |s| - 1;
      var front := CollectIsSubsequence(s[..n], keep, g);
      var r := Collect(s, keep, g);
      assert r == Collect(s[..n], keep, g) + (if keep(s[n]) then [g(s[n])] else []);
      idx := front + (if keep(s[n]) then [n] else []);
      forall k | 0 <= k < |idx|
        ensures idx[k] < |s| && keep(s[idx[k]]) && r[k] == g(s[idx[k]])
      {
        if k < |front| {
          assert s[..n][front[k]] == s[front[k]];
        }
      }
      forall i | 0 <= i < |s| && keep(s[i])
        ensures i in idx
      {
        if i < n {
          assert s[..n][i] == s[i];
          assert i in front;
        }
      }
    }
  }

  lemma {:induction false} SelectKeepsSorted<T>(s: seq<T>, p: T -> bool, key: T -> real)
    requires SortedBy(s, key)
    ensures SortedBy(Select(s, p), key)
  {
    var idx := SelectIsSubsequence(s, p);
    var r := Select(s, p);
    forall i, j | 0 <= i < j < |r|
      ensures key(r[i]) <= key(r[j])
    {
      assert idx[i] < idx[j];
    }
  }

  lemma {:induction false} WithKeyAppend<T>(a: seq<T>, b: seq<T>, key: T -> real, k: real)
    ensures WithKey(a + b, key, k) == WithKey(a, key, k) + WithKey(b, key, k)
  {
    if a != [] {
      WithKeyAppend(a[1..], b, key, k);
      assert (a + b)[1..] == a[1..] + b;
    } else {
      assert a + b == b;
    }
  }

  /** Filtering and picking out one key commute. */
  lemma {:induction false} SelectWithKey<T>(s: seq<T>, p: T -> bool, key: T -> real, k: real)
    ensures WithKey(Select(s, p), key, k) == Select(WithKey(s, key, k), p)
  {
    if s != [] {
      var n := |s| - 1;
      var init, last := s[..n], s[n];
      var both := if p(last) && key(last) == k then [last] else [];
      var kept := if p(last) then [last] else [];
      assert WithKey(kept, key, k) == both by {
        if p(last) {
          assert [last][1..] == [];
        }
      }
      assert Select(WithKey([last], key, k), p) == both by {
        assert [last][1..] == [];
        assert [last][..0] == [];
      }
      assert WithKey(Select(s, p), key, k) == WithKey(Select(init, p), key, k) + both by {
        WithKeyAppend(Select(init, p), kept, key, k);
      }
      assert Select(WithKey(s, key, k), p) == Select(WithKey(init, key, k), p) + both by {
        SplitLast(s);
        WithKeyAppend(init, [last], key, k);
        SelectAppend(WithKey(init, key, k), WithKey([last], key, k), p);
      }
      SelectWithKey(init, p, key, k);
    }
  }

  // ----- SortBy -----

  lemma {:induction false} InsertPermutes<T>(a: T, s: seq<T>, key: T -> real)
    ensures multiset(Insert(a, s, key)) == multiset(s) + multiset{a}
  {
    if s == [] || key(a) <= key(s[0]) {
    } else {
      InsertPermutes(a, s[1..], key);
      assert s == [s[0]] + s[1..];
    }
  }

  /** Inserting an element at or above `k` into elements at or above `k`
      keeps every element at or above `k`. */
  lemma {:induction false} InsertAbove<T>(a: T, s: seq<T>, key: T -> real, k: real)
    requires k <= key(a) && forall i :: 0 <= i < |s| ==> k <= key(s[i])
    ensures forall i :: 0 <= i < |Insert(a, s, key)| ==> k <= key(Insert(a, s, key)[i])
  {
    if s == [] || key(a) <= key(s[0]) {
    } else {
      InsertAbove(a, s[1..], key, k);
    }
  }

  lemma {:induction false} InsertSorted<T>(a: T, s: seq<T>, key: T -> real)
    requires SortedBy(s, key)
    ensures SortedBy(Insert(a, s, key), key)
  {
    if s == [] || key(a) <= key(s[0]) {
    } else {
      var t := Insert(a, s[1..], key);
      InsertSorted(a, s[1..], key);
      InsertAbove(a, s[1..], key, key(s[0]));
      var r := [s[0]] + t;
      assert Insert(a, s, key) == r;
      forall i, j | 0 <= i < j < |r|
        ensures key(r[i]) <= key(r[j])
      {
        if i > 0 {
          assert r[i] == t[i - 1] && r[j] == t[j - 1];
        } else {
          assert r[j] == t[j - 1];
        }
      }
    }
  }

  lemma WithKeyCons<T>(x: T, t: seq<T>, key: T -> real, k: real)
    ensures WithKey([x] + t, key, k) == (if key(x) == k then [x] else []) + WithKey(t, key, k)
  {
    assert ([x] + t)[1..] == t;
  }

  lemma {:induction false} InsertWithKey<T>(a: T, s: seq<T>, key: T -> real, k: real)
    ensures WithKey(Insert(a, s, key), key, k)
         == (if key(a) == k then [a] else []) + WithKey(s, key, k)
  {
    if s == [] || key(a) <= key(s[0]) {
      WithKeyCons(a, s, key, k);
    } else {
      var t := s[1..];
      var head := if key(s[0]) == k then [s[0]] else [];
      var mid := if key(a) == k then [a] else [];
      assert WithKey(Insert(a, s, key), key, k) == head + (mid + WithKey(t, key, k)) by {
        WithKeyCons(s[0], Insert(a, t, key), key, k);
        InsertWithKey(a, t, key, k);
      }
      assert WithKey(s, key, k) == head + WithKey(t, key, k) by {
        assert s == [s[0]] + t;
        WithKeyCons(s[0], t, key, k);
      }
      // `a` sorts strictly after `s[0]`, so at most one of them has key `k`
      assert head == [] || mid == [];
    }
  }

  lemma {:induction false} SortBySorted<T>(s: seq<T>, key: T -> real)
    ensures SortedBy(SortBy(s, key), key)
    ensures multiset(SortBy(s, key)) == multiset(s)
  {
    if s != [] {
      SortBySorted(s[1..], key);
      InsertSorted(s[0], SortBy(s[1..], key), key);
      InsertPermutes(s[0], SortBy(s[1..], key), key);
      assert s == [s[0]] + s[1..];
    }
  }

  /** `Insert` puts `a` at one position and moves nothing else. */
  lemma {:induction false} InsertSplits<T>(a: T, s: seq<T>, key: T -> real) returns (i: nat)
    ensures i <= |s| && Insert(a, s, key) == s[..i] + [a] + s[i..]
  {
    if s == [] || key(a) <= key(s[0]) {
      i := 0;
    } else {
      var j := InsertSplits(a, s[1..], key);
      i := j + 1;
      assert s[..i] == [s[0]] + s[1..][..j];
      assert s[i..] == s[1..][j..];
    }
  }

  /** Sorting before filtering keeps the same elements as filtering alone,
      each as often. */
  lemma {:induction false} SelectSortByPermutes<T>(s: seq<T>, key: T -> real, p: T -> bool)
    ensures multiset(Select(SortBy(s, key), p)) == multiset(Select(s, p))
  {
    if s != [] {
      var a, t := s[0], s[1..];
      var sa := multiset(Select([a], p));
      assert multiset(Select(SortBy(s, key), p)) == multiset(Select(SortBy(t, key), p)) + sa by {
        SelectInsertPermutes(a, SortBy(t, key), key, p);
      }
      assert multiset(Select(s, p)) == multiset(Select(t, p)) + sa by {
        SplitFirst(s);
        SelectAppend([a], t, p);
      }
      SelectSortByPermutes(t, key, p);
    }
  }

  /** Filtering after an `Insert` keeps what filtering before it kept, plus `a` if it qualifies. */
  lemma SelectInsertPermutes<T>(a: T, s: seq<T>, key: T -> real, p: T -> bool)
    ensures multiset(Select(Insert(a, s, key), p)) == multiset(Select(s, p)) + multiset(Select([a], p))
  {
    var i := InsertSplits(a, s, key);
    var front, back := s[..i], s[i..];
    var sf, sa, sb := Select(front, p), Select([a], p), Select(back, p);
    assert Select(Insert(a, s, key), p) == sf + sa + sb by {
      SelectAppend(front + [a], back, p);
      SelectAppend(front, [a], p);
    }
    assert Select(s, p) == sf + sb by {
      assert front + back == s;
      SelectAppend(front, back, p);
    }
    assert multiset(sf + sa + sb) == multiset(sf + sb) + multiset(sa);
  }

  /** Stability: among elements with equal keys, the sort keeps the input order. */
  lemma {:induction false} SortByStable<T>(s: seq<T>, key: T -> real, k: real)
    ensures WithKey(SortBy(s, key), key, k) == WithKey(s, key, k)
  {
    if s != [] {
      SortByStable(s[1..], key, k);
      InsertWithKey(s[0], SortBy(s[1..], key), key, k);
    }
  }
}
