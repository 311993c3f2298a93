/** Order-preserving de-duplication by a key: the "seen set" loop the core uses for scraped FAQs,
    and the `set(...)` of query words. */
module Dedup {

  /** The key of plain de-duplication: each element is its own key. */
  function Itself<T>(x: T): T
  {
    x
  }

  /** No two elements of `xs` share a key. */
  predicate DistinctKeys<T, K(==)>(xs: seq<T>, key: T -> K)
  {
    forall i, j :: 0 <= i < j < |xs| ==> key(xs[i]) != key(xs[j])
  }

  /** `xs[i]` is the first element of `xs` carrying its key. */
  predicate FirstWithKey<T, K(==)>(xs: seq<T>, key: T -> K, i: int)
    requires 0 <= i < |xs|
  {
    forall j :: 0 <= j < i ==> key(xs[j]) != key(xs[i])
  }

  /** `a` is `b` with some elements dropped and the rest in their original order. */
  predicate IsSubsequence<T(==)>(a: seq<T>, b: seq<T>)
    decreases |b|
  {
    if |a| == 0 then true
    else if |b| == 0 then false
    else (a[0] == b[0] && IsSubsequence(a[1..], b[1..])) || IsSubsequence(a, b[1..])
  }

  /** Walks `xs` keeping an element when its key has not been seen, then marks the key seen. */
  function DedupFrom<T, K(==)>(xs: seq<T>, key: T -> K, seen: set<K>): (r: seq<T>)
    ensures |r| <= |xs|
    ensures forall i :: 0 <= i < |r| ==> key(r[i]) !in seen
    ensures DistinctKeys(r, key)
    decreases |xs|
  {
    if |xs| == 0 then []
    else if key(xs[0]) in seen then DedupFrom(xs[1..], key, seen)
    else [xs[0]] + DedupFrom(xs[1..], key, seen + {key(xs[0])})
  }

  function DedupBy<T, K(==)>(xs: seq<T>, key: T -> K): seq<T>
  {
    DedupFrom(xs, key, {})
  }

  lemma {:induction false} SubsequenceMembers<T>(a: seq<T>, b: seq<T>)
    requires IsSubsequence(a, b)
    ensures forall x :: x in a ==> x in b
    decreases |b|
  {
    if |a| > 0 {
      if a[0] == b[0] && IsSubsequence(a[1..], b[1..]) {
        SubsequenceMembers(a[1..], b[1..]);
        assert forall x :: x in a ==> x == a[0] || x in a[1..];
      } else {
        SubsequenceMembers(a, b[1..]);
      }
    }
  }

  /** The output keeps its elements in input order and is no longer than the input. */
  lemma {:induction false} DedupIsSubsequence<T, K>(xs: seq<T>, key: T -> K, seen: set<K>)
    ensures IsSubsequence(DedupFrom(xs, key, seen), xs)
    ensures forall x :: x in DedupFrom(xs, key, seen) ==> x in xs
    decreases |xs|
  {
    var r := DedupFrom(xs, key, seen);
    if |xs| > 0 {
      if key(xs[0]) in seen {
        DedupIsSubsequence(xs[1..], key, seen);
        if |r| > 0 {
          assert IsSubsequence(r, xs[1..]);
        }
      } else {
        DedupIsSubsequence(xs[1..], key, seen + {key(xs[0])});
        assert r[0] == xs[0] && r[1..] == DedupFrom(xs[1..], key, seen + {key(xs[0])});
      }
      SubsequenceMembers(r, xs);
    }
  }

  /** Nothing is lost: every key of the input that was not already seen is carried by some output element. */
  lemma {:induction false} DedupKeepsEveryKey<T, K>(xs: seq<T>, key: T -> K, seen: set<K>, i: int)
    requires 0 <= i < |xs|
    requires key(xs[i]) !in seen
    ensures exists j :: 0 <= j < |DedupFrom(xs, key, seen)| && key(DedupFrom(xs, key, seen)[j]) == key(xs[i])
    decreases |xs|
  {
    var r := DedupFrom(xs, key, seen);
    if key(xs[0]) in seen {
      DedupKeepsEveryKey(xs[1..], key, seen, i - 1);
      var j :| 0 <= j < |r| && key(r[j]) == key(xs[1..][i - 1]);
    } else if i == 0 || key(xs[i]) == key(xs[0]) {
      assert key(r[0]) == key(xs[i]);
    } else {
      DedupKeepsEveryKey(xs[1..], key, seen + {key(xs[0])}, i - 1);
      var j :| 0 <= j < |r[1..]| && key(r[1..][j]) == key(xs[1..][i - 1]);
      assert key(r[j + 1]) == key(xs[i]);
    }
  }

  /** The element kept for a key is the first one carrying it. */
  lemma {:induction false} DedupKeepsFirst<T, K>(xs: seq<T>, key: T -> K, seen: set<K>, i: int)
    requires 0 <= i < |xs|
    requires key(xs[i]) !in seen
    requires FirstWithKey(xs, key, i)
    ensures xs[i] in DedupFrom(xs, key, seen)
    decreases |xs|
  {
    if i > 0 {
      assert key(xs[0]) != key(xs[i]);
      var seen' := if key(xs[0]) in seen then seen else seen + {key(xs[0])};
      assert FirstWithKey(xs[1..], key, i - 1) by {
        forall j | 0 <= j < i - 1
          ensures key(xs[1..][j]) != key(xs[1..][i - 1])
        {
          assert xs[1..][j] == xs[j + 1];
        }
      }
      DedupKeepsFirst(xs[1..], key, seen', i - 1);
    }
  }

  /** On input whose keys are already distinct and unseen, de-duplication changes nothing. */
  lemma {:induction false} DedupOfDistinct<T, K>(xs: seq<T>, key: T -> K, seen: set<K>)
    requires DistinctKeys(xs, key)
    requires forall i :: 0 <= i < |xs| ==> key(xs[i]) !in seen
    ensures DedupFrom(xs, key, seen) == xs
    decreases |xs|
  {
    if |xs| > 0 {
      var seen' := seen + {key(xs[0])};
      assert forall i :: 0 <= i < |xs[1..]| ==> key(xs[1..][i]) != key(xs[0]) by {
        forall i | 0 <= i < |xs[1..]|
          ensures key(xs[1..][i]) != key(xs[0])
        {
          assert xs[1..][i] == xs[i + 1];
        }
      }
      DedupOfDistinct(xs[1..], key, seen');
      assert xs == [xs[0]] + xs[1..];
    }
  }

  /** De-duplicating twice is the same as de-duplicating once. */
  lemma DedupIdempotent<T, K>(xs: seq<T>, key: T -> K)
    ensures DedupBy(DedupBy(xs, key), key) == DedupBy(xs, key)
  {
    DedupOfDistinct(DedupBy(xs, key), key, {});
  }

  /** The seen-set loop, written as the source writes it, computes `DedupBy`. */
  method DedupLoop<T, K(==)>(xs: seq<T>, key: T -> K) returns (unique: seq<T>)
    ensures unique == DedupBy(xs, key)
    ensures DistinctKeys(unique, key)
    ensures |unique| <= |xs|
  {
    unique := [];
    var seen: set<K> := {};
    var i := 0;
    while i < |xs|
      invariant 0 <= i <= |xs|
      invariant unique + DedupFrom(xs[i..], key, seen) == DedupBy(xs, key)
    {
      var k := key(xs[i]);
      assert xs[i..][1..] == xs[i + 1..];
      if k !in seen {
        seen := seen + {k};
        unique := unique + [xs[i]];
      }
      i := i + 1;
    }
  }

  /** Some element of `xs` carries key `k`. */
  predicate HasKey<T, K(==)>(xs: seq<T>, key: T -> K, k: K)
  {
    exists i :: 0 <= i < |xs| && key(xs[i]) == k
  }

  lemma HasKeyCons<T, K>(xs: seq<T>, key: T -> K, k: K)
    requires |xs| > 0
    ensures HasKey(xs, key, k) <==> key(xs[0]) == k || HasKey(xs[1..], key, k)
  {
    if HasKey(xs, key, k) && key(xs[0]) != k {
      var i :| 0 <= i < |xs| && key(xs[i]) == k;
      assert key(xs[1..][i - 1]) == k;
    }
    if HasKey(xs[1..], key, k) {
      var i :| 0 <= i < |xs[1..]| && key(xs[1..][i]) == k;
      assert key(xs[i + 1]) == k;
    }
  }

  /** Appending one element extends the output by it exactly when its key is new. */
  lemma {:induction false} DedupAppend<T, K>(xs: seq<T>, x: T, key: T -> K, seen: set<K>)
    ensures DedupFrom(xs + [x], key, seen)
         == DedupFrom(xs, key, seen) + (if key(x) in seen || HasKey(xs, key, key(x)) then [] else [x])
    decreases |xs|
  {
    if |xs| > 0 {
      var ys := xs + [x];
      assert ys[0] == xs[0] && ys[1..] == xs[1..] + [x];
      var seen' := if key(xs[0]) in seen then seen else seen + {key(xs[0])};
      DedupAppend(xs[1..], x, key, seen');
      HasKeyCons(xs, key, key(x));
    }
  }
}
