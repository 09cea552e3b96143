/** Sequence operations the source performs with `filter`, `push` and `new Set(...)`. */
module Sequences {

  /** `s.filter(p)`: the elements that satisfy `p`, in their original order. */
  function FilterBy<T>(s: seq<T>, p: T -> bool): seq<T>
  {
    if s == [] then [] else
    var rest := FilterBy(s[..|s| - 1], p);
    if p(s[|s| - 1]) then rest + [s[|s| - 1]] else rest
  }

  /** `a` can be obtained from `b` by deleting elements (order is kept). */
  predicate IsSubsequence<T(==)>(a: seq<T>, b: seq<T>)
    decreases |b|
  {
    if a == [] then true
    else if b == [] then false
    else if a[|a| - 1] == b[|b| - 1] then IsSubsequence(a[..|a| - 1], b[..|b| - 1])
    else IsSubsequence(a, b[..|b| - 1])
  }

  predicate NoDuplicates<T(==)>(s: seq<T>) {
    forall i, j :: 0 <= i < j < |s| ==> s[i] != s[j]
  }

  /** `Array.from(new Set(s))`, and every push-if-absent loop: first occurrences, in order. */
  function Dedup<T(==)>(s: seq<T>): seq<T>
  {
    if s == [] then [] else
    var d := Dedup(s[..|s| - 1]);
    if s[|s| - 1] in d then d else d + [s[|s| - 1]]
  }

  /** `s.slice(0, n)`. */
  function Take<T>(s: seq<T>, n: nat): (r: seq<T>)
    ensures |r| <= n && |r| <= |s| && r == s[..|r|]
    ensures |s| <= n ==> r == s
  {
    if |s| <= n then s else s[..n]
  }

  lemma {:induction false} FilterMembers<T>(s: seq<T>, p: T -> bool)
    ensures forall x :: x in FilterBy(s, p) <==> x in s && p(x)
  {
    if s != [] {
      FilterMembers(s[..|s| - 1], p);
      assert s == s[..|s| - 1] + [s[|s| - 1]];
    }
  }

  lemma {:induction false} FilterAppend<T>(a: seq<T>, b: seq<T>, p: T -> bool)
    ensures FilterBy(a + b, p) == FilterBy(a, p) + FilterBy(b, p)
    decreases |b|
  {
    if b == [] {
      assert a + b == a;
    } else {
      var ab := a + b;
      assert ab[..|ab| - 1] == a + b[..|b| - 1];
      FilterAppend(a, b[..|b| - 1], p);
    }
  }

  lemma {:induction false} FilterLength<T>(s: seq<T>, p: T -> bool)
    ensures |FilterBy(s, p)| <= |s|
  {
    if s != [] {
      FilterLength(s[..|s| - 1], p);
    }
  }

  lemma {:induction false} FilterKeepsAll<T>(s: seq<T>, p: T -> bool)
    requires forall i :: 0 <= i < |s| ==> p(s[i])
    ensures FilterBy(s, p) == s
  {
    if s != [] {
      FilterKeepsAll(s[..|s| - 1], p);
    }
  }

  lemma {:induction false} SubsequenceExtend<T>(a: seq<T>, b: seq<T>, x: T)
    requires IsSubsequence(a, b)
    ensures IsSubsequence(a, b + [x])
    decreases |b|, 1
  {
    var b' := b + [x];
    assert b'[..|b'| - 1] == b;
    if a != [] && a[|a| - 1] == x {
      // Matching x against the old last element of a is also possible: show a[..|a|-1] fits in b.
      SubsequenceDropLast(a, b);
    }
  }

  lemma {:induction false} SubsequenceDropLast<T>(a: seq<T>, b: seq<T>)
    requires a != [] && IsSubsequence(a, b)
    ensures IsSubsequence(a[..|a| - 1], b)
    decreases |b|, 0
  {
    if b != [] {
      if a[|a| - 1] == b[|b| - 1] {
        SubsequenceExtend(a[..|a| - 1], b[..|b| - 1], b[|b| - 1]);
        assert b[..|b| - 1] + [b[|b| - 1]] == b;
      } else {
        SubsequenceDropLast(a, b[..|b| - 1]);
        SubsequenceExtend(a[..|a| - 1], b[..|b| - 1], b[|b| - 1]);
        assert b[..|b| - 1] + [b[|b| - 1]] == b;
      }
    }
  }

  lemma {:induction false} SubsequenceReflexive<T>(s: seq<T>)
    ensures IsSubsequence(s, s)
  {
    if s != [] {
      SubsequenceReflexive(s[..|s| - 1]);
    }
  }

  /** A prefix is a subsequence. */
  lemma {:induction false} PrefixIsSubsequence<T>(a: seq<T>, b: seq<T>)
    requires a <= b
    ensures IsSubsequence(a, b)
  {
    if a == b {
      SubsequenceReflexive(a);
    } else {
      var b' := b[..|b| - 1];
      assert a <= b';
      PrefixIsSubsequence(a, b');
      SubsequenceExtend(a, b', b[|b| - 1]);
      assert b' + [b[|b| - 1]] == b;
    }
  }

  lemma {:induction false} SubsequenceTransitive<T>(a: seq<T>, b: seq<T>, c: seq<T>)
    requires IsSubsequence(a, b) && IsSubsequence(b, c)
    ensures IsSubsequence(a, c)
    decreases |c|
  {
    if a != [] && c != [] {
      var c' := c[..|c| - 1];
      var x := c[|c| - 1];
      assert c' + [x] == c;
      assert b != [];
      if b[|b| - 1] == x {
        var b' := b[..|b| - 1];
        if a[|a| - 1] == b[|b| - 1] {
          SubsequenceTransitive(a[..|a| - 1], b', c');
        } else {
          SubsequenceTransitive(a, b', c');
          SubsequenceExtend(a, c', x);
        }
      } else {
        SubsequenceTransitive(a, b, c');
        SubsequenceExtend(a, c', x);
      }
    }
  }

  lemma {:induction false} FilterIsSubsequence<T>(s: seq<T>, p: T -> bool)
    ensures IsSubsequence(FilterBy(s, p), s)
  {
    if s != [] {
      var init := s[..|s| - 1];
      FilterIsSubsequence(init, p);
      var rest := FilterBy(init, p);
      if p(s[|s| - 1]) {
        var r := rest + [s[|s| - 1]];
        assert r[..|r| - 1] == rest;
      } else {
        SubsequenceExtend(rest, init, s[|s| - 1]);
        assert init + [s[|s| - 1]] == s;
      }
    }
  }

  lemma {:induction false} SubsequenceNoDuplicates<T>(a: seq<T>, b: seq<T>)
    requires IsSubsequence(a, b) && NoDuplicates(b)
    ensures NoDuplicates(a)
    decreases |b|
  {
    if a != [] && b != [] {
      var b' := b[..|b| - 1];
      assert NoDuplicates(b');
      if a[|a| - 1] == b[|b| - 1] {
        SubsequenceNoDuplicates(a[..|a| - 1], b');
        SubsequenceMembers(a[..|a| - 1], b');
        assert b[|b| - 1] !in b';
        assert a == a[..|a| - 1] + [a[|a| - 1]];
      } else {
        SubsequenceNoDuplicates(a, b');
      }
    }
  }

  lemma {:induction false} SubsequenceMembers<T>(a: seq<T>, b: seq<T>)
    requires IsSubsequence(a, b)
    ensures forall x :: x in a ==> x in b
    decreases |b|
  {
    if a != [] && b != [] {
      if a[|a| - 1] == b[|b| - 1] {
        SubsequenceMembers(a[..|a| - 1], b[..|b| - 1]);
        assert a == a[..|a| - 1] + [a[|a| - 1]];
        assert b == b[..|b| - 1] + [b[|b| - 1]];
      } else {
        SubsequenceMembers(a, b[..|b| - 1]);
        assert b == b[..|b| - 1] + [b[|b| - 1]];
      }
    }
  }

  lemma FilterNoDuplicates<T>(s: seq<T>, p: T -> bool)
    requires NoDuplicates(s)
    ensures NoDuplicates(FilterBy(s, p))
  {
    FilterIsSubsequence(s, p);
    SubsequenceNoDuplicates(FilterBy(s, p), s);
  }

  /** Filtering twice by the same test is filtering once. */
  lemma FilterIdempotent<T>(s: seq<T>, p: T -> bool)
    ensures FilterBy(FilterBy(s, p), p) == FilterBy(s, p)
  {
    var f := FilterBy(s, p);
    forall i | 0 <= i < |f| ensures p(f[i]) {
      FilterSatisfies(s, p, f[i]);
    }
    FilterKeepsAll(f, p);
  }

  lemma FilterSatisfies<T>(s: seq<T>, p: T -> bool, x: T)
    requires x in FilterBy(s, p)
    ensures p(x)
  {
    FilterMembers(s, p);
  }

  /** `filter(p)` and `filter(not p)` split `s` without losing or inventing elements. */
  lemma {:induction false} FilterPartition<T>(s: seq<T>, p: T -> bool, q: T -> bool)
    requires forall x :: q(x) == !p(x)
    ensures multiset(FilterBy(s, p)) + multiset(FilterBy(s, q)) == multiset(s)
    ensures |FilterBy(s, p)| + |FilterBy(s, q)| == |s|
  {
    if s != [] {
      var init, x := s[..|s| - 1], s[|s| - 1];
      FilterPartition(init, p, q);
      assert s == init + [x];
      assert multiset(s) == multiset(init) + multiset{x};
      if p(x) {
        assert FilterBy(s, p) == FilterBy(init, p) + [x] && FilterBy(s, q) == FilterBy(init, q);
      } else {
        assert FilterBy(s, p) == FilterBy(init, p) && FilterBy(s, q) == FilterBy(init, q) + [x];
      }
    }
  }

  /** `filter(p)` keeps every copy of a value satisfying `p` and no copy of any other value. */
  lemma {:induction false} FilterCounts<T>(s: seq<T>, p: T -> bool)
    ensures forall x :: multiset(FilterBy(s, p))[x] == if p(x) then multiset(s)[x] else 0
  {
    if s != [] {
      var init, last := s[..|s| - 1], s[|s| - 1];
      FilterCounts(init, p);
      assert s == init + [last];
      assert multiset(s) == multiset(init) + multiset{last};
      if p(last) {
        assert FilterBy(s, p) == FilterBy(init, p) + [last];
        assert multiset(FilterBy(s, p)) == multiset(FilterBy(init, p)) + multiset{last};
      } else {
        assert FilterBy(s, p) == FilterBy(init, p);
      }
    }
  }

  /** Removing one value from a duplicate-free sequence that holds it shortens it by one. */
  lemma {:induction false} FilterRemovesOne<T>(s: seq<T>, x: T, p: T -> bool)
    requires NoDuplicates(s) && x in s
    requires forall y :: p(y) == (y != x)
    ensures |FilterBy(s, p)| == |s| - 1
  {
    var init := s[..|s| - 1];
    assert NoDuplicates(init);
    if s[|s| - 1] == x {
      assert x !in init;
      FilterKeepsAll(init, p);
    } else {
      assert s == init + [s[|s| - 1]];
      FilterRemovesOne(init, x, p);
    }
  }

  lemma {:induction false} DedupMembers<T>(s: seq<T>)
    ensures forall x :: x in Dedup(s) <==> x in s
  {
    if s != [] {
      DedupMembers(s[..|s| - 1]);
      assert s == s[..|s| - 1] + [s[|s| - 1]];
    }
  }

  lemma {:induction false} DedupNoDuplicates<T>(s: seq<T>)
    ensures NoDuplicates(Dedup(s))
  {
    if s != [] {
      DedupNoDuplicates(s[..|s| - 1]);
    }
  }

  lemma {:induction false} DedupIsSubsequence<T>(s: seq<T>)
    ensures IsSubsequence(Dedup(s), s)
  {
    if s != [] {
      var init := s[..|s| - 1];
      DedupIsSubsequence(init);
      var d := Dedup(init);
      if s[|s| - 1] in d {
        SubsequenceExtend(d, init, s[|s| - 1]);
        assert init + [s[|s| - 1]] == s;
      } else {
        var r := d + [s[|s| - 1]];
        assert r[..|r| - 1] == d;
      }
    }
  }

  /** Deduplicating a longer input only appends: the earlier choices never change. */
  lemma {:induction false} DedupPrefix<T>(a: seq<T>, b: seq<T>)
    ensures Dedup(a) <= Dedup(a + b)
    decreases |b|
  {
    if b != [] {
      var ab := a + b;
      assert ab[..|ab| - 1] == a + b[..|b| - 1];
      DedupPrefix(a, b[..|b| - 1]);
    } else {
      assert a + b == a;
    }
  }

  lemma {:induction false} DedupLength<T>(s: seq<T>)
    ensures |Dedup(s)| <= |s|
  {
    if s != [] {
      DedupLength(s[..|s| - 1]);
    }
  }

  /** First occurrences are kept in order: the deduplication of any prefix of `s` holds
      exactly the prefix's elements and is itself a prefix of the deduplication of `s`. */
  lemma DedupKeepsFirstOccurrences<T>(s: seq<T>, k: nat)
    requires k <= |s|
    ensures Dedup(s[..k]) <= Dedup(s)
    ensures forall x :: x in Dedup(s[..k]) <==> x in s[..k]
  {
    assert s == s[..k] + s[k..];
    DedupPrefix(s[..k], s[k..]);
    DedupMembers(s[..k]);
  }

  lemma {:induction false} DedupOfDistinct<T>(s: seq<T>)
    requires NoDuplicates(s)
    ensures Dedup(s) == s
  {
    if s != [] {
      DedupOfDistinct(s[..|s| - 1]);
      DedupMembers(s[..|s| - 1]);
    }
  }

  /** Once `n` distinct elements satisfying `p` have been seen, later elements cannot change the first `n`. */
  lemma DistinctPrefixSettled<T>(a: seq<T>, b: seq<T>, p: T -> bool, n: nat)
    requires |Dedup(FilterBy(a, p))| == n
    ensures Take(Dedup(FilterBy(a + b, p)), n) == Dedup(FilterBy(a, p))
  {
    FilterAppend(a, b, p);
    DedupPrefix(FilterBy(a, p), FilterBy(b, p));
  }

  /** One more element: `if (!seen.includes(x)) seen.push(x)` keeps `seen` equal to the deduplicated prefix. */
  lemma DedupFilterStep<T>(s: seq<T>, i: nat, p: T -> bool)
    requires i < |s|
    ensures Dedup(s[..i + 1]) == if s[i] in Dedup(s[..i]) then Dedup(s[..i]) else Dedup(s[..i]) + [s[i]]
    ensures FilterBy(s[..i + 1], p) == if p(s[i]) then FilterBy(s[..i], p) + [s[i]] else FilterBy(s[..i], p)
    ensures Dedup(FilterBy(s[..i + 1], p)) ==
      if p(s[i]) && s[i] !in Dedup(FilterBy(s[..i], p)) then Dedup(FilterBy(s[..i], p)) + [s[i]]
      else Dedup(FilterBy(s[..i], p))
  {
    assert s[..i + 1][..i] == s[..i];
    var f := FilterBy(s[..i], p);
    if p(s[i]) {
      assert (f + [s[i]])[..|f|] == f;
    }
  }

  /** A loop that stops once `n` distinct matches are collected has the first `n` of the whole sequence. */
  lemma SettledAt<T>(s: seq<T>, i: nat, p: T -> bool, n: nat)
    requires i < |s| && |Dedup(FilterBy(s[..i + 1], p))| == n
    ensures Take(Dedup(FilterBy(s, p)), n) == Dedup(FilterBy(s[..i + 1], p))
    ensures Dedup(s[..i + 1]) <= Dedup(s)
  {
    assert s == s[..i + 1] + s[i + 1..];
    DistinctPrefixSettled(s[..i + 1], s[i + 1..], p, n);
    DedupPrefix(s[..i + 1], s[i + 1..]);
  }
}
