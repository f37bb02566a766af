/** Python's `sorted(...)` / `list.sort(key=...)`: a stable sort by a key under a
    total order, together with the lexicographic order Python uses on strings
    and on pairs of strings. */
module Sorting {

  /** `le` is a total preorder that is also antisymmetric: a total order. */
  ghost predicate IsTotalOrder<K(!new)>(le: (K, K) -> bool) {
    && (forall a :: le(a, a))
    && (forall a, b :: le(a, b) && le(b, a) ==> a == b)
    && (forall a, b, c :: le(a, b) && le(b, c) ==> le(a, c))
    && (forall a, b :: le(a, b) || le(b, a))
  }

  /** Keys never decrease along `s`. */
  ghost predicate SortedBy<T, K>(s: seq<T>, key: T -> K, le: (K, K) -> bool) {
    forall i, j | 0 <= i < j < |s| :: le(key(s[i]), key(s[j]))
  }

  /** The elements of `s` whose key is `k`, in their order in `s`. */
  function WithKey<T, K(==)>(s: seq<T>, key: T -> K, k: K): seq<T> {
    if |s| == 0 then []
    else (if key(s[0]) == k then [s[0]] else []) + WithKey(s[1..], key, k)
  }

  lemma {:induction false} WithKeyConcat<T, K>(a: seq<T>, b: seq<T>, key: T -> K, k: K)
    ensures WithKey(a + b, key, k) == WithKey(a, key, k) + WithKey(b, key, k)
    decreases |a|
  {
    if |a| == 0 {
      assert a + b == b;
    } else {
      var ab := a + b;
      assert ab[0] == a[0];
      assert ab[1..] == a[1..] + b;
      var h := if key(a[0]) == k then [a[0]] else [];
      var x := WithKey(a[1..], key, k);
      var y := WithKey(b, key, k);
      WithKeyConcat(a[1..], b, key, k);
      assert WithKey(ab, key, k) == h + (x + y);
      assert WithKey(a, key, k) == h + x;
      assert h + (x + y) == (h + x) + y;
    }
  }

  /** Puts `x` in front of the first element whose key is not below its own. */
  function Insert<T, K>(x: T, s: seq<T>, key: T -> K, le: (K, K) -> bool): seq<T> {
    if |s| == 0 then [x]
    else if le(key(x), key(s[0])) then [x] + s
    else [s[0]] + Insert(x, s[1..], key, le)
  }

  lemma {:induction false} InsertPermutes<T, K>(x: T, s: seq<T>, key: T -> K, le: (K, K) -> bool)
    ensures multiset(Insert(x, s, key, le)) == multiset([x] + s)
    decreases |s|
  {
    if |s| > 0 && !le(key(x), key(s[0])) {
      InsertPermutes(x, s[1..], key, le);
      assert s == [s[0]] + s[1..];
    }
  }

  /** An element below everything in a sorted sequence can go in front. */
  lemma ConsSorted<T, K>(h: T, s: seq<T>, key: T -> K, le: (K, K) -> bool)
    requires SortedBy(s, key, le) && forall j | 0 <= j < |s| :: le(key(h), key(s[j]))
    ensures SortedBy([h] + s, key, le)
  {
    var r := [h] + s;
    forall i, j | 0 <= i < j < |r| ensures le(key(r[i]), key(r[j])) {
      if i == 0 {
        assert r[j] == s[j - 1];
      } else {
        assert r[i] == s[i - 1] && r[j] == s[j - 1];
      }
    }
  }

  /** Whatever lies below every element of `s`, and `x`, lies below every
      element of `Insert(x, s)`. */
  lemma BelowInsert<T, K>(h: T, x: T, s: seq<T>, key: T -> K, le: (K, K) -> bool)
    requires le(key(h), key(x)) && forall j | 0 <= j < |s| :: le(key(h), key(s[j]))
    ensures forall j | 0 <= j < |Insert(x, s, key, le)| :: le(key(h), key(Insert(x, s, key, le)[j]))
  {
    var r := Insert(x, s, key, le);
    InsertPermutes(x, s, key, le);
    forall j | 0 <= j < |r| ensures le(key(h), key(r[j])) {
      assert r[j] in multiset([x] + s);
      if r[j] != x {
        assert r[j] in s;
      }
    }
  }

  lemma {:induction false} InsertSorted<T, K(!new)>(x: T, s: seq<T>, key: T -> K, le: (K, K) -> bool)
    requires IsTotalOrder(le) && SortedBy(s, key, le)
    ensures SortedBy(Insert(x, s, key, le), key, le)
    decreases |s|
  {
    if |s| > 0 && !le(key(x), key(s[0])) {
      InsertSorted(x, s[1..], key, le);
      assert le(key(s[0]), key(x));
      assert forall j | 0 <= j < |s[1..]| :: le(key(s[0]), key(s[1..][j])) by {
        forall j | 0 <= j < |s[1..]| ensures le(key(s[0]), key(s[1..][j])) {
          assert s[1..][j] == s[j + 1];
        }
      }
      BelowInsert(s[0], x, s[1..], key, le);
      ConsSorted(s[0], Insert(x, s[1..], key, le), key, le);
    } else if |s| > 0 {
      forall j | 0 <= j < |s| ensures le(key(x), key(s[j])) {
        if j > 0 {
          assert le(key(s[0]), key(s[j]));
        }
      }
      ConsSorted(x, s, key, le);
    }
  }

  lemma {:induction false} InsertStable<T, K(!new)>(x: T, s: seq<T>, key: T -> K, le: (K, K) -> bool, k: K)
    requires forall a :: le(a, a)
    ensures WithKey(Insert(x, s, key, le), key, k) == WithKey([x] + s, key, k)
    decreases |s|
  {
    if |s| > 0 && !le(key(x), key(s[0])) {
      var rest := Insert(x, s[1..], key, le);
      InsertStable(x, s[1..], key, le, k);
      assert Insert(x, s, key, le) == [s[0]] + rest;
      WithKeyConcat([s[0]], rest, key, k);
      WithKeyConcat([x], s[1..], key, k);
      WithKeyConcat([x], s, key, k);
      WithKeyConcat([s[0]], s[1..], key, k);
      assert s == [s[0]] + s[1..];
      var wx, w0, wt := WithKey([x], key, k), WithKey([s[0]], key, k), WithKey(s[1..], key, k);
      // x and s[0] have different keys, so swapping them keeps each key's order
      assert le(key(x), key(x));
      assert wx == [] || w0 == [];
      calc {
        WithKey(Insert(x, s, key, le), key, k);
        w0 + (wx + wt);
        { assert w0 + wx == wx + w0; }
        wx + (w0 + wt);
        WithKey([x] + s, key, k);
      }
    }
  }

  /** Python's stable `sorted(s, key=key)`: a permutation of `s`, with keys in
      order, and with the elements of each key in their original order. */
  function SortBy<T(==), K(!new, ==)>(s: seq<T>, key: T -> K, le: (K, K) -> bool): (r: seq<T>)
    requires IsTotalOrder(le)
    ensures multiset(r) == multiset(s)
    ensures SortedBy(r, key, le)
    ensures forall k :: WithKey(r, key, k) == WithKey(s, key, k)
    decreases |s|
  {
    if |s| == 0 then []
    else
      var rest := SortBy(s[1..], key, le);
      InsertPermutes(s[0], rest, key, le);
      InsertSorted(s[0], rest, key, le);
      assert s == [s[0]] + s[1..];
      InsertKeepsGroups(s, rest, key, le);
      Insert(s[0], rest, key, le)
  }

  /** Inserting the head of `s` into a sequence that groups the keys of the
      tail as the tail does yields the groups of `s`. */
  lemma InsertKeepsGroups<T, K(!new)>(s: seq<T>, rest: seq<T>, key: T -> K, le: (K, K) -> bool)
    requires |s| > 0 && forall a :: le(a, a)
    requires forall k :: WithKey(rest, key, k) == WithKey(s[1..], key, k)
    ensures forall k :: WithKey(Insert(s[0], rest, key, le), key, k) == WithKey(s, key, k)
  {
    forall k ensures WithKey(Insert(s[0], rest, key, le), key, k) == WithKey(s, key, k) {
      InsertStable(s[0], rest, key, le, k);
      WithKeyConcat([s[0]], rest, key, k);
      WithKeyConcat([s[0]], s[1..], key, k);
      assert s == [s[0]] + s[1..];
    }
  }

  /** Stability stated on positions: two elements with the same key appear in
      the sorted sequence in the order they had before. */
  lemma {:induction false} WithKeyOrder<T, K>(s: seq<T>, key: T -> K, i: nat, j: nat)
    requires i < j < |s| && key(s[i]) == key(s[j])
    ensures exists a, b | 0 <= a < b < |WithKey(s, key, key(s[i]))| ::
      WithKey(s, key, key(s[i]))[a] == s[i] && WithKey(s, key, key(s[i]))[b] == s[j]
    decreases |s|
  {
    var k := key(s[i]);
    WithKeyConcat([s[0]], s[1..], key, k);
    assert s == [s[0]] + s[1..];
    if i == 0 {
      var m := WithKeyMember(s[1..], key, j - 1);
      var w := WithKey(s, key, k);
      assert w == [s[0]] + WithKey(s[1..], key, k);
      assert w[0] == s[i] && w[m + 1] == s[j];
    } else {
      WithKeyOrder(s[1..], key, i - 1, j - 1);
      var a, b :| 0 <= a < b < |WithKey(s[1..], key, k)| &&
        WithKey(s[1..], key, k)[a] == s[i] && WithKey(s[1..], key, k)[b] == s[j];
      var pre := if key(s[0]) == k then [s[0]] else [];
      var w := WithKey(s, key, k);
      assert w == pre + WithKey(s[1..], key, k);
      assert w[a + |pre|] == s[i] && w[b + |pre|] == s[j];
    }
  }

  lemma {:induction false} WithKeyMember<T, K>(s: seq<T>, key: T -> K, j: nat) returns (m: nat)
    requires j < |s|
    ensures m < |WithKey(s, key, key(s[j]))| && WithKey(s, key, key(s[j]))[m] == s[j]
    decreases |s|
  {
    var k := key(s[j]);
    WithKeyConcat([s[0]], s[1..], key, k);
    assert s == [s[0]] + s[1..];
    if j == 0 {
      m := 0;
    } else {
      var m' := WithKeyMember(s[1..], key, j - 1);
      var pre := if key(s[0]) == k then [s[0]] else [];
      m := m' + |pre|;
    }
  }

  /** No element occurs twice. */
  predicate Unique<T(==)>(s: seq<T>) {
    forall i, j | 0 <= i < j < |s| :: s[i] != s[j]
  }

  lemma {:induction false} UniqueCount<T>(s: seq<T>, x: T)
    requires Unique(s)
    ensures multiset(s)[x] <= 1
    decreases |s|
  {
    if |s| > 0 {
      var init := s[..|s| - 1];
      assert s == init + [s[|s| - 1]];
      UniqueCount(init, x);
      if s[|s| - 1] == x {
        assert x !in init;
      }
    }
  }

  lemma RepeatCount<T>(s: seq<T>, i: nat, j: nat)
    requires i < j < |s| && s[i] == s[j]
    ensures multiset(s)[s[i]] >= 2
  {
    assert s == s[..j] + s[j..];
    assert s[i] in s[..j] && s[j] in s[j..];
  }

  /** A rearrangement of a sequence without repeats has none either. */
  lemma UniquePermutation<T>(s: seq<T>, t: seq<T>)
    requires Unique(s) && multiset(t) == multiset(s)
    ensures Unique(t)
  {
    forall i, j | 0 <= i < j < |t| ensures t[i] != t[j] {
      if t[i] == t[j] {
        RepeatCount(t, i, j);
        UniqueCount(s, t[i]);
      }
    }
  }

  // ---------------------------------------------------------------------------
  // The orders used by the scripts
  // ---------------------------------------------------------------------------

  /** `<=` on integers. */
  function IntLe(a: int, b: int): bool {
    a <= b
  }

  /** `>=` on integers: sorting with it is Python's `reverse=True`, which keeps
      equal keys in their original order. */
  function IntGe(a: int, b: int): bool {
    a >= b
  }

  lemma IntOrders()
    ensures IsTotalOrder(IntLe) && IsTotalOrder(IntGe)
  {
  }

  /** Python's `<=` on strings: code point by code point, a prefix first. */
  function LexLe(a: string, b: string): bool {
    if |a| == 0 then true
    else if |b| == 0 then false
    else if a[0] != b[0] then a[0] < b[0]
    else LexLe(a[1..], b[1..])
  }

  lemma {:induction false} LexLeAntisymmetric(a: string, b: string)
    requires LexLe(a, b) && LexLe(b, a)
    ensures a == b
    decreases |a|
  {
    if |a| > 0 && |b| > 0 {
      LexLeAntisymmetric(a[1..], b[1..]);
      assert a == [a[0]] + a[1..] && b == [b[0]] + b[1..];
    }
  }

  lemma {:induction false} LexLeTransitive(a: string, b: string, c: string)
    requires LexLe(a, b) && LexLe(b, c)
    ensures LexLe(a, c)
    decreases |a|
  {
    if |a| > 0 && |b| > 0 && |c| > 0 && a[0] == b[0] && b[0] == c[0] {
      LexLeTransitive(a[1..], b[1..], c[1..]);
    }
  }

  lemma {:induction false} LexLeTotal(a: string, b: string)
    ensures LexLe(a, b) || LexLe(b, a)
    decreases |a|
  {
    if |a| > 0 && |b| > 0 && a[0] == b[0] {
      LexLeTotal(a[1..], b[1..]);
    }
  }

  lemma {:induction false} LexLeReflexive(a: string)
    ensures LexLe(a, a)
    decreases |a|
  {
    if |a| > 0 {
      LexLeReflexive(a[1..]);
    }
  }

  /** Python's `<=` on pairs of strings: by the first, then by the second. */
  function PairLe(p: (string, string), q: (string, string)): bool {
    if p.0 == q.0 then LexLe(p.1, q.1) else LexLe(p.0, q.0)
  }

  lemma PairLeTotalOrder()
    ensures IsTotalOrder(PairLe)
  {
    forall p: (string, string) ensures PairLe(p, p) {
      LexLeReflexive(p.1);
    }
    forall p: (string, string), q: (string, string) | PairLe(p, q) && PairLe(q, p)
      ensures p == q
    {
      if p.0 == q.0 {
        LexLeAntisymmetric(p.1, q.1);
      } else {
        LexLeAntisymmetric(p.0, q.0);
      }
    }
    forall p: (string, string), q: (string, string), r: (string, string) | PairLe(p, q) && PairLe(q, r)
      ensures PairLe(p, r)
    {
      if p.0 == q.0 && q.0 == r.0 {
        LexLeTransitive(p.1, q.1, r.1);
      } else if p.0 != q.0 && q.0 != r.0 {
        LexLeTransitive(p.0, q.0, r.0);
        if p.0 == r.0 {
          LexLeAntisymmetric(p.0, q.0);
        }
      }
    }
    forall p: (string, string), q: (string, string) ensures PairLe(p, q) || PairLe(q, p) {
      if p.0 == q.0 {
        LexLeTotal(p.1, q.1);
      } else {
        LexLeTotal(p.0, q.0);
      }
    }
  }
}
