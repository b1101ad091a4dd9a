/**
 * Python's `sorted(items, key=...)` for the keys the core sorts by: a pair
 * (rank, text) compared rank first and then text, with text compared the way
 * Python compares strings (lexicographically, by code point). Python's sort is
 * stable, and so is the insertion sort below.
 */
module Sorting {

  datatype SortKey = SortKey(rank: int, text: string)

  /** Python's `a <= b` on strings. */
  predicate TextLe(a: string, b: string)
    decreases |a|
  {
    |a| == 0 || (|b| > 0 && (a[0] < b[0] || (a[0] == b[0] && TextLe(a[1..], b[1..]))))
  }

  /** Python's `x <= y` on (int, str) tuples. */
  predicate KeyLe(x: SortKey, y: SortKey) {
    x.rank < y.rank || (x.rank == y.rank && TextLe(x.text, y.text))
  }

  lemma {:induction false} TextLeReflexive(a: string)
    ensures TextLe(a, a)
    decreases |a|
  {
    if |a| > 0 {
      TextLeReflexive(a[1..]);
    }
  }

  lemma {:induction false} TextLeTotal(a: string, b: string)
    ensures TextLe(a, b) || TextLe(b, a)
    decreases |a|
  {
    if |a| > 0 && |b| > 0 && a[0] == b[0] {
      TextLeTotal(a[1..], b[1..]);
    }
  }

  lemma {:induction false} TextLeTransitive(a: string, b: string, c: string)
    requires TextLe(a, b) && TextLe(b, c)
    ensures TextLe(a, c)
    decreases |a|
  {
    if |a| > 0 && a[0] == b[0] && b[0] == c[0] {
      TextLeTransitive(a[1..], b[1..], c[1..]);
    }
  }

  lemma {:induction false} TextLeAntisymmetric(a: string, b: string)
    requires TextLe(a, b) && TextLe(b, a)
    ensures a == b
    decreases |a|
  {
    if |a| > 0 {
      TextLeAntisymmetric(a[1..], b[1..]);
      assert a == [a[0]] + a[1..] && b == [b[0]] + b[1..];
    }
  }

  lemma KeyLeTotal(x: SortKey, y: SortKey)
    ensures KeyLe(x, y) || KeyLe(y, x)
  {
    TextLeTotal(x.text, y.text);
  }

  lemma KeyLeReflexive(x: SortKey)
    ensures KeyLe(x, x)
  {
    TextLeReflexive(x.text);
  }

  lemma KeyLeTransitive(x: SortKey, y: SortKey, z: SortKey)
    requires KeyLe(x, y) && KeyLe(y, z)
    ensures KeyLe(x, z)
  {
    if x.rank == y.rank == z.rank {
      TextLeTransitive(x.text, y.text, z.text);
    }
  }

  /** Python's ordering of strings, as a sort key: `sorted(names)` is `SortBy(names, TextKey)`. */
  function TextKey(s: string): SortKey {
    SortKey(0, s)
  }

  predicate SortedBy<T>(s: seq<T>, key: T -> SortKey) {
    forall i, j :: 0 <= i < j < |s| ==> KeyLe(key(s[i]), key(s[j]))
  }

  /** Inserts `x` after every element whose key is at most `x`'s. */
  function Insert<T>(t: seq<T>, x: T, key: T -> SortKey): (r: seq<T>)
    ensures multiset(r) == multiset(t) + multiset{x}
    decreases |t|
  {
    if |t| == 0 then [x]
    else if KeyLe(key(t[|t| - 1]), key(x)) then t + [x]
    else
      assert t == t[..|t| - 1] + [t[|t| - 1]];
      Insert(t[..|t| - 1], x, key) + [t[|t| - 1]]
  }

  lemma {:induction false} InsertSorted<T>(t: seq<T>, x: T, key: T -> SortKey)
    requires SortedBy(t, key)
    ensures SortedBy(Insert(t, x, key), key)
    decreases |t|
  {
    if |t| > 0 {
      var last := t[|t| - 1];
      if KeyLe(key(last), key(x)) {
        var r := t + [x];
        assert Insert(t, x, key) == r;
        forall i | 0 <= i < |t| ensures KeyLe(key(r[i]), key(x)) {
          if i < |t| - 1 {
            KeyLeTransitive(key(t[i]), key(last), key(x));
          }
        }
      } else {
        var init := t[..|t| - 1];
        assert t == init + [last];
        var front := Insert(init, x, key);
        var r := front + [last];
        assert Insert(t, x, key) == r;
        assert SortedBy(init, key);
        InsertSorted(init, x, key);
        KeyLeTotal(key(x), key(last));
        forall i | 0 <= i < |front| ensures KeyLe(key(front[i]), key(last)) {
          assert front[i] in multiset(front);
          assert front[i] in multiset(init) || front[i] == x;
          if front[i] != x {
            var j :| 0 <= j < |init| && init[j] == front[i];
            assert t[j] == init[j];
          }
        }
      }
    }
  }

  /** `sorted(s, key=key)`: a stable sort, built by inserting the elements left to right. */
  function SortBy<T>(s: seq<T>, key: T -> SortKey): (r: seq<T>)
    ensures multiset(r) == multiset(s)
    decreases |s|
  {
    if |s| == 0 then []
    else
      assert s == s[..|s| - 1] + [s[|s| - 1]];
      Insert(SortBy(s[..|s| - 1], key), s[|s| - 1], key)
  }

  lemma {:induction false} SortBySorted<T>(s: seq<T>, key: T -> SortKey)
    ensures SortedBy(SortBy(s, key), key)
    decreases |s|
  {
    if |s| > 0 {
      SortBySorted(s[..|s| - 1], key);
      InsertSorted(SortBy(s[..|s| - 1], key), s[|s| - 1], key);
    }
  }

  /** The elements of `s` whose key is `k`, in their order in `s`. */
  function WithKey<T>(s: seq<T>, key: T -> SortKey, k: SortKey): seq<T>
    decreases |s|
  {
    if |s| == 0 then []
    else WithKey(s[..|s| - 1], key, k) + (if key(s[|s| - 1]) == k then [s[|s| - 1]] else [])
  }

  /** The elements of `[y]` whose key is `k`. */
  function KeyPart<T>(y: T, key: T -> SortKey, k: SortKey): seq<T> {
    if key(y) == k then [y] else []
  }

  lemma WithKeySnoc<T>(s: seq<T>, y: T, key: T -> SortKey, k: SortKey)
    ensures WithKey(s + [y], key, k) == WithKey(s, key, k) + KeyPart(y, key, k)
  {
    assert (s + [y])[..|s|] == s;
  }

  lemma {:induction false} InsertKeepsOrder<T>(t: seq<T>, x: T, key: T -> SortKey, k: SortKey)
    ensures WithKey(Insert(t, x, key), key, k) == WithKey(t, key, k) + KeyPart(x, key, k)
    decreases |t|
  {
    if |t| == 0 {
      WithKeySnoc(t, x, key, k);
    } else {
      var last := t[|t| - 1];
      var init := t[..|t| - 1];
      assert t == init + [last];
      WithKeySnoc(init, last, key, k);
      if KeyLe(key(last), key(x)) {
        assert Insert(t, x, key) == t + [x];
        WithKeySnoc(t, x, key, k);
      } else {
        var front := Insert(init, x, key);
        assert Insert(t, x, key) == front + [last];
        WithKeySnoc(front, last, key, k);
        InsertKeepsOrder(init, x, key, k);
        assert KeyPart(last, key, k) == [] || KeyPart(x, key, k) == [] by {
          KeyLeReflexive(key(x));
        }
      }
    }
  }

  /** Stability: elements with equal keys keep their relative order. */
  lemma {:induction false} SortByStable<T>(s: seq<T>, key: T -> SortKey, k: SortKey)
    ensures WithKey(SortBy(s, key), key, k) == WithKey(s, key, k)
    decreases |s|
  {
    if |s| > 0 {
      SortByStable(s[..|s| - 1], key, k);
      InsertKeepsOrder(SortBy(s[..|s| - 1], key), s[|s| - 1], key, k);
    }
  }
}
