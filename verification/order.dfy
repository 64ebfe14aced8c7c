/**
 * Orderings used by the queries: code-point lexicographic order on strings and
 * on tuples of strings (ORDER BY), a sort by such a key, and the distinct keys
 * of a sequence in order of first appearance (GROUP BY, Python dict insertion order).
 */
module Order {

  /** Lexicographic "less than or equal" on sequences, from a strict order `lt` on elements. */
  function LexLe<T(==)>(a: seq<T>, b: seq<T>, lt: (T, T) -> bool): bool
    decreases |a|
  {
    |a| == 0 || (|b| > 0 && (lt(a[0], b[0]) || (a[0] == b[0] && LexLe(a[1..], b[1..], lt))))
  }

  /** If any two elements are equal or comparable, so are any two sequences. */
  lemma {:induction false} LexLeTotal<T>(a: seq<T>, b: seq<T>, lt: (T, T) -> bool)
    requires forall x, y :: x == y || lt(x, y) || lt(y, x)
    ensures LexLe(a, b, lt) || LexLe(b, a, lt)
    decreases |a|
  {
    if |a| > 0 && |b| > 0 && a[0] == b[0] {
      LexLeTotal(a[1..], b[1..], lt);
    }
  }

  /** A transitive element order gives a transitive lexicographic order. */
  lemma {:induction false} LexLeTransitive<T>(a: seq<T>, b: seq<T>, c: seq<T>, lt: (T, T) -> bool)
    requires forall x, y, z :: lt(x, y) && lt(y, z) ==> lt(x, z)
    requires LexLe(a, b, lt) && LexLe(b, c, lt)
    ensures LexLe(a, c, lt)
    decreases |a|
  {
    if |a| > 0 && a[0] == b[0] && b[0] == c[0] && !lt(a[0], c[0]) {
      LexLeTransitive(a[1..], b[1..], c[1..], lt);
    }
  }

  /** An asymmetric element order gives an antisymmetric lexicographic order. */
  lemma {:induction false} LexLeAntisymmetric<T>(a: seq<T>, b: seq<T>, lt: (T, T) -> bool)
    requires forall x, y :: lt(x, y) ==> !lt(y, x)
    requires LexLe(a, b, lt) && LexLe(b, a, lt)
    ensures a == b
    decreases |a|
  {
    if |a| > 0 {
      LexLeAntisymmetric(a[1..], b[1..], lt);
      assert a == [a[0]] + a[1..] && b == [b[0]] + b[1..];
    }
  }

  function CharLt(x: char, y: char): bool { x < y }

  /** String order by character code (the "C" collation). */
  function StrLe(a: string, b: string): bool { LexLe(a, b, CharLt) }

  function StrLt(a: string, b: string): bool { StrLe(a, b) && a != b }

  /** Order of ORDER BY over several text columns: compare the first column, then the next, ... */
  function KeyLe(a: seq<string>, b: seq<string>): bool { LexLe(a, b, StrLt) }

  lemma StrLtStrictTotal()
    ensures forall x, y :: x == y || StrLt(x, y) || StrLt(y, x)
    ensures forall x, y, z :: StrLt(x, y) && StrLt(y, z) ==> StrLt(x, z)
    ensures forall x, y :: StrLt(x, y) ==> !StrLt(y, x)
  {
    forall x, y ensures x == y || StrLt(x, y) || StrLt(y, x) {
      LexLeTotal(x, y, CharLt);
    }
    forall x, y | StrLt(x, y) ensures !StrLt(y, x) {
      if StrLt(y, x) { LexLeAntisymmetric(x, y, CharLt); }
    }
    forall x, y, z | StrLt(x, y) && StrLt(y, z) ensures StrLt(x, z) {
      LexLeTransitive(x, y, z, CharLt);
      if x == z { LexLeAntisymmetric(x, y, CharLt); }
    }
  }

  /** Any two keys are comparable. */
  lemma KeyLeTotal(a: seq<string>, b: seq<string>)
    ensures KeyLe(a, b) || KeyLe(b, a)
  {
    StrLtStrictTotal();
    LexLeTotal(a, b, StrLt);
  }

  lemma KeyLeTransitive(a: seq<string>, b: seq<string>, c: seq<string>)
    requires KeyLe(a, b) && KeyLe(b, c)
    ensures KeyLe(a, c)
  {
    StrLtStrictTotal();
    LexLeTransitive(a, b, c, StrLt);
  }

  /** Each element's key is at most the next one's: the guarantee of ORDER BY. */
  predicate Sorted<T>(s: seq<T>, key: T -> seq<string>) {
    forall i :: 0 < i < |s| ==> KeyLe(key(s[i - 1]), key(s[i]))
  }

  /** `x` inserted into `s` before the first element whose key is not below `x`'s. */
  function Insert<T>(x: T, s: seq<T>, key: T -> seq<string>): (r: seq<T>)
    ensures multiset(r) == multiset(s) + multiset{x}
    ensures |r| == |s| + 1 && (r[0] == x || (|s| > 0 && r[0] == s[0]))
    ensures Sorted(s, key) ==> Sorted(r, key)
  {
    if s == [] || KeyLe(key(x), key(s[0])) then [x] + s
    else
      var rest := Insert(x, s[1..], key);
      assert s == [s[0]] + s[1..];
      KeyLeTotal(key(x), key(s[0]));
      [s[0]] + rest
  }

  /** A sorted permutation of `s` (insertion sort; the order among equal keys is unspecified in SQL). */
  function SortBy<T>(s: seq<T>, key: T -> seq<string>): (r: seq<T>)
    ensures multiset(r) == multiset(s)
    ensures Sorted(r, key)
  {
    if s == [] then []
    else
      assert s == s[..|s| - 1] + [s[|s| - 1]];
      Insert(s[|s| - 1], SortBy(s[..|s| - 1], key), key)
  }

  /** Sorting neither adds nor drops an element. */
  lemma SortByMembers<T>(s: seq<T>, key: T -> seq<string>, x: T)
    ensures x in SortBy(s, key) <==> x in s
  {
    assert x in SortBy(s, key) <==> x in multiset(SortBy(s, key));
    assert x in s <==> x in multiset(s);
  }

  /** No element occurs twice. */
  predicate NoDup<T(==)>(s: seq<T>) {
    forall i, j :: 0 <= i < j < |s| ==> s[i] != s[j]
  }

  lemma {:induction false} NoDupCount<T>(s: seq<T>, v: T)
    requires NoDup(s)
    ensures multiset(s)[v] <= 1
    decreases |s|
  {
    if s != [] {
      assert s == [s[0]] + s[1..];
      assert NoDup(s[1..]) by {
        forall i, j | 0 <= i < j < |s| - 1 ensures s[1..][i] != s[1..][j] {
          assert s[1..][i] == s[i + 1] && s[1..][j] == s[j + 1];
        }
      }
      NoDupCount(s[1..], v);
      if s[0] == v {
        assert v !in s[1..] by {
          forall k | 0 <= k < |s| - 1 ensures s[1..][k] != v { assert s[1..][k] == s[k + 1]; }
        }
      }
    }
  }

  /** A permutation of a sequence without duplicates has none either. */
  lemma NoDupPermutation<T>(s: seq<T>, r: seq<T>)
    requires multiset(s) == multiset(r) && NoDup(s)
    ensures NoDup(r)
  {
    forall i, j | 0 <= i < j < |r| ensures r[i] != r[j] {
      if r[i] == r[j] {
        assert r == r[..j] + r[j..];
        assert r[i] in r[..j] && r[j] in r[j..];
        assert multiset(r)[r[i]] >= 2;
        NoDupCount(s, r[i]);
        assert false;
      }
    }
  }

  /**
   * The distinct keys of `s` in order of first appearance: the groups of a GROUP BY,
   * and the keys of a Python dict filled with `setdefault` in that order.
   */
  function Distinct<T, K(==)>(s: seq<T>, key: T -> K): (r: seq<K>)
    ensures NoDup(r)
    ensures forall i :: 0 <= i < |s| ==> key(s[i]) in r
    ensures forall j :: 0 <= j < |r| ==> exists i :: 0 <= i < |s| && key(s[i]) == r[j]
  {
    if s == [] then []
    else
      var p := s[..|s| - 1];
      var r := Distinct(p, key);
      assert forall i :: 0 <= i < |p| ==> p[i] == s[i];
      if key(s[|s| - 1]) in r then r else r + [key(s[|s| - 1])]
  }

  /** `a` is the key of some element of `s` at or before which `b` has not yet occurred. */
  ghost predicate FirstBefore<T, K>(s: seq<T>, key: T -> K, a: K, b: K) {
    exists i :: 0 <= i < |s| && key(s[i]) == a && forall i' :: 0 <= i' <= i ==> key(s[i']) != b
  }

  /** Distinct lists the keys in order of first appearance: an earlier key first occurs before a later one does. */
  lemma {:induction false} DistinctOrder<T, K>(s: seq<T>, key: T -> K, j: nat, k: nat)
    requires j < k < |Distinct(s, key)|
    ensures FirstBefore(s, key, Distinct(s, key)[j], Distinct(s, key)[k])
    decreases |s|
  {
    assert s != [];
    var p, last := s[..|s| - 1], s[|s| - 1];
    var d := Distinct(p, key);
    var r := Distinct(s, key);
    assert forall i :: 0 <= i < |p| ==> p[i] == s[i];
    assert r == if key(last) in d then d else d + [key(last)];
    assert r[j] == d[j];
    if k < |d| {
      DistinctOrder(p, key, j, k);
      assert r[k] == d[k];
      var i :| 0 <= i < |p| && key(p[i]) == d[j] && forall i' :: 0 <= i' <= i ==> key(p[i']) != d[k];
      assert forall i' :: 0 <= i' <= i ==> key(s[i']) != r[k] by {
        forall i' | 0 <= i' <= i ensures key(s[i']) != r[k] { assert s[i'] == p[i']; }
      }
      assert key(s[i]) == r[j];
      assert 0 <= i < |s| && key(s[i]) == r[j] && forall i' :: 0 <= i' <= i ==> key(s[i']) != r[k];
    } else {
      assert r[k] == key(last) && key(last) !in d;
      var i :| 0 <= i < |p| && key(p[i]) == d[j];
      forall i' | 0 <= i' <= i ensures key(s[i']) != r[k] {
        assert key(p[i']) in d;
      }
      assert key(s[i]) == r[j];
      assert 0 <= i < |s| && key(s[i]) == r[j] && forall i' :: 0 <= i' <= i ==> key(s[i']) != r[k];
    }
  }

  /** No two elements share a key: each (code, batch) group at most once. */
  predicate UniqueBy<T, K(==)>(s: seq<T>, key: T -> K) {
    forall i, j :: 0 <= i < j < |s| ==> key(s[i]) != key(s[j])
  }

  /** A sequence with one more element in front has unique keys exactly when the rest does and the new key is not among them. */
  lemma UniqueByCons<T, K>(x: T, s: seq<T>, key: T -> K)
    ensures UniqueBy([x] + s, key) <==> UniqueBy(s, key) && forall y :: y in s ==> key(y) != key(x)
  {
    var r := [x] + s;
    if UniqueBy(r, key) {
      forall i, j | 0 <= i < j < |s| ensures key(s[i]) != key(s[j]) {
        assert s[i] == r[i + 1] && s[j] == r[j + 1];
      }
      forall y | y in s ensures key(y) != key(x) {
        var k :| 0 <= k < |s| && s[k] == y;
        assert r[k + 1] == y && r[0] == x;
      }
    }
    if UniqueBy(s, key) && forall y :: y in s ==> key(y) != key(x) {
      forall i, j | 0 <= i < j < |r| ensures key(r[i]) != key(r[j]) {
        assert r[j] == s[j - 1];
        if i > 0 { assert r[i] == s[i - 1]; }
      }
    }
  }

  /** A permutation of a sequence with unique keys has unique keys too. */
  lemma UniqueByPermutation<T, K>(s: seq<T>, r: seq<T>, key: T -> K)
    requires multiset(s) == multiset(r) && UniqueBy(s, key)
    ensures UniqueBy(r, key)
  {
    NoDupPermutation(s, r);
    forall i, j | 0 <= i < j < |r| ensures key(r[i]) != key(r[j]) {
      assert r[i] in multiset(r) && r[j] in multiset(r);
      var a :| 0 <= a < |s| && s[a] == r[i];
      var b :| 0 <= b < |s| && s[b] == r[j];
      assert a != b;
    }
  }

  /** One more element of a prefix. */
  lemma PrefixSnoc<T>(s: seq<T>, i: nat)
    requires i < |s|
    ensures s[..i + 1] == s[..i] + [s[i]]
  {
  }

  lemma DistinctSnoc<T, K>(s: seq<T>, x: T, key: T -> K)
    ensures Distinct(s + [x], key) == if key(x) in Distinct(s, key) then Distinct(s, key) else Distinct(s, key) + [key(x)]
  {
    assert (s + [x])[..|s|] == s;
  }
}
