/** Lexicographic comparison of byte strings and of tuples of them, and the
    stable sort (`sort_by`) with the facts the merge relies on: it permutes, it
    sorts, and its answer is determined by the multiset it is given whenever
    equal keys mean equal elements. */
module Ordering {

  /** Slice comparison (`[u8]`, `str`, `[u8; 32]`). */
  predicate LexLe(a: seq<int>, b: seq<int>)
  {
    a == [] || (b != [] && (a[0] < b[0] || (a[0] == b[0] && LexLe(a[1..], b[1..]))))
  }

  lemma {:induction false} LexTotal(a: seq<int>, b: seq<int>)
    ensures LexLe(a, b) || LexLe(b, a)
  {
    if a != [] && b != [] { LexTotal(a[1..], b[1..]); }
  }

  lemma {:induction false} LexAntisymmetric(a: seq<int>, b: seq<int>)
    requires LexLe(a, b) && LexLe(b, a)
    ensures a == b
  {
    if a != [] && b != [] {
      LexAntisymmetric(a[1..], b[1..]);
      assert a == [a[0]] + a[1..] && b == [b[0]] + b[1..];
    }
  }

  lemma {:induction false} LexTransitive(a: seq<int>, b: seq<int>, c: seq<int>)
    requires LexLe(a, b) && LexLe(b, c)
    ensures LexLe(a, c)
  {
    if a != [] && a[0] == b[0] == c[0] { LexTransitive(a[1..], b[1..], c[1..]); }
  }

  /** `a` precedes `b`: they agree up to a position at which `a` ends, or has the
      smaller byte. */
  ghost predicate Precedes(a: seq<int>, b: seq<int>)
  {
    exists k :: DiffersAt(a, b, k)
  }

  ghost predicate DiffersAt(a: seq<int>, b: seq<int>, k: nat)
  {
    && k <= |a| && k < |b|
    && (forall i :: 0 <= i < k ==> a[i] == b[i])
    && (k < |a| ==> a[k] < b[k])
  }

  /** The comparison puts exactly the preceding strings first. */
  lemma {:induction false} LexMeans(a: seq<int>, b: seq<int>)
    ensures LexLe(a, b) <==> a == b || Precedes(a, b)
  {
    if a == [] {
      assert b != [] ==> DiffersAt(a, b, 0);
    } else if b == [] {
    } else if a[0] != b[0] {
      assert a[0] < b[0] ==> DiffersAt(a, b, 0);
    } else {
      LexMeans(a[1..], b[1..]);
      assert a == [a[0]] + a[1..] && b == [b[0]] + b[1..];
      if k: nat :| DiffersAt(a[1..], b[1..], k) {
        assert forall i :: 0 <= i < k ==> a[1..][i] == b[1..][i];
        assert forall i :: 0 < i <= k ==> a[i] == a[1..][i - 1] == b[1..][i - 1] == b[i];
        assert k < |a| - 1 ==> a[k + 1] == a[1..][k] && b[k + 1] == b[1..][k];
        assert DiffersAt(a, b, k + 1);
      }
      if k: nat :| DiffersAt(a, b, k) {
        assert k > 0;
        assert DiffersAt(a[1..], b[1..], k - 1);
      }
    }
  }

  /** A tuple of comparable fields; a number n is the one-element field [n]. */
  type Key = seq<seq<int>>

  predicate KeyLe(a: Key, b: Key)
  {
    a == [] ||
    (b != [] && if a[0] == b[0] then KeyLe(a[1..], b[1..]) else LexLe(a[0], b[0]))
  }

  /** What comparing two keys means at their first field. */
  lemma KeyStep(x: seq<int>, y: seq<int>, a: Key, b: Key)
    ensures KeyLe([x] + a, [y] + b) <==> Precedes(x, y) || (x == y && KeyLe(a, b))
  {
    LexMeans(x, y);
    assert ([x] + a)[1..] == a && ([y] + b)[1..] == b;
    assert !Precedes(x, x);
  }

  lemma NumberPrecedes(a: int, b: int)
    ensures Precedes([a], [b]) <==> a < b
  {
    LexMeans([a], [b]);
    if Precedes([a], [b]) {
      var k: nat :| DiffersAt([a], [b], k);
      assert k == 0;
    }
    assert a < b ==> DiffersAt([a], [b], 0);
  }

  lemma {:induction false} KeyTotal(a: Key, b: Key)
    ensures KeyLe(a, b) || KeyLe(b, a)
  {
    if a != [] && b != [] {
      LexTotal(a[0], b[0]);
      KeyTotal(a[1..], b[1..]);
    }
  }

  lemma {:induction false} KeyAntisymmetric(a: Key, b: Key)
    requires KeyLe(a, b) && KeyLe(b, a)
    ensures a == b
  {
    if a != [] && b != [] {
      if a[0] != b[0] { LexAntisymmetric(a[0], b[0]); }
      KeyAntisymmetric(a[1..], b[1..]);
      assert a == [a[0]] + a[1..] && b == [b[0]] + b[1..];
    }
  }

  lemma {:induction false} KeyTransitive(a: Key, b: Key, c: Key)
    requires KeyLe(a, b) && KeyLe(b, c)
    ensures KeyLe(a, c)
  {
    if a != [] {
      if a[0] == b[0] == c[0] {
        KeyTransitive(a[1..], b[1..], c[1..]);
      } else if a[0] != b[0] && b[0] != c[0] {
        LexTransitive(a[0], b[0], c[0]);
        if a[0] == c[0] { LexAntisymmetric(a[0], b[0]); }
      }
    }
  }

  ghost predicate Sorted<T(!new)>(s: seq<T>, key: T -> Key)
  {
    forall i, j :: 0 <= i < j < |s| ==> KeyLe(key(s[i]), key(s[j]))
  }

  /** Place x after every element that is not greater. */
  function Insert<T>(s: seq<T>, x: T, key: T -> Key): (r: seq<T>)
    ensures multiset(r) == multiset(s) + multiset{x}
  {
    if s == [] then [x]
    else
      var n := |s| - 1;
      assert s == s[..n] + [s[n]];
      if KeyLe(key(s[n]), key(x)) then s + [x]
      else Insert(s[..n], x, key) + [s[n]]
  }

  /** Stable sort by key. */
  function Sort<T>(s: seq<T>, key: T -> Key): (r: seq<T>)
    ensures multiset(r) == multiset(s)
    ensures |r| == |s|
  {
    if s == [] then []
    else
      var n := |s| - 1;
      assert s == s[..n] + [s[n]];
      var r := Insert(Sort(s[..n], key), s[n], key);
      assert |r| == |multiset(r)| == |multiset(s)| == |s|;
      r
  }

  lemma {:induction false} InsertSorts<T(!new)>(s: seq<T>, x: T, key: T -> Key)
    requires Sorted(s, key)
    ensures Sorted(Insert(s, x, key), key)
  {
    if s != [] {
      var n := |s| - 1;
      if KeyLe(key(s[n]), key(x)) {
        forall i | 0 <= i < |s| ensures KeyLe(key(s[i]), key(x)) {
          if i < n { KeyTransitive(key(s[i]), key(s[n]), key(x)); }
        }
      } else {
        InsertSorts(s[..n], x, key);
        KeyTotal(key(s[n]), key(x));
        var r := Insert(s[..n], x, key);
        forall i | 0 <= i < |r| ensures KeyLe(key(r[i]), key(s[n])) {
          assert r[i] in multiset(r);
          assert r[i] in multiset(s[..n]) || r[i] == x;
        }
      }
    }
  }

  lemma {:induction false} SortSorts<T(!new)>(s: seq<T>, key: T -> Key)
    ensures Sorted(Sort(s, key), key)
  {
    if s != [] {
      var n := |s| - 1;
      SortSorts(s[..n], key);
      InsertSorts(Sort(s[..n], key), s[n], key);
    }
  }

  lemma SortElements<T(!new)>(s: seq<T>, key: T -> Key, x: T)
    ensures x in Sort(s, key) <==> x in s
  {
    assert x in multiset(Sort(s, key)) <==> x in multiset(s);
  }

  /** Elements with equal keys are equal. */
  ghost predicate KeyDetermines<T(!new)>(s: seq<T>, key: T -> Key)
  {
    forall x, y :: x in s && y in s && key(x) == key(y) ==> x == y
  }

  lemma DropLast<T>(s: seq<T>)
    requires s != []
    ensures s == s[..|s| - 1] + [s[|s| - 1]]
    ensures multiset(s[..|s| - 1]) == multiset(s) - multiset{s[|s| - 1]}
  {
    assert s == s[..|s| - 1] + [s[|s| - 1]];
  }

  lemma SortedLastsAgree<T(!new)>(a: seq<T>, b: seq<T>, key: T -> Key)
    requires multiset(a) == multiset(b) && |a| == |b| > 0
    requires Sorted(a, key) && Sorted(b, key) && KeyDetermines(a, key)
    ensures a[|a| - 1] == b[|b| - 1]
  {
    var n := |a| - 1;
    var x, y := a[n], b[n];
    assert x in multiset(b) && y in multiset(a);
    var i :| 0 <= i <= n && b[i] == x;
    var j :| 0 <= j <= n && a[j] == y;
    if i < n && j < n {
      assert KeyLe(key(b[i]), key(b[n])) && KeyLe(key(a[j]), key(a[n]));
      KeyAntisymmetric(key(x), key(y));
    }
  }

  lemma SortedPrefix<T(!new)>(s: seq<T>, n: nat, key: T -> Key)
    requires n <= |s|
    ensures Sorted(s, key) ==> Sorted(s[..n], key)
    ensures KeyDetermines(s, key) ==> KeyDetermines(s[..n], key)
  {
    assert forall x :: x in s[..n] ==> x in s;
  }

  lemma SameSize<T>(a: seq<T>, b: seq<T>)
    requires multiset(a) == multiset(b)
    ensures |a| == |b|
  {
    assert |a| == |multiset(a)| == |multiset(b)| == |b|;
  }

  /** Two sorted arrangements of one multiset agree when keys determine elements. */
  lemma {:induction false} SortedIsUnique<T(!new)>(a: seq<T>, b: seq<T>, key: T -> Key)
    requires multiset(a) == multiset(b)
    requires Sorted(a, key) && Sorted(b, key) && KeyDetermines(a, key)
    ensures a == b
    decreases |a|
  {
    SameSize(a, b);
    if a != [] {
      var n := |a| - 1;
      SortedLastsAgree(a, b, key);
      DropLast(a);
      DropLast(b);
      SortedPrefix(a, n, key);
      SortedPrefix(b, n, key);
      SortedIsUnique(a[..n], b[..n], key);
    }
  }

  lemma SortIsCanonical<T(!new)>(a: seq<T>, b: seq<T>, key: T -> Key)
    requires multiset(a) == multiset(b)
    requires KeyDetermines(a, key)
    ensures Sort(a, key) == Sort(b, key)
  {
    SortSorts(a, key);
    SortSorts(b, key);
    forall x, y | x in Sort(a, key) && y in Sort(a, key) && key(x) == key(y) ensures x == y {
      SortElements(a, key, x);
      SortElements(a, key, y);
    }
    SortedIsUnique(Sort(a, key), Sort(b, key), key);
  }

  /** The last element of a sorted sequence is its greatest. */
  lemma SortLastIsGreatest<T(!new)>(s: seq<T>, key: T -> Key, x: T)
    requires x in s
    ensures |Sort(s, key)| > 0
    ensures x == Sort(s, key)[|s| - 1] || KeyLe(key(x), key(Sort(s, key)[|s| - 1]))
  {
    SortSorts(s, key);
    SortElements(s, key, x);
    var i :| 0 <= i < |Sort(s, key)| && Sort(s, key)[i] == x;
  }
}
