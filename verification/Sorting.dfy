/**
 Sorting by a byte-string key, the way the library sorts of the program order
 strings: lexicographically, byte by byte. The sorted form of a collection is
 unique once the key tells its elements apart.
 */
module Sorting {
  import opened Bytes

  /** Lexicographic order on byte strings. */
  predicate Le(a: Bytes, b: Bytes)
    decreases |a|
  {
    a == [] || (b != [] && (a[0] < b[0] || (a[0] == b[0] && Le(a[1..], b[1..]))))
  }

  /** Order of two strings: one is a beginning of the other, or the first bytes that differ decide. */
  lemma {:induction false} LeIff(a: Bytes, b: Bytes)
    ensures Le(a, b) <==> (a <= b || exists k :: FirstDifference(a, b, k) && a[k] < b[k])
    decreases |a|
  {
    if a != [] && b != [] && a[0] == b[0] {
      LeIff(a[1..], b[1..]);
      assert a == [a[0]] + a[1..] && b == [b[0]] + b[1..];
      if k :| FirstDifference(a, b, k) && a[k] < b[k] {
        assert k > 0;
        assert FirstDifference(a[1..], b[1..], k - 1) by {
          assert a[1..][..k - 1] == a[..k][1..] && b[1..][..k - 1] == b[..k][1..];
        }
      }
      if k :| FirstDifference(a[1..], b[1..], k) && a[1..][k] < b[1..][k] {
        assert a[..k + 1] == [a[0]] + a[1..][..k] && b[..k + 1] == [b[0]] + b[1..][..k];
        assert FirstDifference(a, b, k + 1);
      }
    } else if a != [] && b != [] {
      assert FirstDifference(a, b, 0);
      assert forall k :: FirstDifference(a, b, k) ==> a[..k] == b[..k];
    }
  }

  predicate FirstDifference(a: Bytes, b: Bytes, k: int) {
    0 <= k < |a| && k < |b| && a[..k] == b[..k] && a[k] != b[k]
  }

  lemma {:induction false} LeTotal(a: Bytes, b: Bytes)
    ensures Le(a, b) || Le(b, a)
    decreases |a|
  {
    if a != [] && b != [] && a[0] == b[0] {
      LeTotal(a[1..], b[1..]);
    }
  }

  lemma {:induction false} LeAntisymmetric(a: Bytes, b: Bytes)
    requires Le(a, b) && Le(b, a)
    ensures a == b
    decreases |a|
  {
    if a != [] && b != [] {
      LeAntisymmetric(a[1..], b[1..]);
    }
  }

  lemma {:induction false} LeTransitive(a: Bytes, b: Bytes, c: Bytes)
    requires Le(a, b) && Le(b, c)
    ensures Le(a, c)
    decreases |a|
  {
    if a != [] && a[0] == b[0] && b[0] == c[0] {
      LeTransitive(a[1..], b[1..], c[1..]);
    }
  }

  ghost predicate SortedBy<T>(key: T -> Bytes, s: seq<T>) {
    forall i, j :: 0 <= i < j < |s| ==> Le(key(s[i]), key(s[j]))
  }

  ghost predicate Separates<T(!new)>(key: T -> Bytes) {
    forall x, y :: key(x) == key(y) ==> x == y
  }

  function Insert<T>(key: T -> Bytes, x: T, s: seq<T>): seq<T> {
    if s == [] || Le(key(x), key(s[0])) then [x] + s
    else [s[0]] + Insert(key, x, s[1..])
  }

  /** The library sort. */
  function Sort<T>(key: T -> Bytes, s: seq<T>): seq<T> {
    if s == [] then [] else Insert(key, s[0], Sort(key, s[1..]))
  }

  lemma {:induction false} InsertKeepsElements<T>(key: T -> Bytes, x: T, s: seq<T>)
    ensures multiset(Insert(key, x, s)) == multiset(s) + multiset{x}
  {
    if s == [] || Le(key(x), key(s[0])) {
    } else {
      InsertKeepsElements(key, x, s[1..]);
      assert s == [s[0]] + s[1..];
    }
  }

  lemma {:induction false} InsertKeepsSorted<T>(key: T -> Bytes, x: T, s: seq<T>)
    requires SortedBy(key, s)
    ensures SortedBy(key, Insert(key, x, s))
  {
    if s == [] {
    } else if Le(key(x), key(s[0])) {
      forall j | 0 <= j < |s| ensures Le(key(x), key(s[j])) {
        if j > 0 {
          LeTransitive(key(x), key(s[0]), key(s[j]));
        }
      }
    } else {
      var rest := Insert(key, x, s[1..]);
      InsertKeepsSorted(key, x, s[1..]);
      InsertKeepsElements(key, x, s[1..]);
      LeTotal(key(x), key(s[0]));
      forall j | 0 <= j < |rest| ensures Le(key(s[0]), key(rest[j])) {
        assert rest[j] in multiset(rest);
        if rest[j] != x {
          assert rest[j] in multiset(s[1..]);
        }
      }
    }
  }

  /** The result is in order and is a permutation of the input. */
  lemma {:induction false} SortCorrect<T>(key: T -> Bytes, s: seq<T>)
    ensures SortedBy(key, Sort(key, s))
    ensures multiset(Sort(key, s)) == multiset(s)
  {
    if s != [] {
      SortCorrect(key, s[1..]);
      InsertKeepsSorted(key, s[0], Sort(key, s[1..]));
      InsertKeepsElements(key, s[0], Sort(key, s[1..]));
      assert s == [s[0]] + s[1..];
    }
  }

  lemma HeadIsLeast<T>(key: T -> Bytes, s: seq<T>, x: T)
    requires SortedBy(key, s) && x in multiset(s)
    ensures Le(key(s[0]), key(x))
  {
    var i :| 0 <= i < |s| && s[i] == x;
    if i == 0 {
      LeTotal(key(x), key(x));
    }
  }

  lemma TailMultiset<T>(a: seq<T>)
    requires a != []
    ensures multiset(a[1..]) == multiset(a) - multiset{a[0]}
  {
    assert a == [a[0]] + a[1..];
  }

  lemma HeadsAgree<T(!new)>(key: T -> Bytes, a: seq<T>, b: seq<T>)
    requires Separates(key)
    requires SortedBy(key, a) && SortedBy(key, b)
    requires multiset(a) == multiset(b) && a != [] && b != []
    ensures a[0] == b[0]
  {
    assert a[0] in multiset(a) && b[0] in multiset(b);
    HeadIsLeast(key, a, b[0]);
    HeadIsLeast(key, b, a[0]);
    LeAntisymmetric(key(a[0]), key(b[0]));
  }

  lemma SameLength<T>(a: seq<T>, b: seq<T>)
    requires multiset(a) == multiset(b)
    ensures |a| == |b|
  {
    assert |multiset(a)| == |a| && |multiset(b)| == |b|;
  }

  /** Two sorted permutations of one collection are the same sequence. */
  lemma {:induction false} SortedFormUnique<T(!new)>(key: T -> Bytes, a: seq<T>, b: seq<T>)
    requires Separates(key)
    requires SortedBy(key, a) && SortedBy(key, b)
    requires multiset(a) == multiset(b)
    ensures a == b
  {
    SameLength(a, b);
    if a != [] {
      HeadsAgree(key, a, b);
      TailMultiset(a);
      TailMultiset(b);
      SortedFormUnique(key, a[1..], b[1..]);
    }
  }
}
