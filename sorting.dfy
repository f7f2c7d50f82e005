/**
 * Sorting as java.util.Arrays.sort and Stream.sorted use it: the result is
 * the unique ordered permutation of the input, so two inputs sort to the
 * same sequence exactly when they hold the same elements.
 */
module Sorting {

  ghost predicate IsTotalOrder<T(!new)>(le: (T, T) -> bool) {
    && (forall a, b :: le(a, b) || le(b, a))
    && (forall a, b :: le(a, b) && le(b, a) ==> a == b)
    && (forall a, b, c :: le(a, b) && le(b, c) ==> le(a, c))
  }

  predicate SortedBy<T>(s: seq<T>, le: (T, T) -> bool) {
    forall i, j :: 0 <= i < j < |s| ==> le(s[i], s[j])
  }

  /** Inserts x before the first element it is at most. */
  function Insert<T(!new)>(x: T, s: seq<T>, le: (T, T) -> bool): (r: seq<T>)
    ensures multiset(r) == multiset(s) + multiset{x}
    ensures |r| == |s| + 1
    ensures IsTotalOrder(le) && SortedBy(s, le) ==> SortedBy(r, le)
  {
    if s == [] then [x]
    else if le(x, s[0]) then
      var r := [x] + s;
      assert IsTotalOrder(le) && SortedBy(s, le) ==> SortedBy(r, le) by {
        if IsTotalOrder(le) && SortedBy(s, le) {
          InsertAtHead(x, s, le);
        }
      }
      r
    else
      var t := Insert(x, s[1..], le);
      var r := [s[0]] + t;
      assert s == [s[0]] + s[1..];
      assert IsTotalOrder(le) && SortedBy(s, le) ==> SortedBy(r, le) by {
        if IsTotalOrder(le) && SortedBy(s, le) {
          TailSorted(s, le);
          InsertBehindHead(x, s, t, le);
        }
      }
      r
  }

  /** A sorted sequence stays sorted behind an element at most all of it. */
  lemma ConsSorted<T>(y: T, t: seq<T>, le: (T, T) -> bool)
    requires SortedBy(t, le)
    requires forall k :: 0 <= k < |t| ==> le(y, t[k])
    ensures SortedBy([y] + t, le)
  {
    var r := [y] + t;
    forall i, j | 0 <= i < j < |r| ensures le(r[i], r[j]) {
      assert r[j] == t[j - 1];
      if i > 0 {
        assert r[i] == t[i - 1];
      }
    }
  }

  lemma InsertAtHead<T(!new)>(x: T, s: seq<T>, le: (T, T) -> bool)
    requires IsTotalOrder(le) && SortedBy(s, le)
    requires s != [] && le(x, s[0])
    ensures SortedBy([x] + s, le)
  {
    forall k | 0 <= k < |s| ensures le(x, s[k]) {
      assert k == 0 || le(s[0], s[k]);
    }
    ConsSorted(x, s, le);
  }

  lemma InsertBehindHead<T(!new)>(x: T, s: seq<T>, t: seq<T>, le: (T, T) -> bool)
    requires IsTotalOrder(le) && SortedBy(s, le)
    requires s != [] && !le(x, s[0])
    requires multiset(t) == multiset(s[1..]) + multiset{x} && SortedBy(t, le)
    ensures SortedBy([s[0]] + t, le)
  {
    TailMultiset(s);
    forall k | 0 <= k < |t| ensures le(s[0], t[k]) {
      assert t[k] in multiset(t);
      if t[k] != x {
        assert t[k] in multiset(s);
        HeadLeast(s, t[k], le);
      }
    }
    ConsSorted(s[0], t, le);
  }

  /** Insertion sort. */
  function Sort<T(!new)>(s: seq<T>, le: (T, T) -> bool): (r: seq<T>)
    ensures multiset(r) == multiset(s)
    ensures |r| == |s|
    ensures IsTotalOrder(le) ==> SortedBy(r, le)
  {
    if s == [] then []
    else
      assert s == [s[0]] + s[1..];
      Insert(s[0], Sort(s[1..], le), le)
  }

  /** Under a total order there is exactly one sorted arrangement of a multiset. */
  lemma {:induction false} SortedUnique<T(!new)>(a: seq<T>, b: seq<T>, le: (T, T) -> bool)
    requires IsTotalOrder(le)
    requires SortedBy(a, le) && SortedBy(b, le)
    requires multiset(a) == multiset(b)
    ensures a == b
  {
    if a == [] {
      assert |multiset(b)| == 0;
    } else {
      assert |b| == |multiset(b)| == |multiset(a)| == |a| > 0;
      HeadLeast(a, b[0], le);
      HeadLeast(b, a[0], le);
      assert a[0] == b[0];
      TailSorted(a, le);
      TailSorted(b, le);
      TailMultiset(a);
      TailMultiset(b);
      SortedUnique(a[1..], b[1..], le);
    }
  }

  /** The head of a sorted sequence comes before every other element of it. */
  lemma HeadLeast<T>(a: seq<T>, x: T, le: (T, T) -> bool)
    requires SortedBy(a, le) && x in multiset(a)
    ensures a[0] == x || le(a[0], x)
  {
    var i :| 0 <= i < |a| && a[i] == x;
    assert i == 0 || le(a[0], a[i]);
  }

  lemma TailMultiset<T>(a: seq<T>)
    requires a != []
    ensures multiset(a[1..]) == multiset(a) - multiset{a[0]}
    ensures a == [a[0]] + a[1..]
  {
    assert a == [a[0]] + a[1..];
  }

  lemma TailSorted<T>(a: seq<T>, le: (T, T) -> bool)
    requires SortedBy(a, le) && a != []
    ensures SortedBy(a[1..], le)
  {
    assert forall i, j :: 0 <= i < j < |a[1..]| ==> a[1..][i] == a[i + 1] && a[1..][j] == a[j + 1];
  }

  /** Two sequences sort to the same result exactly when they are permutations of each other. */
  lemma SortEqualIffPermutation<T(!new)>(a: seq<T>, b: seq<T>, le: (T, T) -> bool)
    requires IsTotalOrder(le)
    ensures Sort(a, le) == Sort(b, le) <==> multiset(a) == multiset(b)
  {
    if multiset(a) == multiset(b) {
      SortedUnique(Sort(a, le), Sort(b, le), le);
    }
  }

  // --------------------------------------------------------- instances

  /** The order of Arrays.sort(char[]): by char code. */
  predicate CharLe(a: char, b: char) {
    a <= b
  }

  lemma CharLeIsTotal()
    ensures IsTotalOrder(CharLe)
  {
  }

  /** String.compareTo(a, b) <= 0: lexicographic by char, a proper prefix first. */
  predicate StrLe(a: string, b: string) {
    if a == [] then true
    else if b == [] then false
    else if a[0] != b[0] then a[0] < b[0]
    else StrLe(a[1..], b[1..])
  }

  lemma {:induction false} StrLeConnected(a: string, b: string)
    ensures StrLe(a, b) || StrLe(b, a)
  {
    if a != [] && b != [] && a[0] == b[0] {
      StrLeConnected(a[1..], b[1..]);
    }
  }

  lemma {:induction false} StrLeAntisymmetric(a: string, b: string)
    requires StrLe(a, b) && StrLe(b, a)
    ensures a == b
  {
    if a != [] && b != [] {
      StrLeAntisymmetric(a[1..], b[1..]);
      assert a == [a[0]] + a[1..] && b == [b[0]] + b[1..];
    }
  }

  lemma {:induction false} StrLeTransitive(a: string, b: string, c: string)
    requires StrLe(a, b) && StrLe(b, c)
    ensures StrLe(a, c)
  {
    if a != [] && b != [] && c != [] && a[0] == b[0] && b[0] == c[0] {
      StrLeTransitive(a[1..], b[1..], c[1..]);
    }
  }

  lemma StrLeIsTotal()
    ensures IsTotalOrder(StrLe)
  {
    forall a, b ensures StrLe(a, b) || StrLe(b, a) {
      StrLeConnected(a, b);
    }
    forall a, b | StrLe(a, b) && StrLe(b, a) ensures a == b {
      StrLeAntisymmetric(a, b);
    }
    forall a, b, c | StrLe(a, b) && StrLe(b, c) ensures StrLe(a, c) {
      StrLeTransitive(a, b, c);
    }
  }
}
