/**
 * The array operations the screens apply to their in-memory lists:
 * `findIndex`/`find` by a key field, and `filter(x => x !== v)`.
 */
module Lists {

  import opened Wrappers

  predicate NoDuplicates<T(==)>(s: seq<T>)
  {
    forall i, j :: 0 <= i < j < |s| ==> s[i] != s[j]
  }

  /** `findIndex(x => keyOf(x) === key)` (and so `find`): the first position holding the key, or -1 when no element holds it. */
  function IndexOfKey<T, K(==)>(s: seq<T>, keyOf: T -> K, key: K): (r: int)
    ensures -1 <= r < |s|
    ensures r == -1 <==> forall i :: 0 <= i < |s| ==> keyOf(s[i]) != key
    ensures 0 <= r ==> keyOf(s[r]) == key && forall i :: 0 <= i < r ==> keyOf(s[i]) != key
  {
    if s == [] then -1
    else if keyOf(s[0]) == key then 0
    else
      var k := IndexOfKey(s[1..], keyOf, key);
      if k == -1 then -1 else k + 1
  }

  /** An element appended behind a list where no element holds its key is the first to hold it. */
  lemma IndexOfKeyAppendFresh<T, K>(s: seq<T>, keyOf: T -> K, x: T)
    requires forall i :: 0 <= i < |s| ==> keyOf(s[i]) != keyOf(x)
    ensures IndexOfKey(s + [x], keyOf, keyOf(x)) == |s|
  {
    var r := IndexOfKey(s + [x], keyOf, keyOf(x));
    assert (s + [x])[|s|] == x;
  }

  /** Appending behind a list leaves an earlier first match where it was. */
  lemma IndexOfKeyAppendKept<T, K>(s: seq<T>, keyOf: T -> K, key: K, t: seq<T>)
    requires IndexOfKey(s, keyOf, key) >= 0
    ensures IndexOfKey(s + t, keyOf, key) == IndexOfKey(s, keyOf, key)
  {
    var k := IndexOfKey(s, keyOf, key);
    var r := IndexOfKey(s + t, keyOf, key);
    assert (s + t)[k] == s[k];
  }

  /** `filter(y => y !== x)`: every element but `x`, in order. */
  function Without<T(==)>(s: seq<T>, x: T): (r: seq<T>)
    ensures |r| <= |s|
    ensures forall i :: 0 <= i < |r| ==> r[i] != x && r[i] in s
    ensures forall i :: 0 <= i < |s| && s[i] != x ==> s[i] in r
  {
    if s == [] then []
    else if s[0] == x then Without(s[1..], x)
    else [s[0]] + Without(s[1..], x)
  }

  /** Filtering a concatenation filters each part, so the filter keeps the order of what it keeps. */
  lemma {:induction false} WithoutAppend<T>(a: seq<T>, b: seq<T>, x: T)
    ensures Without(a + b, x) == Without(a, x) + Without(b, x)
  {
    if a == [] {
      assert a + b == b;
    } else {
      assert (a + b)[0] == a[0] && (a + b)[1..] == a[1..] + b;
      WithoutAppend(a[1..], b, x);
    }
  }

  /** One element is kept exactly when it is not `x`. */
  lemma WithoutSingleton<T>(y: T, x: T)
    ensures Without([y], x) == if y == x then [] else [y]
  {
    assert [y][1..] == [];
  }

  /** Filtering out an element the list does not hold gives the list back. */
  lemma {:induction false} WithoutAbsent<T>(s: seq<T>, x: T)
    requires x !in s
    ensures Without(s, x) == s
  {
    if s != [] {
      assert x !in s[1..];
      WithoutAbsent(s[1..], x);
    }
  }

  /** Filtering keeps a list free of duplicates. */
  lemma {:induction false} WithoutKeepsNoDuplicates<T>(s: seq<T>, x: T)
    requires NoDuplicates(s)
    ensures NoDuplicates(Without(s, x))
  {
    if s != [] {
      NoDuplicatesTail(s);
      WithoutKeepsNoDuplicates(s[1..], x);
      assert s[0] !in Without(s[1..], x);
    }
  }

  /** Appending an element that does not hold the key leaves the first match, or its absence, as it was. */
  lemma IndexOfKeyAppendOther<T, K>(s: seq<T>, keyOf: T -> K, key: K, x: T)
    requires keyOf(x) != key
    ensures IndexOfKey(s + [x], keyOf, key) == IndexOfKey(s, keyOf, key)
  {
    if IndexOfKey(s, keyOf, key) >= 0 {
      IndexOfKeyAppendKept(s, keyOf, key, [x]);
    } else {
      assert forall i :: 0 <= i < |s + [x]| ==> keyOf((s + [x])[i]) != key by {
        forall i | 0 <= i < |s + [x]|
          ensures keyOf((s + [x])[i]) != key
        {
          if i < |s| {
            assert (s + [x])[i] == s[i];
          }
        }
      }
    }
  }

  /**
   * Removing an element that occurs once and appending it again only moves it to the end:
   * the result is a permutation of the original.
   */
  lemma {:induction false} WithoutThenAppend<T>(s: seq<T>, x: T)
    requires NoDuplicates(s)
    requires x in s
    ensures multiset(Without(s, x) + [x]) == multiset(s)
  {
    NoDuplicatesTail(s);
    if s[0] == x {
      WithoutAbsent(s[1..], x);
      MoveHeadToEnd(s);
    } else {
      WithoutThenAppend(s[1..], x);
      KeepHead(s, x);
    }
  }

  /** A list whose head is moved to its end holds the same elements. */
  lemma MoveHeadToEnd<T>(s: seq<T>)
    requires s != [] && Without(s[1..], s[0]) == s[1..]
    ensures multiset(Without(s, s[0]) + [s[0]]) == multiset(s)
  {
    assert s == [s[0]] + s[1..];
    assert Without(s, s[0]) + [s[0]] == s[1..] + [s[0]];
  }

  /** A head other than `x` stays in front, so the permutation of the tail extends to the list. */
  lemma KeepHead<T>(s: seq<T>, x: T)
    requires s != [] && s[0] != x
    requires multiset(Without(s[1..], x) + [x]) == multiset(s[1..])
    ensures multiset(Without(s, x) + [x]) == multiset(s)
  {
    assert s == [s[0]] + s[1..];
    assert Without(s, x) + [x] == [s[0]] + (Without(s[1..], x) + [x]);
  }

  /** The tail of a list without duplicates has none either, and does not hold the head. */
  lemma NoDuplicatesTail<T>(s: seq<T>)
    requires NoDuplicates(s) && s != []
    ensures NoDuplicates(s[1..]) && s[0] !in s[1..]
  {
  }

  /** `splice(i, 1)`: the element at `i` removed, the others in their order. */
  function RemoveAt<T>(s: seq<T>, i: nat): (r: seq<T>)
    requires i < |s|
    ensures |r| == |s| - 1
    ensures forall j :: 0 <= j < |r| ==> r[j] == s[if j < i then j else j + 1]
  {
    s[..i] + s[i + 1..]
  }
}
