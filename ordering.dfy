/**
 * The `sort({ field: -1 })` of the document store's queries: documents in
 * descending order of a natural-number key. A stable insertion sort gives
 * the model one definite order; the store itself leaves ties unordered.
 */
module Ordering {

  predicate SortedDesc<T>(s: seq<T>, key: T -> nat) {
    forall i, j :: 0 <= i < j < |s| ==> key(s[i]) >= key(s[j])
  }

  /** x placed before the first element of s whose key is smaller. */
  function InsertDesc<T>(x: T, s: seq<T>, key: T -> nat): (r: seq<T>)
    ensures |r| == |s| + 1
  {
    if s == [] || key(x) >= key(s[0]) then [x] + s
    else [s[0]] + InsertDesc(x, s[1..], key)
  }

  /** Insertion puts x or the old head first. */
  lemma InsertDescHead<T>(x: T, s: seq<T>, key: T -> nat)
    ensures InsertDesc(x, s, key)[0] == x || (s != [] && InsertDesc(x, s, key)[0] == s[0])
  {
  }

  /** Insertion adds x and nothing else. */
  lemma {:induction false} InsertDescMultiset<T>(x: T, s: seq<T>, key: T -> nat)
    ensures multiset(InsertDesc(x, s, key)) == multiset(s) + multiset{x}
  {
    if s != [] && key(x) >= key(s[0]) {
    } else if s != [] {
      InsertDescMultiset(x, s[1..], key);
      assert s == [s[0]] + s[1..];
    }
  }

  /** Insertion keeps a descending sequence descending. */
  lemma {:induction false} InsertDescSorted<T>(x: T, s: seq<T>, key: T -> nat)
    requires SortedDesc(s, key)
    ensures SortedDesc(InsertDesc(x, s, key), key)
  {
    if s != [] && key(x) < key(s[0]) {
      var t := s[1..];
      assert SortedDesc(t, key) by {
        forall i, j | 0 <= i < j < |t| ensures key(t[i]) >= key(t[j]) {
          assert t[i] == s[i + 1] && t[j] == s[j + 1];
        }
      }
      InsertDescSorted(x, t, key);
      InsertDescHead(x, t, key);
      var rest := InsertDesc(x, t, key);
      var r := [s[0]] + rest;
      assert key(rest[0]) <= key(s[0]) by {
        if rest[0] != x {
          assert rest[0] == s[1];
        }
      }
      forall i, j | 0 <= i < j < |r| ensures key(r[i]) >= key(r[j]) {
        if i == 0 {
          assert r[j] == rest[j - 1];
          if j > 1 {
            assert key(rest[0]) >= key(rest[j - 1]);
          }
        } else {
          assert r[i] == rest[i - 1] && r[j] == rest[j - 1];
        }
      }
    }
  }

  /** The elements of s in descending key order. */
  function SortDesc<T>(s: seq<T>, key: T -> nat): (r: seq<T>)
  {
    if s == [] then [] else InsertDesc(s[0], SortDesc(s[1..], key), key)
  }

  /** The sorted sequence is in descending key order and holds exactly the
      elements of the input, each as often as the input does. */
  lemma {:induction false} SortDescCorrect<T>(s: seq<T>, key: T -> nat)
    ensures SortedDesc(SortDesc(s, key), key)
    ensures multiset(SortDesc(s, key)) == multiset(s)
    ensures |SortDesc(s, key)| == |s|
  {
    if s != [] {
      SortDescCorrect(s[1..], key);
      InsertDescMultiset(s[0], SortDesc(s[1..], key), key);
      InsertDescSorted(s[0], SortDesc(s[1..], key), key);
      assert s == [s[0]] + s[1..];
    }
  }

  /** A prefix of a descending sequence that holds the same elements as s:
      it is descending, drawn from s, and no element of s left out of it is
      greater than an element of it. */
  lemma PrefixIsNewest<T>(sorted: seq<T>, s: seq<T>, n: nat, key: T -> nat)
    requires SortedDesc(sorted, key) && multiset(sorted) == multiset(s) && n <= |sorted|
    ensures SortedDesc(sorted[..n], key)
    ensures forall x :: x in sorted[..n] ==> x in s
    ensures forall x, i :: x in s && x !in sorted[..n] && 0 <= i < n ==> key(sorted[..n][i]) >= key(x)
    ensures multiset(sorted[..n]) <= multiset(s)
    ensures n == |sorted| ==> multiset(sorted[..n]) == multiset(s)
  {
    assert sorted == sorted[..n] + sorted[n..];
    MembersOfPermutation(s, sorted);
    var r := sorted[..n];
    forall x, i | x in s && x !in r && 0 <= i < n ensures key(r[i]) >= key(x) {
      var j :| 0 <= j < |sorted| && sorted[j] == x;
      forall m | 0 <= m < n ensures sorted[m] != x {
        assert r[m] == sorted[m];
      }
      assert r[i] == sorted[i];
    }
  }

  /** Sequences with the same multiset have the same members. */
  lemma MembersOfPermutation<T>(a: seq<T>, b: seq<T>)
    requires multiset(a) == multiset(b)
    ensures forall x :: x in a <==> x in b
  {
    forall x ensures x in a <==> x in b {
      assert x in a <==> x in multiset(a);
      assert x in b <==> x in multiset(b);
    }
  }

  /** The first k elements in descending key order (all of them when k is 0):
      sorted, drawn from s without repeating any element more often than s
      holds it, all of s when k does not cut it, and no element of s left out
      is greater than an element kept. */
  function Newest<T>(s: seq<T>, k: nat, key: T -> nat): (r: seq<T>)
    ensures |r| == if k == 0 || |s| <= k then |s| else k
    ensures SortedDesc(r, key)
    ensures forall x :: x in r ==> x in s
    ensures forall x, i :: x in s && x !in r && 0 <= i < |r| ==> key(r[i]) >= key(x)
    ensures multiset(r) <= multiset(s)
    ensures (k == 0 || |s| <= k) ==> multiset(r) == multiset(s)
  {
    SortDescCorrect(s, key);
    var sorted := SortDesc(s, key);
    var n := if k == 0 || |s| <= k then |s| else k;
    PrefixIsNewest(sorted, s, n, key);
    sorted[..n]
  }
}
