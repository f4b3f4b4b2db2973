/** Generic facts about sequences used by the table aggregation model. */
module Seqs {

  /** No element occurs twice. */
  predicate NoDup<T(==)>(s: seq<T>) {
    forall i, j :: 0 <= i < j < |s| ==> s[i] != s[j]
  }

  /** Strictly increasing, hence also duplicate-free. */
  predicate StrictlyAscending(s: seq<int>) {
    forall i, j :: 0 <= i < j < |s| ==> s[i] < s[j]
  }

  /** `a` can be obtained from `b` by deleting elements (order is preserved). */
  predicate Subseq<T(==)>(a: seq<T>, b: seq<T>)
    decreases |b|
  {
    a == [] || (b != [] && ((a[0] == b[0] && Subseq(a[1..], b[1..])) || Subseq(a, b[1..])))
  }

  lemma {:induction false} SubseqTrans<T>(a: seq<T>, b: seq<T>, c: seq<T>)
    requires Subseq(a, b) && Subseq(b, c)
    ensures Subseq(a, c)
    decreases |c|
  {
    if a != [] {
      if Subseq(b, c[1..]) {
        SubseqTrans(a, b, c[1..]);
      } else if a[0] == b[0] && Subseq(a[1..], b[1..]) {
        SubseqTrans(a[1..], b[1..], c[1..]);
      } else {
        SubseqTrans(a, b[1..], c[1..]);
      }
    }
  }

  lemma {:induction false} SubseqRefl<T>(a: seq<T>)
    ensures Subseq(a, a)
    decreases |a|
  {
    if a != [] {
      SubseqRefl(a[1..]);
    }
  }

  /** Every element of a subsequence is an element of the whole. */
  lemma {:induction false} SubseqMembers<T>(a: seq<T>, b: seq<T>)
    requires Subseq(a, b)
    ensures forall x :: x in a ==> x in b
    decreases |b|
  {
    if a != [] {
      if a[0] == b[0] && Subseq(a[1..], b[1..]) {
        SubseqMembers(a[1..], b[1..]);
        assert a == [a[0]] + a[1..];
      } else {
        SubseqMembers(a, b[1..]);
      }
    }
  }

  /** Position of the first occurrence of `x` in `s`. */
  function FirstIndex<T(==)>(s: seq<T>, x: T): (k: nat)
    requires x in s
    ensures k < |s| && s[k] == x
    ensures forall m :: 0 <= m < k ==> s[m] != x
  {
    if s[0] == x then 0 else 1 + FirstIndex(s[1..], x)
  }

  lemma {:induction false} FirstIndexPrefix<T>(p: seq<T>, q: seq<T>, x: T)
    requires x in p
    ensures FirstIndex(p + q, x) == FirstIndex(p, x)
  {
    var k := FirstIndex(p, x);
    var k' := FirstIndex(p + q, x);
    assert (p + q)[k] == x;
    assert k' <= k;
    assert p[k'] == x;
  }

  /**
   * The elements of `s` that are not in `skip`, each once, in the order in
   * which they are first met: the result of scanning `s` left to right and
   * appending every element that is neither in `skip` nor already collected.
   */
  function FirstSeen<T(==, !new)>(s: seq<T>, skip: seq<T>): (r: seq<T>)
    ensures NoDup(r)
    ensures forall x :: x in r <==> x in s && x !in skip
    decreases |s|
  {
    if s == [] then []
    else
      var prefix := FirstSeen(s[..|s| - 1], skip);
      var x := s[|s| - 1];
      assert s == s[..|s| - 1] + [x];
      if x !in prefix && x !in skip then prefix + [x] else prefix
  }

  /** One more scanned element either is appended or changes nothing. */
  lemma FirstSeenSnoc<T(!new)>(s: seq<T>, x: T, skip: seq<T>)
    ensures FirstSeen(s + [x], skip)
         == if x !in FirstSeen(s, skip) && x !in skip then FirstSeen(s, skip) + [x] else FirstSeen(s, skip)
  {
    assert (s + [x])[..|s + [x]| - 1] == s;
  }

  /** FirstSeen lists its elements in the order of their first occurrence in `s`. */
  lemma {:induction false} FirstSeenOrder<T(!new)>(s: seq<T>, skip: seq<T>)
    ensures forall i, j :: 0 <= i < j < |FirstSeen(s, skip)| ==>
              FirstIndex(s, FirstSeen(s, skip)[i]) < FirstIndex(s, FirstSeen(s, skip)[j])
    decreases |s|
  {
    if s != [] {
      var p := s[..|s| - 1];
      var x := s[|s| - 1];
      assert s == p + [x];
      FirstSeenOrder(p, skip);
      var r' := FirstSeen(p, skip);
      var r := FirstSeen(s, skip);
      forall i | 0 <= i < |r'|
        ensures FirstIndex(s, r'[i]) == FirstIndex(p, r'[i]) < |p|
      {
        assert r'[i] in r';
        FirstIndexPrefix(p, [x], r'[i]);
      }
      if x !in r' && x !in skip {
        assert x !in p;
        assert forall m :: 0 <= m < |p| ==> s[m] == p[m] != x;
        assert FirstIndex(s, x) == |p|;
        assert r == r' + [x];
        forall i, j | 0 <= i < j < |r| ensures FirstIndex(s, r[i]) < FirstIndex(s, r[j]) {
          assert r[i] == r'[i];
          if j < |r'| {
            assert r[j] == r'[j];
          } else {
            assert r[j] == x;
          }
        }
      } else {
        assert r == r';
        forall i, j | 0 <= i < j < |r| ensures FirstIndex(s, r[i]) < FirstIndex(s, r[j]) {
          assert FirstIndex(p, r'[i]) < FirstIndex(p, r'[j]);
        }
      }
    }
  }

  /** A duplicate-free sequence has as many distinct elements as positions. */
  lemma {:induction false} NoDupCard<T>(s: seq<T>)
    requires NoDup(s)
    ensures |set x | x in s| == |s|
  {
    if s != [] {
      var tail := s[1..];
      assert NoDup(tail) by {
        forall i, j | 0 <= i < j < |tail| ensures tail[i] != tail[j] {
          assert tail[i] == s[i + 1] && tail[j] == s[j + 1];
        }
      }
      NoDupCard(tail);
      forall k | 0 <= k < |tail| ensures tail[k] != s[0] {
        assert tail[k] == s[k + 1];
      }
      assert (set x | x in s) == {s[0]} + (set x | x in tail) by {
        assert s == [s[0]] + tail;
      }
    }
  }

  /** Two strictly ascending sequences with the same elements are equal. */
  lemma {:induction false} AscendingUnique(a: seq<int>, b: seq<int>)
    requires StrictlyAscending(a) && StrictlyAscending(b)
    requires forall x :: x in a <==> x in b
    ensures a == b
    decreases |a|
  {
    assert a != [] ==> a[0] in a;
    assert b != [] ==> b[0] in b;
    if a != [] {
      assert a[0] in b;
      assert b != [];
      assert b[0] in a;
      assert a[0] == b[0] by {
        var i :| 0 <= i < |b| && b[i] == a[0];
        var j :| 0 <= j < |a| && a[j] == b[0];
        assert a[0] <= a[j] && b[0] <= b[i];
      }
      forall x ensures x in a[1..] <==> x in b[1..] {
        if x in a[1..] {
          var i :| 1 <= i < |a| && a[i] == x;
          assert a[0] < x;
          assert x in b;
          assert x != b[0];
          assert b == [b[0]] + b[1..];
        }
        if x in b[1..] {
          var i :| 1 <= i < |b| && b[i] == x;
          assert b[0] < x;
          assert x in a;
          assert a == [a[0]] + a[1..];
        }
      }
      AscendingUnique(a[1..], b[1..]);
      assert a == [a[0]] + a[1..] && b == [b[0]] + b[1..];
    }
  }
}
