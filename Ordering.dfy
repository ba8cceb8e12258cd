/**
 * Orders and the one sorting step shared by series discovery, series
 * ingestion and timepoint assembly.
 *
 * The source sorts with std::sort and a strict "less than"; here every order
 * is given by its non-strict companion `leq(a, b) == !less(b, a)`, which is a
 * total preorder exactly when `less` is a strict weak ordering.  std::sort is
 * not stable, so nothing below promises anything about the relative order of
 * elements that compare equivalent.
 */
module Ordering {

  /** `leq` is total and transitive. */
  ghost predicate TotalPreorder<T(!new)>(leq: (T, T) -> bool) {
    && (forall a, b :: leq(a, b) || leq(b, a))
    && (forall a, b, c :: leq(a, b) && leq(b, c) ==> leq(a, c))
  }

  /** Every earlier element is `leq` every later one. */
  predicate SortedBy<T>(s: seq<T>, leq: (T, T) -> bool) {
    forall i, j :: 0 <= i < j < |s| ==> leq(s[i], s[j])
  }

  // ---------------------------------------------------------------------
  // Lexicographic order of std::string (operator<), character by character.
  // Characters compare by code point, which for UTF-8 text is also the order
  // of the unsigned bytes std::char_traits<char> compares.
  // ---------------------------------------------------------------------

  /** `a` is not greater than `b` in lexicographic order. */
  predicate LexLeq(a: string, b: string)
    decreases |a|
  {
    if a == [] then true
    else if b == [] then false
    else if a[0] != b[0] then a[0] < b[0]
    else LexLeq(a[1..], b[1..])
  }

  lemma {:induction false} LexLeqTotal(a: string, b: string)
    ensures LexLeq(a, b) || LexLeq(b, a)
    decreases |a|
  {
    if a != [] && b != [] && a[0] == b[0] {
      LexLeqTotal(a[1..], b[1..]);
    }
  }

  lemma {:induction false} LexLeqTransitive(a: string, b: string, c: string)
    requires LexLeq(a, b) && LexLeq(b, c)
    ensures LexLeq(a, c)
    decreases |a|
  {
    if a != [] && b != [] && c != [] && a[0] == b[0] && b[0] == c[0] {
      LexLeqTransitive(a[1..], b[1..], c[1..]);
    }
  }

  lemma {:induction false} LexLeqAntisymmetric(a: string, b: string)
    requires LexLeq(a, b) && LexLeq(b, a)
    ensures a == b
    decreases |a|
  {
    if a != [] && b != [] {
      LexLeqAntisymmetric(a[1..], b[1..]);
      assert a == [a[0]] + a[1..] && b == [b[0]] + b[1..];
    }
  }

  lemma LexLeqIsTotalPreorder()
    ensures TotalPreorder(LexLeq)
  {
    forall a, b ensures LexLeq(a, b) || LexLeq(b, a) {
      LexLeqTotal(a, b);
    }
    forall a, b, c | LexLeq(a, b) && LexLeq(b, c) ensures LexLeq(a, c) {
      LexLeqTransitive(a, b, c);
    }
  }

  /** `leq` is a total order: a total preorder under which no two distinct values are equivalent. */
  ghost predicate TotalOrder<T(!new)>(leq: (T, T) -> bool) {
    && TotalPreorder(leq)
    && (forall a, b :: leq(a, b) && leq(b, a) ==> a == b)
  }

  lemma LexLeqIsTotalOrder()
    ensures TotalOrder(LexLeq)
  {
    LexLeqIsTotalPreorder();
    forall a, b | LexLeq(a, b) && LexLeq(b, a) ensures a == b {
      LexLeqAntisymmetric(a, b);
    }
  }

  /** Two sequences sorted by a total order and holding the same elements are equal:
      a sorted result does not depend on the order its input was produced in. */
  lemma {:induction false} SortedPermutationUnique<T(!new)>(s: seq<T>, t: seq<T>, leq: (T, T) -> bool)
    requires TotalOrder(leq)
    requires SortedBy(s, leq) && SortedBy(t, leq)
    requires multiset(s) == multiset(t)
    ensures s == t
    decreases |s|
  {
    assert |s| == |multiset(s)| == |multiset(t)| == |t|;
    if s != [] {
      assert s[0] in multiset(t) && t[0] in multiset(s);
      HeadIsLeast(s, t[0], leq);
      HeadIsLeast(t, s[0], leq);
      assert s[0] == t[0];
      var s', t' := s[1..], t[1..];
      assert multiset(s') == multiset(t') by {
        assert s == [s[0]] + s' && t == [t[0]] + t';
        assert multiset(s') == multiset(s) - multiset{s[0]};
        assert multiset(t') == multiset(t) - multiset{t[0]};
      }
      TailSorted(s, leq);
      TailSorted(t, leq);
      SortedPermutationUnique(s', t', leq);
      assert s == [s[0]] + s' && t == [t[0]] + t';
    }
  }

  /** The first element of a sequence sorted by a total preorder is `leq` each of its elements. */
  lemma HeadIsLeast<T(!new)>(s: seq<T>, x: T, leq: (T, T) -> bool)
    requires TotalPreorder(leq) && SortedBy(s, leq) && x in s
    ensures leq(s[0], x)
  {
    var j :| 0 <= j < |s| && s[j] == x;
    if j == 0 {
      assert leq(x, x) || leq(x, x);
    }
  }

  lemma TailSorted<T>(s: seq<T>, leq: (T, T) -> bool)
    requires SortedBy(s, leq) && s != []
    ensures SortedBy(s[1..], leq)
  {
    var t := s[1..];
    forall p, q | 0 <= p < q < |t| ensures leq(t[p], t[q]) {
      assert t[p] == s[p + 1] && t[q] == s[q + 1];
    }
  }

  // ---------------------------------------------------------------------
  // std::map iterates its keys in ascending key order.
  // ---------------------------------------------------------------------

  /** `k` is the least element of `keys`. */
  predicate IsLeast(k: string, keys: set<string>) {
    k in keys && forall k' :: k' in keys ==> LexLeq(k, k')
  }

  lemma {:induction false} LeastExists(keys: set<string>)
    requires keys != {}
    ensures exists k :: IsLeast(k, keys)
    decreases keys
  {
    var x :| x in keys;
    var rest := keys - {x};
    if rest == {} {
      assert keys == {x};
      LexLeqTotal(x, x);
      assert IsLeast(x, keys);
    } else {
      LeastExists(rest);
      var y :| IsLeast(y, rest);
      LexLeqTotal(x, y);
      if LexLeq(x, y) {
        forall k' | k' in keys ensures LexLeq(x, k') {
          if k' != x { LexLeqTransitive(x, y, k'); } else { LexLeqTotal(x, x); }
        }
        assert IsLeast(x, keys);
      } else {
        assert IsLeast(y, keys);
      }
    }
  }

  lemma LeastUnique(keys: set<string>)
    ensures forall k1, k2 :: IsLeast(k1, keys) && IsLeast(k2, keys) ==> k1 == k2
  {
    forall k1, k2 | IsLeast(k1, keys) && IsLeast(k2, keys) ensures k1 == k2 {
      LexLeqAntisymmetric(k1, k2);
    }
  }

  /** The keys of a std::map in the order its iterator visits them: each key once
      (InKeyOrderDistinct), in ascending order (InKeyOrderSorted). */
  function InKeyOrder(keys: set<string>): (ks: seq<string>)
    ensures |ks| == |keys|
    ensures forall k :: k in ks <==> k in keys
    decreases keys
  {
    if keys == {} then []
    else
      LeastExists(keys);
      LeastUnique(keys);
      var k :| IsLeast(k, keys);
      [k] + InKeyOrder(keys - {k})
  }

  lemma {:induction false} InKeyOrderSorted(keys: set<string>)
    ensures SortedBy(InKeyOrder(keys), LexLeq)
    decreases keys
  {
    if keys != {} {
      LeastExists(keys);
      LeastUnique(keys);
      var k :| IsLeast(k, keys);
      var rest := InKeyOrder(keys - {k});
      assert InKeyOrder(keys) == [k] + rest;
      InKeyOrderSorted(keys - {k});
      ConsSorted(k, rest, LexLeq);
    }
  }

  /** Putting an element that is `leq` every element in front of a sorted sequence keeps it sorted. */
  lemma ConsSorted<T>(x: T, s: seq<T>, leq: (T, T) -> bool)
    requires forall j :: 0 <= j < |s| ==> leq(x, s[j])
    requires SortedBy(s, leq)
    ensures SortedBy([x] + s, leq)
  {
    var r := [x] + s;
    forall i, j | 0 <= i < j < |r| ensures leq(r[i], r[j]) {
      assert r[j] == s[j - 1];
      if i > 0 {
        assert r[i] == s[i - 1];
      }
    }
  }

  lemma {:induction false} InKeyOrderDistinct(keys: set<string>)
    ensures forall i, j :: 0 <= i < j < |InKeyOrder(keys)| ==> InKeyOrder(keys)[i] != InKeyOrder(keys)[j]
  {
    var ks := InKeyOrder(keys);
    assert |set k | k in ks| == |keys| by {
      assert (set k | k in ks) == keys;
    }
    forall i, j | 0 <= i < j < |ks| ensures ks[i] != ks[j] {
      if ks[i] == ks[j] {
        DuplicateShrinks(ks, i, j);
        assert false;
      }
    }
  }

  /** A sequence with a repeated element has fewer distinct elements than entries. */
  lemma {:induction false} DuplicateShrinks(ks: seq<string>, i: int, j: int)
    requires 0 <= i < j < |ks| && ks[i] == ks[j]
    ensures |set k | k in ks| < |ks|
  {
    var without := ks[..j] + ks[j + 1..];
    assert (set k | k in ks) == (set k | k in without) by {
      assert ks == ks[..j] + [ks[j]] + ks[j + 1..];
      assert ks[j] == without[i];
    }
    SetOfSeqAtMostLength(without);
  }

  lemma {:induction false} SetOfSeqAtMostLength(ks: seq<string>)
    ensures |set k | k in ks| <= |ks|
    decreases |ks|
  {
    if ks != [] {
      var init := ks[..|ks| - 1];
      SetOfSeqAtMostLength(init);
      assert (set k | k in ks) == (set k | k in init) + {ks[|ks| - 1]} by {
        assert ks == init + [ks[|ks| - 1]];
      }
    }
  }

  // ---------------------------------------------------------------------
  // std::sort, modelled by an insertion sort that works in place on an array.
  // ---------------------------------------------------------------------

  /** Sorts `a` in place: afterwards it is sorted by `leq` and a permutation of what it held. */
  method InsertionSort<T(!new)>(a: array<T>, leq: (T, T) -> bool)
    requires TotalPreorder(leq)
    modifies a
    ensures SortedBy(a[..], leq)
    ensures multiset(a[..]) == old(multiset(a[..]))
  {
    var i := 0;
    while i < a.Length
      invariant 0 <= i <= a.Length
      invariant forall p, q :: 0 <= p < q < i ==> leq(a[p], a[q])
      invariant multiset(a[..]) == old(multiset(a[..]))
    {
      InsertAt(a, i, leq);
      i := i + 1;
    }
  }

  /** Moves `a[i]` down into the sorted prefix `a[..i]`, leaving `a[..i + 1]` sorted. */
  method InsertAt<T(!new)>(a: array<T>, i: int, leq: (T, T) -> bool)
    requires TotalPreorder(leq)
    requires 0 <= i < a.Length
    requires forall p, q :: 0 <= p < q < i ==> leq(a[p], a[q])
    modifies a
    ensures forall p, q :: 0 <= p < q <= i ==> leq(a[p], a[q])
    ensures multiset(a[..]) == old(multiset(a[..]))
  {
    var j := i;
    while 0 < j && !leq(a[j - 1], a[j])
      invariant 0 <= j <= i
      invariant forall p, q :: 0 <= p < q <= i && p != j && q != j ==> leq(a[p], a[q])
      invariant forall q :: j < q <= i ==> leq(a[j], a[q])
      invariant multiset(a[..]) == old(multiset(a[..]))
    {
      a[j - 1], a[j] := a[j], a[j - 1];
      j := j - 1;
    }
  }

  /** Sorts a copy of `s`: the result is sorted by `leq` and holds the same elements. */
  method SortSequence<T(!new)>(s: seq<T>, leq: (T, T) -> bool) returns (r: seq<T>)
    requires TotalPreorder(leq)
    ensures SortedBy(r, leq)
    ensures multiset(r) == multiset(s)
  {
    var a := new T[|s|](i requires 0 <= i < |s| => s[i]);
    assert a[..] == s;
    InsertionSort(a, leq);
    r := a[..];
  }
}
