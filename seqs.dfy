/** Sequence facts shared by the repository queries: a stable insertion sort
    under a comparator, sortedness, prefixes and distinctness. */
module Seqs {

  /** Every earlier element is `leq` every later one. */
  ghost predicate SortedBy<T>(s: seq<T>, leq: (T, T) -> bool) {
    forall i, j :: 0 <= i < j < |s| ==> leq(s[i], s[j])
  }

  /** `leq` is total and transitive, as an SQL ORDER BY key comparison is. */
  ghost predicate TotalPreorder<T(!new)>(leq: (T, T) -> bool) {
    && (forall a, b :: leq(a, b) || leq(b, a))
    && (forall a, b, c :: leq(a, b) && leq(b, c) ==> leq(a, c))
  }

  /** No element occurs twice. */
  ghost predicate Distinct<T>(s: seq<T>) {
    forall i, j :: 0 <= i < |s| && 0 <= j < |s| && i != j ==> s[i] != s[j]
  }

  /** The first `n` elements (all of them when there are fewer): SQL LIMIT. */
  function Take<T>(s: seq<T>, n: nat): (r: seq<T>)
    ensures |r| <= n && |r| <= |s|
    ensures |s| <= n ==> r == s
    ensures n <= |s| ==> r == s[..n]
  {
    if |s| <= n then s else s[..n]
  }

  /** Where `x` goes in `s`: before the first element it is `leq` to, so that
      equal keys keep their input order. */
  function InsertPos<T>(x: T, s: seq<T>, leq: (T, T) -> bool): (k: nat)
    ensures k <= |s|
    ensures forall j :: 0 <= j < k ==> !leq(x, s[j])
    ensures k < |s| ==> leq(x, s[k])
  {
    if s == [] || leq(x, s[0]) then 0 else 1 + InsertPos(x, s[1..], leq)
  }

  function Insert<T>(x: T, s: seq<T>, leq: (T, T) -> bool): (r: seq<T>)
    ensures |r| == |s| + 1
    ensures multiset(r) == multiset(s) + multiset{x}
  {
    var k := InsertPos(x, s, leq);
    assert s == s[..k] + s[k..];
    s[..k] + [x] + s[k..]
  }

  /** Stable insertion sort: a permutation of the input. */
  function InsertionSort<T>(s: seq<T>, leq: (T, T) -> bool): (r: seq<T>)
    ensures |r| == |s|
    ensures multiset(r) == multiset(s)
  {
    if s == [] then []
    else
      assert s == [s[0]] + s[1..];
      Insert(s[0], InsertionSort(s[1..], leq), leq)
  }

  lemma InsertSorted<T(!new)>(x: T, s: seq<T>, leq: (T, T) -> bool)
    requires TotalPreorder(leq)
    requires SortedBy(s, leq)
    ensures SortedBy(Insert(x, s, leq), leq)
  {
    var k := InsertPos(x, s, leq);
    var r := s[..k] + [x] + s[k..];
    assert r == Insert(x, s, leq);
    forall j | 0 <= j < k ensures leq(s[j], x) {
      assert !leq(x, s[j]);
    }
    forall j | k <= j < |s| ensures leq(x, s[j]) {
      if j > k {
        assert leq(x, s[k]) && leq(s[k], s[j]);
      }
    }
    forall i, j | 0 <= i < j < |r| ensures leq(r[i], r[j]) {
      if j < k {
        assert r[i] == s[i] && r[j] == s[j];
      } else if j == k {
        assert r[i] == s[i] && r[j] == x;
      } else if i < k {
        assert r[i] == s[i] && r[j] == s[j - 1];
      } else if i == k {
        assert r[i] == x && r[j] == s[j - 1];
      } else {
        assert r[i] == s[i - 1] && r[j] == s[j - 1];
      }
    }
  }

  lemma {:induction false} InsertionSortSorted<T(!new)>(s: seq<T>, leq: (T, T) -> bool)
    requires TotalPreorder(leq)
    ensures SortedBy(InsertionSort(s, leq), leq)
  {
    if s != [] {
      InsertionSortSorted(s[1..], leq);
      InsertSorted(s[0], InsertionSort(s[1..], leq), leq);
    }
  }

  lemma InsertDistinct<T>(x: T, s: seq<T>, leq: (T, T) -> bool)
    requires Distinct(s) && x !in s
    ensures Distinct(Insert(x, s, leq))
  {
    var k := InsertPos(x, s, leq);
    var r := s[..k] + [x] + s[k..];
    assert r == Insert(x, s, leq);
    forall i, j | 0 <= i < |r| && 0 <= j < |r| && i != j ensures r[i] != r[j] {
      var si := if i < k then i else i - 1;
      var sj := if j < k then j else j - 1;
      if i != k && j != k {
        assert r[i] == s[si] && r[j] == s[sj] && si != sj;
      } else if i == k {
        assert r[i] == x && r[j] == s[sj];
      } else {
        assert r[j] == x && r[i] == s[si];
      }
    }
  }

  lemma {:induction false} InsertionSortDistinct<T>(s: seq<T>, leq: (T, T) -> bool)
    requires Distinct(s)
    ensures Distinct(InsertionSort(s, leq))
  {
    if s != [] {
      var t := InsertionSort(s[1..], leq);
      assert Distinct(s[1..]) by {
        forall i, j | 0 <= i < |s[1..]| && 0 <= j < |s[1..]| && i != j ensures s[1..][i] != s[1..][j] {
          assert s[1..][i] == s[i + 1] && s[1..][j] == s[j + 1];
        }
      }
      InsertionSortDistinct(s[1..], leq);
      forall j | 0 <= j < |s[1..]| ensures s[1..][j] != s[0] {
        assert s[1..][j] == s[j + 1];
      }
      assert s[0] !in multiset(s[1..]);
      assert multiset(t) == multiset(s[1..]);
      InsertDistinct(s[0], t, leq);
    }
  }

  /** An element of the input sorts into the output, and nothing else does. */
  lemma InsertionSortMembers<T>(s: seq<T>, leq: (T, T) -> bool)
    ensures forall x :: x in InsertionSort(s, leq) <==> x in s
  {
    var r := InsertionSort(s, leq);
    forall x ensures x in r <==> x in s {
      assert x in r <==> x in multiset(r);
      assert x in s <==> x in multiset(s);
    }
  }

  /** Lexicographic order on strings by code point. */
  predicate LexLeq(a: string, b: string) {
    a == [] || (b != [] && (a[0] < b[0] || (a[0] == b[0] && LexLeq(a[1..], b[1..]))))
  }

  lemma {:induction false} LexLeqTotal(a: string, b: string)
    ensures LexLeq(a, b) || LexLeq(b, a)
  {
    if a != [] && b != [] && a[0] == b[0] {
      LexLeqTotal(a[1..], b[1..]);
    }
  }

  lemma {:induction false} LexLeqTransitive(a: string, b: string, c: string)
    requires LexLeq(a, b) && LexLeq(b, c)
    ensures LexLeq(a, c)
  {
    if a != [] && b != [] && c != [] && a[0] == b[0] && b[0] == c[0] {
      LexLeqTransitive(a[1..], b[1..], c[1..]);
    }
  }

  /** The set of a sequence's elements: Python's `set(xs)`. */
  function Elements<T>(s: seq<T>): set<T> {
    set x | x in s
  }

  /** Length of a sequence equals the size of its set of elements exactly when
      no element repeats: the duplicate test on a list and its set. */
  lemma {:induction false} DistinctIffSetSize<T>(s: seq<T>)
    ensures |Elements(s)| == |s| <==> Distinct(s)
  {
    if s == [] {
      assert Elements(s) == {};
    } else {
      var rest := s[1..];
      DistinctIffSetSize(rest);
      ElementsCons(s);
      DistinctCons(s);
      SetSizeAtMostLength(rest);
      if s[0] in rest {
        assert Elements(s) == Elements(rest);
      } else {
        assert |Elements(s)| == |Elements(rest)| + 1;
      }
    }
  }

  lemma ElementsCons<T>(s: seq<T>)
    requires s != []
    ensures Elements(s) == Elements(s[1..]) + {s[0]}
  {
    assert s == [s[0]] + s[1..];
  }

  lemma DistinctCons<T>(s: seq<T>)
    requires s != []
    ensures Distinct(s) <==> Distinct(s[1..]) && s[0] !in s[1..]
  {
    var rest := s[1..];
    if Distinct(s) {
      forall i, j | 0 <= i < |rest| && 0 <= j < |rest| && i != j ensures rest[i] != rest[j] {
        assert rest[i] == s[i + 1] && rest[j] == s[j + 1];
      }
      forall j | 0 <= j < |rest| ensures rest[j] != s[0] {
        assert rest[j] == s[j + 1];
      }
    }
    if Distinct(rest) && s[0] !in rest {
      forall i, j | 0 <= i < |s| && 0 <= j < |s| && i != j ensures s[i] != s[j] {
        if i > 0 && j > 0 {
          assert s[i] == rest[i - 1] && s[j] == rest[j - 1];
        } else if i == 0 {
          assert s[j] == rest[j - 1];
        } else {
          assert s[i] == rest[i - 1];
        }
      }
    }
  }

  lemma {:induction false} SetSizeAtMostLength<T>(s: seq<T>)
    ensures |Elements(s)| <= |s|
  {
    if s != [] {
      SetSizeAtMostLength(s[1..]);
      ElementsCons(s);
    }
  }


  lemma AppendAssociative<T>(x: seq<T>, y: seq<T>, z: seq<T>)
    ensures (x + y) + z == x + (y + z)
  {
  }

  /** Each element's images, concatenated in order: a list comprehension with
      a filter. */
  function FlatMap<A, B>(f: A -> seq<B>, xs: seq<A>): seq<B> {
    if xs == [] then [] else f(xs[0]) + FlatMap(f, xs[1..])
  }

  /** The images of a concatenation are the concatenated images. */
  lemma {:induction false} FlatMapAppend<A, B>(f: A -> seq<B>, xs: seq<A>, ys: seq<A>)
    ensures FlatMap(f, xs + ys) == FlatMap(f, xs) + FlatMap(f, ys)
  {
    if xs == [] {
      assert xs + ys == ys;
    } else {
      FlatMapAppend(f, xs[1..], ys);
      assert (xs + ys)[1..] == xs[1..] + ys;
      AppendAssociative(f(xs[0]), FlatMap(f, xs[1..]), FlatMap(f, ys));
    }
  }

  /** A property every image element has holds of every element of the
      flattened result. */
  lemma {:induction false} FlatMapEvery<A, B>(f: A -> seq<B>, xs: seq<A>, P: B -> bool)
    requires forall x, k :: x in xs && 0 <= k < |f(x)| ==> P(f(x)[k])
    ensures forall k :: 0 <= k < |FlatMap(f, xs)| ==> P(FlatMap(f, xs)[k])
  {
    if xs != [] {
      FlatMapEvery(f, xs[1..], P);
      var head, rest := f(xs[0]), FlatMap(f, xs[1..]);
      forall k | 0 <= k < |head + rest| ensures P((head + rest)[k]) {
        if k < |head| {
          assert (head + rest)[k] == head[k];
        } else {
          assert (head + rest)[k] == rest[k - |head|];
        }
      }
    }
  }
}
