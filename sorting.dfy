/** Python's built-in sorting into non-increasing order, as the retrieval code
    uses it: `sorted(xs, reverse=True)` and `xs.sort(reverse=True, key=k)`.
    Both are stable: elements that compare equal keep their input order. The
    ordering is a parameter `geq` ("ranks at or above"), a total preorder. */
module Sorting {

  /** Every two elements are comparable and the order is transitive. */
  ghost predicate TotalPreorder<T(!new)>(geq: (T, T) -> bool)
  {
    && (forall a, b :: geq(a, b) || geq(b, a))
    && (forall a, b, c :: geq(a, b) && geq(b, c) ==> geq(a, c))
  }

  /** `s` is in non-increasing order. */
  ghost predicate SortedDesc<T>(s: seq<T>, geq: (T, T) -> bool)
  {
    forall i, j :: 0 <= i < j < |s| ==> geq(s[i], s[j])
  }

  /** `a` and `b` compare equal. */
  predicate Tied<T>(a: T, b: T, geq: (T, T) -> bool)
  {
    geq(a, b) && geq(b, a)
  }

  /** `s` with `x` placed after every leading element that ranks at or above it. */
  function Insert<T>(x: T, s: seq<T>, geq: (T, T) -> bool): seq<T>
  {
    if s == [] then [x]
    else if geq(s[0], x) then [s[0]] + Insert(x, s[1..], geq)
    else [x] + s
  }

  /** The stable sort into non-increasing order (insertion sort, the input
      taken from left to right). */
  function SortDesc<T>(s: seq<T>, geq: (T, T) -> bool): seq<T>
  {
    if s == [] then [] else Insert(s[|s| - 1], SortDesc(s[..|s| - 1], geq), geq)
  }

  /** The elements of `s` that compare equal to `y`, in their order in `s`. */
  function TiesOf<T>(s: seq<T>, y: T, geq: (T, T) -> bool): seq<T>
  {
    if s == [] then [] else (if Tied(s[0], y, geq) then [s[0]] else []) + TiesOf(s[1..], y, geq)
  }

  lemma {:induction false} InsertPermutation<T>(x: T, s: seq<T>, geq: (T, T) -> bool)
    ensures multiset(Insert(x, s, geq)) == multiset(s) + multiset{x}
  {
    if s != [] && geq(s[0], x) {
      InsertPermutation(x, s[1..], geq);
      assert s == [s[0]] + s[1..];
    }
  }

  lemma {:induction false} InsertSorted<T(!new)>(x: T, s: seq<T>, geq: (T, T) -> bool)
    requires TotalPreorder(geq) && SortedDesc(s, geq)
    ensures SortedDesc(Insert(x, s, geq), geq)
  {
    if s == [] {
    } else if geq(s[0], x) {
      var rest := Insert(x, s[1..], geq);
      InsertSorted(x, s[1..], geq);
      InsertPermutation(x, s[1..], geq);
      forall j | 0 <= j < |rest| ensures geq(s[0], rest[j]) {
        assert rest[j] in multiset(rest);
        assert rest[j] == x || rest[j] in s[1..];
      }
    } else {
      assert geq(x, s[0]);
    }
  }

  /** The sort yields a permutation of its input. */
  lemma {:induction false} SortDescPermutation<T>(s: seq<T>, geq: (T, T) -> bool)
    ensures multiset(SortDesc(s, geq)) == multiset(s)
  {
    if s != [] {
      var init, last := s[..|s| - 1], s[|s| - 1];
      SortDescPermutation(init, geq);
      InsertPermutation(last, SortDesc(init, geq), geq);
      assert SortDesc(s, geq) == Insert(last, SortDesc(init, geq), geq);
      assert s == init + [last];
      assert multiset(s) == multiset(init) + multiset{last};
    }
  }

  /** The sort yields a non-increasing sequence. */
  lemma {:induction false} SortDescSorted<T(!new)>(s: seq<T>, geq: (T, T) -> bool)
    requires TotalPreorder(geq)
    ensures SortedDesc(SortDesc(s, geq), geq)
  {
    if s != [] {
      SortDescSorted(s[..|s| - 1], geq);
      InsertSorted(s[|s| - 1], SortDesc(s[..|s| - 1], geq), geq);
    }
  }

  /** Cutting a sorted sequence after `n` elements: no element after the
      cut ranks above one before it. */
  lemma SortedCutDominates<T>(sorted: seq<T>, n: int, geq: (T, T) -> bool)
    requires SortedDesc(sorted, geq) && 0 <= n <= |sorted|
    ensures forall x, y :: x in multiset(sorted[n..]) && y in sorted[..n] ==> geq(y, x)
  {
    forall x, y | x in multiset(sorted[n..]) && y in sorted[..n]
      ensures geq(y, x)
    {
      assert x in sorted[n..];
      var a :| 0 <= a < n && sorted[..n][a] == y;
      var b :| 0 <= b < |sorted| - n && sorted[n..][b] == x;
      assert sorted[a] == y && sorted[n + b] == x;
    }
  }

  lemma {:induction false} TiesOfAppend<T>(s: seq<T>, x: T, y: T, geq: (T, T) -> bool)
    ensures TiesOf(s + [x], y, geq) == TiesOf(s, y, geq) + (if Tied(x, y, geq) then [x] else [])
  {
    if s != [] {
      TiesOfAppend(s[1..], x, y, geq);
      assert (s + [x])[1..] == s[1..] + [x];
    }
  }

  lemma {:induction false} TiesOfNone<T>(s: seq<T>, y: T, geq: (T, T) -> bool)
    requires forall i :: 0 <= i < |s| ==> !Tied(s[i], y, geq)
    ensures TiesOf(s, y, geq) == []
  {
    if s != [] {
      TiesOfNone(s[1..], y, geq);
    }
  }

  /** Inserting `x` into a sorted sequence puts it after every element tied with it. */
  lemma {:induction false} InsertTies<T(!new)>(x: T, s: seq<T>, y: T, geq: (T, T) -> bool)
    requires TotalPreorder(geq) && SortedDesc(s, geq)
    ensures TiesOf(Insert(x, s, geq), y, geq) == TiesOf(s, y, geq) + (if Tied(x, y, geq) then [x] else [])
  {
    if s == [] {
    } else if geq(s[0], x) {
      var rest := Insert(x, s[1..], geq);
      assert SortedDesc(s[1..], geq);
      InsertTies(x, s[1..], y, geq);
      assert ([s[0]] + rest)[1..] == rest;
      calc {
        TiesOf(Insert(x, s, geq), y, geq);
        (if Tied(s[0], y, geq) then [s[0]] else []) + TiesOf(rest, y, geq);
        (if Tied(s[0], y, geq) then [s[0]] else []) + TiesOf(s[1..], y, geq) + (if Tied(x, y, geq) then [x] else []);
      }
    } else if Tied(x, y, geq) {
      forall i | 0 <= i < |s| ensures !Tied(s[i], y, geq) {
        var e := s[i];
        assert 0 < i ==> geq(s[0], e);
        assert Tied(e, y, geq) ==> geq(e, x);
      }
      TiesOfNone(s, y, geq);
    }
  }

  /** The sort is stable: the elements tied with any `y` come out in their
      input order. */
  lemma {:induction false} SortDescStable<T(!new)>(s: seq<T>, y: T, geq: (T, T) -> bool)
    requires TotalPreorder(geq)
    ensures TiesOf(SortDesc(s, geq), y, geq) == TiesOf(s, y, geq)
  {
    if s != [] {
      var init, x := s[..|s| - 1], s[|s| - 1];
      SortDescStable(init, y, geq);
      SortDescSorted(init, geq);
      InsertTies(x, SortDesc(init, geq), y, geq);
      TiesOfAppend(init, x, y, geq);
      assert s == init + [x];
    }
  }
}
