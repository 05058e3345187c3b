/**
 * String order by character code and the stable sort that `Array.prototype.sort` performs,
 * for a comparison given as a "may precede" relation `le`.
 */
module Sorting {

  /** `a` sorts no later than `b` when strings are compared character by character, as the
      default comparison of `Array.prototype.sort` does. */
  predicate LexLe(a: string, b: string) {
    a == [] || (b != [] && (a[0] < b[0] || (a[0] == b[0] && LexLe(a[1..], b[1..]))))
  }

  lemma {:induction false} LexLeTotal(a: string, b: string)
    ensures LexLe(a, b) || LexLe(b, a)
  {
    if a != [] && b != [] && a[0] == b[0] {
      LexLeTotal(a[1..], b[1..]);
    }
  }

  lemma {:induction false} LexLeTransitive(a: string, b: string, c: string)
    requires LexLe(a, b) && LexLe(b, c)
    ensures LexLe(a, c)
  {
    if a != [] && a[0] == b[0] && b[0] == c[0] {
      LexLeTransitive(a[1..], b[1..], c[1..]);
    }
  }

  lemma {:induction false} LexLeAntisymmetric(a: string, b: string)
    requires LexLe(a, b) && LexLe(b, a)
    ensures a == b
  {
    if a != [] {
      LexLeAntisymmetric(a[1..], b[1..]);
      assert a == [a[0]] + a[1..] && b == [b[0]] + b[1..];
    }
  }

  /** Inserts `x` in front of the first element of `s` it may precede. */
  function Insert<T>(x: T, s: seq<T>, le: (T, T) -> bool): (r: seq<T>)
    ensures |r| == |s| + 1 && multiset(r) == multiset(s) + multiset{x}
    ensures r[0] == x || (s != [] && r[0] == s[0])
  {
    if s == [] || le(x, s[0]) then [x] + s
    else
      assert s == [s[0]] + s[1..];
      [s[0]] + Insert(x, s[1..], le)
  }

  /** Insertion sort from the back: every element is placed in front of the first later
      element it may precede, so elements that may precede each other keep their order. */
  function SortBy<T>(s: seq<T>, le: (T, T) -> bool): (r: seq<T>)
    ensures |r| == |s| && multiset(r) == multiset(s)
  {
    if s == [] then []
    else
      assert s == [s[0]] + s[1..];
      Insert(s[0], SortBy(s[1..], le), le)
  }

  /** Every element may precede its successor. */
  ghost predicate SortedBy<T>(s: seq<T>, le: (T, T) -> bool) {
    forall i :: 0 < i < |s| ==> le(s[i - 1], s[i])
  }

  /** `le` orders any two elements of `s` one way or the other. */
  ghost predicate TotalOn<T>(s: seq<T>, le: (T, T) -> bool) {
    forall a, b :: a in s && b in s ==> le(a, b) || le(b, a)
  }

  /** `le` is transitive on the elements of `s`. */
  ghost predicate TransitiveOn<T>(s: seq<T>, le: (T, T) -> bool) {
    forall a, b, c :: a in s && b in s && c in s && le(a, b) && le(b, c) ==> le(a, c)
  }

  lemma {:induction false} InsertSorted<T>(x: T, s: seq<T>, le: (T, T) -> bool)
    requires SortedBy(s, le)
    requires forall y :: y in s ==> le(x, y) || le(y, x)
    ensures SortedBy(Insert(x, s, le), le)
  {
    if s != [] && !le(x, s[0]) {
      InsertSorted(x, s[1..], le);
      var rest := Insert(x, s[1..], le);
      assert Insert(x, s, le) == [s[0]] + rest;
      assert le(s[0], rest[0]);
    }
  }

  /** Under a total order on its elements the sort's result is in order. */
  lemma {:induction false} SortBySorted<T>(s: seq<T>, le: (T, T) -> bool)
    requires TotalOn(s, le)
    ensures SortedBy(SortBy(s, le), le)
  {
    if s != [] {
      assert TotalOn(s[1..], le) by {
        forall a, b | a in s[1..] && b in s[1..] ensures le(a, b) || le(b, a) {
          assert a in s && b in s;
        }
      }
      SortBySorted(s[1..], le);
      var rest := SortBy(s[1..], le);
      forall y | y in rest ensures le(s[0], y) || le(y, s[0]) {
        assert y in multiset(rest);
        assert y in s[1..];
      }
      InsertSorted(s[0], rest, le);
    }
  }

  lemma {:induction false} SortedStep<T>(s: seq<T>, le: (T, T) -> bool, i: nat, j: nat)
    requires SortedBy(s, le) && TransitiveOn(s, le)
    requires i < j < |s|
    ensures le(s[i], s[j])
    decreases j - i
  {
    if j > i + 1 {
      SortedStep(s, le, i, j - 1);
      assert s[i] in s && s[j - 1] in s && s[j] in s;
    }
  }

  /** Under a transitive relation, an ordered sequence is ordered pair by pair. */
  lemma SortedPairwise<T>(s: seq<T>, le: (T, T) -> bool)
    requires SortedBy(s, le) && TransitiveOn(s, le)
    ensures forall i, j :: 0 <= i < j < |s| ==> le(s[i], s[j])
  {
    forall i, j | 0 <= i < j < |s| ensures le(s[i], s[j]) {
      SortedStep(s, le, i, j);
    }
  }
}
