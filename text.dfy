/**
 * The JavaScript string and array built-ins the extension relies on, as pure functions over
 * sequences of characters: `trim`, `indexOf`/`includes`, `split` (with a character, a character
 * class, `/\s+/` or `/\n\n|\r\n\r\n/` as separator), `toLowerCase` on ASCII letters, `replace`
 * of the first occurrence, `[...new Set(xs)]` and `Array.prototype.filter`.
 */
module Text {
  import opened Common

  /** The characters JavaScript's `\s` matches and `String.prototype.trim` removes:
      WhiteSpace (tab, VT, FF, space, NBSP, BOM, the Zs separators) and the line terminators. */
  predicate IsSpace(c: char) {
    c == ' ' || c == '\t' || c == '\n' || c == '\r' || c == '\U{000B}' || c == '\U{000C}'
    || c == '\U{00A0}' || c == '\U{1680}' || ('\U{2000}' <= c <= '\U{200A}')
    || c == '\U{2028}' || c == '\U{2029}' || c == '\U{202F}' || c == '\U{205F}'
    || c == '\U{3000}' || c == '\U{FEFF}'
  }

  /** Number of whitespace characters in the run that starts at position `i`. */
  function SpaceRunLength(s: string, i: nat): (n: nat)
    requires i <= |s|
    ensures i + n <= |s|
    ensures forall k :: i <= k < i + n ==> IsSpace(s[k])
    ensures i + n == |s| || !IsSpace(s[i + n])
    decreases |s| - i
  {
    if i == |s| || !IsSpace(s[i]) then 0 else 1 + SpaceRunLength(s, i + 1)
  }

  /** Neither end of `s` is whitespace. */
  predicate IsTrimmed(s: string) {
    s == [] || (!IsSpace(s[0]) && !IsSpace(s[|s| - 1]))
  }

  /** `s` without its leading whitespace. */
  function TrimStart(s: string): (r: string)
    ensures |r| <= |s| && r == s[|s| - |r|..]
    ensures r == [] || !IsSpace(r[0])
    ensures forall k :: 0 <= k < |s| - |r| ==> IsSpace(s[k])
  {
    if s != [] && IsSpace(s[0]) then TrimStart(s[1..]) else s
  }

  /** `s` without its trailing whitespace. */
  function TrimEnd(s: string): (r: string)
    ensures |r| <= |s| && r == s[..|r|]
    ensures r == [] || !IsSpace(r[|r| - 1])
    ensures forall k :: |r| <= k < |s| ==> IsSpace(s[k])
  {
    if s != [] && IsSpace(s[|s| - 1]) then TrimEnd(s[..|s| - 1]) else s
  }

  /** Where `Trim(s)` starts inside `s`. */
  function TrimOffset(s: string): nat {
    |s| - |TrimStart(s)|
  }

  /** `String.prototype.trim`: the slice of `s` left after removing whitespace at both ends. */
  function Trim(s: string): (r: string)
    ensures IsTrimmed(r)
    ensures TrimOffset(s) + |r| <= |s| && r == s[TrimOffset(s)..TrimOffset(s) + |r|]
    ensures forall k :: 0 <= k < TrimOffset(s) ==> IsSpace(s[k])
    ensures forall k :: TrimOffset(s) + |r| <= k < |s| ==> IsSpace(s[k])
    ensures IsTrimmed(s) ==> r == s
  {
    var t := TrimStart(s);
    var r := TrimEnd(t);
    assert r != [] ==> r[0] == t[0];
    r
  }

  /** Trimming adds no character. */
  lemma TrimAvoids(t: string, cs: set<char>)
    requires Avoids(t, cs)
    ensures Avoids(Trim(t), cs)
  {
    var r := Trim(t);
    var o := TrimOffset(t);
    forall k | 0 <= k < |r| ensures r[k] !in cs {
      assert r[k] == t[o + k];
    }
  }

  /** `p` occurs in `s` at position `i`. */
  predicate OccursAt(s: string, p: string, i: nat) {
    i + |p| <= |s| && s[i..i + |p|] == p
  }

  /** `s.indexOf(p, from)`: the first position at or after `from` where `p` occurs. */
  function IndexOf(s: string, p: string, from: nat): (r: Option<nat>)
    ensures r.Some? ==> from <= r.value && OccursAt(s, p, r.value)
    ensures r.Some? ==> forall j :: from <= j < r.value ==> !OccursAt(s, p, j)
    ensures r.None? ==> forall j :: from <= j ==> !OccursAt(s, p, j)
    decreases |s| - from
  {
    if from + |p| > |s| then None
    else if OccursAt(s, p, from) then Some(from)
    else IndexOf(s, p, from + 1)
  }

  /** `s.includes(p)`. */
  function Contains(s: string, p: string): (b: bool)
    ensures b <==> exists i: nat :: OccursAt(s, p, i)
  {
    IndexOf(s, p, 0).Some?
  }

  /** An occurrence of `p` inside an occurrence of `q` is an occurrence in `s`. */
  lemma OccursInside(s: string, q: string, i: nat, p: string, j: nat)
    requires OccursAt(s, q, i) && OccursAt(q, p, j)
    ensures OccursAt(s, p, i + j)
  {
    forall k | 0 <= k < |p|
      ensures s[i + j + k] == p[k]
    {
      assert p[k] == q[j + k] == s[i + j + k];
    }
    assert s[i + j..i + j + |p|] == p;
  }

  /** `toLowerCase` on one character, for the ASCII letters. */
  function LowerAscii(c: char): char {
    if 'A' <= c <= 'Z' then (c as int + 32) as char else c
  }

  /** `toLowerCase` on the ASCII letters of `s`. */
  function ToLowerAscii(s: string): (r: string)
    ensures |r| == |s| && forall k :: 0 <= k < |s| ==> r[k] == LowerAscii(s[k])
  {
    seq(|s|, k requires 0 <= k < |s| => LowerAscii(s[k]))
  }

  /** The lower-case word `p` occurs at `i` under a regular expression's `/i` flag. A non-ASCII
      character never matches an ASCII one under `/i` without the `u` flag, so comparing
      lower-cased ASCII letters is exact. */
  predicate OccursAtIgnoringCase(s: string, p: string, i: nat) {
    i + |p| <= |s| && forall k :: 0 <= k < |p| ==> LowerAscii(s[i + k]) == p[k]
  }

  /** `s.replace(p, "")` with a string pattern: only the first occurrence goes. */
  function RemoveFirst(s: string, p: string): (r: string)
    ensures IndexOf(s, p, 0).None? ==> r == s
    ensures IndexOf(s, p, 0).Some? ==>
              var i := IndexOf(s, p, 0).value;
              |r| == |s| - |p| && i <= |r| && r[..i] + p + r[i..] == s
  {
    match IndexOf(s, p, 0)
    case None => s
    case Some(i) => s[..i] + s[i + |p|..]
  }

  /** The separators the extension passes to `String.prototype.split`: one character out of a
      set (`','`, `'/'`, `/[,;]/`), a run of whitespace (`/\s+/`), or a blank line
      (`/\n\n|\r\n\r\n/`). */
  datatype Sep = OneOf(chars: set<char>) | SpaceRun | BlankLine

  /** Length of the separator that the leftmost attempt at position `q` matches; 0 when none. */
  function SepLength(sep: Sep, s: string, q: nat): (n: nat)
    requires q < |s|
    ensures n <= |s| - q
  {
    match sep
    case OneOf(cs) => if s[q] in cs then 1 else 0
    case SpaceRun => SpaceRunLength(s, q)
    case BlankLine =>
      if OccursAt(s, "\n\n", q) then 2 else if OccursAt(s, "\r\n\r\n", q) then 4 else 0
  }

  /** The splitting loop of `String.prototype.split`: `p` is where the current piece began,
      `q` the next position at which a separator is tried. */
  function SplitFrom(s: string, sep: Sep, p: nat, q: nat): (pieces: seq<string>)
    requires p <= q <= |s|
    ensures |pieces| >= 1
    decreases |s| - q
  {
    if q == |s| then [s[p..]]
    else
      var n := SepLength(sep, s, q);
      if n == 0 then SplitFrom(s, sep, p, q + 1)
      else [s[p..q]] + SplitFrom(s, sep, q + n, q + n)
  }

  /** `s.split(sep)`; never empty: splitting `""` gives `[""]`. */
  function Split(s: string, sep: Sep): (pieces: seq<string>)
    ensures |pieces| >= 1
  {
    SplitFrom(s, sep, 0, 0)
  }

  /** `pieces.join(c)`. */
  function Join(pieces: seq<string>, c: char): string {
    if pieces == [] then []
    else if |pieces| == 1 then pieces[0]
    else pieces[0] + [c] + Join(pieces[1..], c)
  }

  /** The strings JavaScript treats as truthy. */
  predicate NonEmpty(t: string) {
    |t| > 0
  }

  /** No character of `t` is in `cs`. */
  predicate Avoids(t: string, cs: set<char>) {
    forall k :: 0 <= k < |t| ==> t[k] !in cs
  }

  lemma {:induction false} SplitFromJoin(s: string, c: char, p: nat, q: nat)
    requires p <= q <= |s|
    requires forall k :: p <= k < q ==> s[k] != c
    ensures Join(SplitFrom(s, OneOf({c}), p, q), c) == s[p..]
    decreases |s| - q
  {
    if q < |s| {
      if s[q] == c {
        SplitFromJoin(s, c, q + 1, q + 1);
        var rest := SplitFrom(s, OneOf({c}), q + 1, q + 1);
        var pieces := [s[p..q]] + rest;
        assert pieces[1..] == rest;
        assert s[p..] == s[p..q] + [c] + s[q + 1..];
      } else {
        SplitFromJoin(s, c, p, q + 1);
      }
    }
  }

  /** Joining the pieces of a split on one character with that character gives back the input. */
  lemma SplitThenJoin(s: string, c: char)
    ensures Join(Split(s, OneOf({c})), c) == s
  {
    SplitFromJoin(s, c, 0, 0);
  }

  lemma {:induction false} SplitFromAvoids(s: string, cs: set<char>, p: nat, q: nat)
    requires p <= q <= |s|
    requires forall k :: p <= k < q ==> s[k] !in cs
    ensures forall piece :: piece in SplitFrom(s, OneOf(cs), p, q) ==> Avoids(piece, cs)
    decreases |s| - q
  {
    if q < |s| {
      if s[q] in cs {
        SplitFromAvoids(s, cs, q + 1, q + 1);
        assert Avoids(s[p..q], cs);
      } else {
        SplitFromAvoids(s, cs, p, q + 1);
      }
    }
  }

  /** No piece of a split on a character class holds a character of that class. */
  lemma SplitAvoids(s: string, cs: set<char>)
    ensures forall piece :: piece in Split(s, OneOf(cs)) ==> Avoids(piece, cs)
  {
    SplitFromAvoids(s, cs, 0, 0);
  }

  lemma {:induction false} SplitFromLast(s: string, cs: set<char>, p: nat, q: nat)
    requires p <= q <= |s|
    ensures var pieces := SplitFrom(s, OneOf(cs), p, q);
            var last := pieces[|pieces| - 1];
            |last| <= |s| - p && last == s[|s| - |last|..]
            && (|last| < |s| - p ==> s[|s| - |last| - 1] in cs)
    decreases |s| - q
  {
    if q < |s| {
      if s[q] in cs {
        SplitFromLast(s, cs, q + 1, q + 1);
        var rest := SplitFrom(s, OneOf(cs), q + 1, q + 1);
        assert SplitFrom(s, OneOf(cs), p, q) == [s[p..q]] + rest;
      } else {
        SplitFromLast(s, cs, p, q + 1);
      }
    }
  }

  /** The last piece of a split on a character class is a suffix of the input that is either
      the whole input or directly preceded by a separator. */
  lemma SplitLast(s: string, cs: set<char>)
    ensures var pieces := Split(s, OneOf(cs));
            var last := pieces[|pieces| - 1];
            |last| <= |s| && last == s[|s| - |last|..]
            && (|last| < |s| ==> s[|s| - |last| - 1] in cs)
  {
    SplitFromLast(s, cs, 0, 0);
  }

  /** The strings of `parts` written one after the other. */
  function Concat(parts: seq<string>): string {
    if parts == [] then [] else parts[0] + Concat(parts[1..])
  }

  lemma {:induction false} ConcatAppend(a: seq<string>, b: seq<string>)
    ensures Concat(a + b) == Concat(a) + Concat(b)
  {
    if a != [] {
      assert (a + b)[1..] == a[1..] + b;
      ConcatAppend(a[1..], b);
      calc {
        Concat(a + b);
        (a + b)[0] + Concat((a + b)[1..]);
        a[0] + (Concat(a[1..]) + Concat(b));
      }
    } else {
      assert a + b == b;
    }
  }

  /** No element appears twice. */
  predicate NoDuplicates<T(==)>(xs: seq<T>) {
    forall i, j :: 0 <= i < j < |xs| ==> xs[i] != xs[j]
  }

  /** Adds the elements of `xs` to `acc` in order, skipping those already there: the insertion
      order of a JavaScript `Set`. */
  function DedupOnto<T(==)>(acc: seq<T>, xs: seq<T>): (r: seq<T>)
    decreases |xs|
  {
    if xs == [] then acc
    else DedupOnto(if xs[0] in acc then acc else acc + [xs[0]], xs[1..])
  }

  /** `[...new Set(xs)]`: the distinct elements of `xs` in order of first occurrence. */
  function Dedup<T(==)>(xs: seq<T>): seq<T> {
    DedupOnto([], xs)
  }

  lemma {:induction false} DedupOntoProperties<T>(acc: seq<T>, xs: seq<T>)
    requires NoDuplicates(acc)
    ensures NoDuplicates(DedupOnto(acc, xs))
    ensures forall x :: x in DedupOnto(acc, xs) <==> x in acc || x in xs
    ensures |acc| <= |DedupOnto(acc, xs)| && DedupOnto(acc, xs)[..|acc|] == acc
    ensures |DedupOnto(acc, xs)| <= |acc| + |xs|
    decreases |xs|
  {
    if xs != [] {
      var next := if xs[0] in acc then acc else acc + [xs[0]];
      DedupOntoProperties(next, xs[1..]);
      assert xs == [xs[0]] + xs[1..];
      assert next[..|acc|] == acc;
    }
  }

  /** `[...new Set(xs)]` holds each element of `xs` once, keeps the first element first and
      holds nothing else. */
  lemma DedupProperties<T>(xs: seq<T>)
    ensures NoDuplicates(Dedup(xs))
    ensures forall x :: x in Dedup(xs) <==> x in xs
    ensures |Dedup(xs)| <= |xs|
    ensures xs != [] ==> Dedup(xs) != [] && Dedup(xs)[0] == xs[0]
  {
    DedupOntoProperties([], xs);
    if xs != [] {
      var empty: seq<T> := [];
      assert xs[0] !in empty && empty + [xs[0]] == [xs[0]];
      assert Dedup(xs) == DedupOnto([xs[0]], xs[1..]);
      DedupOntoProperties([xs[0]], xs[1..]);
    }
  }

  lemma {:induction false} DedupOntoSnoc<T>(acc: seq<T>, xs: seq<T>, x: T)
    ensures DedupOnto(acc, xs + [x])
            == (var r := DedupOnto(acc, xs); if x in r then r else r + [x])
    decreases |xs|
  {
    if xs == [] {
      assert xs + [x] == [x] && [x][1..] == [];
    } else {
      var next := if xs[0] in acc then acc else acc + [xs[0]];
      assert (xs + [x])[0] == xs[0] && (xs + [x])[1..] == xs[1..] + [x];
      DedupOntoSnoc(next, xs[1..], x);
    }
  }

  /** Adding one more element to a `Set` appends it unless it is already there. */
  lemma DedupSnoc<T>(xs: seq<T>, x: T)
    ensures Dedup(xs + [x]) == if x in Dedup(xs) then Dedup(xs) else Dedup(xs) + [x]
  {
    DedupOntoSnoc([], xs, x);
  }

  /** Distinct elements are those that occur at most once. */
  lemma {:induction false} NoDuplicatesCounts<T>(xs: seq<T>)
    ensures NoDuplicates(xs) <==> forall x :: multiset(xs)[x] <= 1
  {
    if xs != [] {
      NoDuplicatesCounts(xs[1..]);
      assert xs == [xs[0]] + xs[1..];
      if NoDuplicates(xs) {
        assert NoDuplicates(xs[1..]);
      }
      if forall x :: multiset(xs)[x] <= 1 {
        assert forall x :: multiset(xs[1..])[x] <= 1 by {
          forall x ensures multiset(xs[1..])[x] <= 1 {
            assert multiset(xs)[x] == multiset([xs[0]])[x] + multiset(xs[1..])[x];
          }
        }
        assert multiset(xs[1..])[xs[0]] == 0 by {
          assert multiset(xs)[xs[0]] == 1 + multiset(xs[1..])[xs[0]];
        }
        forall i, j | 0 <= i < j < |xs| ensures xs[i] != xs[j] {
          if i == 0 {
            assert xs[j] == xs[1..][j - 1];
          } else {
            assert xs[i] == xs[1..][i - 1] && xs[j] == xs[1..][j - 1];
          }
        }
      }
    }
  }

  /** `xs.filter(keep)`. */
  function Filter<T(!new)>(xs: seq<T>, keep: T -> bool): (r: seq<T>)
    ensures |r| <= |xs|
    ensures forall x :: x in r <==> x in xs && keep(x)
  {
    if xs == [] then []
    else (if keep(xs[0]) then [xs[0]] else []) + Filter(xs[1..], keep)
  }

  /** What `keep` retains and what `drop` retains make up `xs`, when each element is kept by
      exactly one of them. */
  lemma {:induction false} FilterPartition<T(!new)>(xs: seq<T>, keep: T -> bool, drop: T -> bool)
    requires forall x :: drop(x) == !keep(x)
    ensures multiset(Filter(xs, keep)) + multiset(Filter(xs, drop)) == multiset(xs)
  {
    if xs != [] {
      var x := xs[0];
      FilterPartition(xs[1..], keep, drop);
      assert multiset(xs) == multiset{x} + multiset(xs[1..]) by {
        assert xs == [x] + xs[1..];
      }
      if keep(x) {
        assert Filter(xs, keep) == [x] + Filter(xs[1..], keep);
        assert Filter(xs, drop) == Filter(xs[1..], drop);
      } else {
        assert Filter(xs, keep) == Filter(xs[1..], keep);
        assert Filter(xs, drop) == [x] + Filter(xs[1..], drop);
      }
    }
  }

  /** Filtering a concatenation filters each part. */
  lemma {:induction false} FilterAppend<T(!new)>(a: seq<T>, b: seq<T>, keep: T -> bool)
    ensures Filter(a + b, keep) == Filter(a, keep) + Filter(b, keep)
  {
    if a != [] {
      assert (a + b)[0] == a[0] && (a + b)[1..] == a[1..] + b;
      FilterAppend(a[1..], b, keep);
    } else {
      assert a + b == b;
    }
  }
}
