/** Sequence and string helpers with the meaning of the Python built-ins they stand for. */
module SeqUtil {

  /** `r` can be obtained from `s` by deleting elements, keeping the order of the rest. */
  predicate IsSubsequence<T(==)>(r: seq<T>, s: seq<T>)
    decreases |s|
  {
    |r| == 0 || (|s| > 0 && if r[0] == s[0] then IsSubsequence(r[1..], s[1..]) else IsSubsequence(r, s[1..]))
  }

  lemma {:induction false} SubsequenceReflexive<T>(s: seq<T>)
    ensures IsSubsequence(s, s)
    decreases |s|
  {
    if |s| > 0 {
      SubsequenceReflexive(s[1..]);
    }
  }

  /** A subsequence of the tail of `t` is a subsequence of `t`. */
  lemma {:induction false} SubsequenceExtend<T>(x: seq<T>, t: seq<T>)
    requires |t| > 0 && IsSubsequence(x, t[1..])
    ensures IsSubsequence(x, t)
    decreases |t|, |x|
  {
    if |x| > 0 && x[0] == t[0] {
      SubsequenceDropHead(x, t[1..]);
    }
  }

  /** Dropping the first element of a subsequence leaves a subsequence. */
  lemma {:induction false} SubsequenceDropHead<T>(x: seq<T>, t: seq<T>)
    requires |x| > 0 && IsSubsequence(x, t)
    ensures IsSubsequence(x[1..], t)
    decreases |t|, |x|
  {
    if x[0] == t[0] {
      SubsequenceExtend(x[1..], t);
    } else {
      SubsequenceDropHead(x, t[1..]);
      SubsequenceExtend(x[1..], t);
    }
  }

  /** A subsequence of a subsequence of `c` is a subsequence of `c`. */
  lemma {:induction false} SubsequenceTransitive<T>(a: seq<T>, b: seq<T>, c: seq<T>)
    requires IsSubsequence(a, b) && IsSubsequence(b, c)
    ensures IsSubsequence(a, c)
    decreases |c|
  {
    if |a| > 0 {
      if b[0] == c[0] {
        if a[0] == b[0] {
          SubsequenceTransitive(a[1..], b[1..], c[1..]);
        } else {
          SubsequenceTransitive(a, b[1..], c[1..]);
        }
      } else {
        SubsequenceTransitive(a, b, c[1..]);
        if a[0] == c[0] {
          SubsequenceDropHead(a, c[1..]);
        }
      }
    }
  }

  /** A subsequence is no longer than the sequence, and one as long is the sequence. */
  lemma {:induction false} SubsequenceLength<T>(r: seq<T>, s: seq<T>)
    requires IsSubsequence(r, s)
    ensures |r| <= |s|
    ensures |r| == |s| ==> r == s
    decreases |s|
  {
    if |r| > 0 {
      if r[0] == s[0] {
        SubsequenceLength(r[1..], s[1..]);
        assert |r| == |s| ==> r == [r[0]] + r[1..];
      } else {
        SubsequenceLength(r, s[1..]);
      }
    }
  }

  /** `r` holds exactly the elements of `s` that satisfy `p`, in their order and number. */
  ghost predicate FilteredFrom<T(!new)>(r: seq<T>, s: seq<T>, p: T -> bool) {
    (forall x :: multiset(r)[x] == if p(x) then multiset(s)[x] else 0) &&
    (forall i :: 0 <= i < |r| ==> p(r[i]) && r[i] in s) &&
    (forall x :: x in r <==> x in s && p(x)) &&
    IsSubsequence(r, s)
  }

  /** A non-empty sequence is its front followed by its last element. */
  lemma DropLastAppend<T>(s: seq<T>)
    requires |s| > 0
    ensures s[..|s| - 1] + [s[|s| - 1]] == s
  {
  }

  /** Dropping `a` elements and then `b` more drops `a + b`. */
  lemma DropDrop<T>(s: seq<T>, a: nat, b: nat)
    requires a + b <= |s|
    ensures s[a..][b..] == s[a + b..]
  {
  }

  /** The last element of `[x] + rest`, for a non-empty `rest`, is the last of `rest`. */
  lemma LastOfCons<T>(r: seq<T>, x: T, rest: seq<T>)
    requires r == [x] + rest && |rest| > 0
    ensures r[|r| - 1] == rest[|rest| - 1]
  {
  }

  /** A list comprehension `[x for x in s if p(x)]`. */
  function Filter<T(!new, ==)>(s: seq<T>, p: T -> bool): (r: seq<T>)
    ensures forall x :: multiset(r)[x] == if p(x) then multiset(s)[x] else 0
    ensures forall i :: 0 <= i < |r| ==> p(r[i]) && r[i] in s
    ensures forall x :: x in r <==> x in s && p(x)
    ensures IsSubsequence(r, s)
    decreases |s|
  {
    if |s| == 0 then []
    else
      var rest := Filter(s[1..], p);
      assert FilteredFrom(rest, s[1..], p);
      if p(s[0]) then
        FilteredKeep(s, rest, p);
        [s[0]] + rest
      else
        FilteredSkip(s, rest, p);
        rest
  }

  /** Keeping a head that satisfies `p` extends a filtered tail. */
  lemma FilteredKeep<T(!new)>(s: seq<T>, rest: seq<T>, p: T -> bool)
    requires |s| > 0 && p(s[0]) && FilteredFrom(rest, s[1..], p)
    ensures FilteredFrom([s[0]] + rest, s, p)
  {
    var r := [s[0]] + rest;
    assert s == [s[0]] + s[1..];
    assert r[1..] == rest;
    assert multiset(s) == multiset{s[0]} + multiset(s[1..]);
    assert multiset(r) == multiset{s[0]} + multiset(rest);
    assert forall x :: x in r <==> x == s[0] || x in rest;
    assert forall x :: x in s <==> x == s[0] || x in s[1..];
  }

  /** Dropping a head that fails `p` leaves a filtered tail filtered from the whole. */
  lemma FilteredSkip<T(!new)>(s: seq<T>, rest: seq<T>, p: T -> bool)
    requires |s| > 0 && !p(s[0]) && FilteredFrom(rest, s[1..], p)
    ensures FilteredFrom(rest, s, p)
  {
    assert s == [s[0]] + s[1..];
    assert multiset(s) == multiset{s[0]} + multiset(s[1..]);
    assert |rest| > 0 ==> rest[0] != s[0];
    assert forall x :: x in s <==> x == s[0] || x in s[1..];
  }

  /** `rel` holds between every element of `s` and each element after it. */
  ghost predicate Pairwise<T>(s: seq<T>, rel: (T, T) -> bool) {
    forall i, j :: 0 <= i < j < |s| ==> rel(s[i], s[j])
  }

  /** A relation that holds between every earlier and later element still holds after filtering. */
  lemma {:induction false} FilterKeepsPairwise<T(!new)>(s: seq<T>, p: T -> bool, rel: (T, T) -> bool)
    requires Pairwise(s, rel)
    ensures Pairwise(Filter(s, p), rel)
    decreases |s|
  {
    if |s| > 0 {
      PairwiseTail(s, rel);
      FilterKeepsPairwise(s[1..], p, rel);
      if p(s[0]) {
        PairwiseHead(s, rel);
        ConsPairwise(s[0], Filter(s[1..], p), s[1..], rel);
      }
    }
  }

  lemma PairwiseTail<T>(s: seq<T>, rel: (T, T) -> bool)
    requires Pairwise(s, rel) && |s| > 0
    ensures Pairwise(s[1..], rel)
  {
    assert forall i :: 0 <= i < |s[1..]| ==> s[1..][i] == s[i + 1];
  }

  lemma PairwiseHead<T>(s: seq<T>, rel: (T, T) -> bool)
    requires Pairwise(s, rel) && |s| > 0
    ensures forall y :: y in s[1..] ==> rel(s[0], y)
  {
    forall y | y in s[1..] ensures rel(s[0], y) {
      var k :| 0 <= k < |s[1..]| && s[1..][k] == y;
      assert s[k + 1] == y;
    }
  }

  lemma ConsPairwise<T>(x: T, rest: seq<T>, t: seq<T>, rel: (T, T) -> bool)
    requires Pairwise(rest, rel)
    requires forall i :: 0 <= i < |rest| ==> rest[i] in t
    requires forall y :: y in t ==> rel(x, y)
    ensures Pairwise([x] + rest, rel)
  {
    var r := [x] + rest;
    forall i, j | 0 <= i < j < |r| ensures rel(r[i], r[j]) {
      assert r[j] == rest[j - 1];
      if i > 0 {
        assert r[i] == rest[i - 1];
      }
    }
  }

  /** `reversed(s)`. */
  function Reverse<T>(s: seq<T>): (r: seq<T>)
    ensures |r| == |s|
    ensures forall i :: 0 <= i < |s| ==> r[i] == s[|s| - 1 - i]
    decreases |s|
  {
    if |s| == 0 then [] else [s[|s| - 1]] + Reverse(s[..|s| - 1])
  }

  /** Concatenation of `g(x)` over the elements of `s`, in order. */
  function FlatMap<T, U>(s: seq<T>, g: T -> seq<U>): (r: seq<U>)
    ensures |s| == 1 ==> r == g(s[0])
    decreases |s|
  {
    if |s| == 0 then [] else g(s[0]) + FlatMap(s[1..], g)
  }

  /** An element comes out of `FlatMap` exactly when one of the images holds it. */
  lemma {:induction false} FlatMapMembership<T, U>(s: seq<T>, g: T -> seq<U>, y: U)
    ensures y in FlatMap(s, g) <==> exists i :: 0 <= i < |s| && y in g(s[i])
    decreases |s|
  {
    if |s| > 0 {
      FlatMapMembership(s[1..], g, y);
      if y in FlatMap(s[1..], g) {
        var i :| 0 <= i < |s[1..]| && y in g(s[1..][i]);
        assert y in g(s[i + 1]);
      }
      if exists i :: 0 <= i < |s| && y in g(s[i]) {
        var i :| 0 <= i < |s| && y in g(s[i]);
        if i > 0 {
          assert y in g(s[1..][i - 1]);
        }
      }
    }
  }

  lemma {:induction false} FlatMapAppend<T, U>(a: seq<T>, b: seq<T>, g: T -> seq<U>)
    ensures FlatMap(a + b, g) == FlatMap(a, g) + FlatMap(b, g)
    decreases |a|
  {
    if |a| == 0 {
      assert a + b == b;
    } else {
      assert (a + b)[0] == a[0];
      assert (a + b)[1..] == a[1..] + b;
      FlatMapAppend(a[1..], b, g);
      calc {
        FlatMap(a + b, g);
        g(a[0]) + FlatMap(a[1..] + b, g);
        g(a[0]) + (FlatMap(a[1..], g) + FlatMap(b, g));
        (g(a[0]) + FlatMap(a[1..], g)) + FlatMap(b, g);
      }
    }
  }

  /** What `FlatMap` produces, counted with multiplicity, does not depend on the order of `s`. */
  lemma {:induction false} FlatMapPermutation<T, U>(a: seq<T>, b: seq<T>, g: T -> seq<U>)
    requires multiset(a) == multiset(b)
    ensures multiset(FlatMap(a, g)) == multiset(FlatMap(b, g))
    decreases |a|
  {
    if |a| == 0 {
      assert |b| == |multiset(b)| == 0;
    } else {
      assert a[0] in multiset(b);
      var i :| 0 <= i < |b| && b[i] == a[0];
      var rest := b[..i] + b[i + 1..];
      RemoveAtMultiset(b, i);
      assert a == [a[0]] + a[1..];
      assert multiset(a[1..]) == multiset(a) - multiset{a[0]};
      FlatMapPermutation(a[1..], rest, g);
      FlatMapRemoveAt(b, i, g);
      FlatMapAppend([a[0]], a[1..], g);
    }
  }

  lemma RemoveAtMultiset<T>(b: seq<T>, i: nat)
    requires i < |b|
    ensures multiset(b[..i] + b[i + 1..]) == multiset(b) - multiset{b[i]}
  {
    assert b == b[..i] + [b[i]] + b[i + 1..];
  }

  /** Deleting one element leaves a subsequence. */
  lemma {:induction false} RemoveAtSubsequence<T>(s: seq<T>, i: nat)
    requires i < |s|
    ensures IsSubsequence(s[..i] + s[i + 1..], s)
    decreases i
  {
    if i == 0 {
      SubsequenceReflexive(s[1..]);
      SubsequenceExtend(s[1..], s);
      assert s[..0] + s[1..] == s[1..];
    } else {
      RemoveAtSubsequence(s[1..], i - 1);
      var r := s[..i] + s[i + 1..];
      assert r[0] == s[0] && r[1..] == s[1..][..i - 1] + s[1..][i..];
    }
  }

  lemma FlatMapRemoveAt<T, U>(b: seq<T>, i: nat, g: T -> seq<U>)
    requires i < |b|
    ensures multiset(FlatMap(b, g)) == multiset(g(b[i])) + multiset(FlatMap(b[..i] + b[i + 1..], g))
  {
    var before, after := FlatMap(b[..i], g), FlatMap(b[i + 1..], g);
    var tail := b[i..];
    assert b == b[..i] + tail;
    FlatMapAppend(b[..i], tail, g);
    assert tail[0] == b[i] && tail[1..] == b[i + 1..];
    assert FlatMap(tail, g) == g(b[i]) + after;
    assert FlatMap(b, g) == before + (g(b[i]) + after);
    FlatMapAppend(b[..i], b[i + 1..], g);
    assert FlatMap(b[..i] + b[i + 1..], g) == before + after;
  }

  /** The first occurrence of every element of `s`, in order of first appearance. */
  function Dedup<T(!new, ==)>(s: seq<T>): (r: seq<T>)
    ensures forall x :: x in r <==> x in s
    ensures forall i, j :: 0 <= i < j < |r| ==> r[i] != r[j]
    decreases |s|
  {
    if |s| == 0 then []
    else
      var rest := Dedup(s[..|s| - 1]);
      assert forall x :: x in s <==> x in s[..|s| - 1] || x == s[|s| - 1];
      if s[|s| - 1] in rest then rest else rest + [s[|s| - 1]]
  }

  /** A sequence without repeats holds each element once. */
  lemma {:induction false} DistinctMultiset<T>(s: seq<T>)
    requires forall i, j :: 0 <= i < j < |s| ==> s[i] != s[j]
    ensures forall x :: multiset(s)[x] == if x in s then 1 else 0
    decreases |s|
  {
    if |s| > 0 {
      DistinctMultiset(s[1..]);
      assert s == [s[0]] + s[1..];
      assert s[0] !in s[1..];
    }
  }

  /** An element found at two positions occurs at least twice. */
  lemma RepeatCountsTwice<T>(s: seq<T>, i: nat, j: nat)
    requires i < j < |s|
    ensures s[i] == s[j] ==> multiset(s)[s[j]] >= 2
  {
    assert s == s[..j] + s[j..];
    assert s[i] in s[..j] && s[j] in s[j..];
  }

  /** De-duplicated sequences with the same elements are permutations of each other. */
  lemma DedupSameElements<T(!new)>(a: seq<T>, b: seq<T>)
    requires forall x :: x in a <==> x in b
    ensures multiset(Dedup(a)) == multiset(Dedup(b))
  {
    DistinctMultiset(Dedup(a));
    DistinctMultiset(Dedup(b));
  }

  /** The index of the first `c` in `s`, or `|s|` when there is none. */
  function IndexOf(s: string, c: char): (i: nat)
    ensures i <= |s|
    ensures i < |s| ==> s[i] == c
    ensures c !in s[..i]
    ensures i == |s| <==> c !in s
    decreases |s|
  {
    if |s| == 0 then 0
    else if s[0] == c then 0
    else
      assert s[1..][..IndexOf(s[1..], c)] == s[1..1 + IndexOf(s[1..], c)];
      1 + IndexOf(s[1..], c)
  }

  /** `sep.join(pieces)`. */
  function Join(pieces: seq<string>, sep: string): (r: string)
    decreases |pieces|
  {
    if |pieces| == 0 then ""
    else if |pieces| == 1 then pieces[0]
    else pieces[0] + sep + Join(pieces[1..], sep)
  }

  /**
   * Python's `s.split(c)` for a one-character separator: the text between
   * separators, keeping empty pieces, and `[""]` for the empty string.
   */
  function Split(s: string, c: char): (r: seq<string>)
    ensures |r| >= 1
    ensures forall i :: 0 <= i < |r| ==> c !in r[i]
    ensures Join(r, [c]) == s
    ensures |r| == 1 <==> c !in s
    decreases |s|
  {
    var i := IndexOf(s, c);
    if i == |s| then [s]
    else
      var rest := Split(s[i + 1..], c);
      assert s == s[..i] + [c] + s[i + 1..];
      [s[..i]] + rest
  }

  /** Splitting a join gives the pieces back, when no piece contains the separator. */
  lemma {:induction false} SplitJoin(pieces: seq<string>, c: char)
    requires |pieces| >= 1
    requires forall i :: 0 <= i < |pieces| ==> c !in pieces[i]
    ensures Split(Join(pieces, [c]), c) == pieces
    decreases |pieces|
  {
    if |pieces| > 1 {
      var rest := Join(pieces[1..], [c]);
      assert Join(pieces, [c]) == pieces[0] + [c] + rest;
      SplitAfterPrefix(pieces[0], rest, c);
      SplitJoin(pieces[1..], c);
      assert pieces == [pieces[0]] + pieces[1..];
    }
  }

  /** Splitting at the first separator yields the text before it, then the splitting of the rest. */
  lemma SplitAfterPrefix(p: string, rest: string, c: char)
    requires c !in p
    ensures Split(p + [c] + rest, c) == [p] + Split(rest, c)
  {
    var s := p + [c] + rest;
    IndexOfAfterPrefix(p, rest, c);
    assert s[..|p|] == p;
    assert s[|p| + 1..] == rest;
  }

  lemma IndexOfAfterPrefix(p: string, rest: string, c: char)
    requires c !in p
    ensures IndexOf(p + [c] + rest, c) == |p|
  {
    var s := p + [c] + rest;
    var i := IndexOf(s, c);
    assert s[..|p|] == p;
    assert s[|p|] == c;
  }

  /** The text after the last `c` in `s`, which is `s.split(c)[-1]`. */
  function LastPiece(s: string, c: char): (r: string)
    ensures c !in r
    ensures EndsWith(s, r)
    ensures |r| < |s| ==> s[|s| - |r| - 1] == c
    decreases |s|
  {
    if |s| == 0 || s[|s| - 1] == c then []
    else
      var p, x := s[..|s| - 1], s[|s| - 1];
      var r := LastPiece(p, c);
      assert s[|s| - |r| - 1..] == p[|p| - |r|..] + [x];
      assert |r| + 1 < |s| ==> s[|s| - |r| - 2] == p[|p| - |r| - 1];
      r + [x]
  }

  /** `prefix` starts `s`. */
  predicate StartsWith(s: string, prefix: string) {
    |prefix| <= |s| && s[..|prefix|] == prefix
  }

  /** A text starts with whatever is put in front of it. */
  lemma StartsWithPrepended(prefix: string, rest: string)
    ensures StartsWith(prefix + rest, prefix)
  {
    assert (prefix + rest)[..|prefix|] == prefix;
  }

  /** `suffix` ends `s`. */
  predicate EndsWith(s: string, suffix: string) {
    |suffix| <= |s| && s[|s| - |suffix|..] == suffix
  }

  /** Python's `needle in s` on strings. */
  predicate Contains(s: string, needle: string)
    decreases |s|
  {
    StartsWith(s, needle) || (|s| > 0 && Contains(s[1..], needle))
  }
}
