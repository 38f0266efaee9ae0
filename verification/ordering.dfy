/**
 * Orders and sorting shared by the model: Python's lexicographic comparison
 * of strings and of lists, and the stable `sorted` used throughout the code.
 */
module Ordering {
  import opened SeqUtil


  /** `lt` is a strict total order on `T`. */
  ghost predicate StrictTotalOrder<T(!new)>(lt: (T, T) -> bool) {
    (forall a :: !lt(a, a)) &&
    (forall a, b, c :: lt(a, b) && lt(b, c) ==> lt(a, c)) &&
    (forall a, b :: a == b || lt(a, b) || lt(b, a))
  }

  /** `le` is a total preorder: every pair is comparable and it is transitive. */
  ghost predicate TotalPreorder<T(!new)>(le: (T, T) -> bool) {
    (forall a, b :: le(a, b) || le(b, a)) &&
    (forall a, b, c :: le(a, b) && le(b, c) ==> le(a, c))
  }

  ghost predicate Antisymmetric<T(!new)>(le: (T, T) -> bool) {
    forall a, b :: le(a, b) && le(b, a) ==> a == b
  }

  /** `le` is antisymmetric on the elements of `s`: equivalent elements of `s` are equal. */
  ghost predicate AntisymmetricOn<T>(s: seq<T>, le: (T, T) -> bool) {
    forall i, j :: 0 <= i < |s| && 0 <= j < |s| && le(s[i], s[j]) && le(s[j], s[i]) ==> s[i] == s[j]
  }

  /**
   * Python's comparison of two sequences: the first position where they
   * differ decides, and a proper prefix comes first.
   */
  predicate LexLe<T(==)>(a: seq<T>, b: seq<T>, lt: (T, T) -> bool) {
    |a| == 0 || (|b| > 0 && (lt(a[0], b[0]) || (a[0] == b[0] && LexLe(a[1..], b[1..], lt))))
  }

  lemma {:induction false} LexTotal<T(!new)>(a: seq<T>, b: seq<T>, lt: (T, T) -> bool)
    requires StrictTotalOrder(lt)
    ensures LexLe(a, b, lt) || LexLe(b, a, lt)
    decreases |a|
  {
    if |a| > 0 && |b| > 0 && a[0] == b[0] {
      LexTotal(a[1..], b[1..], lt);
    }
  }

  lemma {:induction false} LexAntisymmetric<T(!new)>(a: seq<T>, b: seq<T>, lt: (T, T) -> bool)
    requires StrictTotalOrder(lt)
    requires LexLe(a, b, lt) && LexLe(b, a, lt)
    ensures a == b
    decreases |a|
  {
    if |a| > 0 {
      assert a[0] == b[0];
      LexAntisymmetric(a[1..], b[1..], lt);
      assert a == [a[0]] + a[1..] && b == [b[0]] + b[1..];
    }
  }

  lemma {:induction false} LexTransitive<T(!new)>(a: seq<T>, b: seq<T>, c: seq<T>, lt: (T, T) -> bool)
    requires StrictTotalOrder(lt)
    requires LexLe(a, b, lt) && LexLe(b, c, lt)
    ensures LexLe(a, c, lt)
    decreases |a|
  {
    if |a| > 0 {
      if a[0] == b[0] && b[0] == c[0] {
        LexTransitive(a[1..], b[1..], c[1..], lt);
      }
    }
  }

  /** The code-point order on characters, which Python uses for `str`. */
  predicate CharLt(a: char, b: char) {
    a < b
  }

  /** Python's `a <= b` on strings. */
  predicate StrLe(a: string, b: string) {
    LexLe(a, b, CharLt)
  }

  /** Python's `a < b` on strings. */
  predicate StrLt(a: string, b: string) {
    StrLe(a, b) && a != b
  }

  lemma CharLtIsStrictTotalOrder()
    ensures StrictTotalOrder(CharLt)
  {
  }

  /** String comparison is a total order: total, antisymmetric and transitive. */
  lemma StrLeIsTotalOrder()
    ensures TotalPreorder(StrLe)
    ensures Antisymmetric(StrLe)
    ensures StrictTotalOrder(StrLt)
  {
    CharLtIsStrictTotalOrder();
    forall a: string, b: string
      ensures StrLe(a, b) || StrLe(b, a)
    {
      LexTotal(a, b, CharLt);
    }
    forall a: string, b: string, c: string | StrLe(a, b) && StrLe(b, c)
      ensures StrLe(a, c)
    {
      LexTransitive(a, b, c, CharLt);
    }
    forall a: string, b: string | StrLe(a, b) && StrLe(b, a)
      ensures a == b
    {
      LexAntisymmetric(a, b, CharLt);
    }
  }

  /** `s` is in ascending order under `le`. */
  ghost predicate SortedBy<T>(s: seq<T>, le: (T, T) -> bool) {
    forall i, j :: 0 <= i < j < |s| ==> le(s[i], s[j])
  }

  /**
   * Inserts `x` into the sorted `s` after every element that is not greater
   * than it, which keeps the sort stable.
   */
  function Insert<T(!new)>(x: T, s: seq<T>, le: (T, T) -> bool): (r: seq<T>)
    requires TotalPreorder(le)
    requires SortedBy(s, le)
    ensures multiset(r) == multiset(s) + multiset{x}
    ensures SortedBy(r, le)
    decreases |s|
  {
    if |s| == 0 then [x]
    else if !le(s[0], x) then
      assert forall i :: 0 <= i < |s| ==> le(x, s[i]) by {
        forall i | 0 <= i < |s| ensures le(x, s[i]) {
          assert le(x, s[0]);
        }
      }
      SortedCons(x, s, le);
      [x] + s
    else
      assert SortedBy(s[1..], le) by {
        forall i, j | 0 <= i < j < |s[1..]| ensures le(s[1..][i], s[1..][j]) {
          assert s[1..][i] == s[i + 1] && s[1..][j] == s[j + 1];
        }
      }
      var rest := Insert(x, s[1..], le);
      assert s == [s[0]] + s[1..];
      HeadBelowInsertion(x, s, rest, le);
      SortedCons(s[0], rest, le);
      [s[0]] + rest
  }

  /** An element below everything of a sorted sequence may head it. */
  lemma SortedCons<T>(h: T, t: seq<T>, le: (T, T) -> bool)
    requires SortedBy(t, le) && forall i :: 0 <= i < |t| ==> le(h, t[i])
    ensures SortedBy([h] + t, le)
  {
    var r := [h] + t;
    forall i, j | 0 <= i < j < |r| ensures le(r[i], r[j]) {
      assert r[j] == t[j - 1];
      if i > 0 {
        assert r[i] == t[i - 1];
      }
    }
  }

  /** The head of a sorted sequence is below everything of its tail with `x` inserted. */
  lemma HeadBelowInsertion<T(!new)>(x: T, s: seq<T>, rest: seq<T>, le: (T, T) -> bool)
    requires TotalPreorder(le) && SortedBy(s, le) && |s| > 0 && le(s[0], x)
    requires multiset(rest) == multiset(s[1..]) + multiset{x}
    ensures forall i :: 0 <= i < |rest| ==> le(s[0], rest[i])
  {
    forall i | 0 <= i < |rest| ensures le(s[0], rest[i]) {
      assert rest[i] in multiset(rest);
      if rest[i] != x {
        assert rest[i] in multiset(s[1..]);
        var k :| 0 <= k < |s[1..]| && s[1..][k] == rest[i];
        assert s[k + 1] == rest[i];
      }
    }
  }

  /** Python's stable `sorted(s)` under the total preorder `le`. */
  function Sort<T(!new)>(s: seq<T>, le: (T, T) -> bool): (r: seq<T>)
    requires TotalPreorder(le)
    ensures multiset(r) == multiset(s)
    ensures SortedBy(r, le)
    decreases |s|
  {
    if |s| == 0 then []
    else
      assert s == s[..|s| - 1] + [s[|s| - 1]];
      Insert(s[|s| - 1], Sort(s[..|s| - 1], le), le)
  }

  /** The elements of `s` that `le` ranks equal to `x`, in their order in `s`. */
  function Ties<T>(s: seq<T>, x: T, le: (T, T) -> bool): (r: seq<T>)
    ensures forall i :: 0 <= i < |r| ==> le(x, r[i]) && le(r[i], x)
    decreases |s|
  {
    if |s| == 0 then []
    else (if le(x, s[0]) && le(s[0], x) then [s[0]] else []) + Ties(s[1..], x, le)
  }

  lemma {:induction false} TiesAppend<T>(a: seq<T>, b: seq<T>, x: T, le: (T, T) -> bool)
    ensures Ties(a + b, x, le) == Ties(a, x, le) + Ties(b, x, le)
    decreases |a|
  {
    if |a| > 0 {
      assert (a + b)[0] == a[0] && (a + b)[1..] == a[1..] + b;
      TiesAppend(a[1..], b, x, le);
    } else {
      assert a + b == b;
    }
  }

  /** No element of `s` ranks equal to `x`. */
  lemma {:induction false} NoTies<T>(s: seq<T>, x: T, le: (T, T) -> bool)
    requires forall i :: 0 <= i < |s| ==> !(le(x, s[i]) && le(s[i], x))
    ensures Ties(s, x, le) == []
    decreases |s|
  {
    if |s| > 0 {
      NoTies(s[1..], x, le);
    }
  }

  /** Insertion puts `x` after every element of `s` it ties with. */
  lemma {:induction false} InsertIsStable<T(!new)>(x: T, s: seq<T>, le: (T, T) -> bool, e: T)
    requires TotalPreorder(le) && SortedBy(s, le)
    ensures Ties(Insert(x, s, le), e, le) == Ties(s, e, le) + Ties([x], e, le)
    decreases |s|
  {
    if |s| == 0 {
    } else if !le(s[0], x) {
      PrependBelowIsStable(x, s, le, e);
    } else {
      SortedTail(s, le);
      var rest := Insert(x, s[1..], le);
      assert Insert(x, s, le) == [s[0]] + rest;
      InsertIsStable(x, s[1..], le, e);
      TiesAppend([s[0]], rest, e, le);
      TiesAppend([s[0]], s[1..], e, le);
      assert [s[0]] + s[1..] == s;
    }
  }

  lemma SortedTail<T>(s: seq<T>, le: (T, T) -> bool)
    requires SortedBy(s, le) && |s| > 0
    ensures SortedBy(s[1..], le)
  {
    forall i, j | 0 <= i < j < |s[1..]| ensures le(s[1..][i], s[1..][j]) {
      assert s[1..][i] == s[i + 1] && s[1..][j] == s[j + 1];
    }
  }

  /** An element strictly below the head of a sorted sequence ties with nothing in it. */
  lemma PrependBelowIsStable<T(!new)>(x: T, s: seq<T>, le: (T, T) -> bool, e: T)
    requires TotalPreorder(le) && SortedBy(s, le) && |s| > 0 && !le(s[0], x)
    ensures Ties([x] + s, e, le) == Ties(s, e, le) + Ties([x], e, le)
  {
    TiesAppend([x], s, e, le);
    if le(e, x) && le(x, e) {
      assert forall i :: 0 <= i < |s| ==> !(le(e, s[i]) && le(s[i], e));
      NoTies(s, e, le);
    } else {
      assert Ties([x], e, le) == [];
    }
  }

  /**
   * `sorted` is stable: the elements that rank equal to any `x` keep their
   * relative order.
   */
  lemma {:induction false} SortIsStable<T(!new)>(s: seq<T>, le: (T, T) -> bool)
    requires TotalPreorder(le)
    ensures forall x :: Ties(Sort(s, le), x, le) == Ties(s, x, le)
    decreases |s|
  {
    if |s| > 0 {
      var front, last := s[..|s| - 1], s[|s| - 1];
      SortIsStable(front, le);
      DropLastAppend(s);
      forall x ensures Ties(Sort(s, le), x, le) == Ties(s, x, le) {
        InsertIsStable(last, Sort(front, le), le, x);
        TiesAppend(front, [last], x, le);
      }
    }
  }

  /** The least elements of two sorted arrangements of one multiset coincide. */
  lemma SortedHeadsEqual<T(!new)>(a: seq<T>, b: seq<T>, le: (T, T) -> bool)
    requires TotalPreorder(le) && AntisymmetricOn(a, le)
    requires SortedBy(a, le) && SortedBy(b, le)
    requires multiset(a) == multiset(b) && |a| > 0
    ensures |b| > 0 && a[0] == b[0]
  {
    assert a[0] in multiset(b);
    var j :| 0 <= j < |b| && b[j] == a[0];
    assert le(b[0], a[0]) by {
      if j > 0 {
        assert le(b[0], b[j]);
      }
    }
    assert b[0] in multiset(a);
    var i :| 0 <= i < |a| && a[i] == b[0];
    assert le(a[0], b[0]) by {
      if i > 0 {
        assert le(a[0], a[i]);
      }
    }
  }

  /**
   * Two sorted arrangements of the same multiset are equal when the order
   * is antisymmetric: the sorted result depends only on the elements.
   */
  lemma {:induction false} SortedUnique<T(!new)>(a: seq<T>, b: seq<T>, le: (T, T) -> bool)
    requires TotalPreorder(le) && AntisymmetricOn(a, le)
    requires SortedBy(a, le) && SortedBy(b, le)
    requires multiset(a) == multiset(b)
    ensures a == b
    decreases |a|
  {
    if |a| == 0 {
      assert |b| == |multiset(b)| == 0;
    } else {
      SortedHeadsEqual(a, b, le);
      SortedTails(a, b, le);
      SortedUnique(a[1..], b[1..], le);
      assert a == [a[0]] + a[1..] && b == [b[0]] + b[1..];
    }
  }

  /** Dropping equal heads keeps the premises of `SortedUnique` for the tails. */
  lemma SortedTails<T(!new)>(a: seq<T>, b: seq<T>, le: (T, T) -> bool)
    requires AntisymmetricOn(a, le) && SortedBy(a, le) && SortedBy(b, le)
    requires multiset(a) == multiset(b) && |a| > 0 && |b| > 0 && a[0] == b[0]
    ensures AntisymmetricOn(a[1..], le) && SortedBy(a[1..], le) && SortedBy(b[1..], le)
    ensures multiset(a[1..]) == multiset(b[1..])
  {
    TailMultiset(a);
    TailMultiset(b);
    var ta, tb := a[1..], b[1..];
    forall i, j | 0 <= i < |ta| && 0 <= j < |ta| && le(ta[i], ta[j]) && le(ta[j], ta[i])
      ensures ta[i] == ta[j]
    {
      assert ta[i] == a[i + 1] && ta[j] == a[j + 1];
    }
    forall i, j | 0 <= i < j < |ta| ensures le(ta[i], ta[j]) {
      assert ta[i] == a[i + 1] && ta[j] == a[j + 1];
    }
    forall i, j | 0 <= i < j < |tb| ensures le(tb[i], tb[j]) {
      assert tb[i] == b[i + 1] && tb[j] == b[j + 1];
    }
  }

  /** The tail's multiset is the whole one less the head. */
  lemma TailMultiset<T>(s: seq<T>)
    requires |s| > 0
    ensures multiset(s[1..]) == multiset(s) - multiset{s[0]}
  {
    assert s == [s[0]] + s[1..];
  }

  /** Inserting an element no smaller than everything appends it. */
  lemma {:induction false} InsertAtEnd<T(!new)>(x: T, s: seq<T>, le: (T, T) -> bool)
    requires TotalPreorder(le)
    requires SortedBy(s, le)
    requires forall i :: 0 <= i < |s| ==> le(s[i], x)
    ensures Insert(x, s, le) == s + [x]
    decreases |s|
  {
    if |s| > 0 {
      InsertAtEnd(x, s[1..], le);
      assert s == [s[0]] + s[1..];
    }
  }

  /** Sorting an already sorted sequence leaves it as it is. */
  lemma {:induction false} SortSorted<T(!new)>(s: seq<T>, le: (T, T) -> bool)
    requires TotalPreorder(le)
    requires SortedBy(s, le)
    ensures Sort(s, le) == s
    decreases |s|
  {
    if |s| > 0 {
      var p, x := s[..|s| - 1], s[|s| - 1];
      assert SortedBy(p, le) by {
        forall i, j | 0 <= i < j < |p| ensures le(p[i], p[j]) {
          assert p[i] == s[i] && p[j] == s[j];
        }
      }
      SortSorted(p, le);
      assert forall i :: 0 <= i < |p| ==> le(p[i], x) by {
        forall i | 0 <= i < |p| ensures le(p[i], x) {
          assert p[i] == s[i];
        }
      }
      InsertAtEnd(x, p, le);
      assert Sort(s, le) == Insert(x, Sort(p, le), le);
      DropLastAppend(s);
    }
  }

  /** Sorting twice gives the same result as sorting once. */
  lemma SortIdempotent<T(!new)>(s: seq<T>, le: (T, T) -> bool)
    requires TotalPreorder(le)
    ensures Sort(Sort(s, le), le) == Sort(s, le)
  {
    SortSorted(Sort(s, le), le);
  }

  /** Python's `sorted` on strings. */
  function SortStrings(s: seq<string>): (r: seq<string>)
    ensures multiset(r) == multiset(s)
    ensures forall i, j :: 0 <= i < j < |r| ==> StrLe(r[i], r[j])
  {
    StrLeIsTotalOrder();
    Sort(s, StrLe)
  }

  /** Sorting strings depends only on which strings occur, and how often. */
  lemma SortStringsPermutation(a: seq<string>, b: seq<string>)
    requires multiset(a) == multiset(b)
    ensures SortStrings(a) == SortStrings(b)
  {
    StrLeIsTotalOrder();
    SortedUnique(SortStrings(a), SortStrings(b), StrLe);
  }

  /** `s` is strictly increasing, so it has no repeated element. */
  ghost predicate StrictlyIncreasing(s: seq<int>) {
    forall i, j :: 0 <= i < j < |s| ==> s[i] < s[j]
  }

  predicate IntLe(a: int, b: int) {
    a <= b
  }

  /** Drops the repeats from a sorted sequence of integers. */
  function DedupSorted(s: seq<int>): (r: seq<int>)
    requires SortedBy(s, IntLe)
    ensures StrictlyIncreasing(r)
    ensures forall x :: x in r <==> x in s
    ensures |s| > 0 ==> |r| > 0 && r[0] == s[0]
    decreases |s|
  {
    if |s| <= 1 then s
    else
      var rest := DedupSorted(s[1..]);
      assert s[0] <= rest[0];
      if s[0] == s[1] then rest else [s[0]] + rest
  }

  /** `sorted(set(s))` on integers. */
  function SortedDistinct(s: seq<int>): (r: seq<int>)
    ensures StrictlyIncreasing(r)
    ensures forall x :: x in r <==> x in s
  {
    var sorted := Sort(s, IntLe);
    assert forall x :: x in sorted <==> x in multiset(s);
    DedupSorted(sorted)
  }
}
