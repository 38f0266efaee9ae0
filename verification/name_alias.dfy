/**
 * `get_name_and_alias`: a column expression `name AS alias` split into the
 * column and the name it is known by.
 */
module NameAlias {
  import opened SeqUtil

  /** `c.isspace()`: the characters Python's `strip()` removes. */
  predicate IsSpace(c: char) {
    c == ' ' || ('\t' <= c <= '\r') || ('\U{1c}' <= c <= '\U{1f}') || c == '\U{85}' || c == '\U{a0}' ||
    c == '\U{1680}' || ('\U{2000}' <= c <= '\U{200a}') || c == '\U{2028}' || c == '\U{2029}' ||
    c == '\U{202f}' || c == '\U{205f}' || c == '\U{3000}'
  }

  function StripLeft(s: string): (r: string)
    ensures EndsWith(s, r)
    ensures |r| > 0 ==> !IsSpace(r[0])
    ensures forall i :: 0 <= i < |s| - |r| ==> IsSpace(s[i])
    decreases |s|
  {
    if |s| > 0 && IsSpace(s[0]) then
      var t := s[1..];
      var r := StripLeft(t);
      SpaceThenSuffix(s, t, r);
      r
    else s
  }

  /** Below a leading space, a suffix of the rest preceded by spaces is one of the whole. */
  lemma SpaceThenSuffix(s: string, t: string, r: string)
    requires |s| > 0 && IsSpace(s[0]) && t == s[1..]
    requires EndsWith(t, r) && forall i :: 0 <= i < |t| - |r| ==> IsSpace(t[i])
    ensures EndsWith(s, r) && forall i :: 0 <= i < |s| - |r| ==> IsSpace(s[i])
  {
    DropDrop(s, 1, |t| - |r|);
    assert forall i :: 1 <= i < |s| - |r| ==> s[i] == t[i - 1];
  }

  function StripRight(s: string): (r: string)
    ensures StartsWith(s, r)
    ensures |r| > 0 ==> !IsSpace(r[|r| - 1])
    ensures forall i :: |r| <= i < |s| ==> IsSpace(s[i])
    decreases |s|
  {
    if |s| > 0 && IsSpace(s[|s| - 1]) then
      var t := s[..|s| - 1];
      var r := StripRight(t);
      PrefixThenSpace(s, t, r);
      r
    else s
  }

  /** Above a trailing space, a prefix of the rest followed by spaces is one of the whole. */
  lemma PrefixThenSpace(s: string, t: string, r: string)
    requires |s| > 0 && IsSpace(s[|s| - 1]) && t == s[..|s| - 1]
    requires StartsWith(t, r) && forall i :: |r| <= i < |t| ==> IsSpace(t[i])
    ensures StartsWith(s, r) && forall i :: |r| <= i < |s| ==> IsSpace(s[i])
  {
    assert s[..|r|] == t[..|r|];
  }

  /** `s.strip()`: the text without leading and trailing white space. */
  function Strip(s: string): (r: string)
    ensures |r| > 0 ==> !IsSpace(r[0]) && !IsSpace(r[|r| - 1])
    ensures exists i, j :: 0 <= i <= j <= |s| && r == s[i..j] &&
                           (forall k :: 0 <= k < i ==> IsSpace(s[k])) && (forall k :: j <= k < |s| ==> IsSpace(s[k]))
  {
    var t := StripLeft(s);
    var r := StripRight(t);
    StripBounds(s, t, r);
    r
  }

  /** The two strips leave a slice of `s` with white space only outside it. */
  lemma StripBounds(s: string, t: string, r: string)
    requires EndsWith(s, t) && forall k :: 0 <= k < |s| - |t| ==> IsSpace(s[k])
    requires StartsWith(t, r) && forall k :: |r| <= k < |t| ==> IsSpace(t[k])
    ensures exists i, j :: 0 <= i <= j <= |s| && r == s[i..j] &&
                           (forall k :: 0 <= k < i ==> IsSpace(s[k])) && (forall k :: j <= k < |s| ==> IsSpace(s[k]))
  {
    var i := |s| - |t|;
    var j := i + |r|;
    assert t == s[i..];
    assert r == t[..|r|] == s[i..j];
    assert forall k :: j <= k < |s| ==> s[k] == t[k - i];
  }

  /** A text that does not start or end with white space is its own strip. */
  lemma StripUnspaced(s: string)
    requires |s| > 0 ==> !IsSpace(s[0]) && !IsSpace(s[|s| - 1])
    ensures Strip(s) == s
  {
  }

  /** The pattern ` as ` matched case-insensitively (`re.IGNORECASE` also folds `ſ` onto `s`). */
  predicate AsAt(s: string, i: int)
    requires 0 <= i && i + 4 <= |s|
  {
    s[i] == ' ' && (s[i + 1] == 'a' || s[i + 1] == 'A') &&
    (s[i + 2] == 's' || s[i + 2] == 'S' || s[i + 2] == '\U{17f}') && s[i + 3] == ' '
  }

  /** `s` holds a match of the pattern. */
  ghost predicate HasAs(s: string) {
    exists i :: 0 <= i && i + 4 <= |s| && AsAt(s, i)
  }

  /** Where the first match at or after `from` starts, or `|s|` when there is none. */
  function FindAsFrom(s: string, from: nat): (r: nat)
    requires from <= |s|
    ensures from <= r <= |s|
    ensures r < |s| ==> r + 4 <= |s| && AsAt(s, r)
    ensures forall j :: from <= j < r && j + 4 <= |s| ==> !AsAt(s, j)
    decreases |s| - from
  {
    if |s| - from < 4 then |s|
    else if AsAt(s, from) then from
    else FindAsFrom(s, from + 1)
  }

  /** Where the first match starts, or `|s|` when there is none. */
  function FindAs(s: string): (r: nat)
    ensures r <= |s|
    ensures r < |s| ==> r + 4 <= |s| && AsAt(s, r)
    ensures forall j :: 0 <= j < r && j + 4 <= |s| ==> !AsAt(s, j)
  {
    FindAsFrom(s, 0)
  }

  /** The search reaches the end exactly when the text holds no match. */
  lemma FoundIffMatch(s: string)
    ensures FindAs(s) < |s| <==> HasAs(s)
  {
    if FindAs(s) < |s| {
      assert AsAt(s, FindAs(s));
    }
  }

  /** A stretch of `s` where no match starts holds no match as a text of its own. */
  lemma UnmatchedSlice(s: string, from: nat, to: nat)
    requires from <= to <= |s|
    requires forall j :: from <= j && j + 4 <= to ==> !AsAt(s, j)
    ensures !HasAs(s[from..to])
  {
    forall j | 0 <= j && j + 4 <= to - from ensures !AsAt(s[from..to], j) {
      assert AsAt(s[from..to], j) == AsAt(s, from + j);
    }
  }

  /** A suffix with no match is one the search from its start runs through. */
  lemma UnmatchedSuffixFound(s: string, from: nat)
    requires from <= |s| && !HasAs(s[from..])
    ensures FindAsFrom(s, from) == |s|
  {
    forall j | from <= j && j + 4 <= |s| ensures !AsAt(s, j) {
      assert AsAt(s, j) == AsAt(s[from..], j - from);
    }
  }

  /** The pieces `re.split` gives for the text from `from` on. */
  function SplitAsFrom(s: string, from: nat): (r: seq<string>)
    requires from <= |s|
    ensures |r| >= 1
    ensures |r| == 1 <==> FindAsFrom(s, from) == |s|
    ensures |r| == 1 ==> r[0] == s[from..]
    ensures |r| > 1 ==> r[0] == s[from..FindAsFrom(s, from)]
    decreases |s| - from
  {
    var i := FindAsFrom(s, from);
    if i == |s| then [s[from..]] else [s[from..i]] + SplitAsFrom(s, i + 4)
  }

  /**
   * `re.split(" as ", s, flags=re.IGNORECASE)`: the text between
   * non-overlapping matches found from the left.
   */
  function SplitAs(s: string): (r: seq<string>)
    ensures |r| >= 1
    ensures |r| == 1 <==> !HasAs(s)
    ensures |r| == 1 ==> r[0] == s
    ensures |r| > 1 ==> r[0] == s[..FindAs(s)]
  {
    FoundIffMatch(s);
    assert s[0..] == s;
    SplitAsFrom(s, 0)
  }

  /** The matches `SplitAsFrom` splits at, in order. */
  function SeparatorsFrom(s: string, from: nat): (r: seq<string>)
    requires from <= |s|
    ensures forall k :: 0 <= k < |r| ==> |r[k]| == 4 && AsAt(r[k], 0)
    decreases |s| - from
  {
    var i := FindAsFrom(s, from);
    if i == |s| then []
    else
      assert AsAt(s[i..i + 4], 0) == AsAt(s, i);
      [s[i..i + 4]] + SeparatorsFrom(s, i + 4)
  }

  /** The matches `SplitAs` splits at, in order: each is ` as ` in some case. */
  function Separators(s: string): (r: seq<string>)
    ensures forall k :: 0 <= k < |r| ==> |r[k]| == 4 && AsAt(r[k], 0)
  {
    SeparatorsFrom(s, 0)
  }

  /** The pieces with the separators put back between them. */
  function Interleave(pieces: seq<string>, seps: seq<string>): string
    requires |pieces| == |seps| + 1
    decreases |seps|
  {
    if |seps| == 0 then pieces[0] else pieces[0] + seps[0] + Interleave(pieces[1..], seps[1..])
  }

  /** `Interleave` on a leading piece and separator. */
  lemma InterleaveCons(head: string, sep: string, rest: seq<string>, restSeps: seq<string>)
    requires |rest| == |restSeps| + 1
    ensures Interleave([head] + rest, [sep] + restSeps) == head + sep + Interleave(rest, restSeps)
  {
    assert ([head] + rest)[1..] == rest && ([sep] + restSeps)[1..] == restSeps;
  }

  /** Past a match at `i`, the pieces and separators continue from `i + 4`. */
  lemma SplitAsFromStep(s: string, from: nat, i: nat)
    requires from <= i < |s| && i == FindAsFrom(s, from)
    ensures SplitAsFrom(s, from) == [s[from..i]] + SplitAsFrom(s, i + 4)
    ensures SeparatorsFrom(s, from) == [s[i..i + 4]] + SeparatorsFrom(s, i + 4)
  {
  }

  /** The pieces alone, past a match at `i`. */
  lemma SplitAsFromUnfold(s: string, from: nat, i: nat)
    requires from <= i < |s| && i == FindAsFrom(s, from)
    ensures SplitAsFrom(s, from) == [s[from..i]] + SplitAsFrom(s, i + 4)
  {
  }

  /** From `from` on, putting the separators back between the pieces rebuilds the text. */
  ghost predicate RebuildsFrom(s: string, from: nat)
    requires from <= |s|
  {
    && |SplitAsFrom(s, from)| == |SeparatorsFrom(s, from)| + 1
    && Interleave(SplitAsFrom(s, from), SeparatorsFrom(s, from)) == s[from..]
  }

  /** From `from` on, putting the separators back between the pieces rebuilds the text. */
  lemma {:induction false} SplitAsFromRebuilds(s: string, from: nat)
    requires from <= |s|
    ensures RebuildsFrom(s, from)
    decreases |s| - from
  {
    var i := FindAsFrom(s, from);
    if i < |s| {
      SplitAsFromRebuilds(s, i + 4);
      RebuildsPastMatch(s, from, i);
    } else {
      RebuildsWithoutMatch(s, from);
    }
  }

  /** With no match from `from` on, the one piece is the whole rest and there is no separator. */
  lemma RebuildsWithoutMatch(s: string, from: nat)
    requires from <= |s| && FindAsFrom(s, from) == |s|
    ensures RebuildsFrom(s, from)
  {
    assert SplitAsFrom(s, from) == [s[from..]] && SeparatorsFrom(s, from) == [];
  }

  /** The inductive step of `SplitAsFromRebuilds`: a match at `i` puts its separator back. */
  lemma RebuildsPastMatch(s: string, from: nat, i: nat)
    requires from <= i < |s| && i == FindAsFrom(s, from)
    requires RebuildsFrom(s, i + 4)
    ensures RebuildsFrom(s, from)
  {
    SplitAsFromStep(s, from, i);
    InterleaveCons(s[from..i], s[i..i + 4], SplitAsFrom(s, i + 4), SeparatorsFrom(s, i + 4));
    assert s[from..] == s[from..i] + s[i..i + 4] + s[i + 4..];
  }

  /** Putting the matched separators back between the pieces rebuilds the text. */
  lemma SplitAsRebuilds(s: string)
    ensures |SplitAs(s)| == |Separators(s)| + 1
    ensures Interleave(SplitAs(s), Separators(s)) == s
  {
    SplitAsFromRebuilds(s, 0);
    assert s[0..] == s;
  }

  /** No piece `SplitAsFrom` returns holds a match. */
  lemma {:induction false} SplitAsFromUnmatched(s: string, from: nat)
    requires from <= |s|
    ensures forall k :: 0 <= k < |SplitAsFrom(s, from)| ==> !HasAs(SplitAsFrom(s, from)[k])
    decreases |s| - from
  {
    var i := FindAsFrom(s, from);
    UnmatchedSlice(s, from, i);
    if i < |s| {
      SplitAsFromUnmatched(s, i + 4);
      var r := SplitAsFrom(s, from);
      assert r == [s[from..i]] + SplitAsFrom(s, i + 4);
    } else {
      assert s[from..i] == s[from..];
    }
  }

  /** No piece `SplitAs` returns holds a match. */
  lemma SplitAsPiecesUnmatched(s: string)
    ensures forall k :: 0 <= k < |SplitAs(s)| ==> !HasAs(SplitAs(s)[k])
  {
    SplitAsFromUnmatched(s, 0);
  }

  /**
   * Where the text after the last match at or after `from` starts, or
   * `from` when there is none.
   */
  function AfterLastFrom(s: string, from: nat): (k: nat)
    requires from <= |s|
    ensures from <= k <= |s|
    ensures FindAsFrom(s, from) == |s| ==> k == from
    ensures FindAsFrom(s, from) < |s| ==> from + 4 <= k && AsAt(s, k - 4)
    ensures FindAsFrom(s, k) == |s|
    decreases |s| - from
  {
    var i := FindAsFrom(s, from);
    if i == |s| then from else AfterLastFrom(s, i + 4)
  }

  /** Where the text after the last match starts, or 0 when there is no match. */
  function AfterLastAs(s: string): (k: nat)
    ensures k <= |s|
    ensures !HasAs(s) ==> k == 0
    ensures HasAs(s) ==> 4 <= k && AsAt(s, k - 4)
    ensures !HasAs(s[k..])
  {
    var k := AfterLastFrom(s, 0);
    FoundIffMatch(s);
    UnmatchedSlice(s, k, |s|);
    assert s[k..|s|] == s[k..];
    k
  }

  /** From `from` on, the last piece is the text after the last match. */
  ghost predicate LastPieceFrom(s: string, from: nat)
    requires from <= |s|
  {
    SplitAsFrom(s, from)[|SplitAsFrom(s, from)| - 1] == s[AfterLastFrom(s, from)..]
  }

  /** From `from` on, the last piece is the text after the last match. */
  lemma {:induction false} SplitAsFromLast(s: string, from: nat)
    requires from <= |s|
    ensures LastPieceFrom(s, from)
    decreases |s| - from
  {
    var i := FindAsFrom(s, from);
    if i < |s| {
      SplitAsFromLast(s, i + 4);
      LastPastMatch(s, from, i);
    } else {
      LastWithoutMatch(s, from);
    }
  }

  /** With no match from `from` on, the one piece is the whole rest. */
  lemma LastWithoutMatch(s: string, from: nat)
    requires from <= |s| && FindAsFrom(s, from) == |s|
    ensures LastPieceFrom(s, from)
  {
    assert SplitAsFrom(s, from) == [s[from..]];
  }

  /** The inductive step of `SplitAsFromLast`: a match at `i` keeps the same last piece. */
  lemma LastPastMatch(s: string, from: nat, i: nat)
    requires from <= i < |s| && i == FindAsFrom(s, from)
    requires LastPieceFrom(s, i + 4)
    ensures LastPieceFrom(s, from)
  {
    SplitAsFromUnfold(s, from, i);
    AfterLastFromStep(s, from, i);
    LastOfCons(SplitAsFrom(s, from), s[from..i], SplitAsFrom(s, i + 4));
  }

  /** Past a match at `i`, the last match is looked for from `i + 4`. */
  lemma AfterLastFromStep(s: string, from: nat, i: nat)
    requires from <= i < |s| && i == FindAsFrom(s, from)
    ensures AfterLastFrom(s, from) == AfterLastFrom(s, i + 4)
  {
  }

  /** With a match, the last piece is the text after the last match. */
  lemma SplitAsLast(s: string)
    ensures SplitAs(s)[|SplitAs(s)| - 1] == s[AfterLastAs(s)..]
  {
    SplitAsFromLast(s, 0);
  }

  /** With a match, the stripped last piece is the stripped text after the last match. */
  lemma StripLast(s: string)
    ensures Strip(SplitAs(s)[|SplitAs(s)| - 1]) == Strip(s[AfterLastAs(s)..])
  {
    SplitAsLast(s);
  }

  /**
   * `get_name_and_alias`: with an alias, the stripped text before the first
   * ` as ` and after the last; without one, the stripped text and its part
   * after the last dot.
   */
  function GetNameAndAlias(column: string): (r: (string, string))
    ensures !HasAs(column) ==> r == (Strip(column), LastPiece(Strip(column), '.'))
    ensures HasAs(column) ==> r.0 == Strip(column[..FindAs(column)])
  {
    var pieces := SplitAs(column);
    if |pieces| == 1 then (Strip(pieces[0]), LastPiece(Strip(pieces[0]), '.'))
    else
      (Strip(pieces[0]), Strip(pieces[|pieces| - 1]))
  }

  /**
   * With an alias, the alias is the stripped text after the last match: the
   * text there follows a match and holds none itself.
   */
  lemma AliasAfterLastMatch(column: string)
    requires HasAs(column)
    ensures GetNameAndAlias(column).1 == Strip(column[AfterLastAs(column)..])
  {
    assert |SplitAs(column)| > 1;
    SplitPieces(column);
    StripLast(column);
  }

  /** With more than one piece, the result is the first and last pieces stripped. */
  lemma SplitPieces(column: string)
    requires |SplitAs(column)| > 1
    ensures GetNameAndAlias(column) == (Strip(SplitAs(column)[0]), Strip(SplitAs(column)[|SplitAs(column)| - 1]))
  {
  }

  /** The first match in `name + " as " + alias` is the separator. */
  lemma FirstMatchIsSeparator(name: string, alias: string)
    requires !HasAs(name + " as")
    ensures FindAs(name + " as " + alias) == |name|
  {
    var s := name + " as " + alias;
    var t := name + " as";
    assert AsAt(s, |name|);
    forall j | 0 <= j < |name| ensures !AsAt(s, j) {
      assert AsAt(t, j) == AsAt(s, j);
    }
  }

  /** Splitting `name + " as " + alias` gives the two parts back. */
  lemma SplitAtSeparator(name: string, alias: string)
    requires !HasAs(name + " as") && !HasAs(alias)
    ensures SplitAs(name + " as " + alias) == [name, alias]
  {
    var s := name + " as " + alias;
    FirstMatchIsSeparator(name, alias);
    assert s[0..|name|] == name;
    assert s[|name| + 4..] == alias;
    UnmatchedSuffixFound(s, |name| + 4);
    assert SplitAsFrom(s, |name| + 4) == [alias];
  }

  /**
   * Joining a column and an alias with ` as ` and splitting again gives them
   * back, when neither has surrounding white space or a match of the pattern
   * (counting a match that would run into the separator).
   */
  lemma NameAndAliasRoundTrip(name: string, alias: string)
    requires |name| > 0 ==> !IsSpace(name[0]) && !IsSpace(name[|name| - 1])
    requires |alias| > 0 ==> !IsSpace(alias[0]) && !IsSpace(alias[|alias| - 1])
    requires !HasAs(name + " as") && !HasAs(alias)
    ensures GetNameAndAlias(name + " as " + alias) == (name, alias)
  {
    SplitAtSeparator(name, alias);
    StripUnspaced(name);
    StripUnspaced(alias);
  }

  /** A text with no match keeps its stripped form and its last dotted part. */
  lemma NoAliasUsesLastPart(column: string)
    requires !HasAs(column)
    ensures GetNameAndAlias(column).1 == LastPiece(Strip(column), '.')
  {
  }

  /** The last dotted part of `a.b`, when `b` has no dot, is `b`. */
  lemma LastPieceAfterDot(a: string, b: string)
    requires '.' !in b
    ensures LastPiece(a + "." + b, '.') == b
  {
    var s := a + "." + b;
    var r := LastPiece(s, '.');
    assert s[|a|] == '.';
    assert |r| == |b|;
    assert r == s[|s| - |r|..] == b;
  }

  /** Without an alias the column is known by its last dotted part (`table.col` gives `col`). */
  lemma DottedColumnAlias()
    ensures GetNameAndAlias("table.col") == ("table.col", "col")
  {
    var s := "table.col";
    assert !HasAs(s) by {
      forall j | 0 <= j && j + 4 <= |s| ensures !AsAt(s, j) {
        assert s[j + 3] != ' ';
      }
    }
    StripUnspaced(s);
    assert s == "table" + "." + "col";
    LastPieceAfterDot("table", "col");
  }
}
