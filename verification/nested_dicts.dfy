/**
 * The nested-dictionary helpers of flowmachine's utilities: turning every key
 * of a nested dictionary into a string (so that it is valid JSON) and
 * sorting a nested dictionary recursively.
 *
 * A dictionary is a sequence of key/value entries in insertion order, as
 * Python keeps them; assigning to a key that is already present replaces
 * its value in place.
 */
module NestedDicts {
  import opened Wrappers
  import opened Ordering
  import opened SeqUtil

  // ---------------------------------------------------------------------
  // Dictionaries as insertion-ordered entry sequences
  // ---------------------------------------------------------------------

  function Keys<K(==, !new), V(==, !new)>(d: seq<(K, V)>): set<K> {
    set p | p in d :: p.0
  }

  lemma KeysCons<K(!new), V(!new)>(x: (K, V), s: seq<(K, V)>)
    ensures Keys([x] + s) == {x.0} + Keys(s)
  {
    assert forall p :: p in [x] + s <==> p == x || p in s;
  }

  lemma KeysSnoc<K(!new), V(!new)>(s: seq<(K, V)>, x: (K, V))
    ensures Keys(s + [x]) == Keys(s) + {x.0}
  {
    assert forall p :: p in s + [x] <==> p in s || p == x;
  }

  /** No key occurs twice: what every Python dictionary satisfies. */
  ghost predicate DistinctKeys<K(!new), V(!new)>(d: seq<(K, V)>) {
    forall i, j :: 0 <= i < j < |d| ==> d[i].0 != d[j].0
  }

  /** `d.get(k)`: the value of the first entry with key `k`. */
  function Get<K(==, !new), V(==, !new)>(d: seq<(K, V)>, k: K): (r: Option<V>)
    ensures r.Some? <==> k in Keys(d)
    ensures r.Some? ==> (k, r.value) in d
  {
    if |d| == 0 then None
    else
      assert d == [d[0]] + d[1..];
      KeysCons(d[0], d[1..]);
      if d[0].0 == k then Some(d[0].1) else Get(d[1..], k)
  }

  /** `d[k] = v`: replace the value in place when `k` is present, otherwise append. */
  function Assign<K(==, !new), V(==, !new)>(d: seq<(K, V)>, k: K, v: V): (r: seq<(K, V)>)
    ensures Keys(r) == Keys(d) + {k}
    ensures k !in Keys(d) ==> r == d + [(k, v)]
  {
    assert |d| > 0 ==> d == [d[0]] + d[1..];
    if |d| == 0 then [(k, v)]
    else if d[0].0 == k then
      KeysCons(d[0], d[1..]);
      KeysCons((k, v), d[1..]);
      [(k, v)] + d[1..]
    else
      KeysCons(d[0], d[1..]);
      KeysCons(d[0], Assign(d[1..], k, v));
      [d[0]] + Assign(d[1..], k, v)
  }

  /** After `d[k] = v`, `k` maps to `v` and every other key to what it did. */
  lemma {:induction false} AssignGet<K(!new), V(!new)>(d: seq<(K, V)>, k: K, v: V, k': K)
    ensures Get(Assign(d, k, v), k') == if k' == k then Some(v) else Get(d, k')
  {
    if |d| > 0 && d[0].0 != k {
      AssignGet(d[1..], k, v, k');
    }
  }

  /** Assignment keeps keys distinct. */
  lemma {:induction false} AssignDistinct<K(!new), V(!new)>(d: seq<(K, V)>, k: K, v: V)
    requires DistinctKeys(d)
    ensures DistinctKeys(Assign(d, k, v))
  {
    if |d| > 0 {
      DistinctTail(d);
      if d[0].0 != k {
        AssignDistinct(d[1..], k, v);
        DistinctCons(d[0], Assign(d[1..], k, v));
      } else {
        DistinctCons((k, v), d[1..]);
      }
    }
  }

  /** The tail of a dictionary keeps distinct keys, none of them the head's. */
  lemma DistinctTail<K(!new), V(!new)>(d: seq<(K, V)>)
    requires DistinctKeys(d) && |d| > 0
    ensures DistinctKeys(d[1..]) && d[0].0 !in Keys(d[1..])
  {
    forall p | p in d[1..] ensures p.0 != d[0].0 {
      var j :| 0 <= j < |d[1..]| && d[1..][j] == p;
      assert d[j + 1] == p;
    }
  }

  /** An entry whose key is new may head a dictionary with distinct keys. */
  lemma DistinctCons<K(!new), V(!new)>(x: (K, V), rest: seq<(K, V)>)
    requires DistinctKeys(rest) && x.0 !in Keys(rest)
    ensures DistinctKeys([x] + rest)
  {
    var r := [x] + rest;
    forall i, j | 0 <= i < j < |r| ensures r[i].0 != r[j].0 {
      assert r[j] == rest[j - 1];
      if i > 0 {
        assert r[i] == rest[i - 1];
      } else {
        assert r[j] in rest;
      }
    }
  }

  /** Every entry after `d[k] = v` was in `d` or is the new one. */
  lemma {:induction false} AssignEntries<K(!new), V(!new)>(d: seq<(K, V)>, k: K, v: V, p: (K, V))
    requires p in Assign(d, k, v)
    ensures p in d || p == (k, v)
  {
    if |d| > 0 && d[0].0 != k && p != d[0] {
      AssignEntries(d[1..], k, v, p);
    }
  }

  /** The value last given to `k` in `pairs`, if any. */
  function LastWith<K(==, !new), V(==, !new)>(pairs: seq<(K, V)>, k: K): (r: Option<V>)
    ensures r.Some? <==> k in Keys(pairs)
    decreases |pairs|
  {
    if |pairs| == 0 then None
    else
      var prefix := pairs[..|pairs| - 1];
      assert pairs == prefix + [pairs[|pairs| - 1]];
      KeysSnoc(prefix, pairs[|pairs| - 1]);
      if pairs[|pairs| - 1].0 == k then Some(pairs[|pairs| - 1].1) else LastWith(prefix, k)
  }

  /** Assigning every pair in turn to an empty dictionary: each key of the pairs once. */
  function BuildDict<K(==, !new), V(==, !new)>(pairs: seq<(K, V)>): (r: seq<(K, V)>)
    ensures Keys(r) == Keys(pairs)
    decreases |pairs|
  {
    if |pairs| == 0 then []
    else
      var prefix := pairs[..|pairs| - 1];
      assert pairs == prefix + [pairs[|pairs| - 1]];
      KeysSnoc(prefix, pairs[|pairs| - 1]);
      Assign(BuildDict(prefix), pairs[|pairs| - 1].0, pairs[|pairs| - 1].1)
  }

  /** Each key of the built dictionary holds the value last assigned to it. */
  lemma {:induction false} BuildDictGet<K(!new), V(!new)>(pairs: seq<(K, V)>, k: K)
    ensures Get(BuildDict(pairs), k) == LastWith(pairs, k)
    decreases |pairs|
  {
    if |pairs| > 0 {
      var prefix := pairs[..|pairs| - 1];
      var last := pairs[|pairs| - 1];
      BuildDictGet(prefix, k);
      AssignGet(BuildDict(prefix), last.0, last.1, k);
    }
  }

  /** The built dictionary has no repeated key. */
  lemma {:induction false} BuildDictDistinct<K(!new), V(!new)>(pairs: seq<(K, V)>)
    ensures DistinctKeys(BuildDict(pairs))
    decreases |pairs|
  {
    if |pairs| > 0 {
      var prefix := pairs[..|pairs| - 1];
      var last := pairs[|pairs| - 1];
      BuildDictDistinct(prefix);
      AssignDistinct(BuildDict(prefix), last.0, last.1);
    }
  }

  /** Every entry of the built dictionary is one of the pairs. */
  lemma {:induction false} BuildDictEntries<K(!new), V(!new)>(pairs: seq<(K, V)>, p: (K, V))
    requires p in BuildDict(pairs)
    ensures p in pairs
    decreases |pairs|
  {
    var prefix := pairs[..|pairs| - 1];
    var last := pairs[|pairs| - 1];
    AssignEntries(BuildDict(prefix), last.0, last.1, p);
    if p != last {
      BuildDictEntries(prefix, p);
    }
  }

  /** Without collisions the dictionary is the pairs themselves, in order. */
  lemma {:induction false} BuildDictOfDistinct<K(!new), V(!new)>(pairs: seq<(K, V)>)
    requires DistinctKeys(pairs)
    ensures BuildDict(pairs) == pairs
    decreases |pairs|
  {
    if |pairs| > 0 {
      var prefix := pairs[..|pairs| - 1];
      DistinctFront(pairs);
      BuildDictOfDistinct(prefix);
      DropLastAppend(pairs);
    }
  }

  /** Without its last entry a dictionary keeps distinct keys, none of them the last one's. */
  lemma DistinctFront<K(!new), V(!new)>(pairs: seq<(K, V)>)
    requires DistinctKeys(pairs) && |pairs| > 0
    ensures DistinctKeys(pairs[..|pairs| - 1])
    ensures pairs[|pairs| - 1].0 !in Keys(pairs[..|pairs| - 1])
  {
    var prefix := pairs[..|pairs| - 1];
    forall p | p in prefix ensures p.0 != pairs[|pairs| - 1].0 {
      var i :| 0 <= i < |prefix| && prefix[i] == p;
      assert pairs[i] == p;
    }
  }

  // ---------------------------------------------------------------------
  // convert_dict_keys_to_strings
  // ---------------------------------------------------------------------

  /** Keys of the kinds that occur in query parameters. */
  datatype Key = StrKey(s: string) | IntKey(i: int) | BoolKey(b: bool) | NoneKey

  /** A value: a nested dictionary, or anything else (kept as it is). */
  datatype Value = Dict(entries: seq<(Key, Value)>) | Other(repr: string)

  function DigitChar(d: nat): (c: char)
    requires d < 10
    ensures '0' <= c <= '9'
  {
    (48 + d) as char
  }

  /** The decimal digits of `n`, as `str` prints them. */
  function NatText(n: nat): (r: string)
    ensures |r| > 0 && forall i :: 0 <= i < |r| ==> '0' <= r[i] <= '9'
    ensures n < 10 ==> r == [DigitChar(n)]
    decreases n
  {
    if n < 10 then [DigitChar(n)] else NatText(n / 10) + [DigitChar(n % 10)]
  }

  /** `str(key)`. */
  function KeyText(k: Key): (r: string)
    ensures k.StrKey? ==> r == k.s
    ensures k.IntKey? && k.i >= 0 ==> r == NatText(k.i)
    ensures k.IntKey? && k.i < 0 ==> r == "-" + NatText(-k.i)
    ensures k.BoolKey? ==> r == (if k.b then "True" else "False")
    ensures k.NoneKey? ==> r == "None"
  {
    match k
    case StrKey(s) => s
    case IntKey(i) => if i < 0 then "-" + NatText(-i) else NatText(i)
    case BoolKey(b) => if b then "True" else "False"
    case NoneKey => "None"
  }

  /** Every dictionary, at every level, has distinct string keys: valid as JSON. */
  ghost predicate StringKeyed(v: Value) {
    v.Dict? ==>
      DistinctKeys(v.entries) &&
      forall i :: 0 <= i < |v.entries| ==> v.entries[i].0.StrKey? && StringKeyed(v.entries[i].1)
  }

  /**
   * The entries of dictionary `v`, up to the `n`-th, with each key turned
   * into its text and each value converted.
   */
  function ConvertedPairs(v: Value, n: nat): (r: seq<(Key, Value)>)
    requires v.Dict? && n <= |v.entries|
    ensures |r| == n
    ensures forall i :: 0 <= i < n ==> r[i].0 == StrKey(KeyText(v.entries[i].0)) && StringKeyed(r[i].1)
    ensures forall i :: 0 <= i < n ==> v.entries[i].1.Other? ==> r[i].1 == v.entries[i].1
    decreases v, 0, n
  {
    if n == 0 then []
    else ConvertedPairs(v, n - 1) + [(StrKey(KeyText(v.entries[n - 1].0)), ConvertDictKeysToStrings(v.entries[n - 1].1))]
  }

  /**
   * `convert_dict_keys_to_strings`: the entries in order, each key turned
   * into its text and each dictionary value converted likewise; keys that
   * print the same collide, and the later value wins.
   */
  function ConvertDictKeysToStrings(v: Value): (r: Value)
    ensures StringKeyed(r)
    ensures v.Other? ==> r == v
    ensures v.Dict? ==> r.Dict? && Keys(r.entries) == set p | p in v.entries :: StrKey(KeyText(p.0))
    decreases v, 1, 0
  {
    match v
    case Other(_) => v
    case Dict(es) =>
      var pairs := ConvertedPairs(v, |es|);
      BuildDictDistinct(pairs);
      BuildDictStringKeyed(pairs);
      ConvertedPairsKeys(v);
      Dict(BuildDict(pairs))
  }

  /** A dictionary built from string-keyed pairs with converted values is itself string-keyed below. */
  lemma BuildDictStringKeyed(pairs: seq<(Key, Value)>)
    requires forall i :: 0 <= i < |pairs| ==> pairs[i].0.StrKey? && StringKeyed(pairs[i].1)
    ensures forall i :: 0 <= i < |BuildDict(pairs)| ==> BuildDict(pairs)[i].0.StrKey? && StringKeyed(BuildDict(pairs)[i].1)
  {
    var d := BuildDict(pairs);
    forall i | 0 <= i < |d| ensures d[i].0.StrKey? && StringKeyed(d[i].1) {
      BuildDictEntries(pairs, d[i]);
      var j :| 0 <= j < |pairs| && pairs[j] == d[i];
    }
  }

  /** The converted pairs carry exactly the texts of the dictionary's keys. */
  lemma ConvertedPairsKeys(v: Value)
    requires v.Dict?
    ensures Keys(ConvertedPairs(v, |v.entries|)) == set p | p in v.entries :: StrKey(KeyText(p.0))
    decreases v, 0, |v.entries| + 1
  {
    var es, pairs := v.entries, ConvertedPairs(v, |v.entries|);
    forall p | p in es ensures StrKey(KeyText(p.0)) in Keys(pairs) {
      var i :| 0 <= i < |es| && es[i] == p;
      assert pairs[i] in pairs;
    }
  }

  /**
   * Each key of the converted dictionary holds the converted value last
   * given to a key with the same text; a value that is not a dictionary is
   * kept as it is.
   */
  lemma ConvertLastValueWins(v: Value, k: Key)
    requires v.Dict?
    ensures Get(ConvertDictKeysToStrings(v).entries, StrKey(KeyText(k))) == LastWith(ConvertedPairs(v, |v.entries|), StrKey(KeyText(k)))
  {
    BuildDictGet(ConvertedPairs(v, |v.entries|), StrKey(KeyText(k)));
  }

  /** A dictionary already keyed by distinct strings at every level comes back unchanged. */
  lemma {:induction false} ConvertStringKeyedUnchanged(v: Value)
    requires StringKeyed(v)
    ensures ConvertDictKeysToStrings(v) == v
    decreases v
  {
    if v.Dict? {
      var es := v.entries;
      var pairs := ConvertedPairs(v, |es|);
      forall i | 0 <= i < |es| ensures pairs[i] == es[i] {
        ConvertedPairsAt(v, |es|, i);
        ConvertStringKeyedUnchanged(es[i].1);
      }
      assert pairs == es;
      BuildDictOfDistinct(es);
    }
  }

  lemma {:induction false} ConvertedPairsAt(v: Value, n: nat, i: nat)
    requires v.Dict? && i < n <= |v.entries|
    ensures ConvertedPairs(v, n)[i].1 == ConvertDictKeysToStrings(v.entries[i].1)
    decreases n
  {
    if i < n - 1 {
      ConvertedPairsAt(v, n - 1, i);
    }
  }

  /** Converting twice is converting once. */
  lemma ConvertIdempotent(v: Value)
    ensures ConvertDictKeysToStrings(ConvertDictKeysToStrings(v)) == ConvertDictKeysToStrings(v)
  {
    ConvertStringKeyedUnchanged(ConvertDictKeysToStrings(v));
  }

  /** `{1: "a", "1": "b"}` becomes `{"1": "b"}`: the keys collide and the later value wins. */
  lemma ConvertCollision()
    ensures ConvertDictKeysToStrings(Dict([(IntKey(1), Other("a")), (StrKey("1"), Other("b"))]))
         == Dict([(StrKey("1"), Other("b"))])
  {
    var v := Dict([(IntKey(1), Other("a")), (StrKey("1"), Other("b"))]);
    var pairs := ConvertedPairs(v, 2);
    assert pairs == [(StrKey("1"), Other("a")), (StrKey("1"), Other("b"))];
    var first := pairs[..1];
    assert first == [(StrKey("1"), Other("a"))];
    assert first[..0] == [];
    assert BuildDict(first) == [(StrKey("1"), Other("a"))];
    assert BuildDict(pairs) == Assign(BuildDict(first), StrKey("1"), Other("b"));
  }

  /** Nested dictionaries are converted, other values are kept: `{1: {2: "x"}, None: "y"}`. */
  lemma ConvertNested()
    ensures ConvertDictKeysToStrings(Dict([(IntKey(1), Dict([(IntKey(2), Other("x"))])), (NoneKey, Other("y"))]))
         == Dict([(StrKey("1"), Dict([(StrKey("2"), Other("x"))])), (StrKey("None"), Other("y"))])
  {
    var inner := Dict([(IntKey(2), Other("x"))]);
    var innerPairs := ConvertedPairs(inner, 1);
    assert innerPairs == [(StrKey("2"), Other("x"))];
    assert innerPairs[..0] == [];
    var v := Dict([(IntKey(1), inner), (NoneKey, Other("y"))]);
    var pairs := ConvertedPairs(v, 2);
    ConvertedPairsAt(v, 2, 0);
    assert pairs == [(StrKey("1"), Dict([(StrKey("2"), Other("x"))])), (StrKey("None"), Other("y"))];
    assert pairs[..1][..0] == [];
    assert pairs[..1] == [(StrKey("1"), Dict([(StrKey("2"), Other("x"))]))];
  }

  // ---------------------------------------------------------------------
  // sort_recursively
  // ---------------------------------------------------------------------

  /** A JSON-like value with string keys. */
  datatype Json = JDict(entries: seq<(string, Json)>) | JList(items: seq<Json>) | JScalar(text: string)

  /** Every dictionary, at every level (inside lists too), has distinct keys. */
  ghost predicate WellFormed(v: Json) {
    match v
    case JDict(es) => DistinctKeys(es) && forall i :: 0 <= i < |es| ==> WellFormed(es[i].1)
    case JList(items) => forall i :: 0 <= i < |items| ==> WellFormed(items[i])
    case JScalar(_) => true
  }

  function KeyList(es: seq<(string, Json)>): (r: seq<string>)
    ensures |r| == |es| && forall i :: 0 <= i < |es| ==> r[i] == es[i].0
  {
    seq(|es|, i requires 0 <= i < |es| => es[i].0)
  }

  /** Where key `k` sits in `es`. */
  function KeyIndex(es: seq<(string, Json)>, k: string): (i: nat)
    requires k in KeyList(es)
    ensures i < |es| && es[i].0 == k
    ensures forall j :: 0 <= j < i ==> es[j].0 != k
  {
    if es[0].0 == k then 0
    else
      assert KeyList(es)[1..] == KeyList(es[1..]);
      1 + KeyIndex(es[1..], k)
  }

  /** What `sort_recursively` leaves behind: ascending keys, sorted dictionary values, sorted lists. */
  ghost predicate SortedForm(v: Json, listLe: (Json, Json) -> bool) {
    match v
    case JDict(es) =>
      (forall i, j :: 0 <= i < j < |es| ==> StrLt(es[i].0, es[j].0)) &&
      forall i :: 0 <= i < |es| ==> SortedForm(es[i].1, listLe)
    case JList(items) => SortedBy(items, listLe)
    case JScalar(_) => true
  }

  /** `{key: sort_recursively(d[key]) for key in ks}` for the first `n` of the keys `ks` of dictionary `v`. */
  function SortedEntries(v: Json, ks: seq<string>, n: nat, listLe: (Json, Json) -> bool): (r: seq<(string, Json)>)
    requires TotalPreorder(listLe)
    requires v.JDict? && WellFormed(v)
    requires n <= |ks| && forall i :: 0 <= i < |ks| ==> ks[i] in KeyList(v.entries)
    ensures |r| == n
    ensures forall i :: 0 <= i < n ==> r[i].0 == ks[i] && WellFormed(r[i].1) && SortedForm(r[i].1, listLe)
    ensures forall i :: 0 <= i < n ==> r[i].1 == SortRecursively(v.entries[KeyIndex(v.entries, ks[i])].1, listLe)
    decreases v, 0, n
  {
    if n == 0 then []
    else
      var j := KeyIndex(v.entries, ks[n - 1]);
      SortedEntries(v, ks, n - 1, listLe) + [(ks[n - 1], SortRecursively(v.entries[j].1, listLe))]
  }

  /**
   * `sort_recursively`: a dictionary is rebuilt in ascending key order with
   * each value sorted recursively; a list is sorted (stably) by the order
   * `listLe` Python's comparison of `to_nested_list` keys induces, its
   * elements left as they are; anything else is returned unchanged.
   */
  function SortRecursively(v: Json, listLe: (Json, Json) -> bool): (r: Json)
    requires TotalPreorder(listLe)
    requires WellFormed(v)
    ensures WellFormed(r) && SortedForm(r, listLe)
    ensures v.JScalar? ==> r == v
    ensures v.JList? ==> r.JList? && multiset(r.items) == multiset(v.items)
    ensures v.JDict? ==> r.JDict? && Keys(r.entries) == Keys(v.entries)
    ensures v.JDict? ==> forall i :: 0 <= i < |v.entries| ==>
              Get(r.entries, v.entries[i].0) == Some(SortRecursively(v.entries[i].1, listLe))
    ensures v.JList? ==> forall x :: Ties(r.items, x, listLe) == Ties(v.items, x, listLe)
    decreases v, 1, 0
  {
    match v
    case JScalar(_) => v
    case JList(items) =>
      var sorted := Sort(items, listLe);
      assert forall i :: 0 <= i < |sorted| ==> sorted[i] in multiset(items);
      SortIsStable(items, listLe);
      JList(sorted)
    case JDict(es) =>
      var ks := SortStrings(KeyList(es));
      assert forall i :: 0 <= i < |ks| ==> ks[i] in multiset(KeyList(es));
      var d := SortedEntries(v, ks, |ks|, listLe);
      DistinctSortedAscending(es, ks);
      SortedKeysSameKeys(es, ks, d);
      SortedEntriesGet(v, ks, listLe);
      JDict(d)
  }

  /** In a dictionary with distinct keys, `Get` finds each entry's own value. */
  lemma {:induction false} GetAt<K(!new), V(!new)>(d: seq<(K, V)>, m: nat)
    requires DistinctKeys(d) && m < |d|
    ensures Get(d, d[m].0) == Some(d[m].1)
  {
    if m > 0 {
      DistinctTail(d);
      assert d[1..][m - 1] == d[m];
      GetAt(d[1..], m - 1);
    }
  }

  /** The rebuilt dictionary holds, under each original key, that key's value sorted recursively. */
  lemma SortedEntriesGet(v: Json, ks: seq<string>, listLe: (Json, Json) -> bool)
    requires TotalPreorder(listLe)
    requires v.JDict? && WellFormed(v)
    requires ks == SortStrings(KeyList(v.entries))
    ensures forall i :: 0 <= i < |ks| ==> ks[i] in KeyList(v.entries)
    ensures forall i :: 0 <= i < |v.entries| ==>
              Get(SortedEntries(v, ks, |ks|, listLe), v.entries[i].0) == Some(SortRecursively(v.entries[i].1, listLe))
    decreases v, 0, |ks| + 2
  {
    assert forall i :: 0 <= i < |ks| ==> ks[i] in multiset(KeyList(v.entries));
    SortedEntriesDistinct(v, ks, listLe);
    forall i | 0 <= i < |v.entries| {
      SortedEntryAt(v, ks, listLe, i);
    }
  }

  /** The rebuilt dictionary's keys are distinct, since the sorted keys ascend strictly. */
  lemma SortedEntriesDistinct(v: Json, ks: seq<string>, listLe: (Json, Json) -> bool)
    requires TotalPreorder(listLe)
    requires v.JDict? && WellFormed(v)
    requires ks == SortStrings(KeyList(v.entries))
    requires forall i :: 0 <= i < |ks| ==> ks[i] in KeyList(v.entries)
    ensures DistinctKeys(SortedEntries(v, ks, |ks|, listLe))
    decreases v, 0, |ks| + 1
  {
    var d := SortedEntries(v, ks, |ks|, listLe);
    DistinctSortedAscending(v.entries, ks);
    forall a, b | 0 <= a < b < |d| ensures d[a].0 != d[b].0 {
      assert StrLt(ks[a], ks[b]);
    }
  }

  /** The entry for the `i`-th original key. */
  lemma SortedEntryAt(v: Json, ks: seq<string>, listLe: (Json, Json) -> bool, i: nat)
    requires TotalPreorder(listLe)
    requires v.JDict? && WellFormed(v)
    requires ks == SortStrings(KeyList(v.entries))
    requires forall i :: 0 <= i < |ks| ==> ks[i] in KeyList(v.entries)
    requires DistinctKeys(SortedEntries(v, ks, |ks|, listLe))
    requires i < |v.entries|
    ensures Get(SortedEntries(v, ks, |ks|, listLe), v.entries[i].0) == Some(SortRecursively(v.entries[i].1, listLe))
    decreases v, 0, |ks| + 1
  {
    var es := v.entries;
    var d := SortedEntries(v, ks, |ks|, listLe);
    var k := es[i].0;
    assert KeyList(es)[i] == k;
    assert k in multiset(ks);
    var m :| 0 <= m < |ks| && ks[m] == k;
    assert DistinctKeys(es);
    var j := KeyIndex(es, k);
    assert j == i;
    assert d[m] == (k, SortRecursively(es[i].1, listLe));
    GetAt(d, m);
  }

  /** Entries carrying the sorted keys have the dictionary's keys. */
  lemma SortedKeysSameKeys(es: seq<(string, Json)>, ks: seq<string>, d: seq<(string, Json)>)
    requires ks == SortStrings(KeyList(es))
    requires |d| == |ks| && forall i :: 0 <= i < |d| ==> d[i].0 == ks[i]
    ensures Keys(d) == Keys(es)
  {
    forall p | p in es ensures p.0 in Keys(d) {
      var j :| 0 <= j < |es| && es[j] == p;
      assert KeyList(es)[j] == p.0;
      assert p.0 in multiset(ks);
      var i :| 0 <= i < |ks| && ks[i] == p.0;
      assert d[i] in d;
    }
    forall p | p in d ensures p.0 in Keys(es) {
      var i :| 0 <= i < |d| && d[i] == p;
      assert ks[i] in multiset(KeyList(es));
      var j :| 0 <= j < |es| && KeyList(es)[j] == ks[i];
      assert es[j] in es;
    }
  }

  /** The sorted keys of a dictionary with distinct keys ascend strictly. */
  lemma DistinctSortedAscending(es: seq<(string, Json)>, ks: seq<string>)
    requires DistinctKeys(es)
    requires ks == SortStrings(KeyList(es))
    ensures forall i, j :: 0 <= i < j < |ks| ==> StrLt(ks[i], ks[j])
  {
    forall i, j | 0 <= i < j < |ks| ensures StrLt(ks[i], ks[j]) {
      if ks[i] == ks[j] {
        var m := multiset(KeyList(es));
        assert m[ks[i]] >= 2 by {
          assert ks[..i + 1] + ks[i + 1..] == ks;
          assert multiset(ks) == multiset(ks[..i + 1]) + multiset(ks[i + 1..]);
          assert ks[i] in ks[..i + 1];
          assert ks[j] == ks[i + 1..][j - i - 1];
        }
        DistinctCountsOnce(es, ks[i]);
      }
    }
  }

  lemma {:induction false} DistinctCountsOnce(es: seq<(string, Json)>, k: string)
    requires DistinctKeys(es)
    ensures multiset(KeyList(es))[k] <= 1
  {
    if |es| > 0 {
      DistinctCountsOnce(es[1..], k);
      assert KeyList(es) == [es[0].0] + KeyList(es[1..]);
      if es[0].0 == k {
        assert k !in KeyList(es[1..]);
      }
    }
  }

  /** A dictionary whose keys ascend has them already sorted. */
  lemma AscendingKeysSorted(es: seq<(string, Json)>)
    requires forall i, j :: 0 <= i < j < |es| ==> StrLt(es[i].0, es[j].0)
    ensures SortStrings(KeyList(es)) == KeyList(es)
  {
    var keys := KeyList(es);
    StrLeIsTotalOrder();
    assert SortedBy(keys, StrLe) by {
      forall i, j | 0 <= i < j < |keys| ensures StrLe(keys[i], keys[j]) {
        assert StrLt(es[i].0, es[j].0);
      }
    }
    SortSorted(keys, StrLe);
  }

  /** A value already in sorted form comes back unchanged. */
  lemma {:induction false} SortedFormFixed(v: Json, listLe: (Json, Json) -> bool)
    requires TotalPreorder(listLe)
    requires WellFormed(v) && SortedForm(v, listLe)
    ensures SortRecursively(v, listLe) == v
    decreases v
  {
    match v
    case JScalar(_) =>
    case JList(items) =>
      SortSorted(items, listLe);
    case JDict(es) =>
      AscendingKeysSorted(es);
      var ks := KeyList(es);
      var d := SortedEntries(v, ks, |ks|, listLe);
      forall i | 0 <= i < |es| ensures d[i] == es[i] {
        assert KeyIndex(es, ks[i]) == i;
        SortedFormFixed(es[i].1, listLe);
      }
      assert d == es;
  }

  /** Sorting twice is sorting once. */
  lemma SortRecursivelyIdempotent(v: Json, listLe: (Json, Json) -> bool)
    requires TotalPreorder(listLe)
    requires WellFormed(v)
    ensures SortRecursively(SortRecursively(v, listLe), listLe) == SortRecursively(v, listLe)
  {
    SortedFormFixed(SortRecursively(v, listLe), listLe);
  }
}
