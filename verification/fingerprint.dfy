/**
 * The identity of a flowmachine query: the md5 fingerprint computed from
 * its dependencies and parameters, the cache table named after it, and
 * the text and SQL a query produces about itself.
 */
module Fingerprint {
  import opened Wrappers
  import opened SeqUtil
  import opened Ordering
  import opened QueryStates

  /**
   * A reference to a query object. Python compares queries by identity,
   * and each constructor call yields its own object even when the query
   * pool hands it the `__dict__` of an equal one, so `id` tells apart two
   * objects whose class and md5 agree.
   */
  datatype QueryRef = QueryRef(id: nat, className: string, md5: string)

  /** An element of a list- or tuple-valued attribute. */
  datatype Element =
    | QueryElement(query: QueryRef)
    | PlainElement(value: string)

  /**
   * The value of one attribute in a query object's `__dict__`. A subscriber
   * subsetter is not itself a query: it enters the state through its text,
   * and the queries among its own attribute values are dependencies.
   */
  datatype AttrValue =
    | QueryAttr(query: QueryRef)
    | ListAttr(elements: seq<Element>)
    | SubsetterAttr(text: string, members: seq<Element>)
    | StrAttr(s: string)
    | OtherAttr(text: string)

  type Attribute = (string, AttrValue)

  /**
   * A query object: its class name, its attributes in `__dict__` order,
   * and the memoised fingerprint once one has been computed.
   */
  datatype QueryObject = QueryObject(className: string, attrs: seq<Attribute>, memo: Option<string>)

  /** The digest applied to the sorted component list (md5 of its text). */
  type Hasher = seq<string> -> string

  /** Attributes that never take part in the fingerprint. */
  const BadKeys: set<string> :=
    {"_cache", "_df", "_query_lock", "_len", "_query_object", "_cols", "_md5", "_runtime"}

  /** The query a list element refers to; plain elements refer to none. */
  function ElementDependency(e: Element): seq<QueryRef> {
    match e
    case QueryElement(q) => [q]
    case PlainElement(_) => []
  }

  /**
   * The queries an attribute value refers to: itself, the query elements
   * of a list, or the queries held by a subscriber subsetter.
   */
  function AttrDependencies(a: Attribute): seq<QueryRef> {
    match a.1
    case QueryAttr(q) => [q]
    case ListAttr(es) => FlatMap(es, ElementDependency)
    case SubsetterAttr(_, ms) => FlatMap(ms, ElementDependency)
    case _ => []
  }

  /**
   * `Query.dependencies`: every query object some attribute refers to, each
   * object once. Every attribute counts, including those excluded from the
   * hashed state.
   */
  function Dependencies(attrs: seq<Attribute>): (r: seq<QueryRef>)
    ensures forall q :: q in r <==> exists i :: 0 <= i < |attrs| && q in AttrDependencies(attrs[i])
    ensures forall i, j :: 0 <= i < j < |r| ==> r[i] != r[j]
  {
    assert forall q :: q in FlatMap(attrs, AttrDependencies) <==> exists i :: 0 <= i < |attrs| && q in AttrDependencies(attrs[i]) by {
      forall q ensures q in FlatMap(attrs, AttrDependencies) <==> exists i :: 0 <= i < |attrs| && q in AttrDependencies(attrs[i]) {
        FlatMapMembership(attrs, AttrDependencies, q);
      }
    }
    Dedup(FlatMap(attrs, AttrDependencies))
  }

  function RefMd5(q: QueryRef): seq<string> {
    [q.md5]
  }

  lemma {:induction false} RefMd5sPointwise(qs: seq<QueryRef>)
    ensures |FlatMap(qs, RefMd5)| == |qs|
    ensures forall i :: 0 <= i < |qs| ==> FlatMap(qs, RefMd5)[i] == qs[i].md5
    decreases |qs|
  {
    if |qs| > 0 {
      RefMd5sPointwise(qs[1..]);
      assert FlatMap(qs, RefMd5) == [qs[0].md5] + FlatMap(qs[1..], RefMd5);
    }
  }

  /**
   * The fingerprints of the dependencies: one entry per dependency object,
   * so two distinct objects with one md5 contribute it twice.
   */
  function DependencyMd5s(attrs: seq<Attribute>): (r: seq<string>)
    ensures |r| == |Dependencies(attrs)|
    ensures forall i :: 0 <= i < |r| ==> r[i] == Dependencies(attrs)[i].md5
  {
    RefMd5sPointwise(Dependencies(attrs));
    FlatMap(Dependencies(attrs), RefMd5)
  }

  /** The distinct objects among `qs` whose fingerprint is `m`. */
  ghost function ObjectsWithMd5(qs: seq<QueryRef>, m: string): set<QueryRef> {
    set q | q in qs && q.md5 == m
  }

  lemma {:induction false} Md5CountIsObjectCount(qs: seq<QueryRef>, m: string)
    requires forall i, j :: 0 <= i < j < |qs| ==> qs[i] != qs[j]
    ensures multiset(FlatMap(qs, RefMd5))[m] == |ObjectsWithMd5(qs, m)|
    decreases |qs|
  {
    if |qs| == 0 {
      assert ObjectsWithMd5(qs, m) == {};
    } else {
      DistinctTail(qs);
      Md5CountIsObjectCount(qs[1..], m);
      assert FlatMap(qs, RefMd5) == [qs[0].md5] + FlatMap(qs[1..], RefMd5);
      ObjectsWithMd5Cons(qs, m);
    }
  }

  lemma DistinctTail(qs: seq<QueryRef>)
    requires |qs| > 0 && forall i, j :: 0 <= i < j < |qs| ==> qs[i] != qs[j]
    ensures forall i, j :: 0 <= i < j < |qs[1..]| ==> qs[1..][i] != qs[1..][j]
    ensures qs[0] !in qs[1..]
  {
    assert forall i :: 0 <= i < |qs[1..]| ==> qs[1..][i] == qs[i + 1];
  }

  /** Splitting off the head splits off at most one object of a given md5. */
  lemma ObjectsWithMd5Cons(qs: seq<QueryRef>, m: string)
    requires |qs| > 0 && qs[0] !in qs[1..]
    ensures |ObjectsWithMd5(qs, m)| == (if qs[0].md5 == m then 1 else 0) + |ObjectsWithMd5(qs[1..], m)|
  {
    var rest := ObjectsWithMd5(qs[1..], m);
    assert forall q :: q in qs <==> q == qs[0] || q in qs[1..] by {
      assert qs == [qs[0]] + qs[1..];
    }
    if qs[0].md5 == m {
      assert ObjectsWithMd5(qs, m) == {qs[0]} + rest;
    } else {
      assert ObjectsWithMd5(qs, m) == rest;
    }
  }

  /**
   * An md5 enters the fingerprint once for every distinct dependency object
   * that carries it: objects are counted, not fingerprints.
   */
  lemma DependencyMd5Count(attrs: seq<Attribute>, m: string)
    ensures multiset(DependencyMd5s(attrs))[m] == |set q | q in Dependencies(attrs) && q.md5 == m|
  {
    Md5CountIsObjectCount(Dependencies(attrs), m);
  }

  /** Two separately built queries with one md5 both contribute it. */
  lemma SeparateObjectsBothContribute(attrs: seq<Attribute>, i: nat, j: nat)
    requires i < |attrs| && j < |attrs|
    requires attrs[i].1.QueryAttr? && attrs[j].1.QueryAttr?
    requires attrs[i].1.query != attrs[j].1.query
    requires attrs[i].1.query.md5 == attrs[j].1.query.md5
    ensures multiset(DependencyMd5s(attrs))[attrs[i].1.query.md5] >= 2
  {
    var p, q := attrs[i].1.query, attrs[j].1.query;
    assert p in AttrDependencies(attrs[i]) && q in AttrDependencies(attrs[j]);
    DependencyMd5Count(attrs, p.md5);
    var objs := set x | x in Dependencies(attrs) && x.md5 == p.md5;
    assert p in Dependencies(attrs) && q in Dependencies(attrs);
    assert objs == {p, q} + (objs - {p, q});
    assert |objs| == |{p, q}| + |objs - {p, q}|;
  }

  /** One object referred to from several attributes contributes its md5 once. */
  lemma SharedObjectCountsOnce(attrs: seq<Attribute>, p: QueryRef)
    requires exists i :: 0 <= i < |attrs| && p in AttrDependencies(attrs[i])
    requires forall i, q :: 0 <= i < |attrs| && q in AttrDependencies(attrs[i]) && q.md5 == p.md5 ==> q == p
    ensures multiset(DependencyMd5s(attrs))[p.md5] == 1
  {
    DependencyMd5Count(attrs, p.md5);
    var objs := set x | x in Dependencies(attrs) && x.md5 == p.md5;
    assert objs == {p};
  }

  /** The queries held by a subscriber subsetter are dependencies of the query holding it. */
  lemma SubsetterQueriesAreDependencies(attrs: seq<Attribute>, i: nat, k: nat)
    requires i < |attrs| && attrs[i].1.SubsetterAttr?
    requires k < |attrs[i].1.members| && attrs[i].1.members[k].QueryElement?
    ensures attrs[i].1.members[k].query in Dependencies(attrs)
    ensures attrs[i].1.members[k].query.md5 in DependencyMd5s(attrs)
  {
    var ms := attrs[i].1.members;
    var q := ms[k].query;
    FlatMapMembership(ms, ElementDependency, q);
    assert q in ElementDependency(ms[k]);
    assert q in AttrDependencies(attrs[i]);
    var d := Dependencies(attrs);
    assert q in d;
    var n :| 0 <= n < |d| && d[n] == q;
    assert DependencyMd5s(attrs)[n] == q.md5;
  }

  /** The sort key of a list element: a query's md5, otherwise the value itself. */
  function ElementKey(e: Element): string {
    match e
    case QueryElement(q) => q.md5
    case PlainElement(v) => v
  }

  /** `repr` of a list element: a query shows its class and id, a string is quoted. */
  function ElementRepr(e: Element): string {
    match e
    case QueryElement(q) => "<Query of type: " + q.className + ", query_id: '" + q.md5 + "'>"
    case PlainElement(v) => "'" + v + "'"
  }

  predicate ElementLe(a: Element, b: Element) {
    StrLe(ElementKey(a), ElementKey(b))
  }

  lemma ElementLeIsTotalPreorder()
    ensures TotalPreorder(ElementLe)
  {
    StrLeIsTotalOrder();
  }

  function Reprs(es: seq<Element>): (r: seq<string>)
    ensures |r| == |es|
    ensures forall i :: 0 <= i < |es| ==> r[i] == ElementRepr(es[i])
  {
    if |es| == 0 then [] else [ElementRepr(es[0])] + Reprs(es[1..])
  }

  /** `str(sorted(item, key=...))` for a list or tuple attribute. */
  function ListText(es: seq<Element>): string {
    ElementLeIsTotalPreorder();
    "[" + Join(Reprs(Sort(es, ElementLe)), ", ") + "]"
  }

  /** `s.lower() == "all"`, for the letters that can spell it. */
  predicate LowerIsAll(s: string) {
    |s| == 3 && s[0] in {'a', 'A'} && s[1] in {'l', 'L'} && s[2] in {'l', 'L'}
  }

  /**
   * The text an attribute adds to the fingerprint: none for excluded keys
   * and for queries (they count as dependencies), the sorted list for
   * lists, the subsetter's text for a subsetter, and `str(value)`
   * otherwise, with any spelling of a `table` value "all" written in
   * lower case.
   */
  function StateText(a: Attribute): (r: seq<string>)
    ensures |r| <= 1
    ensures a.0 in BadKeys ==> r == []
    ensures a.1.QueryAttr? ==> r == []
  {
    if a.0 in BadKeys then []
    else match a.1
      case QueryAttr(_) => []
      case ListAttr(es) => [ListText(es)]
      case SubsetterAttr(t, _) => [t]
      case StrAttr(s) => [if a.0 == "table" && LowerIsAll(s) then "all" else s]
      case OtherAttr(t) => [t]
  }

  /** Everything the fingerprint is computed from, before sorting. */
  function Components(q: QueryObject): seq<string> {
    DependencyMd5s(q.attrs) + FlatMap(q.attrs, StateText) + [q.className]
  }

  /** The fingerprint computed afresh: the digest of the sorted components. */
  function ComputeMd5(h: Hasher, q: QueryObject): string {
    h(SortStrings(Components(q)))
  }

  /**
   * `Query.md5`: the memoised value if there is one; otherwise computes
   * it and returns the object with the value memoised.
   */
  function Md5(h: Hasher, q: QueryObject): (r: (QueryObject, string))
    ensures r.0.memo == Some(r.1)
    ensures q.memo.Some? ==> r == (q, q.memo.value)
    ensures q.memo.None? ==> r.1 == ComputeMd5(h, q) && r.0 == q.(memo := Some(r.1))
  {
    match q.memo
    case Some(m) => (q, m)
    case None =>
      var m := ComputeMd5(h, q);
      (q.(memo := Some(m)), m)
  }

  /** Asking twice gives the same fingerprint and leaves the object alone. */
  lemma Md5Idempotent(h: Hasher, q: QueryObject)
    ensures Md5(h, Md5(h, q).0) == Md5(h, q)
  {
  }

  /** Once memoised, later changes to the attributes do not change the fingerprint. */
  lemma Md5IgnoresLaterChanges(h: Hasher, q: QueryObject, attrs: seq<Attribute>)
    ensures Md5(h, Md5(h, q).0.(attrs := attrs)).1 == Md5(h, q).1
  {
  }

  /** Two component lists that are permutations of each other give one fingerprint. */
  lemma ComponentsDetermineMd5(h: Hasher, a: QueryObject, b: QueryObject)
    requires multiset(Components(a)) == multiset(Components(b))
    ensures ComputeMd5(h, a) == ComputeMd5(h, b)
  {
    SortStringsPermutation(Components(a), Components(b));
  }

  /** The order in which attributes were set does not affect the fingerprint. */
  lemma Md5IgnoresAttributeOrder(h: Hasher, a: QueryObject, b: QueryObject)
    requires a.className == b.className
    requires multiset(a.attrs) == multiset(b.attrs)
    ensures ComputeMd5(h, a) == ComputeMd5(h, b)
  {
    FlatMapPermutation(a.attrs, b.attrs, AttrDependencies);
    FlatMapPermutation(a.attrs, b.attrs, StateText);
    DependenciesFromMultiset(a.attrs, b.attrs);
    ComponentsDetermineMd5(h, a, b);
  }

  /** Attribute lists referring to the same objects, with multiplicity, give permuted dependency md5s. */
  lemma DependenciesFromMultiset(a: seq<Attribute>, b: seq<Attribute>)
    requires multiset(FlatMap(a, AttrDependencies)) == multiset(FlatMap(b, AttrDependencies))
    ensures multiset(DependencyMd5s(a)) == multiset(DependencyMd5s(b))
  {
    var fa, fb := FlatMap(a, AttrDependencies), FlatMap(b, AttrDependencies);
    assert forall x :: x in fa <==> x in multiset(fa);
    assert forall x :: x in fb <==> x in multiset(fb);
    DedupSameElements(fa, fb);
    FlatMapPermutation(Dependencies(a), Dependencies(b), RefMd5);
  }

  /** Elements with the same sort key are the same element. */
  ghost predicate KeysIdentify(es: seq<Element>) {
    forall i, j :: 0 <= i < |es| && 0 <= j < |es| && ElementKey(es[i]) == ElementKey(es[j]) ==> es[i] == es[j]
  }

  /**
   * The order of the elements of a list attribute does not affect the
   * fingerprint, provided elements with equal sort keys are equal (no two
   * distinct query objects in the list share an md5).
   */
  lemma Md5IgnoresListOrder(h: Hasher, q: QueryObject, i: nat, es: seq<Element>)
    requires i < |q.attrs| && q.attrs[i].1.ListAttr?
    requires multiset(es) == multiset(q.attrs[i].1.elements)
    requires KeysIdentify(es)
    ensures ComputeMd5(h, q.(attrs := q.attrs[i := (q.attrs[i].0, ListAttr(es))])) == ComputeMd5(h, q)
  {
    var a := q.attrs;
    var b := q.attrs[i := (q.attrs[i].0, ListAttr(es))];
    ListTextIgnoresOrder(es, a[i].1.elements);
    FlatMapPermutation(es, a[i].1.elements, ElementDependency);
    ReplacedListAgrees(a, i, es);
    FlatMapPointwise(a, b, AttrDependencies);
    FlatMapPointwise(a, b, StateText);
    DependenciesFromMultiset(a, b);
    ComponentsDetermineMd5(h, q, q.(attrs := b));
  }

  /** Sorting by keys that identify the elements makes the list text independent of their order. */
  lemma ListTextIgnoresOrder(es: seq<Element>, old_es: seq<Element>)
    requires multiset(es) == multiset(old_es)
    requires KeysIdentify(es)
    ensures ListText(es) == ListText(old_es)
  {
    ElementLeIsTotalPreorder();
    StrLeIsTotalOrder();
    var s := Sort(es, ElementLe);
    forall x, y | 0 <= x < |s| && 0 <= y < |s| && ElementLe(s[x], s[y]) && ElementLe(s[y], s[x])
      ensures s[x] == s[y]
    {
      assert s[x] in multiset(es) && s[y] in multiset(es);
      var x' :| 0 <= x' < |es| && es[x'] == s[x];
      var y' :| 0 <= y' < |es| && es[y'] == s[y];
      assert ElementKey(s[x]) == ElementKey(s[y]);
    }
    SortedUnique(s, Sort(old_es, ElementLe), ElementLe);
  }

  /** Replacing a list attribute by a rearrangement with the same text changes no attribute's contribution. */
  lemma ReplacedListAgrees(a: seq<Attribute>, i: nat, es: seq<Element>)
    requires i < |a| && a[i].1.ListAttr?
    requires multiset(FlatMap(es, ElementDependency)) == multiset(FlatMap(a[i].1.elements, ElementDependency))
    requires ListText(es) == ListText(a[i].1.elements)
    ensures var b := a[i := (a[i].0, ListAttr(es))];
            && (forall j :: 0 <= j < |a| ==> multiset(AttrDependencies(a[j])) == multiset(AttrDependencies(b[j])))
            && (forall j :: 0 <= j < |a| ==> multiset(StateText(a[j])) == multiset(StateText(b[j])))
  {
  }

  lemma {:induction false} FlatMapPointwise<T, U>(a: seq<T>, b: seq<T>, g: T -> seq<U>)
    requires |a| == |b|
    requires forall j :: 0 <= j < |a| ==> multiset(g(a[j])) == multiset(g(b[j]))
    ensures multiset(FlatMap(a, g)) == multiset(FlatMap(b, g))
    decreases |a|
  {
    if |a| > 0 {
      assert forall j :: 0 <= j < |a| - 1 ==> a[1..][j] == a[j + 1] && b[1..][j] == b[j + 1];
      FlatMapPointwise(a[1..], b[1..], g);
    }
  }

  /** Any capitalisation of a `table` value "all" gives the same fingerprint. */
  lemma Md5NormalisesTableAll(h: Hasher, q: QueryObject, i: nat, s: string)
    requires i < |q.attrs| && q.attrs[i] == ("table", StrAttr(s))
    requires LowerIsAll(s)
    ensures ComputeMd5(h, q.(attrs := q.attrs[i := ("table", StrAttr("all"))])) == ComputeMd5(h, q)
  {
    var a := q.attrs;
    var b := q.attrs[i := ("table", StrAttr("all"))];
    assert forall j :: 0 <= j < |a| ==> AttrDependencies(a[j]) == AttrDependencies(b[j]);
    assert forall j :: 0 <= j < |a| ==> StateText(a[j]) == StateText(b[j]);
    FlatMapPointwise(a, b, AttrDependencies);
    FlatMapPointwise(a, b, StateText);
    DependenciesFromMultiset(a, b);
    ComponentsDetermineMd5(h, q, q.(attrs := b));
  }

  /**
   * Iterating over a query's rows records the result proxy under
   * `_query_object`; that attribute does not change the fingerprint.
   */
  lemma IterationKeepsMd5(h: Hasher, q: QueryObject, proxy: string)
    ensures ComputeMd5(h, q.(attrs := q.attrs + [("_query_object", OtherAttr(proxy))])) == ComputeMd5(h, q)
  {
    var extra := [("_query_object", OtherAttr(proxy))];
    var q2 := q.(attrs := q.attrs + extra);
    FlatMapAppend(q.attrs, extra, AttrDependencies);
    FlatMapAppend(q.attrs, extra, StateText);
    assert StateText(extra[0]) == [];
    assert FlatMap(q2.attrs, AttrDependencies) == FlatMap(q.attrs, AttrDependencies);
    assert FlatMap(q2.attrs, StateText) == FlatMap(q.attrs, StateText);
    assert Components(q2) == Components(q);
  }

  /** Postgres' limit on identifier length. */
  const MaxPostgresNameLength := 63

  /** The name of a query's cache table. */
  function TableName(md5: string): (r: string)
    ensures |r| == |md5| + 1
    ensures r[0] == 'x' && r[1..] == md5
  {
    "x" + md5
  }

  /** The cache table with its schema. */
  function FullyQualifiedTableName(md5: string): (r: string)
    ensures |r| == |md5| + 7
    ensures StartsWith(r, "cache.")
    ensures r[..6] == "cache." && r[6..] == TableName(md5)
  {
    "cache." + TableName(md5)
  }

  datatype SchemaError = NotSchemaAndName(text: string)

  /** `schema, name = text.split(".")`, which needs exactly one dot. */
  function SchemaAndName(text: string): (r: Result<(string, string), SchemaError>)
    ensures r.Ok? <==> |Split(text, '.')| == 2
    ensures r.Ok? ==> r.value.0 + "." + r.value.1 == text
  {
    var pieces := Split(text, '.');
    if |pieces| == 2 then Ok((pieces[0], pieces[1])) else Err(NotSchemaAndName(text))
  }

  /**
   * The lookup done by `is_stored` splits the fully qualified name back
   * into the `cache` schema and the table name, as md5 digests have no dot.
   */
  lemma StoredLookupFindsCacheTable(md5: string)
    requires '.' !in md5
    ensures SchemaAndName(FullyQualifiedTableName(md5)) == Ok(("cache", TableName(md5)))
  {
    var pieces := ["cache", TableName(md5)];
    assert Join(pieces, ".") == FullyQualifiedTableName(md5);
    assert '.' !in TableName(md5) by {
      assert TableName(md5) == ['x'] + md5;
    }
    SplitJoin(pieces, '.');
  }

  datatype StoreError = NameTooLong(name: string)

  /**
   * `to_sql`: a name longer than Postgres allows is refused before the
   * query is queued; otherwise the query is queued (if it was known) and
   * the caller learns the state and whether it did the queueing.
   */
  function ToSql(name: string, s: QueryState): (r: Result<(QueryState, bool), StoreError>)
    ensures r.Err? <==> |name| > MaxPostgresNameLength
    ensures r.Err? ==> r.error == NameTooLong(name)
    ensures r.Ok? ==> (r.value.1 <==> s == Known)
    ensures r.Ok? && s == Known ==> r.value.0 == Queued
    ensures r.Ok? && s != Known ==> r.value.0 == s
  {
    if |name| > MaxPostgresNameLength then Err(NameTooLong(name))
    else Ok(TriggerEvent(s, Queue))
  }

  /**
   * Cache table names always fit: a 32-character md5 gives a 33-character
   * name, and a dummy query's prefixed md5 a 45-character one.
   */
  lemma CacheTableNamesFit(md5: string, s: QueryState)
    requires |md5| <= 62
    ensures ToSql(TableName(md5), s).Ok?
  {
  }

  datatype FormatError = InvalidAttribute(attr: string)

  /** The error message raised for an unknown attribute. */
  function FormatErrorMessage(e: FormatError): string {
    "Format string contains invalid query attribute: '" + e.attr + "'"
  }

  /** `attrs[i]` is the first attribute the query does not have. */
  ghost predicate FirstMissing(attrs: seq<string>, lookup: string -> Option<string>, i: int) {
    0 <= i < |attrs| && lookup(attrs[i]).None? && forall j :: 0 <= j < i ==> lookup(attrs[j]).Some?
  }

  /**
   * `attr: repr(value)` for each requested attribute, or the first one
   * that the query does not have.
   */
  function DescribeAttributes(attrs: seq<string>, lookup: string -> Option<string>): (r: Result<seq<string>, FormatError>)
    ensures r.Ok? <==> forall i :: 0 <= i < |attrs| ==> lookup(attrs[i]).Some?
    ensures r.Ok? ==> (|r.value| == |attrs| &&
      forall i :: 0 <= i < |attrs| ==> r.value[i] == attrs[i] + ": " + lookup(attrs[i]).value)
    ensures r.Err? ==> exists i :: FirstMissing(attrs, lookup, i) && r.error == InvalidAttribute(attrs[i])
    decreases |attrs|
  {
    if |attrs| == 0 then Ok([])
    else match lookup(attrs[0])
      case None => Err(InvalidAttribute(attrs[0]))
      case Some(v) =>
        match DescribeAttributes(attrs[1..], lookup)
        case Err(e) =>
          assert exists i :: FirstMissing(attrs, lookup, i) && e == InvalidAttribute(attrs[i]) by {
            var i :| FirstMissing(attrs[1..], lookup, i) && e == InvalidAttribute(attrs[1..][i]);
            assert FirstMissing(attrs, lookup, i + 1);
          }
          Err(e)
        case Ok(rest) =>
          assert forall j :: 1 <= j < |attrs| ==> attrs[j] == attrs[1..][j - 1];
          Ok([attrs[0] + ": " + v] + rest)
  }

  /**
   * `format(query, fmt)`: the class name, then the listed attributes of a
   * comma-separated `fmt` in the order given; an empty `fmt` lists none.
   * `lookup` gives `repr` of an attribute's value, or `None` when the
   * query has no such attribute.
   */
  function Format(className: string, fmt: string, lookup: string -> Option<string>): (r: Result<string, FormatError>)
    ensures fmt == "" ==> r == Ok("<Query of type: " + className + ">")
    ensures fmt != "" ==> (r.Ok? <==> forall i :: 0 <= i < |Split(fmt, ',')| ==> lookup(Split(fmt, ',')[i]).Some?)
    ensures r.Err? ==> r.error.attr in Split(fmt, ',')
  {
    var attrs := if fmt == "" then [] else Split(fmt, ',');
    match DescribeAttributes(attrs, lookup)
    case Err(e) =>
      assert e.attr in Split(fmt, ',') by {
        var i :| FirstMissing(attrs, lookup, i) && e == InvalidAttribute(attrs[i]);
        assert attrs[i] in attrs;
      }
      Err(e)
    case Ok(descriptions) =>
      assert forall i :: 0 <= i < |attrs| ==> lookup(attrs[i]).Some?;
      var all := ["Query of type: " + className] + descriptions;
      assert fmt == "" ==> all == ["Query of type: " + className] && Join(all, ", ") == "Query of type: " + className;
      assert "<" + "Query of type: " == "<Query of type: ";
      assert "<" + ("Query of type: " + className) == "<Query of type: " + className;
      Ok("<" + Join(all, ", ") + ">")
  }

  /** The comma-separated attribute list is read back exactly as it was written. */
  lemma FormatListsRequestedAttributes(className: string, attrs: seq<string>, lookup: string -> Option<string>)
    requires |attrs| >= 1
    requires forall i :: 0 <= i < |attrs| ==> ',' !in attrs[i] && lookup(attrs[i]).Some?
    requires Join(attrs, ",") != ""
    ensures Format(className, Join(attrs, ","), lookup)
      == Ok("<" + Join(["Query of type: " + className] + DescribeAttributes(attrs, lookup).value, ", ") + ">")
  {
    SplitJoin(attrs, ',');
  }

  /** A query with a `query_id` attribute and nothing called `foo`. */
  function ExampleLookup(attr: string): Option<string> {
    if attr == "query_id" then Some("'abc'") else None
  }

  /** The error names the first attribute the query lacks. */
  lemma FormatRejectsUnknownAttribute()
    ensures Format("LastLocation", "query_id,foo", ExampleLookup) == Err(InvalidAttribute("foo"))
  {
    var attrs := ["query_id", "foo"];
    assert Join(["foo"], ",") == "foo";
    assert "query_id" + "," + "foo" == "query_id,foo";
    assert Join(attrs, ",") == "query_id,foo";
    SplitJoin(attrs, ',');
    assert Split("query_id,foo", ',') == attrs;
    assert attrs[1..] == ["foo"];
    assert ExampleLookup("foo") == None;
    assert ExampleLookup("query_id") == Some("'abc'");
    assert DescribeAttributes(["foo"], ExampleLookup) == Err(InvalidAttribute("foo"));
    assert DescribeAttributes(attrs, ExampleLookup) == Err(InvalidAttribute("foo"));
  }

  /**
   * One entry of `index_cols`: a composite location index, a single
   * column, or the quoted `"subscriber"` column.
   */
  datatype IndexEntry = Composite(columns: seq<string>) | Single(column: string) | QuotedSubscriber

  /**
   * A query's `subscriber_identifier` attribute: missing, so that reading it
   * raises `AttributeError`, or present with its value, which may be `None`.
   */
  datatype IdentifierAttr = Missing | Present(identifier: Option<string>)

  /** The subscriber identifier is one of the columns. */
  predicate IdentifierIsColumn(attr: IdentifierAttr, cols: seq<string>) {
    attr.Present? && attr.identifier.Some? && attr.identifier.value in cols
  }

  /** The columns an index entry covers. */
  function IndexedColumns(ix: IndexEntry): seq<string> {
    match ix
    case Composite(cs) => cs
    case Single(c) => [c]
    case QuotedSubscriber => ["subscriber"]
  }

  /**
   * `index_cols`: the location columns, when the query has a spatial unit
   * and all of them are among its columns, then the subscriber identifier
   * if it is a column, else the `subscriber` column if there is one. A
   * missing spatial unit or subscriber identifier raises `AttributeError`,
   * which drops the corresponding entry.
   */
  function IndexCols(cols: seq<string>, locationColumns: Option<seq<string>>, subscriberIdentifier: IdentifierAttr): (r: seq<IndexEntry>)
    ensures |r| <= 2
    ensures (exists i :: 0 <= i < |r| && r[i].Composite?) <==>
      (locationColumns.Some? && forall c :: c in locationColumns.value ==> c in cols)
    ensures (exists i :: 0 <= i < |r| && r[i].Composite?) ==> r[0] == Composite(locationColumns.value)
    ensures (exists i :: 0 <= i < |r| && r[i].Single?) <==> IdentifierIsColumn(subscriberIdentifier, cols)
    ensures (exists i :: 0 <= i < |r| && r[i].Single?) ==> r[|r| - 1] == Single(subscriberIdentifier.identifier.value)
    ensures QuotedSubscriber in r <==>
      (subscriberIdentifier.Present? && "subscriber" in cols && !IdentifierIsColumn(subscriberIdentifier, cols))
    ensures subscriberIdentifier.Missing? ==> forall i :: 0 <= i < |r| ==> r[i].Composite?
    ensures forall i, c :: 0 <= i < |r| && c in IndexedColumns(r[i]) ==> c in cols
  {
    var locations :=
      if locationColumns.Some? && forall c :: c in locationColumns.value ==> c in cols
      then [Composite(locationColumns.value)] else [];
    var subscriber :=
      if IdentifierIsColumn(subscriberIdentifier, cols) then [Single(subscriberIdentifier.identifier.value)]
      else if subscriberIdentifier.Present? && "subscriber" in cols then [QuotedSubscriber]
      else [];
    var r := locations + subscriber;
    assert |locations| == 1 ==> r[0] == locations[0];
    assert |subscriber| == 1 ==> r[|r| - 1] == subscriber[0];
    r
  }

  /** `schema.name`, or the bare name without a schema. */
  function FullName(name: string, schema: Option<string>): string {
    match schema
    case Some(sc) => sc + "." + name
    case None => name
  }

  function IndexText(ix: IndexEntry): string {
    match ix
    case Composite(cs) => Join(cs, ",")
    case Single(c) => c
    case QuotedSubscriber => "\"subscriber\""
  }

  const CreatePrefix := "EXPLAIN (ANALYZE TRUE, TIMING FALSE, FORMAT JSON) CREATE TABLE "

  /** The select list opens on a new line, indented by eight spaces. */
  const SelectLead := "\n        (SELECT "

  function IndexStatements(fullName: string, ixen: seq<IndexEntry>): (r: seq<string>)
    ensures |r| == |ixen|
    ensures forall i :: 0 <= i < |ixen| ==> r[i] == "CREATE INDEX ON " + fullName + " (" + IndexText(ixen[i]) + ")"
  {
    if |ixen| == 0 then []
    else ["CREATE INDEX ON " + fullName + " (" + IndexText(ixen[0]) + ")"] + IndexStatements(fullName, ixen[1..])
  }

  /**
   * `_make_sql`: nothing when the table already exists; otherwise the
   * statement that creates it from the query, then one index per entry
   * of `index_cols`, all on the same table.
   */
  function MakeSql(tableExists: bool, name: string, schema: Option<string>, columns: string, query: string, ixen: seq<IndexEntry>): (r: seq<string>)
    ensures tableExists <==> r == []
    ensures !tableExists ==> |r| == |ixen| + 1 && StartsWith(r[0], CreatePrefix + FullName(name, schema) + " AS ")
    ensures !tableExists ==> forall i :: 1 <= i < |r| ==> StartsWith(r[i], "CREATE INDEX ON " + FullName(name, schema) + " (")
    ensures !tableExists ==> r[0] == CreatePrefix + FullName(name, schema) + " AS " + SelectLead + columns + " FROM (" + query + ") _)"
    ensures !tableExists ==> r[1..] == IndexStatements(FullName(name, schema), ixen)
  {
    if tableExists then []
    else
      var full := FullName(name, schema);
      var create := CreatePrefix + full + " AS " + SelectLead + columns + " FROM (" + query + ") _)";
      var head := CreatePrefix + full + " AS ";
      assert create == head + (SelectLead + columns + " FROM (" + query + ") _)");
      StartsWithPrepended(head, SelectLead + columns + " FROM (" + query + ") _)");
      var ixs := IndexStatements(full, ixen);
      var ixHead := "CREATE INDEX ON " + full + " (";
      forall i | 0 <= i < |ixs| ensures StartsWith(ixs[i], ixHead) {
        assert ixs[i] == ixHead + (IndexText(ixen[i]) + ")");
        StartsWithPrepended(ixHead, IndexText(ixen[i]) + ")");
      }
      [create] + ixs
  }

  /**
   * The documented example of `index_cols`: a query with `subscriber` and
   * `name` columns, located by `name`, whose subscriber identifier is not a
   * column, is indexed on `name` and on the quoted `subscriber`.
   */
  lemma DailyLocationIndexes()
    ensures IndexCols(["subscriber", "name"], Some(["name"]), Present(Some("msisdn"))) == [Composite(["name"]), QuotedSubscriber]
  {
    var ixen := IndexCols(["subscriber", "name"], Some(["name"]), Present(Some("msisdn")));
    assert ixen[0] == Composite(["name"]);
    assert "subscriber" in ["subscriber", "name"];
  }

  /** Storing that query as a cache table creates it, then one index on `name` and one on `"subscriber"`. */
  lemma DailyLocationSql()
    ensures MakeSql(false, "xabc", Some("cache"), "subscriber, name", "q", [Composite(["name"]), QuotedSubscriber])[1..] ==
            ["CREATE INDEX ON cache.xabc (name)", "CREATE INDEX ON cache.xabc (\"subscriber\")"]
  {
    assert FullName("xabc", Some("cache")) == "cache.xabc";
    DailyLocationStatements();
  }

  /** The two index statements on `cache.xabc`, one per entry. */
  lemma DailyLocationStatements()
    ensures IndexStatements("cache.xabc", [Composite(["name"]), QuotedSubscriber]) ==
            ["CREATE INDEX ON cache.xabc (name)", "CREATE INDEX ON cache.xabc (\"subscriber\")"]
  {
    var ixs := IndexStatements("cache.xabc", [Composite(["name"]), QuotedSubscriber]);
    NameIndexStatement(ixs[0]);
    SubscriberIndexStatement(ixs[1]);
  }

  lemma NameIndexStatement(t: string)
    requires t == "CREATE INDEX ON " + "cache.xabc" + " (" + IndexText(Composite(["name"])) + ")"
    ensures t == "CREATE INDEX ON cache.xabc (name)"
  {
    assert Join(["name"], ",") == "name";
  }

  lemma SubscriberIndexStatement(t: string)
    requires t == "CREATE INDEX ON " + "cache.xabc" + " (" + IndexText(QuotedSubscriber) + ")"
    ensures t == "CREATE INDEX ON cache.xabc (\"subscriber\")"
  {
  }

  /** A query without a `subscriber_identifier` attribute gets no subscriber index, even with a `subscriber` column. */
  lemma MissingIdentifierNoSubscriberIndex(locationColumns: Option<seq<string>>)
    ensures IndexCols(["subscriber"], locationColumns, Missing) ==
            if locationColumns.Some? && forall c :: c in locationColumns.value ==> c in ["subscriber"]
            then [Composite(locationColumns.value)] else []
  {
  }
}
