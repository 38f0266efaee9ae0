/**
 * `DummyQuery`, the query used to exercise the cache machinery: its
 * fingerprint is marked as a dummy's, "storing" it only drives the state
 * machine, and its plan costs nothing.
 */
module DummyQueries {
  import opened Wrappers
  import opened QueryStates
  import opened SeqUtil
  import Fingerprint

  const DummyPrefix := "dummy_query_"

  /** `DummyQuery.md5`: the usual (memoised) fingerprint with the dummy prefix. */
  function DummyMd5(h: Fingerprint.Hasher, q: Fingerprint.QueryObject): (r: (Fingerprint.QueryObject, string))
    ensures StartsWith(r.1, DummyPrefix)
    ensures r.1[|DummyPrefix|..] == Fingerprint.Md5(h, q).1
    ensures r.0 == Fingerprint.Md5(h, q).0
  {
    var (q', base) := Fingerprint.Md5(h, q);
    (q', DummyPrefix + base)
  }

  /** Dummy fingerprints are distinct exactly when the underlying fingerprints are. */
  lemma DummyMd5Injective(h: Fingerprint.Hasher, a: Fingerprint.QueryObject, b: Fingerprint.QueryObject)
    ensures DummyMd5(h, a).1 == DummyMd5(h, b).1 <==> Fingerprint.Md5(h, a).1 == Fingerprint.Md5(h, b).1
  {
    if DummyMd5(h, a).1 == DummyMd5(h, b).1 {
      assert DummyMd5(h, a).1[|DummyPrefix|..] == DummyMd5(h, b).1[|DummyPrefix|..];
    }
  }

  /** The query states by md5, as the state machine keeps them; a missing entry is known. */
  type States = map<string, QueryState>

  function StateIn(states: States, md5: string): (r: QueryState)
    ensures md5 !in states ==> r == Known
  {
    if md5 in states then states[md5] else Known
  }

  /** `DummyQuery.is_stored`: the state machine says the query completed; nothing is looked up in a database. */
  predicate IsStored(states: States, md5: string): (r: bool)
    ensures r <==> md5 in states && states[md5] == Completed
  {
    StateIn(states, md5) == Completed
  }

  /**
   * `DummyQuery.store`: enqueue, execute and finish, one event after the
   * other, and nothing else; only this query's state changes.
   */
  function Store(states: States, md5: string): (r: States)
    ensures r.Keys == states.Keys + {md5}
    ensures forall other :: other in states && other != md5 ==> r[other] == states[other]
    ensures r[md5] == RunEvents(StateIn(states, md5), [Queue, Execute, Finish])
  {
    states[md5 := RunEvents(StateIn(states, md5), [Queue, Execute, Finish])]
  }

  /** Storing a known dummy query leaves it stored. */
  lemma StoreFromKnownStores(states: States, md5: string)
    requires StateIn(states, md5) == Known
    ensures IsStored(Store(states, md5), md5)
  {
    Lifecycle();
  }

  /** A query already running elsewhere is not re-run: each event of the store is ignored or taken once. */
  lemma StoreOfExecutingQueryFinishesIt(states: States, md5: string)
    requires StateIn(states, md5) == Executing
    ensures IsStored(Store(states, md5), md5)
  {
    assert [Queue, Execute, Finish][1..] == [Execute, Finish];
    assert [Execute, Finish][1..] == [Finish];
  }

  /** One entry of `explain`'s JSON output: the plan and its total cost. */
  datatype Plan = Plan(totalCost: real)

  datatype ExplainError = NotImplemented(message: string)

  /** Characters `c` with `c.upper() == u`, for the upper-case letters of "JSON". */
  predicate UppersTo(c: char, u: char) {
    match u
    case 'J' => c == 'J' || c == 'j'
    case 'S' => c == 'S' || c == 's' || c == '\U{17f}'
    case 'O' => c == 'O' || c == 'o'
    case 'N' => c == 'N' || c == 'n'
    case _ => c == u
  }

  /** `format.upper() == "JSON"`. */
  predicate IsJsonFormat(format: string) {
    |format| == 4 && UppersTo(format[0], 'J') && UppersTo(format[1], 'S') && UppersTo(format[2], 'O') && UppersTo(format[3], 'N')
  }

  /** `DummyQuery.explain`: JSON in any letter case gives a zero-cost plan; any other format is not implemented. */
  function Explain(format: string, analyse: bool): (r: Result<seq<Plan>, ExplainError>)
    ensures r.Ok? <==> IsJsonFormat(format)
    ensures r.Ok? ==> |r.value| == 1 && r.value[0].totalCost == 0.0
  {
    if !IsJsonFormat(format) then
      Err(NotImplemented("Only format='json' is supported by DummyQuery.explain()"))
    else
      Ok([Plan(0.0)])
  }

  lemma ExplainExamples()
    ensures Explain("json", false).Ok? && Explain("JSON", true).Ok? && Explain("Json", false).Ok?
    ensures Explain("text", false).Err? && Explain("jsonb", false).Err? && Explain("", false).Err?
  {
  }
}
