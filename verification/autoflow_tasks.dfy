/**
 * The date-selection and run-bookkeeping tasks of autoflow's workflows.
 * Dates are day numbers (as in `Dates`). What the tasks read from the
 * workflow database, from FlowAPI and from autoflow's utilities (the
 * parameter hash, turning a stencil into date pairs, checking a stencil
 * against the available dates, whether a date may be processed) are
 * parameters of the model.
 */
module AutoflowTasks {
  import opened Wrappers
  import opened SeqUtil
  import opened Ordering

  // ---------------------------------------------------------------------
  // Tags and date ranges
  // ---------------------------------------------------------------------

  /**
   * `get_tag`: the flow's name and its parameters' hash, joined by `_`,
   * followed by `_<reference date>` when there is one (`referenceDate` is
   * the printed date).
   */
  function GetTag(flowName: string, paramsHash: string, referenceDate: Option<string>): (r: string)
    ensures StartsWith(r, flowName + "_" + paramsHash)
    ensures referenceDate.None? ==> r == flowName + "_" + paramsHash
    ensures referenceDate.Some? ==> r == flowName + "_" + paramsHash + "_" + referenceDate.value
  {
    var dateSuffix := if referenceDate.Some? then "_" + referenceDate.value else "";
    assert (flowName + "_" + paramsHash + dateSuffix)[..|flowName + "_" + paramsHash|] == flowName + "_" + paramsHash;
    flowName + "_" + paramsHash + dateSuffix
  }

  /** Runs of one workflow with the same parameters on different reference dates get different tags. */
  lemma TagsTellDatesApart(flowName: string, paramsHash: string, a: string, b: string)
    requires a != b
    ensures GetTag(flowName, paramsHash, Some(a)) != GetTag(flowName, paramsHash, Some(b))
  {
    var p := flowName + "_" + paramsHash + "_";
    assert GetTag(flowName, paramsHash, Some(a))[|p|..] == a;
    assert GetTag(flowName, paramsHash, Some(b))[|p|..] == b;
  }

  /** An element of a date stencil: an absolute date, an offset in days, or an interval of either. */
  datatype StencilElement = AbsoluteDate(day: int) | Offset(days: int) | Interval(start: StencilElement, end: StencilElement)

  type Stencil = seq<StencilElement>

  const DefaultStencil: Stencil := [Offset(0)]

  /**
   * `get_date_ranges`: the stencil's date pairs relative to the reference
   * date (`toDatePairs` stands for `stencil_to_date_pairs`); no stencil
   * means `[0]`, the reference date alone.
   */
  function GetDateRanges(referenceDate: int, stencil: Option<Stencil>, toDatePairs: (Stencil, int) -> seq<(int, int)>): (r: seq<(int, int)>)
    ensures stencil.Some? ==> r == toDatePairs(stencil.value, referenceDate)
    ensures stencil.None? ==> r == toDatePairs(DefaultStencil, referenceDate)
  {
    toDatePairs(stencil.GetOr(DefaultStencil), referenceDate)
  }

  /** Leaving the stencil out is the same as giving `[0]`. */
  lemma NoStencilIsReferenceDate(referenceDate: int, toDatePairs: (Stencil, int) -> seq<(int, int)>)
    ensures GetDateRanges(referenceDate, None, toDatePairs) == GetDateRanges(referenceDate, Some([Offset(0)]), toDatePairs)
  {
  }

  // ---------------------------------------------------------------------
  // Available dates
  // ---------------------------------------------------------------------

  /** `set.union()` of no sets: Python raises `TypeError`. */
  datatype DatesError = UnionOfNothing

  /**
   * FlowAPI's available dates: a JSON object from CDR type to its dates,
   * as its entries in order.
   */
  type DatesByType = seq<(string, seq<int>)>

  /** The CDR types FlowDB has data for. */
  function TypeNames(available: DatesByType): (r: seq<string>)
    ensures |r| == |available|
    ensures forall i :: 0 <= i < |r| ==> r[i] == available[i].0
  {
    seq(|available|, i requires 0 <= i < |available| => available[i].0)
  }

  /** The result of `get_available_dates`: the dates, and the requested CDR types warned about as unknown. */
  datatype AvailableDates = AvailableDates(dates: seq<int>, unknownTypes: set<string>)

  /** The CDR types whose dates are joined: all of FlowDB's, or the requested ones it has. */
  function SelectedTypes(available: DatesByType, cdrTypes: Option<seq<string>>): (r: seq<string>)
    ensures forall t :: t in r ==> t in TypeNames(available)
    ensures cdrTypes.Some? ==> forall t :: t in r <==> t in cdrTypes.value && t in TypeNames(available)
    ensures cdrTypes.None? ==> r == TypeNames(available)
  {
    match cdrTypes
    case None => TypeNames(available)
    case Some(ts) => Filter(ts, t => t in TypeNames(available))
  }

  /** `d` is a date of one of the given CDR types. */
  ghost predicate AvailableFor(available: DatesByType, types: seq<string>, d: int) {
    exists i :: 0 <= i < |available| && available[i].0 in types && d in available[i].1
  }

  /** The dates of the given CDR types, with repetitions, in some order. */
  function DatesOf(available: DatesByType, types: seq<string>): (r: seq<int>)
    ensures forall d :: d in r <==> AvailableFor(available, types, d)
    decreases |available|
  {
    if |available| == 0 then []
    else
      var rest := DatesOf(available[1..], types);
      assert forall d :: AvailableFor(available, types, d) <==>
        (available[0].0 in types && d in available[0].1) || AvailableFor(available[1..], types, d) by {
        forall d | AvailableFor(available[1..], types, d) ensures AvailableFor(available, types, d) {
          var i :| 0 <= i < |available[1..]| && available[1..][i].0 in types && d in available[1..][i].1;
          assert available[i + 1] == available[1..][i];
        }
        forall d | AvailableFor(available, types, d) && !(available[0].0 in types && d in available[0].1)
          ensures AvailableFor(available[1..], types, d)
        {
          var i :| 0 <= i < |available| && available[i].0 in types && d in available[i].1;
          assert available[1..][i - 1] == available[i];
        }
      }
      if available[0].0 in types then available[0].1 + rest else rest
  }

  /** The requested CDR types FlowDB does not know. */
  function UnknownTypes(available: DatesByType, cdrTypes: Option<seq<string>>): (r: set<string>)
    ensures cdrTypes.None? ==> r == {}
    ensures cdrTypes.Some? ==> forall t :: t in r <==> t in cdrTypes.value && t !in TypeNames(available)
  {
    match cdrTypes
    case None => {}
    case Some(ts) => set t | t in ts && t !in TypeNames(available)
  }

  /**
   * `get_available_dates`: the union of the dates of the selected CDR
   * types, in chronological order and without repetition; requested types
   * FlowDB does not know are reported and skipped. When no known type is
   * selected there is no set to take the union of, and Python raises.
   */
  function GetAvailableDates(available: DatesByType, cdrTypes: Option<seq<string>>): (r: Result<AvailableDates, DatesError>)
    ensures r.Err? <==> |SelectedTypes(available, cdrTypes)| == 0
    ensures r.Ok? ==> StrictlyIncreasing(r.value.dates)
    ensures r.Ok? ==> forall d :: d in r.value.dates <==> AvailableFor(available, SelectedTypes(available, cdrTypes), d)
    ensures r.Ok? ==> r.value.unknownTypes == UnknownTypes(available, cdrTypes)
  {
    var types := SelectedTypes(available, cdrTypes);
    if |types| == 0 then Err(UnionOfNothing)
    else Ok(AvailableDates(SortedDistinct(DatesOf(available, types)), UnknownTypes(available, cdrTypes)))
  }

  /** Asking only for CDR types FlowDB has no data for, or for none at all, raises. */
  lemma NoKnownTypeRaises(available: DatesByType, cdrTypes: seq<string>)
    requires forall t :: t in cdrTypes ==> t !in TypeNames(available)
    ensures GetAvailableDates(available, Some(cdrTypes)).Err?
  {
    NoMemberEmpty(SelectedTypes(available, Some(cdrTypes)));
  }

  /** A sequence with no member is empty. */
  lemma NoMemberEmpty<T>(s: seq<T>)
    requires forall x :: x !in s
    ensures |s| == 0
  {
    assert multiset(s) == multiset{} by {
      forall x ensures multiset(s)[x] == 0 {
        assert x !in s;
      }
    }
    assert |s| == |multiset(s)|;
  }

  /**
   * The evidently intended behaviour: the union of no sets is empty, so
   * the list of dates is.
   */
  function GetAvailableDatesOrEmpty(available: DatesByType, cdrTypes: Option<seq<string>>): (r: AvailableDates)
    ensures StrictlyIncreasing(r.dates)
    ensures forall d :: d in r.dates <==> AvailableFor(available, SelectedTypes(available, cdrTypes), d)
    ensures r.unknownTypes == UnknownTypes(available, cdrTypes)
  {
    var types := SelectedTypes(available, cdrTypes);
    AvailableDates(SortedDistinct(DatesOf(available, types)), UnknownTypes(available, cdrTypes))
  }

  /** The corrected date lookup agrees with the original wherever the original answers, and is empty where it raises. */
  lemma OrEmptyAgrees(available: DatesByType, cdrTypes: Option<seq<string>>)
    ensures GetAvailableDates(available, cdrTypes).Ok? ==> GetAvailableDatesOrEmpty(available, cdrTypes) == GetAvailableDates(available, cdrTypes).value
    ensures GetAvailableDates(available, cdrTypes).Err? ==> GetAvailableDatesOrEmpty(available, cdrTypes).dates == []
  {
    var r := GetAvailableDatesOrEmpty(available, cdrTypes);
    if |SelectedTypes(available, cdrTypes)| == 0 {
      NoDatesOfNoTypes(available, r.dates);
    }
  }

  /** No date belongs to none of the CDR types. */
  lemma NoDatesOfNoTypes(available: DatesByType, dates: seq<int>)
    requires forall d :: d in dates <==> AvailableFor(available, [], d)
    ensures dates == []
  {
    forall d ensures d !in dates {
      assert !AvailableFor(available, [], d);
    }
    NoMemberEmpty(dates);
  }

  /** A request for a type FlowDB lacks raises rather than warning, when it is the only type requested. */
  lemma OnlyUnknownTypeRaises(available: DatesByType, t: string)
    requires t !in TypeNames(available)
    ensures GetAvailableDates(available, Some([t])).Err?
    ensures GetAvailableDatesOrEmpty(available, Some([t])) == AvailableDates([], {t})
  {
    NoKnownTypeRaises(available, [t]);
    OrEmptyAgrees(available, Some([t]));
  }

  // ---------------------------------------------------------------------
  // Date filters
  // ---------------------------------------------------------------------

  /** The dates kept by a filter: those passing `keep`, in their order, with their repetitions. */
  ghost predicate KeepsExactly(r: seq<int>, dates: seq<int>, keep: int -> bool) {
    IsSubsequence(r, dates) &&
    (forall d :: d in r <==> d in dates && keep(d)) &&
    (forall d :: multiset(r)[d] == if keep(d) then multiset(dates)[d] else 0)
  }

  /** `filter_dates_by_earliest_date`: no earliest date keeps every date; otherwise the dates on or after it. */
  function FilterDatesByEarliestDate(dates: seq<int>, earliestDate: Option<int>): (r: seq<int>)
    ensures earliestDate.None? ==> r == dates
    ensures earliestDate.Some? ==> KeepsExactly(r, dates, d => d >= earliestDate.value)
  {
    match earliestDate
    case None => dates
    case Some(e) => Filter(dates, d => d >= e)
  }

  /**
   * `filter_dates_by_stencil`: no stencil keeps every date; otherwise the
   * dates whose stencil is covered by the available dates
   * (`datesAreAvailable` stands for autoflow's `dates_are_available`).
   */
  function FilterDatesByStencil(dates: seq<int>, availableDates: seq<int>, stencil: Option<Stencil>,
                                datesAreAvailable: (Stencil, int, seq<int>) -> bool): (r: seq<int>)
    ensures stencil.None? ==> r == dates
    ensures stencil.Some? ==> KeepsExactly(r, dates, d => datesAreAvailable(stencil.value, d, availableDates))
  {
    match stencil
    case None => dates
    case Some(s) => Filter(dates, d => datesAreAvailable(s, d, availableDates))
  }

  /** `filter_dates_by_previous_runs`: the dates the workflow may (re)process, by `WorkflowRuns.can_process`. */
  function FilterDatesByPreviousRuns(dates: seq<int>, canProcess: int -> bool): (r: seq<int>)
    ensures KeepsExactly(r, dates, canProcess)
  {
    Filter(dates, canProcess)
  }

  /** Filtering again by the same earliest date changes nothing. */
  lemma EarliestDateFilterIdempotent(dates: seq<int>, earliestDate: Option<int>)
    ensures FilterDatesByEarliestDate(FilterDatesByEarliestDate(dates, earliestDate), earliestDate)
         == FilterDatesByEarliestDate(dates, earliestDate)
  {
    if earliestDate.Some? {
      var e := earliestDate.value;
      FilterAllKept(Filter(dates, d => d >= e), d => d >= e);
    }
  }

  /** Filtering a list whose every element passes keeps it whole. */
  lemma FilterAllKept(s: seq<int>, p: int -> bool)
    requires forall x :: x in s ==> p(x)
    ensures Filter(s, p) == s
  {
    var r := Filter(s, p);
    assert multiset(r) == multiset(s) by {
      forall x ensures multiset(r)[x] == multiset(s)[x] {
        if x !in s {
          assert multiset(s)[x] == 0;
        }
      }
    }
    assert |r| == |multiset(r)| == |multiset(s)| == |s|;
    SubsequenceLength(r, s);
  }

  // ---------------------------------------------------------------------
  // Run bookkeeping
  // ---------------------------------------------------------------------

  /** The latest state recorded for a workflow run. */
  datatype RunState = InProcess | Done | Failed

  /** Runs of one workflow with one set of parameters, by reference date. */
  type Runs = map<int, RunState>

  /** `WorkflowRuns.is_done`: the latest record of the run says it is done. */
  predicate IsDone(runs: Runs, d: int) {
    d in runs && runs[d] == Done
  }

  /**
   * `record_any_failed_workflows`: each reference date whose run is not
   * done is recorded as failed; the flow step then fails exactly when it
   * recorded one.
   */
  method RecordAnyFailedWorkflows(runs: Runs, referenceDates: seq<int>) returns (after: Runs, someFailed: bool)
    ensures someFailed <==> exists d :: d in referenceDates && !IsDone(runs, d)
    ensures forall d :: d in referenceDates && !IsDone(runs, d) ==> d in after && after[d] == Failed
    ensures forall d :: d !in referenceDates || IsDone(runs, d) ==> (d in after <==> d in runs) && (d in runs ==> after[d] == runs[d])
  {
    after := runs;
    someFailed := false;
    for i := 0 to |referenceDates|
      invariant someFailed <==> exists d :: d in referenceDates[..i] && !IsDone(runs, d)
      invariant forall d :: d in referenceDates[..i] && !IsDone(runs, d) ==> d in after && after[d] == Failed
      invariant forall d :: d !in referenceDates[..i] || IsDone(runs, d) ==> (d in after <==> d in runs) && (d in runs ==> after[d] == runs[d])
    {
      var d := referenceDates[i];
      assert referenceDates[..i + 1] == referenceDates[..i] + [d];
      if !IsDone(after, d) {
        assert !IsDone(runs, d);
        someFailed := true;
        after := after[d := Failed];
      }
    }
    assert referenceDates[..|referenceDates|] == referenceDates;
  }
}
