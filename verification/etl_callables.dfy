/**
 * The callables of flowetl's production DAGs: recording the ingestion
 * state of one (CDR type, date) pair, choosing between the archive and the
 * quarantine branch, finding the files not yet ingested, and triggering one
 * ETL run per such file. The ETL record store, a DAG run's task states,
 * the directory listing, the filename pattern's match, the date parser and the
 * run's UUID are parameters of the model.
 */
module EtlCallables {
  import opened Wrappers
  import opened SeqUtil
  import opened Ordering
  import NestedDicts

  // ---------------------------------------------------------------------
  // Dates as the run id prints them
  // ---------------------------------------------------------------------

  /** A calendar date, as `pendulum.parse` returns it. */
  datatype Date = Date(year: nat, month: nat, day: nat)

  function Pow10(w: nat): (r: nat)
    ensures r >= 1
  {
    if w == 0 then 1 else 10 * Pow10(w - 1)
  }

  /** The last `w` decimal digits of `n`, zero-padded to `w` characters. */
  function Digits(n: nat, w: nat): (r: string)
    ensures |r| == w
    ensures forall i :: 0 <= i < w ==> '0' <= r[i] <= '9'
    decreases w
  {
    if w == 0 then [] else Digits(n / 10, w - 1) + [NestedDicts.DigitChar(n % 10)]
  }

  /** The number a string of decimal digits spells. */
  function DigitsValue(s: string): (r: nat)
    requires forall i :: 0 <= i < |s| ==> '0' <= s[i] <= '9'
    decreases |s|
  {
    if |s| == 0 then 0 else 10 * DigitsValue(s[..|s| - 1]) + (s[|s| - 1] as int - '0' as int)
  }

  /** Printing `n` with `w` digits and reading it back gives `n`, when it fits. */
  lemma {:induction false} DigitsRoundTrip(n: nat, w: nat)
    requires n < Pow10(w)
    ensures DigitsValue(Digits(n, w)) == n
    decreases w
  {
    if w > 0 {
      DigitsRoundTrip(n / 10, w - 1);
      assert Digits(n, w)[..w - 1] == Digits(n / 10, w - 1);
    }
  }

  /** `strftime("%Y%m%d")`: four digits of year, two of month, two of day. */
  function DateStamp(d: Date): (r: string)
    ensures |r| == 8
    ensures forall i :: 0 <= i < 8 ==> '0' <= r[i] <= '9'
  {
    Digits(d.year, 4) + Digits(d.month, 2) + Digits(d.day, 2)
  }

  /** A date pendulum can represent. */
  predicate ValidDate(d: Date) {
    1 <= d.year <= 9999 && 1 <= d.month <= 12 && 1 <= d.day <= 31
  }

  /** The stamp of a date gives the date back. */
  lemma DateStampRoundTrip(d: Date)
    requires ValidDate(d)
    ensures var s := DateStamp(d);
            Date(DigitsValue(s[..4]), DigitsValue(s[4..6]), DigitsValue(s[6..])) == d
  {
    var s := DateStamp(d);
    assert s[..4] == Digits(d.year, 4);
    assert s[4..6] == Digits(d.month, 2);
    assert s[6..] == Digits(d.day, 2);
    DigitsRoundTrip(d.year, 4);
    DigitsRoundTrip(d.month, 2);
    DigitsRoundTrip(d.day, 2);
  }

  /** Distinct dates have distinct stamps. */
  lemma DateStampInjective(a: Date, b: Date)
    requires ValidDate(a) && ValidDate(b) && DateStamp(a) == DateStamp(b)
    ensures a == b
  {
    DateStampRoundTrip(a);
    DateStampRoundTrip(b);
  }

  // ---------------------------------------------------------------------
  // Recording the ingestion state
  // ---------------------------------------------------------------------

  /** A value of a DAG run's configuration. */
  datatype ConfValue = Text(s: string) | DateValue(d: Date)

  /** A DAG run's configuration. */
  type RunConf = map<string, ConfValue>

  /** The latest ingestion state of each (CDR type, CDR date) pair. */
  type EtlRecords = map<(ConfValue, ConfValue), string>

  /** `dag_run.conf[...]` on a key the configuration lacks. */
  datatype ConfError = MissingConfKey(key: string)

  /**
   * `record_ingestion_state__callable`: the pair named by the run's
   * configuration now has `toState`, and every other pair keeps its state.
   * The CDR type is read before the date.
   */
  function RecordIngestionState(records: EtlRecords, conf: RunConf, toState: string): (r: Result<EtlRecords, ConfError>)
    ensures "cdr_type" !in conf ==> r == Err(MissingConfKey("cdr_type"))
    ensures "cdr_type" in conf && "cdr_date" !in conf ==> r == Err(MissingConfKey("cdr_date"))
    ensures r.Ok? <==> "cdr_type" in conf && "cdr_date" in conf
    ensures r.Ok? ==> var key := (conf["cdr_type"], conf["cdr_date"]);
                      && key in r.value && r.value[key] == toState
                      && forall k :: k != key ==> (k in r.value <==> k in records) && (k in records ==> r.value[k] == records[k])
  {
    if "cdr_type" !in conf then Err(MissingConfKey("cdr_type"))
    else if "cdr_date" !in conf then Err(MissingConfKey("cdr_date"))
    else Ok(records[(conf["cdr_type"], conf["cdr_date"]) := toState])
  }

  /** Recording a state twice is recording it once. */
  lemma RecordIngestionStateIdempotent(records: EtlRecords, conf: RunConf, toState: string)
    requires "cdr_type" in conf && "cdr_date" in conf
    ensures RecordIngestionState(RecordIngestionState(records, conf, toState).value, conf, toState)
         == RecordIngestionState(records, conf, toState)
  {
    var key := (conf["cdr_type"], conf["cdr_date"]);
    assert records[key := toState][key := toState] == records[key := toState];
  }

  // ---------------------------------------------------------------------
  // Choosing the branch after loading
  // ---------------------------------------------------------------------

  /** The tasks whose failure sends the file to quarantine. */
  const CheckedTasks: seq<string> := ["init", "extract", "transform", "load"]

  /**
   * `success_branch__callable`: `quarantine` when any of the checked tasks
   * of the run failed, `archive` otherwise (`taskState` gives each task
   * instance's state).
   */
  function SuccessBranch(taskState: string -> string): (r: string)
    ensures r == "quarantine" <==> exists t :: t in CheckedTasks && taskState(t) == "failed"
    ensures r == "archive" <==> forall t :: t in CheckedTasks ==> taskState(t) != "failed"
  {
    if exists i :: 0 <= i < |CheckedTasks| && taskState(CheckedTasks[i]) == "failed" then
      "quarantine"
    else
      assert forall t :: t in CheckedTasks ==> exists i :: 0 <= i < |CheckedTasks| && CheckedTasks[i] == t;
      "archive"
  }

  /** The failure of any one checked task is enough to quarantine the file. */
  lemma OneFailureQuarantines(taskState: string -> string, t: string)
    requires t in CheckedTasks && taskState(t) == "failed"
    ensures SuccessBranch(taskState) == "quarantine"
  {
  }

  // ---------------------------------------------------------------------
  // Finding the files still to ingest
  // ---------------------------------------------------------------------

  /** The names skipped by default: a directory's README. */
  const DefaultIgnoreFilenames: seq<string> := ["README.md"]

  /**
   * `re.fullmatch(pattern, name)` read through its first group: the group's
   * text when the whole name matches the pattern, nothing otherwise.
   */
  type Matcher = (string, string) -> Option<string>

  /** `pendulum.parse`: the date a text spells, nothing where it raises. */
  type DateParser = string -> Option<Date>

  /** `ETLRecord.can_process` for a CDR type and a date. */
  type Processable = (string, Date) -> bool

  /** A file not ignored whose whole name matches the pattern. */
  predicate Matched(file: string, pattern: string, ignoreFilenames: seq<string>, matchGroup: Matcher) {
    file !in ignoreFilenames && matchGroup(pattern, file).Some?
  }

  /** A matched file whose date text does not parse, so `pendulum.parse` raises on it. */
  predicate HasBadDate(file: string, pattern: string, ignoreFilenames: seq<string>, matchGroup: Matcher, parseDate: DateParser) {
    Matched(file, pattern, ignoreFilenames, matchGroup) && parseDate(matchGroup(pattern, file).value).None?
  }

  /** The date in a file's name: its first group, parsed. */
  function FileDate(file: string, pattern: string, matchGroup: Matcher, parseDate: DateParser): (r: Option<Date>)
    ensures r.Some? <==> matchGroup(pattern, file).Some? && parseDate(matchGroup(pattern, file).value).Some?
  {
    match matchGroup(pattern, file)
    case None => None
    case Some(text) => parseDate(text)
  }

  /** A file to ingest: not ignored, its name matching with a date that parses, and that date one the records allow. */
  predicate IsUnprocessed(file: string, pattern: string, cdrType: string, ignoreFilenames: seq<string>,
                          matchGroup: Matcher, parseDate: DateParser, canProcess: Processable) {
    file !in ignoreFilenames && FileDate(file, pattern, matchGroup, parseDate).Some? &&
    canProcess(cdrType, FileDate(file, pattern, matchGroup, parseDate).value)
  }

  /**
   * The first file, in listing order, on which `pendulum.parse` raises:
   * every name is matched before any date is parsed, and the dates are
   * parsed in listing order.
   */
  function FirstBadDate(files: seq<string>, pattern: string, ignoreFilenames: seq<string>,
                        matchGroup: Matcher, parseDate: DateParser): (r: Option<string>)
    ensures r.None? <==> forall f :: f in files ==> !HasBadDate(f, pattern, ignoreFilenames, matchGroup, parseDate)
    ensures r.Some? ==> exists i :: 0 <= i < |files| && files[i] == r.value &&
                                    HasBadDate(files[i], pattern, ignoreFilenames, matchGroup, parseDate) &&
                                    forall j :: 0 <= j < i ==> !HasBadDate(files[j], pattern, ignoreFilenames, matchGroup, parseDate)
    decreases |files|
  {
    if |files| == 0 then None
    else if HasBadDate(files[0], pattern, ignoreFilenames, matchGroup, parseDate) then Some(files[0])
    else
      var r := FirstBadDate(files[1..], pattern, ignoreFilenames, matchGroup, parseDate);
      assert forall f :: f in files <==> f == files[0] || f in files[1..];
      if r.Some? then
        var i :| 0 <= i < |files[1..]| && files[1..][i] == r.value &&
                 HasBadDate(files[1..][i], pattern, ignoreFilenames, matchGroup, parseDate) &&
                 forall j :: 0 <= j < i ==> !HasBadDate(files[1..][j], pattern, ignoreFilenames, matchGroup, parseDate);
        assert files[i + 1] == r.value;
        assert forall j :: 1 <= j < i + 1 ==> files[j] == files[1..][j - 1];
        r
      else r
  }

  /** The files to ingest, in listing order. */
  function UnprocessedFiles(files: seq<string>, pattern: string, cdrType: string, ignoreFilenames: seq<string>,
                            matchGroup: Matcher, parseDate: DateParser, canProcess: Processable): (r: seq<string>)
    ensures forall f :: f in r <==> f in files && IsUnprocessed(f, pattern, cdrType, ignoreFilenames, matchGroup, parseDate, canProcess)
    ensures IsSubsequence(r, files)
  {
    Filter(files, f => IsUnprocessed(f, pattern, cdrType, ignoreFilenames, matchGroup, parseDate, canProcess))
  }

  /** The files with their dates. */
  function WithDates(files: seq<string>, dateOf: string -> Option<Date>): (r: seq<(string, Date)>)
    requires forall f :: f in files ==> dateOf(f).Some?
    ensures |r| == |files|
    ensures forall i :: 0 <= i < |r| ==> r[i] == (files[i], dateOf(files[i]).value)
  {
    seq(|files|, i requires 0 <= i < |files| => (files[i], dateOf(files[i]).value))
  }

  /**
   * `find_unprocessed_dates_from_files`: the dictionary from each file to
   * ingest to its date, or the parse error of the first matched file whose
   * date does not parse. The three dictionary comprehensions compose into
   * one once every date parses, since a file's match and date depend on its
   * name alone.
   */
  function FindUnprocessedDatesFromFiles(files: seq<string>, pattern: string, cdrType: string, ignoreFilenames: seq<string>,
                                         matchGroup: Matcher, parseDate: DateParser, canProcess: Processable)
    : (r: Result<seq<(string, Date)>, TriggerError>)
    ensures r.Err? <==> exists f :: f in files && HasBadDate(f, pattern, ignoreFilenames, matchGroup, parseDate)
    ensures r.Err? ==> r.error.UnparseableDate? &&
                       FirstBadDate(files, pattern, ignoreFilenames, matchGroup, parseDate) == Some(r.error.fileName)
    ensures r.Ok? ==> NestedDicts.DistinctKeys(r.value)
    ensures r.Ok? ==> forall f, d :: (f, d) in r.value <==>
                        f in files && f !in ignoreFilenames && FileDate(f, pattern, matchGroup, parseDate) == Some(d) &&
                        canProcess(cdrType, d)
  {
    match FirstBadDate(files, pattern, ignoreFilenames, matchGroup, parseDate)
    case Some(bad) => Err(UnparseableDate(bad))
    case None =>
      var kept := UnprocessedFiles(files, pattern, cdrType, ignoreFilenames, matchGroup, parseDate, canProcess);
      var dateOf := f => FileDate(f, pattern, matchGroup, parseDate);
      var pairs := WithDates(kept, dateOf);
      NestedDicts.BuildDictDistinct(pairs);
      DatedDictEntries(kept, dateOf);
      Ok(NestedDicts.BuildDict(pairs))
  }

  /** The dictionary of files with their dates holds each file with its own date and nothing else. */
  lemma DatedDictEntries(kept: seq<string>, dateOf: string -> Option<Date>)
    requires forall f :: f in kept ==> dateOf(f).Some?
    ensures forall f, d :: (f, d) in NestedDicts.BuildDict(WithDates(kept, dateOf)) <==> f in kept && dateOf(f) == Some(d)
  {
    var pairs := WithDates(kept, dateOf);
    var r := NestedDicts.BuildDict(pairs);
    forall f, d ensures (f, d) in r <==> f in kept && dateOf(f) == Some(d) {
      if (f, d) in r {
        NestedDicts.BuildDictEntries(pairs, (f, d));
      } else if f in kept && dateOf(f) == Some(d) {
        var i :| 0 <= i < |kept| && kept[i] == f;
        assert pairs[i] == (f, d);
        assert f in NestedDicts.Keys(r);
        var p :| p in r && p.0 == f;
        NestedDicts.BuildDictEntries(pairs, p);
      }
    }
  }

  /**
   * Over a sorted listing of distinct names, the dictionary holds exactly
   * the files to ingest, in ascending name order.
   */
  lemma UnprocessedInNameOrder(files: seq<string>, pattern: string, cdrType: string, ignoreFilenames: seq<string>,
                               matchGroup: Matcher, parseDate: DateParser, canProcess: Processable)
    ensures var r := FindUnprocessedDatesFromFiles(files, pattern, cdrType, ignoreFilenames, matchGroup, parseDate, canProcess);
            r.Ok? && Pairwise(files, StrLt) ==> forall i, j :: 0 <= i < j < |r.value| ==> StrLt(r.value[i].0, r.value[j].0)
  {
    if FirstBadDate(files, pattern, ignoreFilenames, matchGroup, parseDate).None? && Pairwise(files, StrLt) {
      var kept := UnprocessedFiles(files, pattern, cdrType, ignoreFilenames, matchGroup, parseDate, canProcess);
      FilterKeepsPairwise(files, f => IsUnprocessed(f, pattern, cdrType, ignoreFilenames, matchGroup, parseDate, canProcess), StrLt);
      var pairs := WithDates(kept, f => FileDate(f, pattern, matchGroup, parseDate));
      assert NestedDicts.DistinctKeys(pairs);
      NestedDicts.BuildDictOfDistinct(pairs);
    }
  }

  // ---------------------------------------------------------------------
  // Triggering the ETL runs
  // ---------------------------------------------------------------------

  /** The `source` part of one CDR type's configuration. */
  datatype Source = Source(sourceType: string, filenamePattern: Option<string>, tableName: Option<string>)

  datatype TriggerError = UnknownCdrType(name: string) | MissingSourceKey(key: string) | UnparseableDate(fileName: string) | NotImplemented

  /** One ETL run to trigger: the CDR type, the file and its date. */
  datatype Trigger = Trigger(cdrType: string, fileName: string, date: Date)

  /** The DAG a trigger starts. */
  function DagId(t: Trigger): (r: string)
    ensures StartsWith(r, "etl_") && r[4..] == t.cdrType
  {
    "etl_" + t.cdrType
  }

  /** `str.upper` on ASCII letters. */
  function AsciiUpper(s: string): (r: string)
    ensures |r| == |s|
    ensures forall i :: 0 <= i < |s| ==> (if 'a' <= s[i] <= 'z' then r[i] as int == s[i] as int - 32 else r[i] == s[i])
  {
    seq(|s|, i requires 0 <= i < |s| => if 'a' <= s[i] <= 'z' then (s[i] as int - 32) as char else s[i])
  }

  /** The run id without its trailing UUID: `<CDR_TYPE>_<YYYYMMDD>-`. */
  function RunIdStem(t: Trigger): (r: string)
    ensures |r| == |t.cdrType| + 10
    ensures r[..|t.cdrType|] == AsciiUpper(t.cdrType) && r[|t.cdrType|] == '_' && r[|r| - 1] == '-'
    ensures r[|t.cdrType| + 1..|r| - 1] == DateStamp(t.date)
  {
    AsciiUpper(t.cdrType) + "_" + DateStamp(t.date) + "-"
  }

  /** The configuration a triggered run receives. */
  function TriggerConf(t: Trigger): (r: RunConf)
    ensures r.Keys == {"cdr_type", "cdr_date", "file_name", "template_path"}
    ensures r["cdr_type"] == Text(t.cdrType) && r["cdr_date"] == DateValue(t.date) && r["file_name"] == Text(t.fileName)
    ensures r["template_path"] == Text("etl/" + t.cdrType)
  {
    map["cdr_type" := Text(t.cdrType), "cdr_date" := DateValue(t.date), "file_name" := Text(t.fileName),
        "template_path" := Text("etl/" + t.cdrType)]
  }

  /** A triggered run records its state under its own CDR type and date. */
  lemma TriggeredRunRecordsItsPair(t: Trigger, records: EtlRecords, toState: string)
    ensures var r := RecordIngestionState(records, TriggerConf(t), toState);
            r.Ok? && r.value[(Text(t.cdrType), DateValue(t.date))] == toState
  {
  }

  /** Two runs of one CDR type on different dates get different run ids. */
  lemma RunIdsTellDatesApart(a: Trigger, b: Trigger)
    requires a.cdrType == b.cdrType && ValidDate(a.date) && ValidDate(b.date) && a.date != b.date
    ensures RunIdStem(a) != RunIdStem(b)
  {
    var n := |a.cdrType|;
    if RunIdStem(a) == RunIdStem(b) {
      assert RunIdStem(a)[n + 1..|RunIdStem(a)| - 1] == RunIdStem(b)[n + 1..|RunIdStem(b)| - 1];
      DateStampInjective(a.date, b.date);
    }
  }

  /** The result of `production_trigger__callable`: the runs triggered, and the exception that ended it, if any. */
  datatype TriggerOutcome = TriggerOutcome(triggered: seq<Trigger>, error: Option<TriggerError>)

  /** A CDR type's configuration that passes the checks: a known type, from CSV files with a pattern. */
  predicate Runnable(entry: (string, Source), isCdrType: string -> bool) {
    isCdrType(entry.0) && entry.1.sourceType == "csv" && entry.1.filenamePattern.Some?
  }

  /** A CDR type's configuration the callable gets through: runnable, and every matched file's date parses. */
  predicate Completes(entry: (string, Source), listing: seq<string>, isCdrType: string -> bool,
                      matchGroup: Matcher, parseDate: DateParser) {
    Runnable(entry, isCdrType) &&
    forall f :: f in listing ==> !HasBadDate(f, entry.1.filenamePattern.value, DefaultIgnoreFilenames, matchGroup, parseDate)
  }

  /**
   * The files to ingest for one CSV source, in sorted-name order, each as
   * the run to trigger; or the parse error of the first matched file, in
   * name order, whose date does not parse.
   */
  function CsvTriggers(cdrType: string, pattern: string, listing: seq<string>,
                       matchGroup: Matcher, parseDate: DateParser, canProcess: Processable): (r: Result<seq<Trigger>, TriggerError>)
    ensures r.Err? <==> exists f :: f in listing && HasBadDate(f, pattern, DefaultIgnoreFilenames, matchGroup, parseDate)
    ensures r.Err? ==> r.error.UnparseableDate? &&
                       FirstBadDate(SortStrings(listing), pattern, DefaultIgnoreFilenames, matchGroup, parseDate) == Some(r.error.fileName)
    ensures r.Ok? ==> forall t :: t in r.value <==>
                        t.cdrType == cdrType && t.fileName in listing && t.fileName !in DefaultIgnoreFilenames &&
                        FileDate(t.fileName, pattern, matchGroup, parseDate) == Some(t.date) && canProcess(cdrType, t.date)
    ensures r.Ok? && (forall i, j :: 0 <= i < j < |listing| ==> listing[i] != listing[j]) ==>
              forall i, j :: 0 <= i < j < |r.value| ==> StrLt(r.value[i].fileName, r.value[j].fileName)
  {
    var files := SortStrings(listing);
    SortedSameNames(listing);
    SortedDistinctNames(listing);
    UnprocessedInNameOrder(files, pattern, cdrType, DefaultIgnoreFilenames, matchGroup, parseDate, canProcess);
    match FindUnprocessedDatesFromFiles(files, pattern, cdrType, DefaultIgnoreFilenames, matchGroup, parseDate, canProcess)
    case Err(e) => Err(e)
    case Ok(found) => Ok(AsTriggers(cdrType, found))
  }

  /** A listing without repeated names sorts into strictly ascending order. */
  lemma SortedDistinctNames(listing: seq<string>)
    ensures (forall i, j :: 0 <= i < j < |listing| ==> listing[i] != listing[j]) ==> Pairwise(SortStrings(listing), StrLt)
  {
    if forall i, j :: 0 <= i < j < |listing| ==> listing[i] != listing[j] {
      var r := SortStrings(listing);
      DistinctMultiset(listing);
      forall i, j | 0 <= i < j < |r| ensures StrLt(r[i], r[j]) {
        RepeatCountsTwice(r, i, j);
      }
    }
  }

  /** Sorting a listing keeps its names. */
  lemma SortedSameNames(listing: seq<string>)
    ensures forall f :: f in SortStrings(listing) <==> f in listing
  {
    var files := SortStrings(listing);
    forall f ensures f in files <==> f in listing {
      assert f in files <==> f in multiset(files);
    }
  }

  /** Each file and its date as a run of the given CDR type. */
  function AsTriggers(cdrType: string, found: seq<(string, Date)>): (r: seq<Trigger>)
    ensures forall t :: t in r <==> t.cdrType == cdrType && (t.fileName, t.date) in found
    ensures |r| == |found|
    ensures forall i :: 0 <= i < |r| ==> r[i] == Trigger(cdrType, found[i].0, found[i].1)
    decreases |found|
  {
    if |found| == 0 then []
    else
      var rest := AsTriggers(cdrType, found[1..]);
      assert forall p :: p in found <==> p == found[0] || p in found[1..];
      [Trigger(cdrType, found[0].0, found[0].1)] + rest
  }

  /**
   * `production_trigger__callable`: for each CDR type in the
   * configuration's order, a CSV source triggers one run per file to ingest;
   * an unknown CDR type raises `ValueError`, a missing key `KeyError`, a
   * matched date that does not parse pendulum's parse error, and an SQL or
   * any other source `NotImplementedError`, ending the callable after the
   * runs already triggered.
   */
  function ProductionTrigger(config: seq<(string, Source)>, listing: seq<string>, isCdrType: string -> bool,
                             matchGroup: Matcher, parseDate: DateParser, canProcess: Processable): (r: TriggerOutcome)
    ensures r.error.None? <==> forall i :: 0 <= i < |config| ==> Completes(config[i], listing, isCdrType, matchGroup, parseDate)
    decreases |config|
  {
    if |config| == 0 then TriggerOutcome([], None)
    else
      var (cdrType, source) := config[0];
      CompletesSplit(config, listing, isCdrType, matchGroup, parseDate);
      if !isCdrType(cdrType) then TriggerOutcome([], Some(UnknownCdrType(cdrType)))
      else if source.sourceType == "csv" then
        match source.filenamePattern
        case None => TriggerOutcome([], Some(MissingSourceKey("filename_pattern")))
        case Some(pattern) =>
          match CsvTriggers(cdrType, pattern, listing, matchGroup, parseDate, canProcess)
          case Err(e) => TriggerOutcome([], Some(e))
          case Ok(here) =>
            var rest := ProductionTrigger(config[1..], listing, isCdrType, matchGroup, parseDate, canProcess);
            TriggerOutcome(here + rest.triggered, rest.error)
      else if source.sourceType == "sql" then
        if source.tableName.None? then TriggerOutcome([], Some(MissingSourceKey("table_name")))
        else TriggerOutcome([], Some(NotImplemented))
      else TriggerOutcome([], Some(NotImplemented))
  }

  /** Every entry completes exactly when the first does and every later one does. */
  lemma CompletesSplit(config: seq<(string, Source)>, listing: seq<string>, isCdrType: string -> bool,
                       matchGroup: Matcher, parseDate: DateParser)
    requires |config| > 0
    ensures (forall i :: 0 <= i < |config| ==> Completes(config[i], listing, isCdrType, matchGroup, parseDate)) <==>
            Completes(config[0], listing, isCdrType, matchGroup, parseDate) &&
            forall i :: 0 <= i < |config[1..]| ==> Completes(config[1..][i], listing, isCdrType, matchGroup, parseDate)
  {
    assert forall i :: 1 <= i < |config| ==> config[i] == config[1..][i - 1];
  }

  /**
   * The runs an entry triggers when it completes: its CSV source's files to
   * ingest, in name order; none for an entry that raises.
   */
  function EntryRuns(entry: (string, Source), listing: seq<string>, isCdrType: string -> bool,
                     matchGroup: Matcher, parseDate: DateParser, canProcess: Processable): (r: seq<Trigger>)
    ensures forall t :: t in r ==> t.cdrType == entry.0 && t.fileName in listing
  {
    if Runnable(entry, isCdrType) then
      match CsvTriggers(entry.0, entry.1.filenamePattern.value, listing, matchGroup, parseDate, canProcess)
      case Ok(runs) => runs
      case Err(_) => []
    else []
  }

  /** How many entries, from the front of the configuration, complete before one fails. */
  function CompletingPrefix(config: seq<(string, Source)>, listing: seq<string>, isCdrType: string -> bool,
                            matchGroup: Matcher, parseDate: DateParser): (n: nat)
    ensures n <= |config|
    ensures forall k :: 0 <= k < n ==> Completes(config[k], listing, isCdrType, matchGroup, parseDate)
    ensures n < |config| ==> !Completes(config[n], listing, isCdrType, matchGroup, parseDate)
    decreases |config|
  {
    if |config| == 0 || !Completes(config[0], listing, isCdrType, matchGroup, parseDate) then 0
    else
      var n := CompletingPrefix(config[1..], listing, isCdrType, matchGroup, parseDate);
      assert forall k :: 1 <= k < n + 1 ==> config[k] == config[1..][k - 1];
      n + 1
  }

  /** The runs of the first `n` entries, one entry after another in configuration order. */
  function RunsOfPrefix(config: seq<(string, Source)>, n: nat, listing: seq<string>, isCdrType: string -> bool,
                        matchGroup: Matcher, parseDate: DateParser, canProcess: Processable): seq<Trigger>
    requires n <= |config|
  {
    if n == 0 then []
    else RunsOfPrefix(config, n - 1, listing, isCdrType, matchGroup, parseDate, canProcess) +
         EntryRuns(config[n - 1], listing, isCdrType, matchGroup, parseDate, canProcess)
  }

  lemma {:induction false} RunsOfPrefixCons(config: seq<(string, Source)>, n: nat, listing: seq<string>, isCdrType: string -> bool,
                                            matchGroup: Matcher, parseDate: DateParser, canProcess: Processable)
    requires 0 < n <= |config|
    ensures RunsOfPrefix(config, n, listing, isCdrType, matchGroup, parseDate, canProcess) ==
            EntryRuns(config[0], listing, isCdrType, matchGroup, parseDate, canProcess) +
            RunsOfPrefix(config[1..], n - 1, listing, isCdrType, matchGroup, parseDate, canProcess)
    decreases n
  {
    if n > 1 {
      RunsOfPrefixCons(config, n - 1, listing, isCdrType, matchGroup, parseDate, canProcess);
      assert config[1..][n - 2] == config[n - 1];
    }
  }

  /**
   * The runs are triggered entry by entry in configuration order, each
   * entry's in name order, up to the first entry that raises: exactly the
   * runs of the entries that complete before it.
   */
  lemma {:induction false} ProductionTriggerInConfigOrder(config: seq<(string, Source)>, listing: seq<string>, isCdrType: string -> bool,
                                                          matchGroup: Matcher, parseDate: DateParser, canProcess: Processable)
    ensures ProductionTrigger(config, listing, isCdrType, matchGroup, parseDate, canProcess).triggered ==
            RunsOfPrefix(config, CompletingPrefix(config, listing, isCdrType, matchGroup, parseDate), listing, isCdrType,
                         matchGroup, parseDate, canProcess)
    decreases |config|
  {
    if |config| > 0 {
      if Completes(config[0], listing, isCdrType, matchGroup, parseDate) {
        var n := CompletingPrefix(config, listing, isCdrType, matchGroup, parseDate);
        ProductionTriggerInConfigOrder(config[1..], listing, isCdrType, matchGroup, parseDate, canProcess);
        RunsOfPrefixCons(config, n, listing, isCdrType, matchGroup, parseDate, canProcess);
        CompletingHeadRuns(config, listing, isCdrType, matchGroup, parseDate, canProcess);
      } else {
        FailingHeadRunsNothing(config, listing, isCdrType, matchGroup, parseDate, canProcess);
      }
    }
  }

  /** An entry that completes triggers its own runs, then the callable goes on with the rest. */
  lemma CompletingHeadRuns(config: seq<(string, Source)>, listing: seq<string>, isCdrType: string -> bool,
                           matchGroup: Matcher, parseDate: DateParser, canProcess: Processable)
    requires |config| > 0 && Completes(config[0], listing, isCdrType, matchGroup, parseDate)
    ensures ProductionTrigger(config, listing, isCdrType, matchGroup, parseDate, canProcess).triggered ==
            EntryRuns(config[0], listing, isCdrType, matchGroup, parseDate, canProcess) +
            ProductionTrigger(config[1..], listing, isCdrType, matchGroup, parseDate, canProcess).triggered
    ensures ProductionTrigger(config, listing, isCdrType, matchGroup, parseDate, canProcess).error ==
            ProductionTrigger(config[1..], listing, isCdrType, matchGroup, parseDate, canProcess).error
  {
  }

  /** An entry that raises ends the callable before it triggers anything of its own. */
  lemma FailingHeadRunsNothing(config: seq<(string, Source)>, listing: seq<string>, isCdrType: string -> bool,
                               matchGroup: Matcher, parseDate: DateParser, canProcess: Processable)
    requires |config| > 0 && !Completes(config[0], listing, isCdrType, matchGroup, parseDate)
    ensures ProductionTrigger(config, listing, isCdrType, matchGroup, parseDate, canProcess).triggered == []
  {
  }

  /** A run is triggered for a file of a runnable CSV source. */
  ghost predicate Justified(t: Trigger, config: seq<(string, Source)>, listing: seq<string>, isCdrType: string -> bool,
                            matchGroup: Matcher, parseDate: DateParser, canProcess: Processable) {
    t.fileName in listing && t.fileName !in DefaultIgnoreFilenames && canProcess(t.cdrType, t.date) &&
    exists i :: 0 <= i < |config| && Runnable(config[i], isCdrType) && config[i].0 == t.cdrType &&
                FileDate(t.fileName, config[i].1.filenamePattern.value, matchGroup, parseDate) == Some(t.date)
  }

  /** Every triggered run is for a file to ingest of a configured CSV source. */
  lemma {:induction false} ProductionTriggerSound(config: seq<(string, Source)>, listing: seq<string>, isCdrType: string -> bool,
                                                  matchGroup: Matcher, parseDate: DateParser, canProcess: Processable)
    ensures forall t :: t in ProductionTrigger(config, listing, isCdrType, matchGroup, parseDate, canProcess).triggered ==>
              Justified(t, config, listing, isCdrType, matchGroup, parseDate, canProcess)
    decreases |config|
  {
    if |config| > 0 && Runnable(config[0], isCdrType) {
      var (cdrType, source) := config[0];
      var pattern := source.filenamePattern.value;
      var csv := CsvTriggers(cdrType, pattern, listing, matchGroup, parseDate, canProcess);
      if csv.Ok? {
        var here := csv.value;
        var rest := config[1..];
        ProductionTriggerSound(rest, listing, isCdrType, matchGroup, parseDate, canProcess);
        forall t | t in ProductionTrigger(config, listing, isCdrType, matchGroup, parseDate, canProcess).triggered
          ensures Justified(t, config, listing, isCdrType, matchGroup, parseDate, canProcess)
        {
          if t in here {
            assert config[0].0 == t.cdrType;
          } else {
            assert Justified(t, rest, listing, isCdrType, matchGroup, parseDate, canProcess);
            var i :| 0 <= i < |rest| && Runnable(rest[i], isCdrType) && rest[i].0 == t.cdrType &&
                     FileDate(t.fileName, rest[i].1.filenamePattern.value, matchGroup, parseDate) == Some(t.date);
            assert config[i + 1] == rest[i];
          }
        }
      }
    }
  }

  /** When the callable completes, every file to ingest of every configured source has had its run triggered. */
  lemma {:induction false} ProductionTriggerComplete(config: seq<(string, Source)>, listing: seq<string>, isCdrType: string -> bool,
                                                     matchGroup: Matcher, parseDate: DateParser, canProcess: Processable,
                                                     i: int, f: string, d: Date)
    requires ProductionTrigger(config, listing, isCdrType, matchGroup, parseDate, canProcess).error.None?
    requires 0 <= i < |config| && f in listing && f !in DefaultIgnoreFilenames
    requires Runnable(config[i], isCdrType)
    requires FileDate(f, config[i].1.filenamePattern.value, matchGroup, parseDate) == Some(d) && canProcess(config[i].0, d)
    ensures Trigger(config[i].0, f, d) in ProductionTrigger(config, listing, isCdrType, matchGroup, parseDate, canProcess).triggered
    decreases |config|
  {
    var head := config[0];
    assert Completes(head, listing, isCdrType, matchGroup, parseDate);
    CompletingHeadRuns(config, listing, isCdrType, matchGroup, parseDate, canProcess);
    if i == 0 {
      var csv := CsvTriggers(head.0, head.1.filenamePattern.value, listing, matchGroup, parseDate, canProcess);
      assert csv.Ok?;
      assert Trigger(head.0, f, d) in csv.value;
    } else {
      assert config[1..][i - 1] == config[i];
      ProductionTriggerComplete(config[1..], listing, isCdrType, matchGroup, parseDate, canProcess, i - 1, f, d);
    }
  }

  /** An SQL source raises as soon as it is reached: nothing after it is triggered. */
  lemma SqlSourceRaises(cdrType: string, table: string, rest: seq<(string, Source)>, listing: seq<string>,
                        isCdrType: string -> bool, matchGroup: Matcher, parseDate: DateParser, canProcess: Processable)
    requires isCdrType(cdrType)
    ensures ProductionTrigger([(cdrType, Source("sql", None, Some(table)))] + rest, listing, isCdrType, matchGroup, parseDate, canProcess)
         == TriggerOutcome([], Some(NotImplemented))
  {
  }

  /**
   * A matched file whose date does not parse raises before any run of its
   * CDR type is triggered, and ends the callable.
   */
  lemma UnparseableDateRaises(cdrType: string, pattern: string, rest: seq<(string, Source)>, listing: seq<string>,
                              isCdrType: string -> bool, matchGroup: Matcher, parseDate: DateParser, canProcess: Processable,
                              f: string)
    requires isCdrType(cdrType) && f in listing && HasBadDate(f, pattern, DefaultIgnoreFilenames, matchGroup, parseDate)
    ensures var r := ProductionTrigger([(cdrType, Source("csv", Some(pattern), None))] + rest, listing, isCdrType,
                                       matchGroup, parseDate, canProcess);
            r.triggered == [] && r.error.Some? && r.error.value.UnparseableDate?
  {
  }
}
