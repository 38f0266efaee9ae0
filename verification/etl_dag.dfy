/**
 * flowetl's DAG helpers: `get_qa_checks`, which turns the QA-check SQL
 * templates visible to a DAG into check tasks, and `create_dag`, which
 * builds the ETL DAG for one CDR type. A DAG is modelled by what these
 * read and write: its template search path, its parameters, its tasks and
 * the dependencies between them. The template loader is a parameter.
 */
module EtlDag {
  import opened Wrappers
  import opened SeqUtil
  import opened Ordering

  // ---------------------------------------------------------------------
  // Template paths
  // ---------------------------------------------------------------------

  /** A relative path as `pathlib` holds it: its non-empty parts other than `.`. */
  type Path = seq<string>

  /** `Path(text)` for a relative, `/`-separated template name. */
  function ParsePath(text: string): (r: Path)
    ensures forall i :: 0 <= i < |r| ==> r[i] != "" && r[i] != "." && '/' !in r[i]
  {
    Filter(Split(text, '/'), part => part != "" && part != ".")
  }

  /** The final part, `""` for the empty path. */
  function Name(p: Path): (r: string)
    ensures |p| > 0 ==> r == p[|p| - 1]
  {
    if |p| == 0 then "" else p[|p| - 1]
  }

  /** `PurePath.stem`: the name less its last suffix; a leading or trailing dot is no suffix. */
  function Stem(name: string): (r: string)
    ensures StartsWith(name, r)
    ensures r != name ==> |r| > 0 && name[|r|] == '.' && |r| + 1 < |name| && '.' !in name[|r| + 1..]
  {
    var i := LastDot(name);
    if 0 < i < |name| - 1 then name[..i] else name
  }

  /** The index of the last `.` in `s`, or `|s|` when there is none. */
  function LastDot(s: string): (i: nat)
    ensures i <= |s|
    ensures i < |s| ==> s[i] == '.' && '.' !in s[i + 1..]
    ensures i == |s| ==> '.' !in s
    decreases |s|
  {
    if |s| == 0 then 0
    else if s[|s| - 1] == '.' then |s| - 1
    else
      var j := LastDot(s[..|s| - 1]);
      assert s == s[..|s| - 1] + [s[|s| - 1]];
      if j == |s| - 1 then |s|
      else
        assert s[j + 1..] == s[..|s| - 1][j + 1..] + [s[|s| - 1]];
        j
  }

  /** The stem of the parent directory: `""` when the parent is `.`. */
  function ParentStem(p: Path): (r: string)
    ensures |p| < 2 ==> r == ""
    ensures |p| >= 2 ==> r == Stem(p[|p| - 2])
  {
    if |p| < 2 then "" else Stem(p[|p| - 2])
  }

  /** Python's ordering of paths: their parts compared as a list. */
  predicate PathLe(a: Path, b: Path) {
    LexLe(a, b, StrLt)
  }

  /** Path order is a total order. */
  lemma PathLeIsTotalOrder()
    ensures TotalPreorder(PathLe)
    ensures Antisymmetric(PathLe)
  {
    StrLeIsTotalOrder();
    forall a: Path, b: Path ensures PathLe(a, b) || PathLe(b, a) {
      LexTotal(a, b, StrLt);
    }
    forall a: Path, b: Path, c: Path | PathLe(a, b) && PathLe(b, c) ensures PathLe(a, c) {
      LexTransitive(a, b, c, StrLt);
    }
    forall a: Path, b: Path | PathLe(a, b) && PathLe(b, a) ensures a == b {
      LexAntisymmetric(a, b, StrLt);
    }
  }

  // ---------------------------------------------------------------------
  // get_qa_checks
  // ---------------------------------------------------------------------

  /** What `get_qa_checks` reads and writes of a DAG: its template search path and its parameters. */
  datatype Dag = Dag(templateSearchpath: Option<seq<string>>, params: map<string, string>)

  /** A QA-check task: its id and the template it runs. */
  datatype QaCheck = QaCheck(taskId: string, sql: string)

  /** The DAG with its search path extended, and its checks. */
  datatype QaChecks = QaChecks(dag: Dag, checks: seq<QaCheck>)

  /** Neither a DAG nor a DAG context: `TypeError`. */
  datatype QaError = NoDag

  /** The template loader's filter: a name containing `qa_checks` and ending in `.sql`. */
  predicate IsQaTemplate(name: string) {
    Contains(name, "qa_checks") && EndsWith(name, ".sql")
  }

  /** The directories whose templates apply to a DAG: `qa_checks`, and its CDR type when it has one. */
  function ValidStems(params: map<string, string>): (r: seq<string>)
    ensures forall s :: s in r <==> s == "qa_checks" || ("cdr_type" in params && s == params["cdr_type"])
  {
    ["qa_checks"] + (if "cdr_type" in params then [params["cdr_type"]] else [])
  }

  /** The listed templates that are QA checks of the DAG, as paths. */
  function ApplicableTemplates(listed: seq<string>, params: map<string, string>): (r: seq<Path>)
    ensures forall p :: p in r <==> exists t :: t in listed && IsQaTemplate(t) && ParsePath(t) == p && ParentStem(p) in ValidStems(params)
    decreases |listed|
  {
    if |listed| == 0 then []
    else
      var rest := ApplicableTemplates(listed[1..], params);
      var t := listed[0];
      assert forall x :: x in listed <==> x == t || x in listed[1..];
      if IsQaTemplate(t) && ParentStem(ParsePath(t)) in ValidStems(params) then [ParsePath(t)] + rest else rest
  }

  /** The id of a check: the template's stem, qualified by its directory when that is a CDR type's. */
  function TaskId(p: Path): (r: string)
    ensures ParentStem(p) == "qa_checks" ==> r == Stem(Name(p))
    ensures ParentStem(p) != "qa_checks" ==> r == Stem(Name(p)) + "." + ParentStem(p)
  {
    if ParentStem(p) == "qa_checks" then Stem(Name(p)) else Stem(Name(p)) + "." + ParentStem(p)
  }

  /** The check a template becomes. */
  function CheckOf(p: Path): (r: QaCheck)
    ensures r.taskId == TaskId(p) && r.sql == Join(p, "/")
  {
    QaCheck(TaskId(p), Join(p, "/"))
  }

  /** `sorted(paths)`. */
  function SortPaths(paths: seq<Path>): (r: seq<Path>)
    ensures multiset(r) == multiset(paths)
    ensures SortedBy(r, PathLe)
  {
    PathLeIsTotalOrder();
    Sort(paths, PathLe)
  }

  /** The checks of the given templates, in order. */
  function ChecksOf(paths: seq<Path>): (r: seq<QaCheck>)
    ensures |r| == |paths|
    ensures forall i :: 0 <= i < |r| ==> r[i] == CheckOf(paths[i])
  {
    seq(|paths|, i requires 0 <= i < |paths| => CheckOf(paths[i]))
  }

  /**
   * `get_qa_checks`: the given DAG, or else the DAG of the enclosing
   * context, gets the default checks directory appended to its template
   * search path; every template the loader then lists that is a QA check of
   * the DAG becomes a check task, in path order.
   */
  function GetQaChecks(dag: Option<Dag>, contextDag: Option<Dag>, defaultChecks: string,
                       listTemplates: seq<string> -> seq<string>): (r: Result<QaChecks, QaError>)
    ensures r.Err? <==> dag.None? && contextDag.None?
    ensures r.Ok? ==> var d := if dag.Some? then dag.value else contextDag.value;
                      var searchpath := r.value.dag.templateSearchpath;
                      && r.value.dag.params == d.params
                      && searchpath.Some? && |searchpath.value| > 0
                      && searchpath.value[..|searchpath.value| - 1] == d.templateSearchpath.GetOr([])
                      && searchpath.value[|searchpath.value| - 1] == defaultChecks
    ensures r.Ok? ==> r.value.checks == ChecksOf(SortPaths(ApplicableTemplates(listTemplates(r.value.dag.templateSearchpath.value), r.value.dag.params)))
  {
    var target := if dag.Some? then dag else contextDag;
    match target
    case None => Err(NoDag)
    case Some(d) =>
      var searchpath := d.templateSearchpath.GetOr([]) + [defaultChecks];
      assert searchpath[..|searchpath| - 1] == d.templateSearchpath.GetOr([]);
      var extended := d.(templateSearchpath := Some(searchpath));
      var paths := SortPaths(ApplicableTemplates(listTemplates(searchpath), d.params));
      Ok(QaChecks(extended, ChecksOf(paths)))
  }

  /** A check is in the list exactly when it is the check of a QA template whose parent is a valid stem. */
  lemma QaCheckSelection(dag: Dag, defaultChecks: string, listTemplates: seq<string> -> seq<string>, c: QaCheck)
    ensures var r := GetQaChecks(Some(dag), None, defaultChecks, listTemplates).value;
            var listed := listTemplates(r.dag.templateSearchpath.value);
            c in r.checks <==> exists t :: && t in listed && IsQaTemplate(t)
                                          && ParentStem(ParsePath(t)) in ValidStems(dag.params)
                                          && c == CheckOf(ParsePath(t))
  {
    var r := GetQaChecks(Some(dag), None, defaultChecks, listTemplates).value;
    var listed := listTemplates(r.dag.templateSearchpath.value);
    if c in r.checks {
      QaChecksComeFromTemplates(dag, defaultChecks, listTemplates, c);
    }
    if exists t :: && t in listed && IsQaTemplate(t)
                   && ParentStem(ParsePath(t)) in ValidStems(dag.params) && c == CheckOf(ParsePath(t)) {
      var t :| && t in listed && IsQaTemplate(t)
               && ParentStem(ParsePath(t)) in ValidStems(dag.params) && c == CheckOf(ParsePath(t));
      var p := ParsePath(t);
      var applicable := ApplicableTemplates(listed, dag.params);
      var paths := SortPaths(applicable);
      assert p in applicable;
      assert p in multiset(paths);
      var i :| 0 <= i < |paths| && paths[i] == p;
      assert r.checks[i] == c;
    }
  }

  /** Every check task is the check of an applicable template. */
  lemma QaChecksComeFromTemplates(dag: Dag, defaultChecks: string, listTemplates: seq<string> -> seq<string>, c: QaCheck)
    requires c in GetQaChecks(Some(dag), None, defaultChecks, listTemplates).value.checks
    ensures var r := GetQaChecks(Some(dag), None, defaultChecks, listTemplates).value;
            exists t :: t in listTemplates(r.dag.templateSearchpath.value) && IsQaTemplate(t) &&
                        ParentStem(ParsePath(t)) in ValidStems(dag.params) && c == CheckOf(ParsePath(t))
  {
    var r := GetQaChecks(Some(dag), None, defaultChecks, listTemplates).value;
    var listed := listTemplates(r.dag.templateSearchpath.value);
    var applicable := ApplicableTemplates(listed, dag.params);
    var paths := SortPaths(applicable);
    assert r.checks == ChecksOf(paths);
    var i :| 0 <= i < |r.checks| && r.checks[i] == c;
    var p := paths[i];
    assert p in multiset(applicable) by {
      assert p in multiset(paths);
    }
    var t :| t in listed && IsQaTemplate(t) && ParsePath(t) == p && ParentStem(p) in ValidStems(dag.params);
    assert c == CheckOf(ParsePath(t));
  }

  /** A name without a dot is its own stem. */
  lemma StemWithoutDot(name: string)
    requires '.' !in name
    ensures Stem(name) == name
  {
  }

  /** The stem of `base.suffix`, for a base and a suffix without dots, is the base. */
  lemma StemDropsSuffix(base: string, suffix: string)
    requires |base| > 0 && |suffix| > 0 && '.' !in base && '.' !in suffix
    ensures Stem(base + "." + suffix) == base
  {
    var name := base + "." + suffix;
    assert name[|base|] == '.';
    assert forall j :: 0 <= j < |base| ==> name[j] == base[j];
    assert forall j :: |base| < j < |name| ==> name[j] == suffix[j - |base| - 1];
    assert name[..|base|] == base;
  }

  /** A default check is named by its template's stem. */
  lemma DefaultCheckId(stem: string, suffix: string)
    requires |stem| > 0 && |suffix| > 0 && '.' !in stem && '.' !in suffix
    ensures TaskId(["qa_checks", stem + "." + suffix]) == stem
  {
    StemDropsSuffix(stem, suffix);
    StemWithoutDot("qa_checks");
  }

  /** A check in a CDR type's directory is named by its template's stem and the type. */
  lemma CdrTypeCheckId(cdrType: string, stem: string, suffix: string)
    requires |stem| > 0 && |suffix| > 0 && '.' !in stem && '.' !in suffix && '.' !in cdrType && cdrType != "qa_checks"
    ensures TaskId(["qa_checks", cdrType, stem + "." + suffix]) == stem + "." + cdrType
  {
    StemDropsSuffix(stem, suffix);
    StemWithoutDot(cdrType);
  }

  // ---------------------------------------------------------------------
  // create_dag
  // ---------------------------------------------------------------------

  /** The arguments of `create_dag` that decide its shape. */
  datatype DagArgs = DagArgs(
    dagId: string,
    cdrType: string,
    stagingViewSql: Option<string>,
    sourceTable: Option<string>,
    filename: Option<string>,
    fields: Option<map<string, string>>,
    clusterField: Option<string>,
    additionalMacros: map<string, string>)

  /** How the data is staged: a view over a table in the database, or a foreign table over files. */
  datatype Staging = StagingView | ForeignStagingTable

  /** How the data is checked not to be changing: by watching the files or the table. */
  datatype FluxSensor = FileFlux | TableFlux

  /** The tasks of an ETL DAG; a QA check is known by its id. */
  datatype Task =
    | CreateStagingView | WaitForData | CheckNotInFlux | Extract | Cluster
    | AddConstraints | AddIndexes | Analyze | Attach | AnalyzeParentOnlyForNew | AnalyzeParent | UpdateRecords
    | Check(id: string)

  /** The id of a task. */
  function TaskName(t: Task): string {
    match t
    case CreateStagingView => "create_staging_view"
    case WaitForData => "wait_for_data"
    case CheckNotInFlux => "check_not_in_flux"
    case Extract => "extract"
    case Cluster => "cluster"
    case AddConstraints => "add_constraints"
    case AddIndexes => "add_indexes"
    case Analyze => "analyze"
    case Attach => "attach"
    case AnalyzeParentOnlyForNew => "analyze_parent_only_for_new"
    case AnalyzeParent => "analyze_parent"
    case UpdateRecords => "update_records"
    case Check(id) => id
  }

  /** A dependency: `upstream >> downstream`. */
  datatype Edge = Edge(upstream: Task, downstream: Task)

  /** The ETL DAG: its shape, its macros, its tasks in pipeline order and their dependencies. */
  datatype EtlDag = EtlDag(
    dag: Dag,
    staging: Staging,
    fluxSensor: FluxSensor,
    macros: map<string, string>,
    tasks: seq<Task>,
    edges: seq<Edge>)

  /** `TypeError` for missing source arguments, and the `TypeError` of `len(None)` when files come without fields. */
  datatype DagError = MissingSourceArguments | FieldsNotGiven

  /** The tasks every ETL DAG has, before the optional cluster task. */
  const StageTasks: seq<Task> := [CreateStagingView, WaitForData, CheckNotInFlux, Extract]

  /** The tasks every ETL DAG has, after the optional cluster task. */
  const LoadTasks: seq<Task> := [AddConstraints, AddIndexes, Analyze, Attach, AnalyzeParentOnlyForNew, AnalyzeParent, UpdateRecords]

  /** The tasks in pipeline order: staging, extraction, the optional cluster task, loading, then the checks. */
  function DagTasks(clustered: bool, checks: seq<Task>): (r: seq<Task>)
    requires forall c :: c in checks ==> c.Check?
    ensures Cluster in r <==> clustered
    ensures forall t :: t in r <==> t in StageTasks || (clustered && t == Cluster) || t in LoadTasks || t in checks
  {
    var r := StageTasks + (if clustered then [Cluster] else []) + LoadTasks + checks;
    assert forall t :: t in r <==> t in StageTasks || (clustered && t == Cluster) || t in LoadTasks || t in checks;
    r
  }

  /** The dependencies `create_dag` declares, with `checks` the QA checks. */
  function DagEdges(clustered: bool, checks: seq<Task>): (r: seq<Edge>)
    ensures forall c :: c in checks ==> Edge(Attach, c) in r
    ensures clustered <==> Edge(Extract, Cluster) in r
    ensures clustered ==> Edge(Cluster, AddConstraints) in r && Edge(Cluster, AddIndexes) in r
    ensures clustered <==> !(Edge(Extract, AddConstraints) in r || Edge(Extract, AddIndexes) in r)
  {
    var stage, load, toChecks := StageEdges(clustered), LoadEdges(clustered), ToChecks(checks);
    assert Edge(Extract, Cluster) !in load && Edge(Extract, Cluster) !in toChecks by {
      assert Cluster !in LoadTasks;
    }
    assert clustered ==> Edge(Extract, AddConstraints) !in stage && Edge(Extract, AddIndexes) !in stage by {
      assert Rank(AddConstraints) == 5 && Rank(AddIndexes) == 6;
    }
    stage + load + toChecks
  }

  /** Staging and extraction, then clustering when there is a cluster task. */
  function StageEdges(clustered: bool): (r: seq<Edge>)
    ensures clustered <==> Edge(Extract, Cluster) in r
    ensures forall e :: e in r ==> e.upstream in StageTasks && FixedTask(clustered, e.downstream)
    ensures forall e :: e in r ==> Rank(e.upstream) < Rank(e.downstream) && Rank(e.downstream) <= 4
  {
    [Edge(CreateStagingView, WaitForData), Edge(WaitForData, CheckNotInFlux), Edge(CheckNotInFlux, Extract)]
    + (if clustered then [Edge(Extract, Cluster)] else [])
  }

  /** Loading, from the cluster task when there is one and from extraction otherwise. */
  function LoadEdges(clustered: bool): (r: seq<Edge>)
    ensures var fromStage := if clustered then Cluster else Extract;
            Edge(fromStage, AddConstraints) in r && Edge(fromStage, AddIndexes) in r
    ensures forall e :: e in r ==> FixedTask(clustered, e.upstream) && e.downstream in LoadTasks
    ensures forall e :: e in r ==> Rank(e.upstream) < Rank(e.downstream)
    ensures forall e :: e in r && e.upstream == Extract ==> !clustered
  {
    AnalyzeEdgesShape(clustered);
    var fromStage := if clustered then Cluster else Extract;
    [Edge(fromStage, AddConstraints), Edge(fromStage, AddIndexes)] + AnalyzeEdges
  }

  /** The loading steps after the constraints and indexes, which do not depend on clustering. */
  const AnalyzeEdges: seq<Edge> :=
    [Edge(AddConstraints, Analyze), Edge(AddIndexes, Analyze),
     Edge(Analyze, Attach), Edge(Attach, AnalyzeParentOnlyForNew),
     Edge(AnalyzeParentOnlyForNew, AnalyzeParent), Edge(Attach, UpdateRecords)]

  /** Each of the later loading steps joins two loading tasks in rank order. */
  lemma AnalyzeEdgesShape(clustered: bool)
    ensures forall e :: e in AnalyzeEdges ==> FixedTask(clustered, e.upstream) && e.downstream in LoadTasks
    ensures forall e :: e in AnalyzeEdges ==> Rank(e.upstream) < Rank(e.downstream) && e.upstream != Extract
  {
  }

  /** `attach >> checks`. */
  function ToChecks(checks: seq<Task>): (r: seq<Edge>)
    ensures forall e :: e in r <==> e.upstream == Attach && e.downstream in checks
    decreases |checks|
  {
    if |checks| == 0 then []
    else
      assert forall c :: c in checks <==> c == checks[0] || c in checks[1..];
      [Edge(Attach, checks[0])] + ToChecks(checks[1..])
  }

  /** The QA checks as tasks. */
  function CheckTasks(checks: seq<QaCheck>): (r: seq<Task>)
    ensures |r| == |checks| && forall i :: 0 <= i < |r| ==> r[i] == Check(checks[i].taskId)
    ensures forall t :: t in r ==> t.Check?
  {
    seq(|checks|, i requires 0 <= i < |checks| => Check(checks[i].taskId))
  }

  /**
   * `create_dag`: a staging view over `source_table` when both it and
   * `staging_view_sql` are given, otherwise a foreign staging table when a
   * filename and fields are; the flux sensor watches the files exactly when
   * a filename is given; a cluster task follows extraction exactly when a
   * cluster field is given; the QA checks of the DAG's CDR type follow
   * attachment.
   */
  function CreateDag(args: DagArgs, defaultChecks: string, listTemplates: seq<string> -> seq<string>): (r: Result<EtlDag, DagError>)
    ensures r.Err? <==> !(args.stagingViewSql.Some? && args.sourceTable.Some?) &&
                        !(args.filename.Some? && args.fields.Some? && |args.fields.value| > 0)
    ensures r == Err(FieldsNotGiven) <==> !(args.stagingViewSql.Some? && args.sourceTable.Some?) && args.filename.Some? && args.fields.None?
    ensures r.Ok? ==> (r.value.staging == StagingView <==> args.stagingViewSql.Some? && args.sourceTable.Some?)
    ensures r.Ok? ==> (r.value.fluxSensor == FileFlux <==> args.filename.Some?)
    ensures r.Ok? ==> (Cluster in r.value.tasks <==> args.clusterField.Some?)
    ensures r.Ok? ==> r.value.dag.params == map["cdr_type" := args.cdrType]
    ensures r.Ok? ==> ("source_table" in r.value.macros <==> args.sourceTable.Some? || "source_table" in args.additionalMacros)
    ensures r.Ok? && args.sourceTable.Some? ==> r.value.macros["source_table"] == args.sourceTable.value
  {
    var staging :=
      if args.stagingViewSql.Some? && args.sourceTable.Some? then Some(StagingView)
      else if args.filename.Some? && args.fields.Some? && |args.fields.value| > 0 then Some(ForeignStagingTable)
      else None;
    if staging.None? && args.filename.Some? && args.fields.None? then Err(FieldsNotGiven)
    else if staging.None? then Err(MissingSourceArguments)
    else
      var macros := if args.sourceTable.Some? then args.additionalMacros["source_table" := args.sourceTable.value] else args.additionalMacros;
      var dag := Dag(None, map["cdr_type" := args.cdrType]);
      var qa := GetQaChecks(None, Some(dag), defaultChecks, listTemplates).value;
      var checks := CheckTasks(qa.checks);
      var clustered := args.clusterField.Some?;
      Ok(EtlDag(qa.dag, staging.value, if args.filename.Some? then FileFlux else TableFlux, macros,
                DagTasks(clustered, checks), DagEdges(clustered, checks)))
  }

  /** Extraction from a view wins when the arguments name both a view and files. */
  lemma ViewStagingTakesPrecedence(args: DagArgs, defaultChecks: string, listTemplates: seq<string> -> seq<string>)
    requires args.stagingViewSql.Some? && args.sourceTable.Some? && args.filename.Some?
    ensures var r := CreateDag(args, defaultChecks, listTemplates);
            r.Ok? && r.value.staging == StagingView && r.value.fluxSensor == FileFlux
  {
  }

  /** The order in which the tasks run; the QA checks come last. */
  function Rank(t: Task): (r: nat)
    ensures t.Check? <==> r == 12
  {
    match t
    case CreateStagingView => 0
    case WaitForData => 1
    case CheckNotInFlux => 2
    case Extract => 3
    case Cluster => 4
    case AddConstraints => 5
    case AddIndexes => 6
    case Analyze => 7
    case Attach => 8
    case AnalyzeParentOnlyForNew => 9
    case AnalyzeParent => 10
    case UpdateRecords => 11
    case Check(_) => 12
  }

  /**
   * Every dependency runs from a task of lower rank to one of higher rank,
   * so the DAG has no cycle; and every dependency joins two of the DAG's
   * tasks.
   */
  lemma CreateDagIsAcyclic(args: DagArgs, defaultChecks: string, listTemplates: seq<string> -> seq<string>)
    requires CreateDag(args, defaultChecks, listTemplates).Ok?
    ensures var d := CreateDag(args, defaultChecks, listTemplates).value;
            forall e :: e in d.edges ==> Rank(e.upstream) < Rank(e.downstream) && e.upstream in d.tasks && e.downstream in d.tasks
  {
    var d := CreateDag(args, defaultChecks, listTemplates).value;
    var qa := GetQaChecks(None, Some(Dag(None, map["cdr_type" := args.cdrType])), defaultChecks, listTemplates).value;
    var checks := CheckTasks(qa.checks);
    var clustered := args.clusterField.Some?;
    assert d.edges == DagEdges(clustered, checks);
    assert d.tasks == DagTasks(clustered, checks);
    forall e | e in d.edges
      ensures Rank(e.upstream) < Rank(e.downstream) && e.upstream in d.tasks && e.downstream in d.tasks
    {
      DagEdgesShape(clustered, checks, e);
    }
  }

  /** `t` is one of the tasks every DAG has, or the cluster task of a clustered one. */
  ghost predicate FixedTask(clustered: bool, t: Task) {
    t in StageTasks || (clustered && t == Cluster) || t in LoadTasks
  }

  /** Each dependency joins two fixed tasks in rank order, or runs from `attach` to a check. */
  lemma DagEdgesShape(clustered: bool, checks: seq<Task>, e: Edge)
    requires forall c :: c in checks ==> c.Check?
    requires e in DagEdges(clustered, checks)
    ensures FixedTask(clustered, e.upstream)
    ensures e.downstream in checks || FixedTask(clustered, e.downstream)
    ensures Rank(e.upstream) < Rank(e.downstream)
  {
    var stage, load := StageEdges(clustered), LoadEdges(clustered);
    assert DagEdges(clustered, checks) == stage + load + ToChecks(checks);
    if e in ToChecks(checks) {
      assert e.upstream == Attach && e.downstream in checks;
      assert FixedTask(clustered, Attach) by {
        assert LoadTasks[3] == Attach;
      }
    } else if e !in stage {
      assert e in load;
    }
  }
}
