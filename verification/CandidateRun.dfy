/** Running a candidate graph, with the handwritten template as a fallback on rejection or on an aborted run. */
module CandidateRun {
  import opened Wrappers
  import opened JsonTree
  import opened TaskGraph
  import opened DagRunner
  import opened CandidateDag
  import opened PlanStore

  datatype CandidateReport = CandidateReport(usedFallback: bool, category: Category, run: RunReport)

  datatype CandidateError = Rejected(category: Category) | BadFallback | Aborted(reason: AbortReason)

  /** Each run has its own clock. */
  datatype Options = Options(candidateHost: Host, fallbackHost: Host, onSchemaFail: bool, onAbort: bool)

  ghost predicate Completes(dag: DagManifest, host: Host)
  {
    exists p :: CompleteWalk(dag, host, p)
  }

  ghost predicate CandidateCompletes(value: Option<Json>, options: Options)
  {
    Verdict(value).dag.Some? && Completes(Verdict(value).dag.value, options.candidateHost)
  }

  ghost predicate FallbackCompletes(fallback: Option<Json>, options: Options)
  {
    FallbackDag(fallback).Some? && Completes(FallbackDag(fallback).value, options.fallbackHost)
  }

  /** The policy asks for the fallback. */
  ghost predicate FallbackAsked(value: Option<Json>, options: Options)
  {
    if Verdict(value).dag.None? then options.onSchemaFail else options.onAbort
  }

  method RunGraph(dag: DagManifest, host: Host) returns (r: Result<RunReport, AbortReason>)
    ensures r.Ok? <==> Completes(dag, host)
    ensures r.Ok? ==> r.value.success && r.value.dagId == dag.id && CompleteWalk(dag, host, VisitIds(r.value.visits))
  {
    hide CompleteWalk, Explained, VisitsRecorded;
    var report := RunTemplateDag(dag, host);
    if report.abortReason.Some? {
      return Err(report.abortReason.value);
    }
    return Ok(report);
  }

  method RunFallback(fallback: Option<Json>, options: Options, category: Category)
    returns (r: Result<CandidateReport, CandidateError>)
    ensures r.Ok? <==> FallbackCompletes(fallback, options)
    ensures r.Err? ==> !r.error.Rejected?
    ensures r.Ok? ==> r.value.usedFallback && r.value.category == category && r.value.run.success
                      && CompleteWalk(FallbackDag(fallback).value, options.fallbackHost, VisitIds(r.value.run.visits))
  {
    hide CompleteWalk, FallbackDag, Completes, VisitIds;
    var dag := ParseFallback(fallback);
    if dag.None? {
      return Err(BadFallback);
    }
    var run := RunGraph(dag.value, options.fallbackHost);
    if run.Err? {
      return Err(Aborted(run.error));
    }
    return Ok(CandidateReport(true, category, run.value));
  }

  /**
   Success without the fallback means that the candidate was accepted and completed; success with it means that the
   policy asked for the fallback and the fallback completed. There is no other success.
   */
  method RunCandidateOrFallback(value: Option<Json>, fallback: Option<Json>, options: Options)
    returns (r: Result<CandidateReport, CandidateError>)
    ensures r.Ok?
            <==> CandidateCompletes(value, options) || (FallbackAsked(value, options) && FallbackCompletes(fallback, options))
    ensures r.Ok? ==> (r.value.usedFallback <==> !CandidateCompletes(value, options))
    ensures r.Ok? ==> r.value.run.success && r.value.category == Verdict(value).category
    ensures r.Ok? && !r.value.usedFallback ==>
              CompleteWalk(Verdict(value).dag.value, options.candidateHost, VisitIds(r.value.run.visits))
    ensures r.Ok? && r.value.usedFallback ==>
              FallbackDag(fallback).Some? && CompleteWalk(FallbackDag(fallback).value, options.fallbackHost, VisitIds(r.value.run.visits))
    ensures r.Err? && r.error.Rejected? ==>
              r.error.category == Verdict(value).category != Accepted && !options.onSchemaFail
  {
    hide Verdict, CompleteWalk, Completes, FallbackDag, VisitIds, ValidGraph;
    var validated := ValidateCandidate(value);
    AcceptedIs(value);
    if validated.category != Accepted {
      if options.onSchemaFail {
        r := RunFallback(fallback, options, validated.category);
        return;
      }
      return Err(Rejected(validated.category));
    }
    var run := RunGraph(validated.dag.value, options.candidateHost);
    if run.Ok? {
      return Ok(CandidateReport(false, Accepted, run.value));
    }
    if options.onAbort {
      r := RunFallback(fallback, options, Accepted);
      return;
    }
    return Err(Aborted(run.error));
  }
}
