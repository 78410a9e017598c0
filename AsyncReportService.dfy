/**
 * AsyncReportService: the same report, with one task per selected sport.
 * The tasks run on a pool and finish in some order; `allOf` waits for all
 * of them. When every task succeeded, the futures are read back in list
 * order, so the sport reports come out in the order the sports were
 * selected, whatever the order in which the tasks finished. When some
 * failed, `allOf` completes with a failure and the futures are not read;
 * the failure is the leftmost failing task's, as OpenJDK's `allOf` picks
 * it (its Javadoc leaves the choice open). The pool, the
 * threads and the blocking waits are not modelled: the order in which the
 * tasks finish is a parameter, `completionOrder`.
 */
module AsyncReportService {
  import opened Domain
  import opened Streams
  import opened Report
  import opened ReportService

  /**
   * generateReportAsync as a value: fetch the sports, select, compute every
   * selected sport's result (the futures) and join them in list order.
   */
  function AsyncReportTree(ds: DataSource, selected: Option<seq<string>>): Result<seq<SportNode>>
  {
    match ds.sports
    case Err(e) => Err(e)
    case Ok(sports) => JoinInOrder(MapSeq(SelectSports(sports, selected), SportStep(ds)))
  }

  /**
   * The asynchronous report is the sequential one: the same sport nodes in
   * the same order when every task succeeds, and otherwise the same
   * exception, the one of the first failing sport in list order.
   */
  lemma AsyncTreeIsSequentialTree(ds: DataSource, selected: Option<seq<string>>)
    ensures AsyncReportTree(ds, selected) == ReportTree(ds, selected)
  {
    if ds.sports.Ok? {
      JoinOfMapIsTraverse(SelectSports(ds.sports.value, selected), SportStep(ds));
    }
  }

  /**
   * The futures of `sports.stream().map(this::processSportAsync)`: one task
   * per sport, run to completion in the order `completionOrder` gives
   * (positions out of range or already done are skipped; tasks it never
   * names finish afterwards, in list order). Whatever the order, future j
   * holds sport j's report, or the exception its task ended with.
   */
  method RunSportTasks(ds: DataSource, sports: seq<Sport>, completionOrder: seq<nat>)
    returns (futures: seq<Result<SportReport>>)
    ensures |futures| == |sports|
    ensures forall j :: 0 <= j < |sports| ==> (futures[j].Ok? <==> SportTree(ds, sports[j]).Ok?)
    ensures forall j :: 0 <= j < |sports| && futures[j].Err? ==> futures[j].error == SportTree(ds, sports[j]).error
    ensures forall j :: 0 <= j < |sports| && futures[j].Ok? ==>
              fresh(futures[j].value.Repr) && futures[j].value.Valid() &&
              futures[j].value.Value == SportTree(ds, sports[j]).value
  {
    var done: seq<Option<Result<SportReport>>> := seq(|sports|, _ => None);
    for k := 0 to |completionOrder|
      invariant |done| == |sports|
      invariant forall j :: 0 <= j < |sports| && done[j].Some? ==> Finished(ds, sports[j], done[j].value)
      invariant forall j :: 0 <= j < |sports| && done[j].Some? && done[j].value.Ok? ==> fresh(done[j].value.value.Repr)
    {
      var idx := completionOrder[k];
      if idx < |sports| && done[idx].None? {
        var report := ProcessSport(ds, sports[idx]);
        // The tasks finished so far are untouched by this one.
        forall j | 0 <= j < |sports| && done[j].Some?
          ensures Finished(ds, sports[j], done[j].value)
          ensures done[j].value.Ok? ==> fresh(done[j].value.value.Repr)
        {
        }
        done := done[idx := Some(report)];
      }
    }
    for j := 0 to |sports|
      invariant |done| == |sports|
      invariant forall i :: 0 <= i < |sports| && done[i].Some? ==> Finished(ds, sports[i], done[i].value)
      invariant forall i :: 0 <= i < |sports| && done[i].Some? && done[i].value.Ok? ==> fresh(done[i].value.value.Repr)
      invariant forall i :: 0 <= i < j ==> done[i].Some?
    {
      if done[j].None? {
        var report := ProcessSport(ds, sports[j]);
        forall i | 0 <= i < |sports| && done[i].Some?
          ensures Finished(ds, sports[i], done[i].value)
          ensures done[i].value.Ok? ==> fresh(done[i].value.value.Repr)
        {
        }
        done := done[j := Some(report)];
      }
    }
    futures := seq(|sports|, i requires 0 <= i < |sports| && done[i].Some? => done[i].value);
    forall j | 0 <= j < |sports|
      ensures futures[j] == done[j].value && Finished(ds, sports[j], futures[j])
    {
    }
  }

  /** A finished task: it holds what processSport makes of the sport. */
  ghost predicate Finished(ds: DataSource, sport: Sport, future: Result<SportReport>)
    reads if future.Ok? then {future.value} + future.value.Repr else {}
  {
    && (future.Ok? <==> SportTree(ds, sport).Ok?)
    && (future.Err? ==> future.error == SportTree(ds, sport).error)
    && (future.Ok? ==> future.value.Valid() && future.value.Value == SportTree(ds, sport).value)
  }

  /**
   * generateReportAsync: fetch the sports, keep the selected ones, run one
   * task per sport, wait for all of them (`allOf`) and, when none failed,
   * read the futures in list order. The report equals the sequential one (AsyncReportTree, which is
   * ReportTree), whatever `completionOrder` is: the same fresh, well-formed
   * sport reports in the same order, or the first failure in list order.
   */
  method GenerateReportAsync(ds: DataSource, selectedSportNames: Option<seq<string>>, completionOrder: seq<nat>)
    returns (r: Result<ReportResult>)
    ensures r.Ok? <==> ReportTree(ds, selectedSportNames).Ok?
    ensures r.Err? ==> r.error == ReportTree(ds, selectedSportNames).error
    ensures r.Ok? ==>
              |r.value.sportReports| == |ReportTree(ds, selectedSportNames).value| &&
              forall j :: 0 <= j < |r.value.sportReports| ==>
                fresh(r.value.sportReports[j].Repr) && r.value.sportReports[j].Valid() &&
                r.value.sportReports[j].Value == ReportTree(ds, selectedSportNames).value[j]
  {
    var fetched := ds.sports;
    if fetched.Err? {
      return Err(fetched.error);
    }
    var sports := SelectSports(fetched.value, selectedSportNames);
    var futures := RunSportTasks(ds, sports, completionOrder);
    ghost var trees := MapSeq(sports, SportStep(ds));
    AsyncTreeIsSequentialTree(ds, selectedSportNames);
    JoinInOrderAgrees(futures, trees);
    JoinInOrderSucceeds(futures);
    JoinInOrderSucceeds(trees);
    var joined := JoinInOrder(futures);
    if joined.Err? {
      return Err(joined.error);
    }
    return Ok(ReportResult(joined.value));
  }
}
