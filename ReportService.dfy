/**
 * ReportService: builds the report tree sport by sport, league by league,
 * event by event, in the calling thread. The three fetches it makes are
 * answered by a DataSource snapshot; any failed fetch ends the whole build
 * with that failure and no report.
 *
 * The first half gives the tree the build must produce, as values; the
 * second half is the build itself, as the source writes it: for-loops that
 * append freshly built child objects to a freshly built parent.
 */
module ReportService {
  import opened Domain
  import opened Streams
  import opened SportService
  import opened Report

  /** How many matches a league's report shows. */
  const DefaultMatchesLimit: nat := 2

  // ---------------------------------------------------------------------
  // The tree, as values

  function RunnerReportOf(runner: Runner): RunnerReport
  {
    RunnerReport(runner.name, runner.price, runner.id)
  }

  function MarketNodeOf(market: Market): MarketNode
  {
    MarketNode(market.name, MapSeq(market.runners, RunnerReportOf))
  }

  /** The kickoff shown in the report: the API's UTC text and " UTC". */
  function KickoffText(event: Event): string
  {
    event.kickoffUtc + " UTC"
  }

  function EventNodeOf(event: Event, details: EventDetails): EventNode
  {
    EventNode(event.name, KickoffText(event), event.id, MapSeq(details.markets, MarketNodeOf))
  }

  /** processEvent: fetch the event's details, mirror markets and runners. */
  function EventTree(ds: DataSource, event: Event): Result<EventNode>
  {
    match ds.details(event.id)
    case Err(e) => Err(e)
    case Ok(details) => Ok(EventNodeOf(event, details))
  }

  function EventStep(ds: DataSource): Event -> Result<EventNode>
  {
    (event: Event) => EventTree(ds, event)
  }

  /** processLeague: fetch the league's events, keep the top matches, build
      each one's event subtree in turn. */
  function LeagueTree(ds: DataSource, league: League): Result<LeagueNode>
  {
    match ds.events(league.id)
    case Err(e) => Err(e)
    case Ok(events) =>
      match Traverse(TopMatches(events, DefaultMatchesLimit), EventStep(ds))
      case Err(e) => Err(e)
      case Ok(nodes) => Ok(LeagueNode(league.name, nodes))
  }

  function LeagueStep(ds: DataSource): League -> Result<LeagueNode>
  {
    (league: League) => LeagueTree(ds, league)
  }

  /** processSport: one league subtree per top league, in turn. */
  function SportTree(ds: DataSource, sport: Sport): Result<SportNode>
  {
    match Traverse(TopLeagues(sport), LeagueStep(ds))
    case Err(e) => Err(e)
    case Ok(nodes) => Ok(SportNode(sport.name, nodes))
  }

  function SportStep(ds: DataSource): Sport -> Result<SportNode>
  {
    (sport: Sport) => SportTree(ds, sport)
  }

  /** `selectedSportNames.contains(sport.getName())`: exact, case-sensitive. */
  function NameIn(names: seq<string>): Sport -> bool
  {
    (sport: Sport) => sport.name in names
  }

  /** The sports to report on: all of them when the selection is null or
      empty, otherwise those whose name is in the selection. */
  function SelectSports(sports: seq<Sport>, selected: Option<seq<string>>): seq<Sport>
  {
    if selected.None? || |selected.value| == 0 then sports
    else Filter(sports, NameIn(selected.value))
  }

  /** generateReport: fetch the sports, select, build each sport in turn. */
  function ReportTree(ds: DataSource, selected: Option<seq<string>>): Result<seq<SportNode>>
  {
    match ds.sports
    case Err(e) => Err(e)
    case Ok(sports) => Traverse(SelectSports(sports, selected), SportStep(ds))
  }

  // ---------------------------------------------------------------------
  // What the tree is

  /** With no selection every fetched sport is kept, in fetched order;
      with one, exactly the sports whose name is in it, each as often as it
      was fetched (and in fetched order, as for every Filter). */
  lemma SelectSportsKeepsSelected(sports: seq<Sport>, selected: Option<seq<string>>)
    ensures selected.None? || selected.value == [] ==> SelectSports(sports, selected) == sports
    ensures selected.Some? && selected.value != [] ==>
              (forall s :: s in SelectSports(sports, selected) <==> s in sports && s.name in selected.value) &&
              (forall s :: multiset(SelectSports(sports, selected))[s] ==
                             if s.name in selected.value then multiset(sports)[s] else 0)
  {
    if selected.Some? && selected.value != [] {
      FilterContents(sports, NameIn(selected.value));
    }
  }

  /** An event node carries the event's name and id, the kickoff text
      "<kickoffUtc> UTC", and the details' markets one for one, in order,
      each with its runners one for one, in order, name, price and id
      unchanged. */
  lemma EventNodeMirrorsDetails(event: Event, details: EventDetails)
    ensures EventNodeOf(event, details).name == event.name
    ensures EventNodeOf(event, details).id == event.id
    ensures EventNodeOf(event, details).kickoffUtc == event.kickoffUtc + " UTC"
    ensures |EventNodeOf(event, details).markets| == |details.markets|
    ensures forall i :: 0 <= i < |details.markets| ==>
              var m := EventNodeOf(event, details).markets[i];
              var source := details.markets[i];
              m.name == source.name && |m.runners| == |source.runners| &&
              forall j :: 0 <= j < |source.runners| ==>
                m.runners[j] == RunnerReport(source.runners[j].name, source.runners[j].price, source.runners[j].id)
  {
  }

  /** A league node names its league and holds at most two events: the
      league's top matches, in kickoff order; the league fails when its
      events fetch or any of those events' details fetch fails. */
  lemma LeagueTreeHoldsTopMatches(ds: DataSource, league: League)
    ensures LeagueTree(ds, league).Ok? <==>
              ds.events(league.id).Ok? &&
              forall i :: 0 <= i < |TopMatches(ds.events(league.id).value, DefaultMatchesLimit)| ==>
                ds.details(TopMatches(ds.events(league.id).value, DefaultMatchesLimit)[i].id).Ok?
    ensures LeagueTree(ds, league).Ok? ==>
              var node := LeagueTree(ds, league).value;
              var top := TopMatches(ds.events(league.id).value, DefaultMatchesLimit);
              node.name == league.name && |node.events| == |top| <= 2 &&
              forall i :: 0 <= i < |top| ==>
                node.events[i] == EventNodeOf(top[i], ds.details(top[i].id).value)
  {
    if ds.events(league.id).Ok? {
      var top := TopMatches(ds.events(league.id).value, DefaultMatchesLimit);
      TraverseSucceeds(top, EventStep(ds));
    }
  }

  /** A sport node names its sport and holds one league node per top league
      of the sport, in that order; it fails when any of them fails. */
  lemma SportTreeFollowsTopLeagues(ds: DataSource, sport: Sport)
    ensures SportTree(ds, sport).Ok? <==>
              forall i :: 0 <= i < |TopLeagues(sport)| ==> LeagueTree(ds, TopLeagues(sport)[i]).Ok?
    ensures SportTree(ds, sport).Ok? ==>
              var node := SportTree(ds, sport).value;
              node.name == sport.name && |node.leagues| == |TopLeagues(sport)| &&
              forall i :: 0 <= i < |TopLeagues(sport)| ==>
                node.leagues[i] == LeagueTree(ds, TopLeagues(sport)[i]).value &&
                node.leagues[i].name == TopLeagues(sport)[i].name
  {
    TraverseSucceeds(TopLeagues(sport), LeagueStep(ds));
    forall i | 0 <= i < |TopLeagues(sport)| && LeagueTree(ds, TopLeagues(sport)[i]).Ok?
      ensures LeagueTree(ds, TopLeagues(sport)[i]).value.name == TopLeagues(sport)[i].name
    {
      LeagueTreeHoldsTopMatches(ds, TopLeagues(sport)[i]);
    }
  }

  /** The report holds exactly one sport node per selected sport, in the
      same order, each named after its sport; if the sports fetch or any
      selected sport fails, there is no report at all. */
  lemma ReportHasOneNodePerSelectedSport(ds: DataSource, selected: Option<seq<string>>)
    ensures ReportTree(ds, selected).Ok? <==>
              ds.sports.Ok? &&
              forall i :: 0 <= i < |SelectSports(ds.sports.value, selected)| ==>
                SportTree(ds, SelectSports(ds.sports.value, selected)[i]).Ok?
    ensures ReportTree(ds, selected).Ok? ==>
              var sports := SelectSports(ds.sports.value, selected);
              var nodes := ReportTree(ds, selected).value;
              |nodes| == |sports| &&
              forall i :: 0 <= i < |sports| ==>
                nodes[i] == SportTree(ds, sports[i]).value && nodes[i].name == sports[i].name
  {
    if ds.sports.Ok? {
      var sports := SelectSports(ds.sports.value, selected);
      TraverseSucceeds(sports, SportStep(ds));
      forall i | 0 <= i < |sports| && SportTree(ds, sports[i]).Ok?
        ensures SportTree(ds, sports[i]).value.name == sports[i].name
      {
        SportTreeFollowsTopLeagues(ds, sports[i]);
      }
    }
  }

  /** When the first selected sport to fail is sport i, the report fails
      with sport i's failure. */
  lemma ReportFailsWithFirstFailure(ds: DataSource, selected: Option<seq<string>>, i: nat)
    requires ds.sports.Ok?
    requires i < |SelectSports(ds.sports.value, selected)|
    requires forall j :: 0 <= j < i ==> SportTree(ds, SelectSports(ds.sports.value, selected)[j]).Ok?
    requires SportTree(ds, SelectSports(ds.sports.value, selected)[i]).Err?
    ensures ReportTree(ds, selected) == Err(SportTree(ds, SelectSports(ds.sports.value, selected)[i]).error)
  {
    TraverseFailsAtFirst(SelectSports(ds.sports.value, selected), SportStep(ds), i);
  }

  // ---------------------------------------------------------------------
  // The build

  /** The body of processEvent's market loop: a market report with the
      market's name and one runner line per runner, in order. */
  method ProcessMarket(market: Market) returns (marketReport: MarketReport)
    ensures fresh(marketReport)
    ensures marketReport.Value() == MarketNodeOf(market)
  {
    marketReport := new MarketReport(market.name);
    var runners := market.runners;
    for j := 0 to |runners|
      modifies marketReport
      invariant marketReport.Value() == MarketNode(market.name, MapSeq(runners[..j], RunnerReportOf))
    {
      MapSeqStep(runners, RunnerReportOf, j);
      marketReport.AddRunner(RunnerReportOf(runners[j]));
    }
    assert runners[..|runners|] == runners;
  }

  /** processEvent. */
  method ProcessEvent(ds: DataSource, event: Event) returns (r: Result<EventReport>)
    ensures r.Ok? <==> EventTree(ds, event).Ok?
    ensures r.Err? ==> r.error == EventTree(ds, event).error
    ensures r.Ok? ==> fresh(r.value.Repr) && r.value.Valid() && r.value.Value == EventTree(ds, event).value
  {
    var eventReport := new EventReport(event.name, KickoffText(event), event.id);
    var fetched := ds.details(event.id);
    if fetched.Err? {
      return Err(fetched.error);
    }
    var markets := fetched.value.markets;
    for i := 0 to |markets|
      invariant eventReport.Valid() && fresh(eventReport.Repr)
      invariant eventReport.Value ==
                  EventNode(event.name, KickoffText(event), event.id, MapSeq(markets[..i], MarketNodeOf))
    {
      var marketReport := ProcessMarket(markets[i]);
      ghost var built := eventReport.Repr + {marketReport};
      assert fresh(built);
      MapSeqStep(markets, MarketNodeOf, i);
      eventReport.AddMarketReport(marketReport);
      assert eventReport.Repr == built;
    }
    assert markets[..|markets|] == markets;
    return Ok(eventReport);
  }

  /** processLeague. */
  method ProcessLeague(ds: DataSource, league: League) returns (r: Result<LeagueReport>)
    ensures r.Ok? <==> LeagueTree(ds, league).Ok?
    ensures r.Err? ==> r.error == LeagueTree(ds, league).error
    ensures r.Ok? ==> fresh(r.value.Repr) && r.value.Valid() && r.value.Value == LeagueTree(ds, league).value
  {
    var leagueReport := new LeagueReport(league.name);
    var fetched := ds.events(league.id);
    if fetched.Err? {
      return Err(fetched.error);
    }
    var topMatches := TopMatches(fetched.value, DefaultMatchesLimit);
    for i := 0 to |topMatches|
      invariant leagueReport.Valid() && fresh(leagueReport.Repr)
      invariant Traverse(topMatches[..i], EventStep(ds)) == Ok(leagueReport.Value.events)
    {
      var eventReport := ProcessEvent(ds, topMatches[i]);
      TraverseStep(topMatches, EventStep(ds), i);
      if eventReport.Err? {
        TraverseStopsAt(topMatches, EventStep(ds), i + 1);
        return Err(eventReport.error);
      }
      ghost var built := leagueReport.Repr + eventReport.value.Repr;
      assert fresh(built);
      leagueReport.AddEventReport(eventReport.value);
      assert leagueReport.Repr == built;
    }
    assert topMatches[..|topMatches|] == topMatches;
    return Ok(leagueReport);
  }

  /** processSport. */
  method ProcessSport(ds: DataSource, sport: Sport) returns (r: Result<SportReport>)
    ensures r.Ok? <==> SportTree(ds, sport).Ok?
    ensures r.Err? ==> r.error == SportTree(ds, sport).error
    ensures r.Ok? ==> fresh(r.value.Repr) && r.value.Valid() && r.value.Value == SportTree(ds, sport).value
  {
    var sportReport := new SportReport(sport.name);
    var topLeagues := TopLeagues(sport);
    for i := 0 to |topLeagues|
      invariant sportReport.Valid() && fresh(sportReport.Repr)
      invariant Traverse(topLeagues[..i], LeagueStep(ds)) == Ok(sportReport.Value.leagues)
    {
      var leagueReport := ProcessLeague(ds, topLeagues[i]);
      TraverseStep(topLeagues, LeagueStep(ds), i);
      if leagueReport.Err? {
        TraverseStopsAt(topLeagues, LeagueStep(ds), i + 1);
        return Err(leagueReport.error);
      }
      ghost var built := sportReport.Repr + leagueReport.value.Repr;
      assert fresh(built);
      sportReport.AddLeagueReport(leagueReport.value);
      assert sportReport.Repr == built;
    }
    assert topLeagues[..|topLeagues|] == topLeagues;
    return Ok(sportReport);
  }

  /**
   * The loop of generateReport: process the sports one after the other and
   * collect their reports in order. The first failure ends it.
   */
  method ProcessSports(ds: DataSource, sports: seq<Sport>) returns (r: Result<seq<SportReport>>)
    ensures r.Ok? <==> Traverse(sports, SportStep(ds)).Ok?
    ensures r.Err? ==> r.error == Traverse(sports, SportStep(ds)).error
    ensures r.Ok? ==>
              |r.value| == |Traverse(sports, SportStep(ds)).value| &&
              forall j :: 0 <= j < |r.value| ==>
                fresh(r.value[j].Repr) && r.value[j].Valid() &&
                r.value[j].Value == Traverse(sports, SportStep(ds)).value[j]
  {
    var sportReports: seq<SportReport> := [];
    ghost var nodes: seq<SportNode> := [];
    for i := 0 to |sports|
      invariant Traverse(sports[..i], SportStep(ds)) == Ok(nodes)
      invariant |sportReports| == |nodes|
      invariant forall j :: 0 <= j < |sportReports| ==> fresh(sportReports[j].Repr)
      invariant forall j :: 0 <= j < |sportReports| ==> sportReports[j].Valid()
      invariant forall j :: 0 <= j < |sportReports| ==> sportReports[j].Value == nodes[j]
    {
      var sportReport := ProcessSport(ds, sports[i]);
      // The reports built so far are untouched by the call.
      forall j | 0 <= j < |sportReports|
        ensures fresh(sportReports[j].Repr) && sportReports[j].Valid() && sportReports[j].Value == nodes[j]
      {
      }
      TraverseStep(sports, SportStep(ds), i);
      if sportReport.Err? {
        TraverseStopsAt(sports, SportStep(ds), i + 1);
        return Err(sportReport.error);
      }
      ghost var prev := sportReports;
      ghost var prevNodes := nodes;
      sportReports := sportReports + [sportReport.value];
      nodes := nodes + [sportReport.value.Value];
      forall j | 0 <= j < |sportReports|
        ensures fresh(sportReports[j].Repr) && sportReports[j].Valid() && sportReports[j].Value == nodes[j]
      {
        if j < |prev| {
          assert sportReports[j] == prev[j] && nodes[j] == prevNodes[j];
        }
      }
    }
    assert sports[..|sports|] == sports;
    assert Traverse(sports, SportStep(ds)) == Ok(nodes);
    return Ok(sportReports);
  }

  /**
   * generateReport: fetch the sports, keep the selected ones, and build
   * their reports one after the other. The result is the report tree of
   * ReportTree, one fresh, well-formed SportReport per node, or the first
   * failure met on the way.
   */
  method GenerateReport(ds: DataSource, selectedSportNames: Option<seq<string>>) returns (r: Result<ReportResult>)
    ensures r.Ok? <==> ReportTree(ds, selectedSportNames).Ok?
    ensures r.Err? ==> r.error == ReportTree(ds, selectedSportNames).error
    ensures r.Ok? ==>
              |r.value.sportReports| == |ReportTree(ds, selectedSportNames).value| &&
              forall j :: 0 <= j < |r.value.sportReports| ==>
                fresh(r.value.sportReports[j].Repr) && r.value.sportReports[j].Valid() &&
                r.value.sportReports[j].Value == ReportTree(ds, selectedSportNames).value[j]
  {
    var fetched := ds.sports;
    if fetched.Err? {
      return Err(fetched.error);
    }
    var sports := SelectSports(fetched.value, selectedSportNames);
    var built := ProcessSports(ds, sports);
    if built.Err? {
      return Err(built.error);
    }
    return Ok(ReportResult(built.value));
  }
}
