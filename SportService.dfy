/**
 * The selectors of SportService (and of AsyncSportService, which runs the
 * same stream pipelines): which leagues are "top", which events are the next
 * prematch ones, and which market has a given name. The fetches that feed
 * them are parameters here.
 */
module SportService {
  import opened Domain
  import opened Streams
  import opened Text

  predicate IsTop(league: League)
  {
    league.isTop
  }

  function TopOrder(league: League): int
  {
    league.topOrder
  }

  /** `betline` equals "prematch", ignoring case. */
  predicate IsPrematch(event: Event)
  {
    EqualsIgnoreCase("prematch", event.betline)
  }

  function Kickoff(event: Event): int
  {
    event.kickoff
  }

  /** The sport's name equals `displayName`, ignoring case. */
  function NamedIgnoringCase(displayName: string): Sport -> bool
  {
    (sport: Sport) => EqualsIgnoreCase(sport.name, displayName)
  }

  // ---------------------------------------------------------------------
  // getTopLeagues

  /** `regions.stream().flatMap(region -> region.getLeagues().stream())`:
      the leagues region by region, each region's in its own order. */
  function RegionLeagues(regions: seq<Region>): seq<League>
  {
    if |regions| == 0 then [] else regions[0].leagues + RegionLeagues(regions[1..])
  }

  /** A league is gathered exactly when it is in one of the regions. */
  lemma {:induction false} RegionLeaguesMembership(regions: seq<Region>)
    ensures forall l :: l in RegionLeagues(regions) <==> exists g :: g in regions && l in g.leagues
  {
    if |regions| > 0 {
      RegionLeaguesMembership(regions[1..]);
      assert forall g :: g in regions <==> g == regions[0] || g in regions[1..];
    }
  }

  /** `sports.stream().flatMap(sport -> sport.getRegions().stream())`. */
  function SportRegions(sports: seq<Sport>): seq<Region>
  {
    if |sports| == 0 then [] else sports[0].regions + SportRegions(sports[1..])
  }

  /** A region is gathered exactly when it belongs to one of the sports. */
  lemma {:induction false} SportRegionsMembership(sports: seq<Sport>)
    ensures forall g :: g in SportRegions(sports) <==> exists sp :: sp in sports && g in sp.regions
  {
    if |sports| > 0 {
      SportRegionsMembership(sports[1..]);
      assert forall sp :: sp in sports <==> sp == sports[0] || sp in sports[1..];
    }
  }

  /** The top-flagged leagues of the sport in region-then-league encounter
      order, before sorting. */
  function TopFlagged(sport: Sport): seq<League>
  {
    Filter(RegionLeagues(sport.regions), IsTop)
  }

  /** getTopLeagues(Sport): the leagues flagged top, from every region,
      stable-sorted by `topOrder`. */
  function TopLeagues(sport: Sport): seq<League>
  {
    SortBy(TopFlagged(sport), TopOrder)
  }

  /** The result is a permutation of exactly the top-flagged leagues, in
      non-decreasing `topOrder`. */
  lemma TopLeaguesSortedPermutation(sport: Sport)
    ensures multiset(TopLeagues(sport)) == multiset(TopFlagged(sport))
    ensures SortedBy(TopLeagues(sport), TopOrder)
  {
    SortByIsSortedPermutation(TopFlagged(sport), TopOrder);
  }

  /** A league is in the result exactly when it is flagged top and belongs
      to one of the sport's regions. */
  lemma TopLeaguesAreTheTopFlagged(sport: Sport)
    ensures forall l :: l in TopLeagues(sport) <==>
              l.isTop && exists g :: g in sport.regions && l in g.leagues
  {
    RegionLeaguesMembership(sport.regions);
    FilterContents(RegionLeagues(sport.regions), IsTop);
    TopLeaguesSortedPermutation(sport);
    forall l
      ensures l in TopLeagues(sport) <==> l in TopFlagged(sport)
    {
      assert l in TopLeagues(sport) <==> l in multiset(TopLeagues(sport));
      assert l in TopFlagged(sport) <==> l in multiset(TopFlagged(sport));
    }
  }

  /** Leagues with equal `topOrder` keep their region-then-league
      encounter order. */
  lemma TopLeaguesKeepTies(sport: Sport, k: int)
    ensures Filter(TopLeagues(sport), HasKey(TopOrder, k)) == Filter(TopFlagged(sport), HasKey(TopOrder, k))
  {
    SortByIsStable(TopFlagged(sport), TopOrder, k);
  }

  /**
   * getTopLeagues(SportType): the same pipeline over every sport whose name
   * equals the type's display name ignoring case. `sports` is what the
   * sports fetch returned; `displayName` is the enum's display name.
   */
  function TopLeaguesOfType(sports: seq<Sport>, displayName: string): seq<League>
  {
    var matching := Filter(sports, NamedIgnoringCase(displayName));
    SortBy(Filter(RegionLeagues(SportRegions(matching)), IsTop), TopOrder)
  }

  /** The leagues gathered from the matching sports are exactly the
      leagues of some region of some sport whose name matches. */
  lemma MatchingSportsLeagues(sports: seq<Sport>, displayName: string)
    ensures forall l :: l in RegionLeagues(SportRegions(Filter(sports, NamedIgnoringCase(displayName)))) <==>
              exists sp, g :: sp in sports && EqualsIgnoreCase(sp.name, displayName) &&
                              g in sp.regions && l in g.leagues
  {
    var matching := Filter(sports, NamedIgnoringCase(displayName));
    var regions := SportRegions(matching);
    FilterContents(sports, NamedIgnoringCase(displayName));
    RegionLeaguesMembership(regions);
    SportRegionsMembership(matching);
    forall l | l in RegionLeagues(regions)
      ensures exists sp, g :: sp in sports && EqualsIgnoreCase(sp.name, displayName) &&
                              g in sp.regions && l in g.leagues
    {
      var g :| g in regions && l in g.leagues;
      var sp :| sp in matching && g in sp.regions;
      assert sp in sports && EqualsIgnoreCase(sp.name, displayName);
    }
    forall l, sp, g | sp in sports && EqualsIgnoreCase(sp.name, displayName) && g in sp.regions && l in g.leagues
      ensures l in RegionLeagues(regions)
    {
      assert sp in matching;
      assert g in regions;
    }
  }

  /** A league is in the result exactly when it is flagged top and belongs
      to a region of a sport whose name matches the display name; the
      result is in non-decreasing `topOrder`. */
  lemma TopLeaguesOfTypeMembership(sports: seq<Sport>, displayName: string)
    ensures SortedBy(TopLeaguesOfType(sports, displayName), TopOrder)
    ensures forall l :: l in TopLeaguesOfType(sports, displayName) <==>
              l.isTop &&
              exists sp, g :: sp in sports && EqualsIgnoreCase(sp.name, displayName) &&
                              g in sp.regions && l in g.leagues
  {
    var leagues := RegionLeagues(SportRegions(Filter(sports, NamedIgnoringCase(displayName))));
    var r := TopLeaguesOfType(sports, displayName);
    SortByIsSortedPermutation(Filter(leagues, IsTop), TopOrder);
    FilterContents(leagues, IsTop);
    forall l
      ensures l in r <==> l.isTop && l in leagues
    {
      assert l in r <==> l in multiset(r);
      assert l in Filter(leagues, IsTop) <==> l in multiset(Filter(leagues, IsTop));
    }
    MatchingSportsLeagues(sports, displayName);
  }

  // ---------------------------------------------------------------------
  // fetchTopMatches

  /** The prematch events (any letter case) of the league, before sorting. */
  function Prematch(events: seq<Event>): seq<Event>
  {
    Filter(events, IsPrematch)
  }

  /** fetchTopMatches: the prematch events sorted by kickoff, earliest
      first, cut to the first `limit`. `events` is what the events fetch
      returned. */
  function TopMatches(events: seq<Event>, limit: nat): seq<Event>
  {
    Limit(SortBy(Prematch(events), Kickoff), limit)
  }

  /** Only prematch events of the league, earliest first, and as many as
      the limit allows. */
  lemma TopMatchesSelected(events: seq<Event>, limit: nat)
    ensures forall e :: e in TopMatches(events, limit) ==> e in events && IsPrematch(e)
    ensures SortedBy(TopMatches(events, limit), Kickoff)
    ensures |TopMatches(events, limit)| == if limit < |Prematch(events)| then limit else |Prematch(events)|
  {
    var sorted := SortBy(Prematch(events), Kickoff);
    var r := TopMatches(events, limit);
    SortByIsSortedPermutation(Prematch(events), Kickoff);
    FilterContents(events, IsPrematch);
    forall e | e in r
      ensures e in events && IsPrematch(e)
    {
      assert e in sorted;
      assert e in multiset(Prematch(events));
    }
    assert SortedBy(r, Kickoff) by {
      forall i, j | 0 <= i < j < |r|
        ensures Kickoff(r[i]) <= Kickoff(r[j])
      {
        assert r[i] == sorted[i] && r[j] == sorted[j];
      }
    }
  }

  /**
   * The result is the first part of the kickoff-sorted prematch events:
   * no prematch event left out kicks off earlier than one that was taken.
   */
  lemma TopMatchesAreEarliest(events: seq<Event>, limit: nat)
    ensures TopMatches(events, limit) == SortBy(Prematch(events), Kickoff)[..|TopMatches(events, limit)|]
    ensures forall e, x ::
              e in events && IsPrematch(e) && e !in TopMatches(events, limit) && x in TopMatches(events, limit)
              ==> x.kickoff <= e.kickoff
  {
    var sorted := SortBy(Prematch(events), Kickoff);
    var r := TopMatches(events, limit);
    SortByIsSortedPermutation(Prematch(events), Kickoff);
    FilterContents(events, IsPrematch);
    assert r == sorted[..|r|];
    assert forall k :: 0 <= k < |r| ==> r[k] == sorted[k];
    forall e, x | e in events && IsPrematch(e) && e !in r && x in r
      ensures x.kickoff <= e.kickoff
    {
      assert e in Prematch(events);
      assert e in multiset(sorted);
      var j :| 0 <= j < |sorted| && sorted[j] == e;
      var i :| 0 <= i < |r| && r[i] == x;
      assert sorted[i] == x;
      assert j >= |r|;
      assert Kickoff(sorted[i]) <= Kickoff(sorted[j]);
    }
  }

  // ---------------------------------------------------------------------
  // findMarketByName

  predicate NameMatches(marketName: string, market: Market)
  {
    EqualsIgnoreCase(marketName, market.name)
  }

  /** The position of the first market whose name matches, if any. */
  function FirstMatching(markets: seq<Market>, marketName: string): (r: Option<nat>)
    ensures r.Some? ==> r.value < |markets| && NameMatches(marketName, markets[r.value])
    ensures r.Some? ==> forall j :: 0 <= j < r.value ==> !NameMatches(marketName, markets[j])
    ensures r.None? <==> forall j :: 0 <= j < |markets| ==> !NameMatches(marketName, markets[j])
  {
    if |markets| == 0 then None
    else if NameMatches(marketName, markets[0]) then Some(0)
    else
      assert forall j :: 1 <= j < |markets| ==> markets[1..][j - 1] == markets[j];
      match FirstMatching(markets[1..], marketName)
      case None => None
      case Some(i) => Some(i + 1)
  }

  /**
   * findMarketByName: the first market, in list order, whose name equals
   * `marketName` ignoring case; when there is none, the failure
   * "Market not found: " followed by the name.
   */
  function FindMarketByName(details: EventDetails, marketName: string): (r: Result<Market>)
    ensures r.Ok? ==> exists i :: 0 <= i < |details.markets| && details.markets[i] == r.value &&
                               NameMatches(marketName, r.value) &&
                               forall j :: 0 <= j < i ==> !NameMatches(marketName, details.markets[j])
    ensures r.Err? <==> forall m :: m in details.markets ==> !NameMatches(marketName, m)
    ensures r.Err? ==> r.error == Error("Market not found: " + marketName)
  {
    match FirstMatching(details.markets, marketName)
    case Some(i) => Ok(details.markets[i])
    case None => Err(Error("Market not found: " + marketName))
  }
}
