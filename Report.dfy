/**
 * The report tree: SportReport -> LeagueReport -> EventReport ->
 * MarketReport -> RunnerReport. Every node object has final header fields
 * (`const` here, so no method can change them) and one child list that
 * only ever grows by an append at its end. Each node keeps a ghost `Value`,
 * its whole subtree as a value, and `Valid()` ties that value to the
 * header fields and to the children's values.
 */
module Report {
  import opened Domain

  /** A runner line of the report; immutable in the source, so a value. */
  datatype RunnerReport = RunnerReport(runnerName: string, price: Price, runnerId: int)

  // The report tree as values.
  datatype MarketNode = MarketNode(name: string, runners: seq<RunnerReport>)
  datatype EventNode = EventNode(name: string, kickoffUtc: string, id: int, markets: seq<MarketNode>)
  datatype LeagueNode = LeagueNode(name: string, events: seq<EventNode>)
  datatype SportNode = SportNode(name: string, leagues: seq<LeagueNode>)

  // ---------------------------------------------------------------------

  class MarketReport {
    const marketName: string
    var runnerReports: seq<RunnerReport>

    /** A market report with the given name and no runners yet. */
    constructor (marketName: string)
      ensures this.marketName == marketName
      ensures runnerReports == []
    {
      this.marketName := marketName;
      runnerReports := [];
    }

    /** Appends one runner at the end; the earlier runners stay as they were. */
    method AddRunner(runnerReport: RunnerReport)
      modifies this
      ensures runnerReports == old(runnerReports) + [runnerReport]
    {
      runnerReports := runnerReports + [runnerReport];
    }

    function Value(): MarketNode
      reads this
    {
      MarketNode(marketName, runnerReports)
    }
  }

  ghost function MarketValues(ms: seq<MarketReport>): (r: seq<MarketNode>)
    reads set m | m in ms
    ensures |r| == |ms|
    ensures forall i :: 0 <= i < |ms| ==> r[i] == ms[i].Value()
  {
    if |ms| == 0 then [] else [ms[0].Value()] + MarketValues(ms[1..])
  }

  // ---------------------------------------------------------------------

  class EventReport {
    const eventName: string
    const kickoffUtc: string
    const eventId: int
    var marketReports: seq<MarketReport>

    ghost var Value: EventNode
    ghost var Repr: set<object>

    ghost predicate Valid()
      reads this, Repr
    {
      && this in Repr
      && (forall m :: m in marketReports ==> m in Repr)
      && Value == EventNode(eventName, kickoffUtc, eventId, MarketValues(marketReports))
    }

    /** An event report with exactly the given name, kickoff text and id,
        and no markets yet. */
    constructor (eventName: string, kickoffUtc: string, eventId: int)
      ensures Valid() && fresh(Repr)
      ensures this.eventName == eventName && this.kickoffUtc == kickoffUtc && this.eventId == eventId
      ensures marketReports == []
      ensures Value == EventNode(eventName, kickoffUtc, eventId, [])
    {
      this.eventName := eventName;
      this.kickoffUtc := kickoffUtc;
      this.eventId := eventId;
      marketReports := [];
      Value := EventNode(eventName, kickoffUtc, eventId, []);
      Repr := {this};
    }

    /** Appends one market at the end; the earlier markets stay as they were. */
    method AddMarketReport(marketReport: MarketReport)
      requires Valid()
      modifies this
      ensures Valid()
      ensures marketReports == old(marketReports) + [marketReport]
      ensures Repr == old(Repr) + {marketReport}
      ensures Value == old(Value).(markets := old(Value).markets + [marketReport.Value()])
    {
      marketReports := marketReports + [marketReport];
      Repr := Repr + {marketReport};
      Value := Value.(markets := Value.markets + [marketReport.Value()]);
    }
  }

  ghost function EventValues(es: seq<EventReport>): (r: seq<EventNode>)
    reads set e | e in es
    ensures |r| == |es|
    ensures forall i :: 0 <= i < |es| ==> r[i] == es[i].Value
  {
    if |es| == 0 then [] else [es[0].Value] + EventValues(es[1..])
  }

  // ---------------------------------------------------------------------

  class LeagueReport {
    const leagueName: string
    var eventReports: seq<EventReport>

    ghost var Value: LeagueNode
    ghost var Repr: set<object>

    ghost predicate Valid()
      reads this, Repr
    {
      && this in Repr
      && (forall e :: e in eventReports ==> e in Repr && e.Repr <= Repr && this !in e.Repr && e.Valid())
      && Value == LeagueNode(leagueName, EventValues(eventReports))
    }

    /** A league report with the given name and no events yet. */
    constructor (leagueName: string)
      ensures Valid() && fresh(Repr)
      ensures this.leagueName == leagueName
      ensures eventReports == []
      ensures Value == LeagueNode(leagueName, [])
    {
      this.leagueName := leagueName;
      eventReports := [];
      Value := LeagueNode(leagueName, []);
      Repr := {this};
    }

    /** Appends one event at the end; the earlier events stay as they were. */
    method AddEventReport(eventReport: EventReport)
      requires Valid() && eventReport.Valid() && this !in eventReport.Repr
      modifies this
      ensures Valid()
      ensures eventReports == old(eventReports) + [eventReport]
      ensures Repr == old(Repr) + eventReport.Repr
      ensures Value == old(Value).(events := old(Value).events + [eventReport.Value])
    {
      eventReports := eventReports + [eventReport];
      Repr := Repr + eventReport.Repr;
      Value := Value.(events := Value.events + [eventReport.Value]);
    }
  }

  ghost function LeagueValues(ls: seq<LeagueReport>): (r: seq<LeagueNode>)
    reads set l | l in ls
    ensures |r| == |ls|
    ensures forall i :: 0 <= i < |ls| ==> r[i] == ls[i].Value
  {
    if |ls| == 0 then [] else [ls[0].Value] + LeagueValues(ls[1..])
  }

  // ---------------------------------------------------------------------

  class SportReport {
    const sportName: string
    var leagueReports: seq<LeagueReport>

    ghost var Value: SportNode
    ghost var Repr: set<object>

    ghost predicate Valid()
      reads this, Repr
    {
      && this in Repr
      && (forall l :: l in leagueReports ==> l in Repr && l.Repr <= Repr && this !in l.Repr && l.Valid())
      && Value == SportNode(sportName, LeagueValues(leagueReports))
    }

    /** A sport report with the given name and no leagues yet. */
    constructor (sportName: string)
      ensures Valid() && fresh(Repr)
      ensures this.sportName == sportName
      ensures leagueReports == []
      ensures Value == SportNode(sportName, [])
    {
      this.sportName := sportName;
      leagueReports := [];
      Value := SportNode(sportName, []);
      Repr := {this};
    }

    /** Appends one league at the end; the earlier leagues stay as they were. */
    method AddLeagueReport(leagueReport: LeagueReport)
      requires Valid() && leagueReport.Valid() && this !in leagueReport.Repr
      modifies this
      ensures Valid()
      ensures leagueReports == old(leagueReports) + [leagueReport]
      ensures Repr == old(Repr) + leagueReport.Repr
      ensures Value == old(Value).(leagues := old(Value).leagues + [leagueReport.Value])
    {
      leagueReports := leagueReports + [leagueReport];
      Repr := Repr + leagueReport.Repr;
      Value := Value.(leagues := Value.leagues + [leagueReport.Value]);
    }
  }

  /** The finished report: the sport reports, in order. */
  datatype ReportResult = ReportResult(sportReports: seq<SportReport>)
}
