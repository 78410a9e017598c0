# Prematch report builder, modelled in Dafny

The application reads a sports-betting catalogue from a remote JSON API. The data runs sports → regions → leagues → events → markets → runners. The application turns it into a report tree of `SportReport` → `LeagueReport` → `EventReport` → `MarketReport` → `RunnerReport` objects.

For every selected sport, the tree keeps:
- the sport's *top* leagues, ordered by `topOrder`;
- for each of those leagues, the first two *prematch* events by kickoff;
- for each of those events, all its markets and runners as the event-details call returns them.

There are two builders:
- `ReportService.generateReport` works in the calling thread.
- `AsyncReportService.generateReportAsync` runs one pool task per sport, waits for all of them, and reads their futures in list order.

This project models:
- **The selectors** of `SportService`: `getTopLeagues` (for one sport and for a sport type), `fetchTopMatches` and `findMarketByName`. They are pure functions over what the fetches returned, with lemmas on sorting, membership, stability and limits.
- **The report classes**: Dafny classes with `const` header fields (the Java `final` fields) and a child list that only grows at its end. `EventReport`, `LeagueReport` and `SportReport` keep a ghost `Value` (the subtree as a value) and a ghost `Repr` footprint. `MarketReport` holds only values (its runner lines), so its `Value()` is a plain function of `marketName` and `runnerReports`.
- **The report tree as values**: `EventTree`, `LeagueTree`, `SportTree` and `ReportTree`, over one snapshot of the three API calls (`Domain.DataSource`). Each of the three calls either answers or fails.
- **The builders, imperatively**: `ProcessEvent`, `ProcessLeague`, `ProcessSport` and `GenerateReport`. Each is proved to build fresh, well-formed objects whose `Value` is the tree, or to fail with the tree's exception.
- **The asynchronous builder**: `GenerateReportAsync`. The order in which the pool's tasks finish is a parameter. Whatever that order, the result is proved equal to the sequential report: the same sport reports in the same order, or the same exception (that of the first failing sport in list order). That holds because the futures are read in list order when none failed, and otherwise `allOf`'s failure is taken to be the leftmost failing future's (`AsyncTreeIsSequentialTree`, `JoinOfMapIsTraverse`).

Files:
- `Domain.dfy`: the API's data and the snapshot.
- `Text.dfy`: `equalsIgnoreCase`.
- `Streams.dfy`: filter, stable sort, limit, map, the sequential loop and the ordered join.
- `SportService.dfy`: the selectors.
- `Report.dfy`: the report classes.
- `ReportService.dfy`: the sequential builder.
- `AsyncReportService.dfy`: the asynchronous builder.

Java exceptions are modelled as `Result.Err` values carrying the message. A failed fetch, whether it fails at the network, at decoding or in `join`, is the `Err` the snapshot returns for that call.

## Model

| member | source | states |
|---|---|---|
| Streams.Filter | src/main/java/com/example/demo/service/SportService.java:69 | `stream.filter(p)`: definition; properties in FilterContents and FilterIsOrderedSubsequence |
| Streams.SortBy | src/main/java/com/example/demo/service/SportService.java:70 | `sorted(Comparator.comparing(key))` as a stable insertion sort: definition; properties in SortByIsSortedPermutation and SortByIsStable |
| Streams.MapSeq | src/main/java/com/example/demo/service/report/AsyncReportService.java:65-67 | `stream.map(f)`: the result has the input's length and holds f of the item at each position |
| Streams.Traverse | src/main/java/com/example/demo/service/report/ReportService.java:97-99 | a for-loop that applies a throwing step to each item in turn: definition; properties in TraverseSucceeds and TraverseFailsAtFirst |
| Streams.JoinInOrder | src/main/java/com/example/demo/service/report/AsyncReportService.java:69-75 | `allOf` then the per-future joins: definition; properties in JoinInOrderSucceeds, JoinInOrderFailsAtFirst, JoinInOrderAgrees and JoinOfMapIsTraverse |
| Text.EqualsIgnoreCase | src/main/java/com/example/demo/service/SportService.java:58 | `String.equalsIgnoreCase` on ASCII letters: definition; used by MatchingSportsLeagues, TopMatchesSelected and FindMarketByName |
| Streams.FilterContents | src/main/java/com/example/demo/service/SportService.java:69 | `filter` keeps exactly the elements satisfying the test, each as many times as it occurs |
| Streams.FilterIsOrderedSubsequence | src/main/java/com/example/demo/service/SportService.java:81 | `filter` keeps the satisfying elements in their original order: the result is the input at strictly increasing positions |
| Streams.SortByIsSortedPermutation | src/main/java/com/example/demo/service/SportService.java:70 | `sorted(Comparator.comparing(key))` returns a permutation of its input, in non-decreasing key order |
| Streams.SortByIsStable | src/main/java/com/example/demo/service/SportService.java:70 | the stream sort is stable: the elements with any one key keep their input order |
| Streams.Limit | src/main/java/com/example/demo/service/SportService.java:84 | `limit(n)` keeps the first min(n, size) elements |
| Streams.TraverseSucceeds | src/main/java/com/example/demo/service/report/ReportService.java:97-99 | a for-loop over items completes exactly when every item's step succeeds, and then holds each item's result at its position |
| Streams.TraverseFailsAtFirst | src/main/java/com/example/demo/service/report/ReportService.java:97-99 | when item i is the first to throw, the loop throws item i's exception |
| Streams.JoinInOrderSucceeds | src/main/java/com/example/demo/service/report/AsyncReportService.java:73-75 | joining the futures in list order succeeds exactly when every future succeeded, and yields their values in list order |
| Streams.JoinInOrderFailsAtFirst | src/main/java/com/example/demo/service/report/AsyncReportService.java:73-75 | when future i is the first in list order to have failed, the join throws future i's exception |
| Streams.JoinInOrderAgrees | src/main/java/com/example/demo/service/report/AsyncReportService.java:73-75 | two future lists that fail at the same positions with the same exceptions join to the same outcome |
| Streams.JoinOfMapIsTraverse | src/main/java/com/example/demo/service/report/AsyncReportService.java:65-75 | computing every item's result first and joining them in list order equals the sequential loop, exception included |
| SportService.RegionLeaguesMembership | src/main/java/com/example/demo/service/SportService.java:67-68 | flat-mapping regions to leagues gathers exactly the leagues of those regions |
| SportService.SportRegionsMembership | src/main/java/com/example/demo/service/SportService.java:59 | flat-mapping sports to regions gathers exactly the regions of those sports |
| SportService.TopLeagues | src/main/java/com/example/demo/service/SportService.java:66-72 | getTopLeagues(Sport): definition; properties in TopLeaguesSortedPermutation, TopLeaguesAreTheTopFlagged and TopLeaguesKeepTies |
| SportService.TopLeaguesSortedPermutation | src/main/java/com/example/demo/service/SportService.java:66-72 | getTopLeagues(Sport) is a permutation of the top-flagged leagues of all regions, in non-decreasing `topOrder` |
| SportService.TopLeaguesAreTheTopFlagged | src/main/java/com/example/demo/service/SportService.java:66-72 | a league is in getTopLeagues(Sport) exactly when it is flagged top and belongs to one of the sport's regions |
| SportService.TopLeaguesKeepTies | src/main/java/com/example/demo/service/SportService.java:66-72 | leagues with equal `topOrder` keep their region-then-league encounter order |
| SportService.MatchingSportsLeagues | src/main/java/com/example/demo/service/SportService.java:57-60 | the leagues gathered from the sports whose name equals the display name ignoring case are exactly the leagues of their regions |
| SportService.TopLeaguesOfType | src/main/java/com/example/demo/service/SportService.java:55-64 | getTopLeagues(SportType) over the fetched sports: definition; properties in MatchingSportsLeagues and TopLeaguesOfTypeMembership |
| SportService.TopLeaguesOfTypeMembership | src/main/java/com/example/demo/service/SportService.java:55-64 | getTopLeagues(SportType) is sorted by `topOrder`, and a league is in it exactly when it is flagged top and belongs to a region of a sport whose name matches the type ignoring case |
| SportService.TopMatches | src/main/java/com/example/demo/service/SportService.java:79-86 | fetchTopMatches over the fetched events: definition; properties in TopMatchesSelected and TopMatchesAreEarliest |
| SportService.TopMatchesSelected | src/main/java/com/example/demo/service/SportService.java:79-86 | fetchTopMatches returns only events of the league whose betline is "prematch" in any case, sorted by kickoff, min(limit, prematch count) of them |
| SportService.TopMatchesAreEarliest | src/main/java/com/example/demo/service/SportService.java:79-86 | the result is a prefix of the kickoff-sorted prematch events, and no prematch event left out kicks off before one that was taken |
| SportService.FirstMatching | src/main/java/com/example/demo/service/SportService.java:89-91 | the position found is the first whose market name matches ignoring case; there is none exactly when no market matches |
| SportService.FindMarketByName | src/main/java/com/example/demo/service/SportService.java:88-93 | returns the first market in list order whose name matches ignoring case; if no market matches, throws "Market not found: " + name |
| Report.MarketReport.constructor | src/main/java/com/example/demo/model/report/MarketReport.java:13-15 | a new market report has the given name and no runners |
| Report.MarketReport.AddRunner | src/main/java/com/example/demo/model/report/MarketReport.java:17-19 | appends the runner at the end; the earlier runners stay as they were |
| Report.EventReport.constructor | src/main/java/com/example/demo/model/report/EventReport.java:15-19 | a new event report has exactly the given name, kickoff text and id, and no markets |
| Report.EventReport.AddMarketReport | src/main/java/com/example/demo/model/report/EventReport.java:21-23 | appends the market at the end; the earlier markets and the header stay as they were |
| Report.LeagueReport.constructor | src/main/java/com/example/demo/model/report/LeagueReport.java:13-15 | a new league report has the given name and no events |
| Report.LeagueReport.AddEventReport | src/main/java/com/example/demo/model/report/LeagueReport.java:17-19 | appends the event at the end; the earlier events stay as they were and the tree stays well-formed |
| Report.SportReport.constructor | src/main/java/com/example/demo/model/report/SportReport.java:13-15 | a new sport report has the given name and no leagues |
| Report.SportReport.AddLeagueReport | src/main/java/com/example/demo/model/report/SportReport.java:17-19 | appends the league at the end; the earlier leagues stay as they were and the tree stays well-formed |
| ReportService.SelectSports | src/main/java/com/example/demo/service/report/ReportService.java:91-95 | the sport selection: definition; properties in SelectSportsKeepsSelected |
| ReportService.EventTree | src/main/java/com/example/demo/service/report/ReportService.java:61-74 | the tree processEvent builds, or the details fetch's exception: definition; properties in EventNodeMirrorsDetails, specification of ProcessEvent |
| ReportService.LeagueTree | src/main/java/com/example/demo/service/report/ReportService.java:49-59 | the tree processLeague builds, or the first exception: definition; properties in LeagueTreeHoldsTopMatches, specification of ProcessLeague |
| ReportService.SportTree | src/main/java/com/example/demo/service/report/ReportService.java:37-47 | the tree processSport builds, or the first exception: definition; properties in SportTreeFollowsTopLeagues, specification of ProcessSport |
| ReportService.ReportTree | src/main/java/com/example/demo/service/report/ReportService.java:88-101 | the tree generateReport builds, or the first exception: definition; properties in ReportHasOneNodePerSelectedSport and ReportFailsWithFirstFailure, specification of GenerateReport |
| ReportService.SelectSportsKeepsSelected | src/main/java/com/example/demo/service/report/ReportService.java:91-95 | a null or empty selection keeps every sport in order; otherwise exactly the sports whose name is in the selection (case-sensitive), each as often as fetched |
| ReportService.EventNodeMirrorsDetails | src/main/java/com/example/demo/service/report/ReportService.java:61-74 | an event node has the event's name and id, the kickoff text "<kickoffUtc> UTC", and the details' markets and runners one for one, in order |
| ReportService.LeagueTreeHoldsTopMatches | src/main/java/com/example/demo/service/report/ReportService.java:49-59 | a league node is named after its league and holds its top matches, at most two, in order; it fails exactly when the events fetch or one of those events' details fetches fails |
| ReportService.SportTreeFollowsTopLeagues | src/main/java/com/example/demo/service/report/ReportService.java:37-47 | a sport node is named after its sport and holds one league node per top league, in order; it fails exactly when one of them fails |
| ReportService.ReportHasOneNodePerSelectedSport | src/main/java/com/example/demo/service/report/ReportService.java:88-101 | the report holds one node per selected sport, in order, each named after its sport; it fails exactly when the sports fetch or one selected sport fails |
| ReportService.ReportFailsWithFirstFailure | src/main/java/com/example/demo/service/report/ReportService.java:97-99 | when sport i is the first selected sport to fail, the report fails with sport i's exception |
| ReportService.ProcessMarket | src/main/java/com/example/demo/service/report/ReportService.java:66-69 | builds a fresh market report with the market's name and one runner line per runner, in order, with the name, price and id unchanged |
| ReportService.ProcessEvent | src/main/java/com/example/demo/service/report/ReportService.java:61-74 | builds a fresh, well-formed event report equal to the event's tree, or throws the details fetch's exception |
| ReportService.ProcessLeague | src/main/java/com/example/demo/service/report/ReportService.java:49-59 | builds a fresh, well-formed league report equal to the league's tree, or throws the first exception met |
| ReportService.ProcessSport | src/main/java/com/example/demo/service/report/ReportService.java:37-47 | builds a fresh, well-formed sport report equal to the sport's tree, or throws the first exception met |
| ReportService.ProcessSports | src/main/java/com/example/demo/service/report/ReportService.java:97-99 | processes the sports in turn; the result holds one fresh, well-formed report per sport, equal to the sequential tree, or the first exception |
| ReportService.GenerateReport | src/main/java/com/example/demo/service/report/ReportService.java:88-101 | fetches, selects and builds; the result holds one fresh, well-formed sport report per node of the report tree, in order, or the tree's exception |
| AsyncReportService.AsyncReportTree | src/main/java/com/example/demo/service/report/AsyncReportService.java:55-79 | the tree generateReportAsync builds, or `allOf`'s failure: definition; properties in AsyncTreeIsSequentialTree |
| AsyncReportService.AsyncTreeIsSequentialTree | src/main/java/com/example/demo/service/report/AsyncReportService.java:55-79 | the asynchronous report tree (futures joined in list order) equals the sequential one, exception included |
| AsyncReportService.RunSportTasks | src/main/java/com/example/demo/service/report/AsyncReportService.java:65-71 | whatever order the tasks finish in, future j holds sport j's fresh, well-formed report, or the exception its task ended with |
| AsyncReportService.GenerateReportAsync | src/main/java/com/example/demo/service/report/AsyncReportService.java:55-83 | whatever the completion order, the result equals the sequential report: the same sport reports in the same order, or the first failure in list order |

## Left out

- The HTTP client, JSON decoding and the URL configuration are not part of this model (`AsyncApiService`, `ApiService` and `AppConfig`). Their answers are the `DataSource` snapshot, and each call either answers or fails.
- The snapshot is fixed for one build. If the remote data changed between two fetches of the same build, the model would not see it.
- The thread pool is not modelled: `MAX_THREADS`, the executor, `supplyAsync` and `shutdown`. Only the completion order of the per-sport tasks is a parameter.
- The starvation that blocking `join` calls inside pool tasks can cause on a small pool is not modelled. Neither are interleavings inside a task: each task builds only objects of its own.
- `CompletionException` wrapping is not modelled. An exception keeps its message whether it comes from a direct call or through `join`.
- GenerateReportAsync: when futures fail, the caller sees the exception `allOf` completed with; the per-future joins run only when nothing failed. The `CompletableFuture` Javadoc does not say which failure `allOf` takes. The model takes the leftmost failing future in list order, which is what OpenJDK's `allOf` picks.
- The `AsyncSportService` selectors (src/main/java/com/example/demo/service/AsyncSportService.java:38-76) run the same stream pipelines as the `SportService` selectors, and each is modelled once in `SportService`. Their fetch wrappers differ in text but not in effect: AsyncSportService.java:39 and :58 call `fetchSportsDataAsync().join()` and `fetchEventsDataAsync(id).join()` directly, where `SportService` calls `fetchSportsData()` and `fetchEventsData()`, which do the same.
- The same holds for the bodies of `AsyncReportService.processSport/processLeague/processEvent` (src/main/java/com/example/demo/service/report/AsyncReportService.java:85-122): they are `ReportService`'s, so `GenerateReportAsync` uses `ProcessSport`. Their `DEFAULT_MATCHES_LIMIT` is also 2.
- `fetchSportsData`, `fetchEventsData`, `fetchEventDetails` and `fetchAllEvents` are the snapshot's three fields.
- `equalsIgnoreCase` folds only ASCII letters. Java also folds other Unicode letters.
- fetchTopMatches takes a non-negative `limit`. Java throws on a negative one, and every caller passes 2.
- Nulls are not modelled, except the selection list. A null selection and an empty one both mean "all sports".
- Runner prices are carried as the 64 bits of the `double` and never compared or computed on.
- Object identity beyond the report objects is not modelled; the domain records are values.
- Not part of this model: the report printing, `TopLeagueMarketsReportService`, `PerformanceUtils`, `DemoApplication` and the tests.
