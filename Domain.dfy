/**
 * The betting API's data, reduced to the fields the report builder reads,
 * and the snapshot of the three API calls the builder makes.
 */
module Domain {

  /** A runner's price: the 64 bits of a Java `double`. It is carried from
      the API into the report and never computed on. */
  datatype Price = Price(bits: bv64)

  datatype Runner = Runner(id: int, name: string, price: Price)

  datatype Market = Market(name: string, runners: seq<Runner>)

  /** The body of the event-details call. */
  datatype EventDetails = EventDetails(markets: seq<Market>)

  /** `kickoff` is the epoch time the selector sorts on; `kickoffUtc` is the
      API's printable form of the same instant; `betline` is the status tag
      ("prematch", "live", ...). */
  datatype Event = Event(id: int, name: string, kickoff: int, kickoffUtc: string, betline: string)

  datatype League = League(id: int, name: string, isTop: bool, topOrder: int)

  datatype Region = Region(leagues: seq<League>)

  datatype Sport = Sport(name: string, regions: seq<Region>)

  /** An exception, reduced to its message. */
  datatype Error = Error(message: string)

  /** A value or the exception that replaced it. */
  datatype Result<+T> = Ok(value: T) | Err(error: Error)

  /** A reference that may be null. */
  datatype Option<+T> = None | Some(value: T)

  /**
   * One snapshot of the remote API: the answer to "list sports", to
   * "list events of league id" and to "details of event id". Each call
   * either answers or fails; a failure is never a partial answer.
   */
  datatype DataSource = DataSource(
    sports: Result<seq<Sport>>,
    events: int -> Result<seq<Event>>,
    details: int -> Result<EventDetails>)
}
