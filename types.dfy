/**
 * Values shared by the client: observation records as the observations
 * endpoint returns them, the JSON fields of a response, the errors the
 * client lets escape, and the result table with its attribute sidecar.
 */
module FredTypes {

  /** A calendar day, as a day number. The "still current" end of a
      realtime period is an ordinary (very late) day. */
  type Date = int

  /** One record of a series' revision history: the value reported for the
      period `date`, valid from `realtimeStart` to `realtimeEnd`, both ends
      included. The value is carried as the text the service sends. */
  datatype Observation = Observation(value: string, date: Date, realtimeStart: Date, realtimeEnd: Date)

  /** A top-level field of a JSON response: a number, a text, or a listing of
      rows (`observations`, `seriess`). */
  datatype Json<Row> = JInt(i: int) | JStr(s: string) | JRows(rows: seq<Row>)

  /** The failures the client propagates to its caller. */
  datatype Error =
    | NoObservationDates        // the smallest of no dates cannot be formatted as a day
    | MissingKey(key: string)   // a key the client looks up is absent from the response
    | CountNotInteger           // `count` cannot be compared with the number of records
    | NotATable(key: string)    // the listing under `key` is a scalar, not rows
    | MissingDateColumns        // no observations at all: there are no date columns to convert

  datatype Result<T> = Success(value: T) | Failure(error: Error)

  /** A table of rows together with its out-of-band attributes. */
  datatype Frame<Row, V> = Frame(rows: seq<Row>, attrs: map<string, V>)

  function Min(a: int, b: int): int { if a <= b then a else b }
}
