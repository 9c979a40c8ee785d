/** What a controller action produces: the database after the request, the
    HTTP status and the events it broadcast, in order. */
module Http {
  import opened Common
  import opened Schema
  import opened Events

  datatype Outcome = Outcome(state: State, status: Status, events: seq<Event>)

  /** An early return: the database is untouched and nothing is broadcast. */
  function Refuse(s: State, status: Status): (o: Outcome)
    ensures o.state == s && o.status == status && o.events == []
  {
    Outcome(s, status, [])
  }

  /** A read-only answer: a status and, on success, a body. */
  datatype Response<T> = Response(status: Status, body: Option<T>)

  function Deny<T>(status: Status): (r: Response<T>)
    ensures r.status == status && r.body.None?
  {
    Response(status, None)
  }

  function Answer<T>(body: T): (r: Response<T>)
    ensures r.status == Ok && r.body == Some(body)
  {
    Response(Ok, Some(body))
  }
}
