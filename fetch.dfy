/**
 * What a card does with the reply to one poll before any reconciliation:
 * the `getData` helper shared (word for word) by the nodes card, the
 * alarms card, the page and the dashboard, and the user card's own
 * normalisation, which differs from it.
 *
 * The network call itself is not modelled: a poll hands over its outcome
 * as a `Response`.
 */
module Fetch {
  import opened Collections

  /** The `data` field of a JSON object body. */
  datatype DataField<T> =
    | Absent              // no such field (also what a number or string body yields)
    | Null                // `"data": null`
    | Rows(items: seq<T>) // an array, empty or not (an empty array is truthy)
    | Other(truthy: bool, length: Option<nat>)
      // any other value, e.g. `0`, `"abc"`, `false`, an object; `length` is
      // its `.length` where that is a count (the characters of a string)

  /** A reply body, as `res.json()` parses it. */
  datatype Body<T> =
    | ArrayBody(items: seq<T>)
    | NullBody
    | ObjectBody(data: DataField<T>)
    | Malformed                        // `res.json()` throws

  /** The outcome of one `fetch`: a transport error, or a status and a body. */
  datatype Response<T> = NetworkError | Reply(ok: bool, body: Body<T>)

  /** What normalisation hands on: a list, or a value that is not one. */
  datatype Listing<T> = List(items: seq<T>) | NotAList(length: Option<nat>)

  /**
   * `getData`: a non-success status, a transport error or an unparsable
   * body is caught and yields `[]`; otherwise the body if it is an array,
   * else its `data` field if that is truthy, else `[]`. A truthy non-array
   * `data` value is passed through unchanged.
   */
  function GetData<T>(resp: Response<T>): (r: Listing<T>)
    ensures r.NotAList? <==>
              resp.Reply? && resp.ok && resp.body.ObjectBody? && resp.body.data.Other? && resp.body.data.truthy
    ensures r.NotAList? ==> r.length == resp.body.data.length
    ensures r.List? && r.items != [] ==>
              resp.Reply? && resp.ok &&
              (resp.body == ArrayBody(r.items) || resp.body == ObjectBody(Rows(r.items)))
    ensures resp.Reply? && resp.ok && resp.body.ArrayBody? ==> r == List(resp.body.items)
    ensures resp.Reply? && resp.ok && resp.body.ObjectBody? && resp.body.data.Rows? ==>
              r == List(resp.body.data.items)
    ensures resp.NetworkError? || !resp.ok ==> r == List([])
  {
    match resp
    case NetworkError => List([])
    case Reply(ok, body) =>
      if !ok then List([])
      else
        match body
        case ArrayBody(items) => List(items)
        case NullBody => List([])        // `null.data` throws, and is caught
        case Malformed => List([])
        case ObjectBody(data) =>
          match data
          case Rows(items) => List(items)
          case Other(truthy, length) => if truthy then NotAList(length) else List([])
          case Absent => List([])
          case Null => List([])
  }

  /**
   * The user card's fetch: the status is not checked, the `data` field is
   * taken with `??` (only `null` and a missing field become `[]`), and an
   * exception leaves the card's actions as they were (`None`).
   */
  function NormaliseUsers<T>(resp: Response<T>): (r: Option<Listing<T>>)
    ensures r.None? <==> resp.NetworkError? || resp.body.Malformed? || resp.body.NullBody?
    ensures resp.Reply? && resp.body.ArrayBody? ==> r == Some(List(resp.body.items))
    ensures resp.Reply? && resp.body.ObjectBody? ==>
              r == Some(match resp.body.data
                        case Rows(items) => List(items)
                        case Other(_, length) => NotAList(length)
                        case _ => List([]))
  {
    match resp
    case NetworkError => None
    case Reply(_, body) =>
      match body
      case ArrayBody(items) => Some(List(items))
      case NullBody => None
      case Malformed => None
      case ObjectBody(data) =>
        match data
        case Rows(items) => Some(List(items))
        case Other(_, length) => Some(NotAList(length))
        case Absent => Some(List([]))
        case Null => Some(List([]))
  }

  /** Unlike `getData`, the user card keeps the body of a failed reply. */
  lemma UsersIgnoreStatus<T>(items: seq<T>)
    requires items != []
    ensures GetData(Reply(false, ArrayBody(items))) == List([])
    ensures NormaliseUsers(Reply(false, ArrayBody(items))) == Some(List(items))
  {
  }
}
