/**
 * One HTTP exchange with the Plex API, as seen by the code after the network
 * has done its part. The request, the round trip, reading the body and
 * decoding its JSON are library calls; their outcomes are given as values.
 */
module Exchange {
  import opened Wrappers
  import opened Errors

  /** Whether the request was built and answered. */
  datatype Sent<+T> =
    | NotBuilt(cause: string)
    | NotDelivered(cause: string)
    | Delivered(reply: T)

  /** The response body after reading it and decoding it as JSON into a `T`. */
  datatype Body<+T> =
    | Unreadable(cause: string)
    | Malformed(cause: string)
    | Decoded(value: T)

  /** A response: its status code and its body. */
  datatype Reply<+T> = Reply(status: int, body: Body<T>)

  /** True when the exchange produced a decoded body. */
  predicate Answered<T>(sent: Sent<Reply<T>>)
  {
    sent.Delivered? && sent.reply.body.Decoded?
  }

  /**
   * The shared error ladder of `GetPlexPINContext` and one poll of
   * `PollForAuthToken`: each failing stage returns an error wrapped with
   * the operation's name, and otherwise the decoded body is the result.
   * The status code is not consulted.
   */
  function Receive<T>(op: Op, sent: Sent<Reply<T>>): (r: Result<T, Error>)
    ensures r.Success? <==> Answered(sent)
    ensures r.Success? ==> r.value == sent.reply.body.value
    ensures r.Failure? ==> r.error.op == op && !r.error.kind.UnexpectedStatus? && !r.error.kind.ContextExceeded?
  {
    match sent
    case NotBuilt(cause) => Failure(Error(op, RequestNotBuilt(cause)))
    case NotDelivered(cause) => Failure(Error(op, TransportFailed(cause)))
    case Delivered(Reply(_, body)) =>
      match body
      case Unreadable(cause) => Failure(Error(op, BodyUnreadable(cause)))
      case Malformed(cause) => Failure(Error(op, BodyMalformed(cause)))
      case Decoded(v) => Success(v)
  }

  /** The outcome of an exchange does not depend on the response's status code. */
  lemma ReceiveIgnoresStatus<T>(op: Op, s1: int, s2: int, body: Body<T>)
    ensures Receive(op, Delivered(Reply(s1, body))) == Receive(op, Delivered(Reply(s2, body)))
  {
  }
}
