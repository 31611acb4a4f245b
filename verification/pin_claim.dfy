/**
 * `GetPlexPINContext`: creates a claimable PIN. The decoded `id` and `code`
 * are returned as they are; every failing stage returns `(0, "", err)`.
 */
module PinClaim {
  import opened Wrappers
  import opened ByteStrings
  import opened Errors
  import opened Exchange

  /** `plexPINResponse`, the decoded body of the PIN request. */
  datatype Pin = Pin(id: int, code: Bytes)

  /** The zero values Go returns beside an error. */
  const NoPin := Pin(0, [])

  function GetPlexPIN(sent: Sent<Reply<Pin>>): (r: Returned<Pin>)
    ensures r.err.None? <==> Answered(sent)
    ensures r.err.None? ==> r.value == sent.reply.body.value
    ensures r.err.Some? ==> r.value == NoPin && r.err.value.op == RequestPin
    ensures r.err.Some? ==> !r.err.value.kind.UnexpectedStatus? && !r.err.value.kind.ContextExceeded?
  {
    match Receive(RequestPin, sent)
    case Success(pin) => Returned(pin, None)
    case Failure(e) => Returned(NoPin, Some(e))
  }

  /**
   * The status code is never checked: a decoded body is returned as a PIN
   * whatever the status, even an error status with an all-zero body.
   */
  lemma GetPlexPINIgnoresStatus(status: int, body: Body<Pin>)
    ensures GetPlexPIN(Delivered(Reply(status, body))) == GetPlexPIN(Delivered(Reply(200, body)))
    ensures body.Decoded? ==> GetPlexPIN(Delivered(Reply(status, body))) == Returned(body.value, None)
  {
    ReceiveIgnoresStatus(RequestPin, status, 200, body);
  }
}
