/**
 * `IsTokenValidContext`: asks the user endpoint whether a token is valid
 * and reads the answer from the status code alone. The body is closed
 * unread.
 */
module TokenValidity {
  import opened Wrappers
  import opened Errors
  import opened Exchange
  import Decimal

  /** The status codes that carry an answer. */
  const StatusOk := 200
  const StatusUnauthorized := 401

  /**
   * 200 means valid, 401 means invalid, and any other status, like any
   * failure to build or send the request, is an error with `false`.
   */
  function IsTokenValid(sent: Sent<int>): (r: Returned<bool>)
    ensures r.value <==> sent == Delivered(StatusOk)
    ensures r.err.None? <==> sent == Delivered(StatusOk) || sent == Delivered(StatusUnauthorized)
    ensures r.err.Some? ==> r.err.value.op == ValidateToken
    ensures sent.Delivered? && sent.reply != StatusOk && sent.reply != StatusUnauthorized ==>
              r.err == Some(Error(ValidateToken, UnexpectedStatus(sent.reply)))
    ensures !sent.Delivered? ==> r.err.Some? && !r.err.value.kind.UnexpectedStatus?
  {
    match sent
    case NotBuilt(cause) => Returned(false, Some(Error(ValidateToken, RequestNotBuilt(cause))))
    case NotDelivered(cause) => Returned(false, Some(Error(ValidateToken, TransportFailed(cause))))
    case Delivered(status) =>
      if status == StatusOk then Returned(true, None)
      else if status == StatusUnauthorized then Returned(false, None)
      else Returned(false, Some(Error(ValidateToken, UnexpectedStatus(status))))
  }

  /**
   * For a status other than 200 and 401 the error message ends with the
   * status in decimal, so the code can be read back from the message.
   */
  lemma UnexpectedStatusReported(status: int)
    requires status != StatusOk && status != StatusUnauthorized
    ensures var r := IsTokenValid(Delivered(status));
            !r.value && r.err.Some? &&
            var m := Message(r.err.value);
            var digits := Decimal.IntString(status);
            |digits| <= |m| && Decimal.ParseInt(m[|m| - |digits|..]) == Some(status)
  {
    var prefix := ValidateToken.Name() + StatusText;
    var digits := Decimal.IntString(status);
    StatusMessageShape(ValidateToken, status);
    assert (prefix + digits)[|prefix + digits| - |digits|..] == digits;
    Decimal.ParseIntString(status);
  }

  /** The three cases of the validation contract, on concrete statuses. */
  lemma TokenValidityExamples()
    ensures IsTokenValid(Delivered(200)) == Returned(true, None)
    ensures IsTokenValid(Delivered(401)) == Returned(false, None)
    ensures IsTokenValid(Delivered(500)) == Returned(false, Some(Error(ValidateToken, UnexpectedStatus(500))))
  {
  }
}
