/**
 * The errors the package returns. Every error is wrapped with the name of
 * the exported function that produced it, as `fmt.Errorf("Name: %w", err)`
 * does in the source, so a caller can tell which operation failed and why.
 */
module Errors {
  import opened Wrappers
  import Decimal

  /** The exported operations that can fail. */
  datatype Op = ValidateToken | RequestPin | PollToken
  {
    /** The prefix the source puts in front of every error of this operation. */
    function Name(): string
    {
      match this
      case ValidateToken => "IsTokenValid"
      case RequestPin => "GetPlexPIN"
      case PollToken => "PollForAuthToken"
    }
  }

  /** What went wrong. The `cause` strings are the messages of the wrapped library errors. */
  datatype Kind =
    | RequestNotBuilt(cause: string)   // http.NewRequestWithContext failed
    | TransportFailed(cause: string)   // http.DefaultClient.Do failed
    | BodyUnreadable(cause: string)    // io.ReadAll failed
    | BodyMalformed(cause: string)     // json.Unmarshal failed
    | UnexpectedStatus(code: int)      // a status that says nothing about validity
    | ContextExceeded                  // the poll deadline passed first

  datatype Error = Error(op: Op, kind: Kind)

  /** A Go `(value, error)` return pair; on error the value is the type's zero value. */
  datatype Returned<T> = Returned(value: T, err: Option<Error>)

  const StatusText := ": unable to determine token validity, received status code "

  /** The text `err.Error()` yields for an error of this package. */
  function Message(e: Error): string
  {
    e.op.Name() +
    match e.kind
    case RequestNotBuilt(cause) => ": " + cause
    case TransportFailed(cause) => ": " + cause
    case BodyUnreadable(cause) => ": " + cause
    case BodyMalformed(cause) => ": " + cause
    case UnexpectedStatus(code) => StatusText + Decimal.IntString(code)
    case ContextExceeded => ": could not retrieve auth token, exceeded context"
  }

  /** An unexpected-status message is a fixed text for the operation followed by the code. */
  lemma StatusMessageShape(op: Op, code: int)
    ensures Message(Error(op, UnexpectedStatus(code))) == (op.Name() + StatusText) + Decimal.IntString(code)
  {
  }

  /**
   * The message of an unexpected-status error is the operation's fixed text
   * followed by the status code in decimal, which reads back as exactly the code.
   */
  lemma StatusMessageCarriesCode(op: Op, code: int)
    ensures var m := Message(Error(op, UnexpectedStatus(code)));
            var prefix := op.Name() + StatusText;
            |prefix| < |m| && m[..|prefix|] == prefix && Decimal.ParseInt(m[|prefix|..]) == Some(code)
  {
    var prefix := op.Name() + StatusText;
    var digits := Decimal.IntString(code);
    StatusMessageShape(op, code);
    assert (prefix + digits)[|prefix|..] == digits;
    assert (prefix + digits)[..|prefix|] == prefix;
    Decimal.ParseIntString(code);
  }

  lemma PrefixCancels(prefix: string, a: string, b: string)
    requires prefix + a == prefix + b
    ensures a == b
  {
    assert a == (prefix + a)[|prefix|..];
    assert b == (prefix + b)[|prefix|..];
  }

  /** Two unexpected-status errors have the same message only when their codes agree. */
  lemma StatusMessagesDistinguishCodes(op: Op, c1: int, c2: int)
    requires c1 != c2
    ensures Message(Error(op, UnexpectedStatus(c1))) != Message(Error(op, UnexpectedStatus(c2)))
  {
    StatusMessageShape(op, c1);
    StatusMessageShape(op, c2);
    if Message(Error(op, UnexpectedStatus(c1))) == Message(Error(op, UnexpectedStatus(c2))) {
      PrefixCancels(op.Name() + StatusText, Decimal.IntString(c1), Decimal.IntString(c2));
      Decimal.IntStringInjective(c1, c2);
    }
  }
}
