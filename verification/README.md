# go-plexauth in Dafny

A model of the Go package `plexauth`, which signs an application in to Plex
with the PIN flow: ask Plex for a claimable PIN, show the user an
authorization link, then poll Plex until the user approves the PIN, it
expires, or something fails. A separate call checks whether a token is
still valid.

The model covers the behaviour of `plexauth.go` that does not depend on the
network:

- **Authorization link** (`GenerateAuthURL`). The three required
  parameters and five optional device fields go into a struct whose `url`
  tags fix the query keys. go-querystring turns the struct into query
  values: an `omitempty` field is dropped when empty. `url.Values.Encode`
  then serialises them (keys ascending, `key=value` joined by `&`, all
  escaped by `url.QueryEscape`), and the result goes after
  `https://app.plex.tv/auth#?`. Modules: `ByteStrings` (Go strings as bytes
  and their ordering), `QueryEscape`, `UrlValues`, `QueryStruct`, `AuthUrl`.
  The escaper is modelled byte for byte. `UrlValues.DecodeQuery` is the
  application/x-www-form-urlencoded reader, the partner of the encoder:
  every property of the link is stated on what a reader decodes from it.
- **Token validation** (`IsTokenValidContext`): status 200 is valid, 401 is
  invalid, and anything else is an error whose message carries the status
  code. Modules: `TokenValidity`, `Errors`, `Decimal`.
- **PIN request** (`GetPlexPINContext`): returns the decoded id and code, or
  `(0, "", err)` from whichever stage failed. Modules: `PinClaim`,
  `Exchange`.
- **Poll loop** (`PollForAuthToken`) as a state machine over time in
  milliseconds. One poll fires per one-second tick. The context ends at the
  effective deadline, the earlier of the caller's and 30 minutes. The reply
  to each poll is an abstract value. Module: `PollLoop`.

All functions are pure, so the same inputs always give the same link, the
same verdict and the same run.

Behaviour a caller may not expect, which the model keeps:

- `GetPlexPINContext` and each poll never look at the HTTP status. A non-2xx
  reply whose body still decodes as JSON is accepted. For a PIN it yields
  whatever id and code were decoded, possibly `0` and `""`. For a poll, a
  decoded body with a null or missing `authToken` reads as "not approved yet", so the loop
  keeps polling; one that carries a token returns that token.
  `PinClaim.GetPlexPINIgnoresStatus` and `Exchange.ReceiveIgnoresStatus`
  state this.
- Escaping is Go's `url.QueryEscape`, not the byte set of the WHATWG URL
  Standard, section 5 (application/x-www-form-urlencoded). Go keeps `~` and
  escapes `*`; WHATWG does the opposite. Both turn a space into `+` and use
  upper-case hex.
- The tie between the one-second timer and the deadline is not fixed: Go's
  `select` may take either ready branch. `pollOnTie` is a parameter, and
  every property holds for both values. When the timer wins, the request
  is built on a context that has already ended, so `Do` fails and the loop
  returns `context deadline exceeded` instead of the "exceeded context"
  timeout. In the model, where polls take no time, the default 30 minutes
  ends exactly on the 1800th tick, so both endings are allowed
  (`PollLoop.NeverApprovedTimesOut`). In Go each poll's round trip delays
  the next tick, so that tick comes after the deadline, and
  `context deadline exceeded` arises only when the deadline cancels a
  request in flight.

## Model

| member | source | states |
|---|---|---|
| `AuthUrl.GenerateAuthURL` | plexauth.go:88-109 | The link never comes with an error and always starts with `https://app.plex.tv/auth#?`, followed by a non-empty query |
| `AuthUrl.QueryFields` | plexauth.go:90-99 | The eight fields of the options struct in declaration order with their `url` tags; no contract of its own: `FieldTagsDistinct`, `AuthUrlRequiredKeys` and `AuthUrlOptionalKeys` state what it yields |
| `AuthUrl.AuthUrlRequiredKeys` | plexauth.go:171-173 | The decoded link always has `clientID`, `code` and `context[device][product]`, carrying the client id, PIN code and app name, even when these are empty |
| `AuthUrl.AuthUrlOptionalKeys` | plexauth.go:174-178 | Each of the five `context[device][…]` metadata keys is in the decoded link exactly when its option is non-empty, and then carries that option |
| `AuthUrl.AuthUrlNoOtherKeys` | plexauth.go:90-99 | No key outside the eight tagged ones ever appears in the link |
| `AuthUrl.AuthUrlKeysAscending` | plexauth.go:101-106 | The link's pairs come in strictly ascending byte order of their keys, and no two pairs anywhere in the link share a key |
| `AuthUrl.AuthUrlExample` | plexauth.go:88-109 | For app `App`, client `abc123`, code `XYZ9` and no metadata, the link decodes to exactly client id, code and product, in that order |
| `QueryStruct.LookupReflect` | plexauth.go:170-178 | With distinct tags, looking up a field's tag yields its value unless the field is `omitempty` and empty, in which case the key is absent |
| `QueryStruct.Reflect` | plexauth.go:101 | `query.Values` on a struct of strings; no contract of its own: `LookupReflect`, `LookupReflectAbsent` and `ReflectKeysUnique` state it |
| `QueryStruct.LookupReflectAbsent` | plexauth.go:170-178 | A name that tags no field is never a key of the struct's query values |
| `QueryStruct.ReflectKeysUnique` | plexauth.go:170-178 | A struct with distinct tags yields each key at most once |
| `QueryEscape.Escape` | plexauth.go:106 | Escaped text uses only letters, digits, `-_.~`, `+` and `%`, and is one to three times as long as its input |
| `QueryEscape.UnescapeEscape` | plexauth.go:106 | Unescaping recovers every byte string from its escaped form |
| `QueryEscape.EscapeAvoidsSeparators` | plexauth.go:106 | Escaped keys and values never contain `&` or `=`, so they cannot break the query structure |
| `QueryEscape.EscapeKeepsUnreserved` | plexauth.go:106 | Text made only of letters, digits and `-_.~` is emitted unchanged |
| `QueryEscape.EscapeConcat` | plexauth.go:106 | Escaping works byte by byte: the escape of a concatenation is the concatenation of the escapes |
| `QueryEscape.EscapeBrackets` | plexauth.go:173 | The brackets in the device-context keys become `%5B` and `%5D`, and a space becomes `+` |
| `UrlValues.EncodeRoundTrip` | plexauth.go:106 | Decoding the serialised query gives back exactly the pairs, stably sorted by key: nothing lost, added or altered by escaping and joining |
| `UrlValues.Encode` | plexauth.go:106 | `Values.Encode`; no contract of its own: `EncodeRoundTrip`, `SortSorted`, `SortFilter` and `SortPermutes` state it |
| `UrlValues.DecodeJoin` | plexauth.go:106 | `key=value` items joined by `&` split back into exactly the pairs they came from |
| `UrlValues.SortSorted` | plexauth.go:106 | After sorting, keys never decrease |
| `UrlValues.SortFilter` | plexauth.go:106 | Sorting is stable: the values under each key keep their insertion order |
| `UrlValues.SortPermutes` | plexauth.go:106 | Sorting neither loses nor adds a pair |
| `UrlValues.SortLookup` | plexauth.go:106 | Looking up a key gives the same value before and after sorting |
| `TokenValidity.IsTokenValid` | plexauth.go:21-46 | Valid exactly when the reply is 200. There is no error exactly when the reply is 200 or 401. Any other status is an error naming that status, and a failure to build or send the request is an error too; every error comes with `false` |
| `TokenValidity.UnexpectedStatusReported` | plexauth.go:43-44 | For a status other than 200 and 401 the error message ends with the status in decimal, which reads back as the status |
| `TokenValidity.TokenValidityExamples` | plexauth.go:38-45 | Status 200 gives `(true, nil)`, 401 gives `(false, nil)`, and 500 gives `false` with an error carrying 500 |
| `Errors.StatusMessageCarriesCode` | plexauth.go:44 | The unexpected-status message is the operation name and the fixed status text, followed by text that parses back to exactly the code |
| `Errors.Message` | plexauth.go:26-155 | The text of each error the package returns; no contract of its own: `StatusMessageCarriesCode` and `StatusMessagesDistinguishCodes` state the status message |
| `Errors.StatusMessagesDistinguishCodes` | plexauth.go:44 | Different status codes always give different messages |
| `Decimal.ParseIntString` | plexauth.go:44 | The `%v` rendering of any integer reads back as that integer |
| `Decimal.IntStringInjective` | plexauth.go:44 | Different integers render differently |
| `Decimal.IntString` | plexauth.go:44 | The `%v` rendering of the status code; no contract of its own: `ParseIntString` and `IntStringInjective` state it |
| `Exchange.Receive` | plexauth.go:57-81 | An exchange succeeds exactly when the body was delivered and decoded, and then yields the decoded value. Any failure is tagged with the calling operation and is never a status or timeout error |
| `Exchange.ReceiveIgnoresStatus` | plexauth.go:65-81 | The result of an exchange is the same whatever the response status |
| `PinClaim.GetPlexPIN` | plexauth.go:54-82 | No error exactly when the body was delivered and decoded, and then the id and code are exactly the decoded ones. On every failure path the result is `(0, "", err)` with a `GetPlexPIN` error |
| `PinClaim.GetPlexPINIgnoresStatus` | plexauth.go:65-81 | A decoded body is returned as the PIN whatever the status code |
| `PollLoop.EffectiveDeadline` | plexauth.go:117 | The loop's deadline is at most 30 minutes and at most the caller's, and equals one of them: the minimum |
| `PollLoop.MaxPolls` | plexauth.go:120-122 | The number of one-second ticks that beat the deadline: its last tick fires, the next one would not, and the ticks fit in the budget |
| `PollLoop.Run` | plexauth.go:120-157 | A run always ends in Fulfilled, Failed or Expired, and never issues more polls than ticks fit before the deadline |
| `PollLoop.Step` | plexauth.go:121-155 | One trip through the `select`, including the tick on the deadline; no contract of its own: `RunOutcome`, `StepReadsOnlyItsPoll` and `TwoSecondBudget` state it |
| `PollLoop.RunOutcome` | plexauth.go:120-157 | Every poll before the last came back null. A token is the one the last reply carried, strictly before the deadline. A failure is either the tick on the deadline, won by the timer, failing with `context deadline exceeded`, or the `Receive` error of a last reply that was not delivered or decoded. A timeout follows only after every possible tick was used, all returning null, and never when the last tick ties and fails |
| `PollLoop.PollForAuthToken` | plexauth.go:115-158 | A returned token is the first non-null token from a poll before the deadline, after null replies only. Every error is a `PollForAuthToken` error with an empty token. The timeout error means every poll that reached the server came back null and the last tick did not fail on the deadline |
| `PollLoop.Outcome` | plexauth.go:128-155 | Go's return pair for a finished loop: the token with nil, `""` with the wrapped error, or the "exceeded context" error; no contract of its own: `PollForAuthToken`, `FirstTokenReturned`, `FirstFailureReturned` and `NeverApprovedTimesOut` state it |
| `PollLoop.AllNullEnds` | plexauth.go:121-155 | If every poll that reaches the server comes back null, the run ends at its last tick: a timeout, or the `context deadline exceeded` failure when that tick lands on the deadline and the timer wins |
| `PollLoop.NeverApprovedTimesOut` | plexauth.go:121-155 | When nobody ever approves the PIN, the caller never gets a token: the "exceeded context" error, or `context deadline exceeded` from the last request when a whole-second deadline ties with the timer and the timer wins |
| `PollLoop.FirstTokenReturned` | plexauth.go:150-152 | If the n-th poll is before the deadline, carries token t, and every earlier poll came back null, the loop returns `(t, nil)` |
| `PollLoop.FirstFailureReturned` | plexauth.go:126-148 | If the n-th poll is before the deadline, its request or body fails, and every earlier poll came back null, the loop returns that poll's error with an empty token |
| `PollLoop.PollCountBound` | plexauth.go:117-122 | A run issues at most 1800 polls, and at most one per whole second of the caller's budget |
| `PollLoop.ExpiryWithinOneTick` | plexauth.go:121-155 | A run that times out does so inside the wait after its last poll: the deadline falls before the next tick |
| `PollLoop.RunReadsOnlyIssuedPolls` | plexauth.go:150-152 | Replies after the last issued poll are never consulted, so nothing is polled after a token or an error |
| `PollLoop.FourthPollApproves` | plexauth.go:150-152 | Three null replies, then token `tok-1`: the loop returns `tok-1` after exactly four polls |
| `PollLoop.FirstPollMalformed` | plexauth.go:145-148 | A first reply whose body does not decode ends the loop after one poll with that decode error, even with an error status |
| `PollLoop.TwoSecondBudget` | plexauth.go:117-155 | With a two-second budget and no approval: if the deadline wins the tie the loop times out after one poll; if the timer wins, the second request fails with `context deadline exceeded` |
| `UrlValues.AscendingKeysDistinct` | plexauth.go:106 | Pairs whose keys strictly increase from each to the next never repeat a key anywhere in the list |

## Left out

- HTTP: building requests, their form bodies and headers, `http.DefaultClient.Do`, and closing bodies (plexauth.go:22-36, 55-75, 125-141). These are network I/O. Each exchange's outcome is an input value (`Exchange.Sent`, `Exchange.Body`).
- JSON decoding with `json.Unmarshal`, a foreign library. Decoded bodies are given directly as `Pin` and `TokenBody`, so an `id` that overflows Go's `int` appears only as a decode failure.
- The `ctx` argument of `IsTokenValidContext` and `GetPlexPINContext`, and the wrappers `IsTokenValid` and `GetPlexPIN` that pass `context.Background()`. Cancellation there surfaces only as a request that was not delivered or, for `GetPlexPINContext`, a body that could not be read.
- PollLoop.Run: a poll takes no time in the model. Each tick fires exactly one second after the previous one, and a request still in flight at the deadline is not cancelled by the model; such a cancellation is just a not-delivered reply.
- PollLoop.NeverApprovedTimesOut: with polls taking no time, a whole-second deadline such as the default 30 minutes lands exactly on a tick, so the lemma allows the `context deadline exceeded` ending there too; in Go the round trips push that tick past the deadline and the caller gets the "exceeded context" error, or `context deadline exceeded` from a request the deadline cancelled in flight (a not-delivered reply in the model).
- PollLoop.DeadlineExceeded: the error of a request sent on an ended context keeps only the cause `context deadline exceeded`; Go's text also names the request, `Get "https://plex.tv/api/v2/pins/<id>": …`, and reads `context canceled` when the caller cancelled rather than timed out.
- PollLoop.Run: caller cancellation and the caller's deadline are one instant, `caller`. Real-valued time is measured in whole milliseconds.
- The PIN id, PIN code and client id passed to `PollForAuthToken` only go into the request, which is not modelled.
- go-querystring internals: parsing `url:"name,omitempty"` tags and field types other than strings are not modelled. For a struct whose fields are all plain strings, `query.Values` cannot fail: it errors only on a non-struct argument, a failing custom `Encoder`, or a failing nested struct, none of which this struct has. So the error branch of `GenerateAuthURL` (plexauth.go:102-104) is never taken and the model returns no error.
- Error wrapping with `%w`: `errors.Is` and `errors.Unwrap` chains are not modelled. An error is an operation and a kind, and the wrapped library error becomes its message text.
- cli/main.go: prompting on stdin, printing, `panic`, and the random client id from `math/rand`. These are I/O and randomness.
- AuthUrl.AuthUrlExample: the example is stated on the decoded link, not as the literal escaped string `clientID=abc123&code=XYZ9&context%5Bdevice%5D%5Bproduct%5D=App`.
