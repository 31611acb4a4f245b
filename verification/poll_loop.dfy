/**
 * `PollForAuthToken` as a state machine over discrete time.
 *
 * Time is counted in milliseconds from the call. The loop waits one
 * second, polls, and repeats; each wait is a fresh `time.After`, and a poll
 * is taken to cost no time, so poll k (counting from 1) happens at k
 * seconds. The loop's context ends at the effective deadline, the earlier
 * of the caller's context and 30 minutes. When a tick and the deadline
 * fall on the same instant Go's `select` may take either branch; the
 * parameter `pollOnTie` says which one it took.
 *
 * The reply to the n-th poll (counting from 0) is `respond(n)`.
 */
module PollLoop {
  import opened Wrappers
  import opened ByteStrings
  import opened Errors
  import opened Exchange

  /** `time.After(time.Second)`, in milliseconds. */
  const PollInterval: nat := 1000

  /** `context.WithTimeout(inCtx, 30*time.Minute)`: a PIN lives 30 minutes. */
  const PinLifetime: nat := 30 * 60 * 1000

  /** `authTokenResp`: the token is null until the user approves the PIN. */
  datatype TokenBody = TokenBody(authToken: Option<Bytes>)

  type PollReply = Sent<Reply<TokenBody>>

  /** The state at the top of the loop, or the way the loop ended, with the number of polls issued. */
  datatype PollState =
    | Pending(polls: nat)
    | Fulfilled(token: Bytes, polls: nat)
    | Failed(error: Error, polls: nat)
    | Expired(polls: nat)

  /** The instant the loop's context ends; `caller` is when the caller's context ends, if ever. */
  function EffectiveDeadline(caller: Option<nat>): (d: nat)
    ensures d <= PinLifetime
    ensures caller.Some? ==> d <= caller.value
    ensures d == PinLifetime || caller == Some(d)
  {
    match caller
    case None => PinLifetime
    case Some(c) => if c < PinLifetime then c else PinLifetime
  }

  /** Whether the k-th tick wins the `select` against a context that ends at `deadline`. */
  predicate TickFires(k: nat, deadline: nat, pollOnTie: bool)
  {
    k * PollInterval < deadline || (k * PollInterval == deadline && pollOnTie)
  }

  /** The number of ticks that fire before the deadline. */
  function MaxPolls(deadline: nat, pollOnTie: bool): (n: nat)
    ensures n == 0 || TickFires(n, deadline, pollOnTie)
    ensures !TickFires(n + 1, deadline, pollOnTie)
    ensures n * PollInterval <= deadline
  {
    if deadline == 0 then 0
    else if pollOnTie then deadline / PollInterval
    else (deadline - 1) / PollInterval
  }

  /**
   * Whether the loop's last tick lands exactly on the deadline and the
   * timer wins the `select`. Its request is then built on a context that
   * has already ended, so `http.DefaultClient.Do` fails before sending.
   */
  predicate TieFails(deadline: nat, pollOnTie: bool)
  {
    pollOnTie && deadline > 0 && deadline % PollInterval == 0
  }

  /** The error `Do` returns for a request whose context has already ended. */
  const DeadlineExceeded: Error := Error(PollToken, TransportFailed("context deadline exceeded"))

  /** The loop can be at its top after `polls` polls: none yet, or the last one was strictly before the deadline. */
  predicate InBudget(polls: nat, deadline: nat)
  {
    polls == 0 || polls * PollInterval < deadline
  }

  /** A reply that decoded to a null token: the user has not approved yet. */
  predicate IsNull(o: PollReply)
  {
    o.Delivered? && o.reply.body.Decoded? && o.reply.body.value.authToken.None?
  }

  /** The token a reply carries, if it decoded to a non-null one. */
  function TokenOf(o: PollReply): Option<Bytes>
  {
    if o.Delivered? && o.reply.body.Decoded? then o.reply.body.value.authToken else None
  }

  /**
   * One trip round the loop from `Pending(polls)`. A tick on the deadline
   * issues a request that cannot be delivered; any earlier tick gets the
   * server's reply `respond(polls)`.
   */
  function Step(polls: nat, deadline: nat, pollOnTie: bool, respond: nat -> PollReply): PollState
  {
    if !TickFires(polls + 1, deadline, pollOnTie) then Expired(polls)
    else if (polls + 1) * PollInterval == deadline then Failed(DeadlineExceeded, polls + 1)
    else
      var got: Result<TokenBody, Error> := Receive(PollToken, respond(polls));
      match got
      case Failure(e) => Failed(e, polls + 1)
      case Success(TokenBody(None)) => Pending(polls + 1)
      case Success(TokenBody(Some(token))) => Fulfilled(token, polls + 1)
  }

  /**
   * Runs the loop from `Pending(polls)` to the end. It stops at the first
   * non-null token or the first failed poll, and otherwise polls until no
   * further tick can fire.
   */
  function Run(polls: nat, deadline: nat, pollOnTie: bool, respond: nat -> PollReply): (r: PollState)
    requires InBudget(polls, deadline)
    ensures !r.Pending?
    ensures polls <= r.polls <= MaxPolls(deadline, pollOnTie)
    decreases deadline - polls * PollInterval
  {
    match Step(polls, deadline, pollOnTie, respond)
    case Pending(next) => Run(next, deadline, pollOnTie, respond)
    case done => done
  }

  /**
   * How a run ends: every poll before the last came back null; a token is
   * the one the last reply carried, strictly before the deadline; a failure
   * is the tick on the deadline or the `Receive` error of a last reply that
   * was not answered; a timeout comes only after every tick the budget
   * allows, all null, and never when the last tick ties and fails.
   */
  lemma {:induction false} RunOutcome(polls: nat, deadline: nat, pollOnTie: bool, respond: nat -> PollReply)
    requires InBudget(polls, deadline)
    ensures var r := Run(polls, deadline, pollOnTie, respond);
            && (r.Expired? ==>
                  r.polls == MaxPolls(deadline, pollOnTie) && !TieFails(deadline, pollOnTie) &&
                  forall i :: polls <= i < r.polls ==> IsNull(respond(i)))
            && (r.Fulfilled? ==>
                  polls < r.polls && r.polls * PollInterval < deadline &&
                  TokenOf(respond(r.polls - 1)) == Some(r.token) &&
                  forall i :: polls <= i < r.polls - 1 ==> IsNull(respond(i)))
            && (r.Failed? ==>
                  polls < r.polls &&
                  (forall i :: polls <= i < r.polls - 1 ==> IsNull(respond(i))) &&
                  if r.polls * PollInterval == deadline then pollOnTie && r.error == DeadlineExceeded
                  else !Answered(respond(r.polls - 1)) && Receive(PollToken, respond(r.polls - 1)) == Failure(r.error))
    decreases deadline - polls * PollInterval
  {
    var s := Step(polls, deadline, pollOnTie, respond);
    if s.Pending? {
      RunOutcome(polls + 1, deadline, pollOnTie, respond);
    }
  }

  /** Go's `(token, error)` return for a finished loop. */
  function Outcome(s: PollState): Returned<Bytes>
  {
    match s
    case Fulfilled(token, _) => Returned(token, None)
    case Failed(e, _) => Returned([], Some(e))
    case Expired(_) => Returned([], Some(Error(PollToken, ContextExceeded)))
    case Pending(_) => Returned([], None)
  }

  /**
   * `PollForAuthToken`: a token comes back only from a reply, strictly
   * before the deadline, that carried it after a run of null replies; every
   * error is the loop's own; and a timeout means every poll that reached
   * the server came back null and the last tick did not fail on the deadline.
   */
  function PollForAuthToken(caller: Option<nat>, pollOnTie: bool, respond: nat -> PollReply): (r: Returned<Bytes>)
    ensures r.err.None? ==>
              exists n :: 0 <= n < MaxPolls(EffectiveDeadline(caller), false) &&
                TokenOf(respond(n)) == Some(r.value) &&
                forall i :: 0 <= i < n ==> IsNull(respond(i))
    ensures r.err.Some? ==> r.value == [] && r.err.value.op == PollToken
    ensures r.err == Some(Error(PollToken, ContextExceeded)) ==>
              !TieFails(EffectiveDeadline(caller), pollOnTie) &&
              forall i :: 0 <= i < MaxPolls(EffectiveDeadline(caller), false) ==> IsNull(respond(i))
  {
    var d := EffectiveDeadline(caller);
    var s := Run(0, d, pollOnTie, respond);
    RunOutcome(0, d, pollOnTie, respond);
    assert s.Fulfilled? ==> TokenOf(respond(s.polls - 1)) == Some(s.token) && s.polls <= MaxPolls(d, false);
    assert s.Expired? ==> MaxPolls(d, false) == s.polls;
    Outcome(s)
  }

  // ---------------------------------------------------------------------
  // Properties of whole runs

  /**
   * When every poll that reaches the server comes back null, the run ends
   * at its last tick: a timeout, or the failed request if that tick lands
   * on the deadline and wins the `select`.
   */
  lemma AllNullEnds(polls: nat, deadline: nat, pollOnTie: bool, respond: nat -> PollReply)
    requires InBudget(polls, deadline)
    requires forall i :: polls <= i < MaxPolls(deadline, false) ==> IsNull(respond(i))
    ensures Run(polls, deadline, pollOnTie, respond) ==
            if TieFails(deadline, pollOnTie) then Failed(DeadlineExceeded, MaxPolls(deadline, pollOnTie))
            else Expired(MaxPolls(deadline, pollOnTie))
  {
    RunOutcome(polls, deadline, pollOnTie, respond);
  }

  /**
   * A caller whose budget runs out before anyone approves the PIN gets an
   * error and no token: the "exceeded context" error, or the failed
   * request when the last tick lands on the deadline and the timer wins.
   */
  lemma NeverApprovedTimesOut(caller: Option<nat>, pollOnTie: bool, respond: nat -> PollReply)
    requires forall i :: IsNull(respond(i))
    ensures PollForAuthToken(caller, pollOnTie, respond) ==
            if TieFails(EffectiveDeadline(caller), pollOnTie) then Returned([], Some(DeadlineExceeded))
            else Returned([], Some(Error(PollToken, ContextExceeded)))
  {
    AllNullEnds(0, EffectiveDeadline(caller), pollOnTie, respond);
  }

  /** The first non-null token that reaches the caller's loop before the deadline is the one returned. */
  lemma FirstTokenReturned(caller: Option<nat>, pollOnTie: bool, respond: nat -> PollReply, n: nat, t: Bytes)
    requires n < MaxPolls(EffectiveDeadline(caller), false)
    requires TokenOf(respond(n)) == Some(t)
    requires forall i :: 0 <= i < n ==> IsNull(respond(i))
    ensures PollForAuthToken(caller, pollOnTie, respond) == Returned(t, None)
  {
    var d := EffectiveDeadline(caller);
    RunOutcome(0, d, pollOnTie, respond);
    assert (n + 1) * PollInterval < d;
  }

  /**
   * The first poll, before the deadline, whose request fails or whose body
   * does not decode ends the loop with that poll's error.
   */
  lemma FirstFailureReturned(caller: Option<nat>, pollOnTie: bool, respond: nat -> PollReply, n: nat)
    requires n < MaxPolls(EffectiveDeadline(caller), false)
    requires !Answered(respond(n))
    requires forall i :: 0 <= i < n ==> IsNull(respond(i))
    ensures PollForAuthToken(caller, pollOnTie, respond) ==
            Returned([], Some(Receive(PollToken, respond(n)).error))
  {
    var d := EffectiveDeadline(caller);
    RunOutcome(0, d, pollOnTie, respond);
    assert (n + 1) * PollInterval < d;
  }

  /**
   * The loop polls at most once per second of the effective budget: never
   * more than 1800 times, and never more than the caller's seconds.
   */
  lemma PollCountBound(caller: Option<nat>, pollOnTie: bool, respond: nat -> PollReply)
    ensures var n := Run(0, EffectiveDeadline(caller), pollOnTie, respond).polls;
            n <= PinLifetime / PollInterval &&
            (caller.Some? ==> n <= caller.value / PollInterval)
  {
    var d := EffectiveDeadline(caller);
    var n := Run(0, d, pollOnTie, respond).polls;
    assert n * PollInterval <= d;
  }

  /**
   * A run that times out ends inside the wait after its last poll: the
   * next tick would not have beaten the deadline.
   */
  lemma ExpiryWithinOneTick(deadline: nat, pollOnTie: bool, respond: nat -> PollReply)
    ensures var r := Run(0, deadline, pollOnTie, respond);
            r.Expired? ==> r.polls * PollInterval <= deadline <= (r.polls + 1) * PollInterval
  {
    RunOutcome(0, deadline, pollOnTie, respond);
  }

  /** A step reads only the reply to the poll it issues. */
  lemma StepReadsOnlyItsPoll(polls: nat, deadline: nat, pollOnTie: bool, r1: nat -> PollReply, r2: nat -> PollReply)
    requires r1(polls) == r2(polls)
    ensures Step(polls, deadline, pollOnTie, r1) == Step(polls, deadline, pollOnTie, r2)
  {
  }

  /**
   * Replies after the last poll are never asked for: two servers that
   * agree on the polls a run issued produce the same run.
   */
  lemma {:induction false} RunReadsOnlyIssuedPolls(polls: nat, deadline: nat, pollOnTie: bool, r1: nat -> PollReply, r2: nat -> PollReply)
    requires InBudget(polls, deadline)
    requires forall i :: polls <= i < Run(polls, deadline, pollOnTie, r1).polls ==> r1(i) == r2(i)
    ensures Run(polls, deadline, pollOnTie, r2) == Run(polls, deadline, pollOnTie, r1)
    decreases deadline - polls * PollInterval
  {
    var s1 := Step(polls, deadline, pollOnTie, r1);
    if TickFires(polls + 1, deadline, pollOnTie) && (polls + 1) * PollInterval != deadline {
      StepReadsOnlyItsPoll(polls, deadline, pollOnTie, r1, r2);
      if s1.Pending? {
        RunReadsOnlyIssuedPolls(polls + 1, deadline, pollOnTie, r1, r2);
      }
    }
  }

  /** The token from the fourth poll, after three null replies, ends the loop. */
  lemma FourthPollApproves()
    ensures var respond := (i: nat) =>
              if i < 3 then Delivered(Reply(200, Decoded(TokenBody(None))))
              else Delivered(Reply(200, Decoded(TokenBody(Some("tok-1")))));
            Run(0, EffectiveDeadline(None), false, respond) == Fulfilled("tok-1", 4)
  {
    var respond := (i: nat) =>
      if i < 3 then Delivered(Reply(200, Decoded(TokenBody(None))))
      else Delivered(Reply(200, Decoded(TokenBody(Some("tok-1")))));
    var d := EffectiveDeadline(None);
    assert Run(3, d, false, respond) == Fulfilled("tok-1", 4);
    assert Run(2, d, false, respond) == Run(3, d, false, respond);
    assert Run(1, d, false, respond) == Run(2, d, false, respond);
    assert Run(0, d, false, respond) == Run(1, d, false, respond);
  }

  /** A first reply whose body does not decode ends the loop at once with that error. */
  lemma FirstPollMalformed(respond: nat -> PollReply, caller: Option<nat>, pollOnTie: bool)
    requires respond(0) == Delivered(Reply(500, Malformed("invalid character '<'")))
    requires caller.None? || caller.value > PollInterval
    ensures Run(0, EffectiveDeadline(caller), pollOnTie, respond) ==
            Failed(Error(PollToken, BodyMalformed("invalid character '<'")), 1)
  {
  }

  /**
   * With a two-second budget and no approval, the loop polls once and times
   * out when the deadline wins the tie at two seconds; when the timer wins,
   * the second request goes out on the ended context and fails.
   */
  lemma TwoSecondBudget(respond: nat -> PollReply)
    requires forall i :: IsNull(respond(i))
    ensures Run(0, 2000, true, respond) == Failed(DeadlineExceeded, 2)
    ensures Run(0, 2000, false, respond) == Expired(1)
  {
    AllNullEnds(0, 2000, true, respond);
    AllNullEnds(0, 2000, false, respond);
  }
}
