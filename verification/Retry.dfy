/** Exponential timeouts and backoff, the request retry loops, and their cost under the batched pull. */
module Retry {
  import opened Prelude
  import opened StoreModel
  import opened LocalStores
  import opened SyncPull

  /** A `Duration` in nanoseconds: u64 seconds and less than a second more. */
  const DURATION_MAX := U64_RANGE * 1_000_000_000 - 1
  const U32_MAX := 0xFFFF_FFFF
  const U32_RANGE := 0x1_0000_0000
  const SECOND := 1_000_000_000
  const MILLISECOND := 1_000_000

  type Nanos = x: int | 0 <= x <= DURATION_MAX

  /** `1u32.checked_shl(attempt as u32).unwrap_or(u32::MAX)`; the cast drops the high half. */
  function Factor(attempt: nat): nat {
    var a := attempt % U32_RANGE;
    if a < 32 then Pow2(a) else U32_MAX
  }

  function ExpDuration(base: Nanos, attempt: nat, cap: Option<Nanos>): (d: Nanos)
    ensures cap.Some? ==> d <= cap.value
  {
    var got: Nanos := if base * Factor(attempt) <= DURATION_MAX then base * Factor(attempt) else base;
    if cap.Some? && got > cap.value then cap.value else got
  }

  lemma FactorPositive(attempt: nat)
    ensures Factor(attempt) >= 1
  {
    Pow2Positive(attempt % U32_RANGE);
  }

  lemma ScaledAtLeast(base: nat, f: nat)
    requires f >= 1
    ensures base * f >= base
  {
  }

  /** With the cap at least the base, every timeout is between the two, whatever the attempt and even on overflow. */
  lemma TimeoutInRange(base: Nanos, attempt: nat, cap: Nanos)
    requires base <= cap
    ensures base <= ExpDuration(base, attempt, Some(cap)) <= cap
  {
    FactorPositive(attempt);
    ScaledAtLeast(base, Factor(attempt));
  }

  lemma {:induction false} Pow2Monotone(a: nat, b: nat)
    requires a <= b
    ensures Pow2(a) <= Pow2(b)
  {
    if a < b {
      Pow2Monotone(a, b - 1);
    }
  }

  lemma MulMonotone(a: nat, x: nat, y: nat)
    requires x <= y
    ensures a * x <= a * y
  {
  }

  /**
   Every case: the factor is 2^a for the first 32 attempts and 2^32 - 1 for all later ones before the
   cast wraps; a product that is no duration leaves the base; the cap cuts last.
   */
  lemma ExpCases(base: Nanos, a: nat, cap: Nanos)
    requires a < U32_RANGE
    ensures var f: nat := if a < 32 then Pow2(a) else 4_294_967_295;
            var d := if base * f <= 18_446_744_073_709_551_616_000_000_000 - 1 then base * f else base;
            ExpDuration(base, a, None) == d && ExpDuration(base, a, Some(cap)) == Min(d, cap)
  {
    FactorCases(a);
    hide Pow2, Factor;
    assert DURATION_MAX == 18_446_744_073_709_551_616_000_000_000 - 1;
  }

  lemma FactorCases(a: nat)
    requires a < U32_RANGE
    ensures Factor(a) == if a < 32 then Pow2(a) else 4_294_967_295
  {
    hide Pow2;
  }

  lemma ExpExact(base: Nanos, a: nat, cap: Nanos)
    requires a < 32 && base * Pow2(a) <= DURATION_MAX
    ensures ExpDuration(base, a, Some(cap)) == Min(base * Pow2(a), cap)
    ensures ExpDuration(base, a, None) == base * Pow2(a)
  {
    hide Pow2;
    assert Factor(a) == Pow2(a);
  }

  lemma Pow2ThirtyOne()
    ensures Pow2(31) == 0x8000_0000
  {
    assert Pow2(8) == 0x100;
    assert Pow2(16) == 0x1_0000;
    assert Pow2(24) == 0x100_0000;
  }

  /** The factor grows with the attempt number as the cast to u32 leaves it. */
  lemma FactorGrows(a: nat, b: nat)
    requires a % U32_RANGE <= b % U32_RANGE
    ensures Factor(a) <= Factor(b)
  {
    hide Pow2;
    var x, y := a % U32_RANGE, b % U32_RANGE;
    if x < 32 {
      Pow2Monotone(x, if y < 32 then y else 31);
      Pow2ThirtyOne();
    }
  }

  /** As long as nothing overflows, a timeout is its factor times the base, cut at the cap, and never shrinks. */
  lemma TimeoutsGrow(base: Nanos, a: nat, b: nat, cap: Nanos)
    requires a <= b < U32_RANGE && base * Factor(b) <= DURATION_MAX
    ensures ExpDuration(base, b, Some(cap)) == Min(base * Factor(b), cap)
    ensures ExpDuration(base, a, Some(cap)) <= ExpDuration(base, b, Some(cap))
  {
    hide Factor;
    FactorGrows(a, b);
    MulMonotone(base, Factor(a), Factor(b));
  }

  /**
   Exactly when attempt `b`, no smaller than `a` after the cast to u32, has the shorter timeout: its
   multiplication overflows and falls back to the base, while that of `a` does not and stands above
   the base.
   */
  lemma TimeoutShrinksIff(base: Nanos, a: nat, b: nat, cap: Nanos)
    requires base <= cap && a % U32_RANGE <= b % U32_RANGE
    ensures ExpDuration(base, b, Some(cap)) < ExpDuration(base, a, Some(cap))
       <==> && base * Factor(b) > DURATION_MAX
            && base * Factor(a) <= DURATION_MAX
            && base < Min(base * Factor(a), cap)
  {
    hide Factor;
    FactorGrows(a, b);
    MulMonotone(base, Factor(a), Factor(b));
  }

  /** A policy the command line can ask for, whose third timeout is shorter than its second. */
  lemma TimeoutCanShrink() returns (policy: Policy)
    ensures ResolvePolicy(None, Some(6_148_914_691_236_517_205), Some(U64_RANGE - 1), None) == Ok(policy)
    ensures ExpDuration(policy.timeoutBase, 2, Some(policy.timeoutCap))
          < ExpDuration(policy.timeoutBase, 1, Some(policy.timeoutCap))
  {
    policy := ResolvePolicy(None, Some(6_148_914_691_236_517_205), Some(U64_RANGE - 1), None).value;
    assert Factor(1) == 2 && Factor(2) == 4 by {
      assert Pow2(1) == 2 && Pow2(2) == 4;
    }
  }

  /** From attempt 2^32 on the cast starts over and the timeouts repeat. */
  lemma TimeoutsRepeat(base: Nanos, attempt: nat, cap: Option<Nanos>)
    ensures ExpDuration(base, attempt, cap) == ExpDuration(base, attempt % U32_RANGE, cap)
  {
  }

  /**
   The other way to a shorter timeout, without any overflow: attempt `b`, possibly far later than
   `a`, is smaller after the cast. It is then shorter exactly when `a` does not overflow and the
   scaled base of `b` is below the timeout of `a`.
   */
  lemma WrappedTimeoutShrinksIff(base: Nanos, a: nat, b: nat, cap: Nanos)
    requires base <= cap && b % U32_RANGE < a % U32_RANGE
    ensures ExpDuration(base, b, Some(cap)) < ExpDuration(base, a, Some(cap))
       <==> base * Factor(a) <= DURATION_MAX && base * Factor(b) < Min(base * Factor(a), cap)
  {
    hide Factor;
    FactorGrows(b, a);
    FactorPositive(b);
    ScaledAtLeast(base, Factor(b));
    MulMonotone(base, Factor(b), Factor(a));
  }

  /** Attempt 2^32 after attempt 1, with a base of one nanosecond. */
  lemma TimeoutWraps()
    ensures ExpDuration(1, U32_RANGE, Some(SECOND)) == 1 < 2 == ExpDuration(1, 1, Some(SECOND))
  {
    assert Factor(U32_RANGE) == 1 && Factor(1) == 2 by {
      assert Pow2(0) == 1 && Pow2(1) == 2;
    }
  }

  /** The time slept after the first `n` failed attempts. */
  function Slept(backoff: Nanos, n: nat): nat {
    if n == 0 then 0 else Slept(backoff, n - 1) + ExpDuration(backoff, n - 1, None)
  }

  lemma DoubleStep(backoff: nat, p: nat)
    requires p >= 1
    ensures (p - 1) * backoff + backoff * p == (2 * p - 1) * backoff
  {
  }

  /** `n` pauses (at most 32, none overflowing) last exactly 2^n - 1 times the base. */
  lemma {:induction false} SleptExactly(backoff: Nanos, n: nat)
    requires n <= 32 && (n > 0 ==> backoff * Pow2(n - 1) <= DURATION_MAX)
    ensures Slept(backoff, n) == (Pow2(n) - 1) * backoff
  {
    hide ExpDuration;
    if n > 0 {
      if n > 1 {
        MulMonotone(backoff, Pow2(n - 2), Pow2(n - 1));
      }
      SleptExactly(backoff, n - 1);
      ExpExact(backoff, n - 1, 0);
      Pow2Positive(n - 1);
      DoubleStep(backoff, Pow2(n - 1));
    }
  }

  // ---------- Policy ----------

  datatype Policy = Policy(attempts: U64, timeoutBase: Nanos, timeoutCap: Nanos, backoffBase: Nanos)

  /** Each argument is the value given on the command line, else in the environment, else in the file. */
  function ResolvePolicy(attempts: Option<U64>, baseSec: Option<U64>, capSec: Option<U64>, backoffMs: Option<U64>)
    : (r: Result<Policy, string>)
    ensures r.Err? <==> attempts == Some(0)
    ensures r.Ok? ==> r.value.attempts >= 1 && r.value.timeoutBase <= r.value.timeoutCap
  {
    if attempts == Some(0) then Err("attempts must be >= 1") else
      var base: Nanos := if baseSec.Some? then baseSec.value * SECOND else 5 * SECOND;
      var cap: Nanos := if capSec.Some? then capSec.value * SECOND else 30 * SECOND;
      Ok(Policy(
        if attempts.Some? then attempts.value else 3,
        base,
        if cap < base then base else cap,
        if backoffMs.Some? then backoffMs.value * MILLISECOND else 200 * MILLISECOND))
  }

  /** What is given is used, in its own unit; what is not given is 3 attempts, 5 s, 30 s and 200 ms. */
  lemma ResolvePolicyExact(attempts: Option<U64>, baseSec: Option<U64>, capSec: Option<U64>, backoffMs: Option<U64>)
    requires attempts != Some(0)
    ensures var r := ResolvePolicy(attempts, baseSec, capSec, backoffMs);
            && r.Ok?
            && (attempts.Some? ==> r.value.attempts == attempts.value)
            && (attempts.None? ==> r.value.attempts == 3)
            && (baseSec.Some? ==> r.value.timeoutBase == baseSec.value * 1_000_000_000)
            && (baseSec.None? ==> r.value.timeoutBase == 5_000_000_000)
            && (capSec.Some? ==> r.value.timeoutCap == Max(capSec.value * 1_000_000_000, r.value.timeoutBase))
            && (capSec.None? ==> r.value.timeoutCap == Max(30_000_000_000, r.value.timeoutBase))
            && (backoffMs.Some? ==> r.value.backoffBase == backoffMs.value * 1_000_000)
            && (backoffMs.None? ==> r.value.backoffBase == 200_000_000)
  {
  }

  // ---------- The retry loop ----------

  datatype Reply<T, E> = Good(value: T) | Bad(error: E, retryable: bool)

  predicate Decisive<T, E>(r: Reply<T, E>) {
    r.Good? || !r.retryable
  }

  /** The attempt whose reply the loop returns: the first decisive one, else the last. */
  function LastAttempt<T, E>(attempts: nat, reply: nat -> Reply<T, E>, i: nat): nat
    requires i < attempts
    decreases attempts - i
  {
    if Decisive(reply(i)) || i + 1 >= attempts then i else LastAttempt(attempts, reply, i + 1)
  }

  lemma {:induction false} LastAttemptExact<T, E>(attempts: nat, reply: nat -> Reply<T, E>, i: nat)
    requires i < attempts
    ensures var k := LastAttempt(attempts, reply, i);
            && i <= k < attempts
            && (forall j :: i <= j < k ==> !Decisive(reply(j)))
            && (Decisive(reply(k)) || k == attempts - 1)
    decreases attempts - i
  {
    if !Decisive(reply(i)) && i + 1 < attempts {
      LastAttemptExact(attempts, reply, i + 1);
    }
  }

  /**
   Both peer-to-peer loops (pull and push): attempt `i` runs under the `i`-th timeout, and a failed
   attempt is retried after a pause unless it is not retryable or was the last. With no attempts at
   all the result is an error without a cause.
   */
  method RequestWithRetries<T, E>(policy: Policy, request: (nat, Nanos) -> Reply<T, E>)
    returns (r: Result<T, Option<E>>, ghost timeouts: seq<Nanos>, slept: nat)
    ensures policy.attempts == 0 ==> r == Err(None) && slept == 0
    ensures policy.attempts == 0 ==> timeouts == []
    ensures policy.attempts > 0 ==>
              var reply := (i: nat) => request(i, ExpDuration(policy.timeoutBase, i, Some(policy.timeoutCap)));
              var k := LastAttempt(policy.attempts, reply, 0);
              && (r.Ok? <==> reply(k).Good?)
              && (r.Ok? ==> r.value == reply(k).value)
              && (r.Err? ==> r.error == Some(reply(k).error))
              && slept == Slept(policy.backoffBase, k)
    ensures policy.attempts > 0 ==>
              var reply := (i: nat) => request(i, ExpDuration(policy.timeoutBase, i, Some(policy.timeoutCap)));
              |timeouts| == LastAttempt(policy.attempts, reply, 0) + 1
    ensures forall i :: 0 <= i < |timeouts| ==>
              timeouts[i] == ExpDuration(policy.timeoutBase, i, Some(policy.timeoutCap))
  {
    ghost var reply := (i: nat) => request(i, ExpDuration(policy.timeoutBase, i, Some(policy.timeoutCap)));
    timeouts, slept := [], 0;
    var attempt := 0;
    while attempt < policy.attempts
      invariant 0 <= attempt <= policy.attempts
      invariant attempt < policy.attempts ==>
                  LastAttempt(policy.attempts, reply, 0) == LastAttempt(policy.attempts, reply, attempt)
      invariant attempt == policy.attempts ==> attempt == 0
      invariant |timeouts| == attempt && slept == Slept(policy.backoffBase, attempt)
      invariant forall i :: 0 <= i < |timeouts| ==>
                  timeouts[i] == ExpDuration(policy.timeoutBase, i, Some(policy.timeoutCap))
    {
      var timeout := ExpDuration(policy.timeoutBase, attempt, Some(policy.timeoutCap));
      timeouts := timeouts + [timeout];
      var got := request(attempt, timeout);
      match got
      case Good(v) => return Ok(v), timeouts, slept;
      case Bad(err, retryable) =>
        if !retryable || attempt + 1 >= policy.attempts {
          return Err(Some(err)), timeouts, slept;
        }
        slept := slept + ExpDuration(policy.backoffBase, attempt, None);
        attempt := attempt + 1;
    }
    r := Err(None);
  }

  // ---------- HTTP ----------

  datatype HttpError = TransportError | Status(code: nat)

  predicate HttpRetryable(e: HttpError) {
    e.TransportError? || e.code == 408 || e.code == 429 || 500 <= e.code <= 599
  }

  datatype HttpPolicy = HttpPolicy(
    attempts: U64, connectBase: Nanos, connectCap: Nanos, readBase: Nanos, readCap: Nanos, backoffBase: Nanos)

  /** The reply to attempt `i`, with that attempt's connect and read timeouts. */
  function HttpReply<T>(policy: HttpPolicy, call: (nat, Nanos, Nanos) -> Result<T, HttpError>, i: nat)
    : Reply<T, HttpError>
  {
    var connect := ExpDuration(policy.connectBase, i, Some(policy.connectCap));
    var read := ExpDuration(policy.readBase, i, Some(policy.readCap));
    match call(i, connect, read)
    case Ok(v) => Good(v)
    case Err(e) => Bad(e, HttpRetryable(e))
  }

  /** Worth another attempt: no answer at all, a timeout, too many requests, and the server's own errors. */
  lemma HttpRetryableExact(code: nat)
    ensures HttpRetryable(TransportError)
    ensures HttpRetryable(Status(code)) <==> code == 408 || code == 429 || (500 <= code && code <= 599)
    ensures !HttpRetryable(Status(413))
  {
  }

  /** The first timeout of a call is for connecting, the second for reading, both of the same attempt. */
  lemma HttpReplyExact<T>(policy: HttpPolicy, call: (nat, Nanos, Nanos) -> Result<T, HttpError>, i: nat,
                          connect: Nanos, read: Nanos)
    requires connect == ExpDuration(policy.connectBase, i, Some(policy.connectCap))
    requires read == ExpDuration(policy.readBase, i, Some(policy.readCap))
    ensures call(i, connect, read).Ok? ==> HttpReply(policy, call, i) == Good(call(i, connect, read).value)
    ensures call(i, connect, read).Err? ==>
              var e := call(i, connect, read).error;
              HttpReply(policy, call, i) == Bad(e, HttpRetryable(e))
  {
    hide ExpDuration;
  }

  /** The HTTP loop always makes at least one attempt, so it always returns some attempt's reply. */
  method HttpRequestWithRetry<T>(policy: HttpPolicy, call: (nat, Nanos, Nanos) -> Result<T, HttpError>)
    returns (r: Result<T, HttpError>, ghost calls: nat, slept: nat)
    ensures var reply := (i: nat) => HttpReply(policy, call, i);
            var k := LastAttempt(Max(policy.attempts, 1), reply, 0);
            && (r.Ok? <==> reply(k).Good?)
            && (r.Ok? ==> r.value == reply(k).value)
            && (r.Err? ==> r.error == reply(k).error)
            && slept == Slept(policy.backoffBase, k)
    ensures calls == LastAttempt(Max(policy.attempts, 1), (i: nat) => HttpReply(policy, call, i), 0) + 1
    ensures calls <= Max(policy.attempts, 1)
  {
    ghost var reply := (i: nat) => HttpReply(policy, call, i);
    var attempts: nat := Max(policy.attempts, 1);
    LastAttemptExact(attempts, reply, 0);
    calls, slept := 0, 0;
    var attempt := 0;
    while true
      invariant attempt < attempts
      invariant LastAttempt(attempts, reply, 0) == LastAttempt(attempts, reply, attempt)
      invariant calls == attempt && slept == Slept(policy.backoffBase, attempt)
      decreases attempts - attempt
    {
      var connect := ExpDuration(policy.connectBase, attempt, Some(policy.connectCap));
      var read := ExpDuration(policy.readBase, attempt, Some(policy.readCap));
      calls := calls + 1;
      r := call(attempt, connect, read);
      if r.Ok? || !HttpRetryable(r.error) || attempt + 1 >= attempts {
        return;
      }
      slept := slept + ExpDuration(policy.backoffBase, attempt, None);
      attempt := attempt + 1;
    }
  }

  // ---------- The retry loop under the batched pull ----------

  /** Why a pull request failed; only the last kind is worth the same request again. */
  datatype PullFault = Oversize | Refused | Transient

  predicate FaultRetryable(f: PullFault) {
    f.Transient?
  }

  /** What the network answers to attempt `j` of pull call `i`, sent with this timeout, cursor and limit. */
  type Wire = (nat, nat, Nanos, int, U64) -> Result<PullBatch, PullFault>

  function Classified(r: Result<PullBatch, PullFault>): Reply<PullBatch, PullFault> {
    match r
    case Ok(b) => Good(b)
    case Err(f) => Bad(f, FaultRetryable(f))
  }

  /** One request of one pull call. */
  function Sent(wire: Wire, i: nat, c: int, l: U64): (nat, Nanos) -> Reply<PullBatch, PullFault> {
    (j: nat, timeout: Nanos) => Classified(wire(i, j, timeout, c, l))
  }

  /** The replies to the attempts of one pull call, each under its own timeout. */
  function WireReply(policy: Policy, wire: Wire, i: nat, c: int, l: U64): nat -> Reply<PullBatch, PullFault> {
    (j: nat) => Sent(wire, i, c, l)(j, ExpDuration(policy.timeoutBase, j, Some(policy.timeoutCap)))
  }

  lemma WireReplyIs(policy: Policy, wire: Wire, i: nat, c: int, l: U64, j: nat)
    ensures WireReply(policy, wire, i, c, l)(j)
         == Classified(wire(i, j, ExpDuration(policy.timeoutBase, j, Some(policy.timeoutCap)), c, l))
  {
    hide ExpDuration, Classified;
    var timeout := ExpDuration(policy.timeoutBase, j, Some(policy.timeoutCap));
    var sent := Sent(wire, i, c, l);
    assert sent(j, timeout) == Classified(wire(i, j, timeout, c, l));
    assert WireReply(policy, wire, i, c, l)(j) == sent(j, timeout);
  }

  /** One pull call as the pull loop sees it, after the retries below it. */
  function Retried(policy: Policy, wire: Wire, i: nat, c: int, l: U64): PullOutcome {
    if policy.attempts == 0 then Failed else
      var reply := WireReply(policy, wire, i, c, l);
      match reply(LastAttempt(policy.attempts, reply, 0))
      case Good(b) => Answer(b)
      case Bad(f, _) => if f.Oversize? then TooLarge else Failed
  }

  /** Requests sent for one pull call. */
  function Requests(policy: Policy, wire: Wire, i: nat, c: int, l: U64): nat {
    if policy.attempts == 0 then 0 else LastAttempt(policy.attempts, WireReply(policy, wire, i, c, l), 0) + 1
  }

  lemma {:induction false} LastAttemptSame<T, E>(attempts: nat, reply: nat -> Reply<T, E>,
                                                 reply': nat -> Reply<T, E>, i: nat)
    requires i < attempts && forall j :: i <= j < attempts ==> reply(j) == reply'(j)
    ensures LastAttempt(attempts, reply, i) == LastAttempt(attempts, reply', i)
    ensures i <= LastAttempt(attempts, reply, i) < attempts
    decreases attempts - i
  {
    if !Decisive(reply(i)) && i + 1 < attempts {
      LastAttemptSame(attempts, reply, reply', i + 1);
    }
  }

  /**
   The answer of a pull call is that of its deciding attempt `k`: every attempt before it failed
   transiently, and it delivered a batch, was too large, or failed for good or for the last time.
   */
  lemma RetriedExact(policy: Policy, wire: Wire, i: nat, c: int, l: U64) returns (k: nat)
    requires policy.attempts > 0
    ensures k < policy.attempts && Requests(policy, wire, i, c, l) == k + 1
    ensures forall j :: 0 <= j < k ==>
              wire(i, j, ExpDuration(policy.timeoutBase, j, Some(policy.timeoutCap)), c, l) == Err(Transient)
    ensures var answer := wire(i, k, ExpDuration(policy.timeoutBase, k, Some(policy.timeoutCap)), c, l);
            && (answer == Err(Transient) ==> k == policy.attempts - 1)
            && Retried(policy, wire, i, c, l) == (match answer
                                                  case Ok(b) => Answer(b)
                                                  case Err(Oversize) => TooLarge
                                                  case Err(_) => Failed)
  {
    hide ExpDuration, WireReply;
    var reply := WireReply(policy, wire, i, c, l);
    LastAttemptExact(policy.attempts, reply, 0);
    k := LastAttempt(policy.attempts, reply, 0);
    WireReplyIs(policy, wire, i, c, l, k);
    forall j | 0 <= j < k
      ensures wire(i, j, ExpDuration(policy.timeoutBase, j, Some(policy.timeoutCap)), c, l) == Err(Transient)
    {
      WireReplyIs(policy, wire, i, c, l, j);
      assert !Decisive(reply(j));
    }
  }

  /** The pull request with its retries is what the pull loop is given, in answer and in number of requests. */
  method PullBatchWithRetries(policy: Policy, wire: Wire, i: nat, c: int, l: U64)
    returns (outcome: PullOutcome, ghost requests: nat)
    ensures outcome == Retried(policy, wire, i, c, l)
    ensures requests == Requests(policy, wire, i, c, l)
  {
    var request := Sent(wire, i, c, l);
    var r, timeouts, slept := RequestWithRetries(policy, request);
    requests := |timeouts|;
    if policy.attempts > 0 {
      LastAttemptSame(
        policy.attempts, (k: nat) => request(k, ExpDuration(policy.timeoutBase, k, Some(policy.timeoutCap))),
        WireReply(policy, wire, i, c, l), 0);
    }
    match r
    case Ok(b) => outcome := Answer(b);
    case Err(fault) => outcome := if fault == Some(Oversize) then TooLarge else Failed;
  }

  function TotalRequests(policy: Policy, wire: Wire, calls: seq<(int, U64)>): nat {
    if calls == [] then 0 else
      var n := |calls| - 1;
      TotalRequests(policy, wire, calls[..n]) + Requests(policy, wire, n, calls[n].0, calls[n].1)
  }

  lemma {:induction false} TotalRequestsBound(policy: Policy, wire: Wire, calls: seq<(int, U64)>)
    ensures TotalRequests(policy, wire, calls) <= policy.attempts * |calls|
  {
    if calls != [] {
      var n := |calls| - 1;
      TotalRequestsBound(policy, wire, calls[..n]);
      if policy.attempts > 0 {
        LastAttemptExact(policy.attempts, WireReply(policy, wire, n, calls[n].0, calls[n].1), 0);
      }
      assert policy.attempts * |calls| == policy.attempts * n + policy.attempts;
    }
  }

  /** A too-large answer is never asked for again at the same limit: the loop above must shrink it. */
  lemma OversizeNotRetried(policy: Policy, wire: Wire, i: nat, c: int, l: U64, j: nat)
    requires j < policy.attempts
    requires wire(i, j, ExpDuration(policy.timeoutBase, j, Some(policy.timeoutCap)), c, l) == Err(Oversize)
    ensures Requests(policy, wire, i, c, l) <= j + 1
    ensures Requests(policy, wire, i, c, l) == j + 1 ==> Retried(policy, wire, i, c, l) == TooLarge
  {
    LastAttemptExact(policy.attempts, WireReply(policy, wire, i, c, l), 0);
    WireReplyIs(policy, wire, i, c, l, j);
  }

  /** Every batch the network delivers is what the peer holds. */
  ghost predicate WireGenuine(wire: Wire, peer: Store)
    requires Valid(peer)
  {
    forall i: nat, j: nat, t: Nanos, c: int, l: U64 ::
      wire(i, j, t, c, l).Ok? ==> wire(i, j, t, c, l).value == Serve(peer, c, l, None)
  }

  lemma RetriedGenuine(policy: Policy, wire: Wire, peer: Store, remote: Remote)
    requires Valid(peer) && WireGenuine(wire, peer)
    requires forall i: nat, c: int, l: U64 :: remote(i, c, l) == Retried(policy, wire, i, c, l)
    ensures ServedBy(remote, peer)
  {
    hide Serve, Valid;
    forall i: nat, c: int, l: U64 | remote(i, c, l).Answer?
      ensures remote(i, c, l).batch == Serve(peer, c, l, None)
    {
      assert remote(i, c, l) == Retried(policy, wire, i, c, l);
      var k := LastAttempt(policy.attempts, WireReply(policy, wire, i, c, l), 0);
      WireReplyIs(policy, wire, i, c, l, k);
    }
  }

  /** The whole pull over retries: the one-shot result, and at most `attempts` requests per pull call. */
  method SyncPullWithRetries(local: LocalStore, key: Key, limit: U64, policy: Policy, wire: Wire, ghost peer: Store)
    returns (r: Result<PullStats, SyncError>, ghost calls: seq<(int, U64)>)
    requires Valid(local.View()) && Valid(peer)
    modifies local`rows, local`counter, local`pullCursors
    ensures NothingLost(old(local.View()), local.View(), key)
    ensures WireGenuine(wire, peer) && r.Ok? && limit >= 1 ==> local.View() == PullAll(old(local.View()), key, peer)
    ensures WireGenuine(wire, peer) ==>
              TotalRequests(policy, wire, calls)
              <= policy.attempts * (|TailOf(old(local.View()), key, peer)| + 1 + Log2(limit))
  {
    hide Accounted, ServedBy, WireGenuine, PullAll, NothingLost, TailOf, WellFormed, TotalRequests;
    var remote: Remote := (i: nat, c: int, l: U64) => Retried(policy, wire, i, c, l);
    ghost var log, stored, saved;
    ghost var before := local.View();
    if WireGenuine(wire, peer) {
      RetriedGenuine(policy, wire, peer, remote);
    }
    r, calls, log, stored, saved := SyncPullFromPeer(local, key, limit, remote, peer);
    TotalRequestsBound(policy, wire, calls);
    if WireGenuine(wire, peer) {
      MulMonotone(policy.attempts, |calls|, |TailOf(before, key, peer)| + 1 + Log2(limit));
    }
  }
}
