/**
  The command layer over a transport (tpm.go): `execute` frames a command, sends
  it, and resends it a bounded number of times while the TPM answers RC_RETRY.
  A transport is any state and any step function over it; a reply stream and the
  reference TPM of this project are two instances.
 */
module Transport {
  import opened Wire
  import opened Bits

  const TAG_NO_SESSIONS: U16 := 0x8001
  const TAG_SESSIONS: U16 := 0x8002
  const RC_SUCCESS: U32 := 0
  const RC_RETRY: U32 := 0x922
  const RETRY_LIMIT := 6
  const RETRY_BACKOFF_MS := 2

  /** One exchange: the next transport state, and the response or a transport error. */
  type Step<!S> = (S, Bytes) -> (S, Result<Bytes>)

  class Transport<!S> {
    const step: Step<S>
    var state: S
    /** Every command buffer sent, and the milliseconds waited between them. */
    var sent: seq<Bytes>
    var slept: nat

    constructor (step: Step<S>, state: S)
      ensures this.step == step && this.state == state && sent == [] && slept == 0
    {
      this.step := step;
      this.state := state;
      sent := [];
      slept := 0;
    }

    method Send(cmd: Bytes) returns (r: Result<Bytes>)
      modifies this`state, this`sent
      ensures state == step(old(state), cmd).0 && r == step(old(state), cmd).1
      ensures sent == old(sent) + [cmd]
    {
      var (next, rsp) := step(state, cmd);
      state := next;
      sent := sent + [cmd];
      r := rsp;
    }

    method Sleep(ms: nat)
      modifies this`slept
      ensures slept == old(slept) + ms
    {
      slept := slept + ms;
    }
  }

  // ---------------------------------------------------------------------
  // What the replies decide
  // ---------------------------------------------------------------------

  predicate IsRetry(reply: Result<Bytes>) {
    reply.Ok? && ParseFrame(reply.value).Ok? && ParseFrame(reply.value).value.1 == RC_RETRY
  }

  /** The result a caller sees when this reply is the last one. */
  function Outcome(cc: U32, reply: Result<Bytes>): Result<Bytes> {
    var rsp :- reply;
    var (_, rc, rp) :- ParseFrame(rsp);
    if rc == RC_SUCCESS then Ok(rp) else Err(TpmError(cc, rc))
  }

  /** The transport after sending cmd k times. */
  function After<S>(step: Step<S>, s: S, cmd: Bytes, k: nat): S {
    if k == 0 then s else step(After(step, s, cmd, k - 1), cmd).0
  }

  /** Reply number k (from 0) to sending cmd over and over. */
  function ReplyAt<S>(step: Step<S>, s: S, cmd: Bytes, k: nat): Result<Bytes> {
    step(After(step, s, cmd, k), cmd).1
  }

  /** How often cmd has been sent when execute stops, given `attempt` retries so far. */
  function Attempts<S>(step: Step<S>, s: S, cmd: Bytes, attempt: nat): (n: nat)
    requires attempt <= RETRY_LIMIT
    ensures attempt < n <= RETRY_LIMIT + 1
    decreases RETRY_LIMIT - attempt
  {
    if IsRetry(ReplyAt(step, s, cmd, attempt)) && attempt < RETRY_LIMIT then Attempts(step, s, cmd, attempt + 1)
    else attempt + 1
  }

  /** n sends is where execute stops: only retries before, and no retry or no budget at the end. */
  ghost predicate StopsAfter<S>(step: Step<S>, s: S, cmd: Bytes, n: nat) {
    && 1 <= n <= RETRY_LIMIT + 1
    && (forall j: nat :: j < n - 1 ==> IsRetry(ReplyAt(step, s, cmd, j)))
    && (n <= RETRY_LIMIT ==> !IsRetry(ReplyAt(step, s, cmd, n - 1)))
  }

  lemma {:induction false} AttemptsStops<S>(step: Step<S>, s: S, cmd: Bytes, attempt: nat)
    requires attempt <= RETRY_LIMIT
    requires forall j: nat :: j < attempt ==> IsRetry(ReplyAt(step, s, cmd, j))
    ensures StopsAfter(step, s, cmd, Attempts(step, s, cmd, attempt))
    decreases RETRY_LIMIT - attempt
  {
    if IsRetry(ReplyAt(step, s, cmd, attempt)) && attempt < RETRY_LIMIT {
      AttemptsStops(step, s, cmd, attempt + 1);
    }
  }

  /**
    Over any transport, execute sends the command between 1 and 7 times, and that
    number is decided by the first reply that is not RC_RETRY, or is 7.
   */
  lemma AttemptsDecided<S>(step: Step<S>, s: S, cmd: Bytes, n: nat)
    ensures StopsAfter(step, s, cmd, n) <==> n == Attempts(step, s, cmd, 0)
  {
    AttemptsStops(step, s, cmd, 0);
    if StopsAfter(step, s, cmd, n) {
      StopsOnce(step, s, cmd, n, Attempts(step, s, cmd, 0));
      StopsOnce(step, s, cmd, Attempts(step, s, cmd, 0), n);
    }
  }

  lemma StopsOnce<S>(step: Step<S>, s: S, cmd: Bytes, n: nat, m: nat)
    requires StopsAfter(step, s, cmd, n) && StopsAfter(step, s, cmd, m)
    ensures m <= n
  {
    var last := ReplyAt(step, s, cmd, n - 1);
  }

  /** A reply that is not RC_RETRY is never followed by a resend. */
  lemma FirstReplyDecides<S>(step: Step<S>, s: S, cmd: Bytes)
    requires !IsRetry(ReplyAt(step, s, cmd, 0))
    ensures Attempts(step, s, cmd, 0) == 1
  {
  }

  /**
    The same in octets and numbers: at most seven sends, the first n - 1 answered by
    response code 00 00 09 22 and, unless n is 7, the last one not.
   */
  lemma SevenSendsAtMost<S>(step: Step<S>, s: S, cmd: Bytes, n: nat)
    ensures n == Attempts(step, s, cmd, 0) <==>
              && 1 <= n <= 7
              && (forall j: nat :: j < n - 1 ==> SaysRetry(ReplyAt(step, s, cmd, j)))
              && (n < 7 ==> !SaysRetry(ReplyAt(step, s, cmd, n - 1)))
  {
    AttemptsDecided(step, s, cmd, n);
    hide Attempts, IsRetry, SaysRetry, ReplyAt;
    forall r
      ensures IsRetry(r) == SaysRetry(r)
    {
      RetryOctets(r);
    }
  }

  predicate SaysRetry(reply: Result<Bytes>) {
    reply.Ok? && |reply.value| >= 10 && reply.value[6..10] == [0x00, 0x00, 0x09, 0x22]
  }

  lemma RetryOctets(reply: Result<Bytes>)
    ensures IsRetry(reply) == SaysRetry(reply)
  {
    if reply.Ok? && |reply.value| >= 10 {
      BE32Write(reply.value, 6);
      BE32Octets(RC_RETRY, 0x00, 0x00, 0x09, 0x22);
      hide BE32, U32At;
      if BE32(U32At(reply.value, 6)) == BE32(RC_RETRY) {
        BE32Injective(U32At(reply.value, 6), RC_RETRY);
      }
    }
  }

  /** What the caller gets from the deciding reply: the octets behind the header on code 0, else the code. */
  lemma OutcomeOctets(cc: U32, rsp: Bytes)
    ensures Outcome(cc, Ok(rsp))
            == if |rsp| < 10 then Err(ShortBuffer)
               else if rsp[6..10] == [0, 0, 0, 0] then Ok(rsp[10..])
               else Err(TpmError(cc, U32At(rsp, 6)))
  {
    if |rsp| >= 10 {
      BE32Write(rsp, 6);
      BE32Octets(0, 0, 0, 0, 0);
      hide BE32, U32At;
      if BE32(U32At(rsp, 6)) == BE32(0) {
        BE32Injective(U32At(rsp, 6), 0);
      }
    }
  }

  function Copies(cmd: Bytes, n: nat): (l: seq<Bytes>)
    ensures |l| == n && forall i :: 0 <= i < n ==> l[i] == cmd
  {
    seq(n, _ => cmd)
  }

  /** Total backoff after k retries, in milliseconds. */
  function Backoff(k: nat): nat {
    RETRY_BACKOFF_MS * (Pow2(k) - 1)
  }

  lemma BackoffNext(k: nat)
    ensures Backoff(0) == 0
    ensures Backoff(k) + RETRY_BACKOFF_MS * Pow2(k) == Backoff(k + 1)
  {
  }

  /** The whole series of waits is at most 126 ms. */
  lemma BackoffBounded(k: nat)
    requires k <= RETRY_LIMIT
    ensures Backoff(k) <= 126
  {
    Pow2Le(k, RETRY_LIMIT);
    assert Pow2(RETRY_LIMIT) == 64;
  }

  /** The waits after each number of retries execute allows, in milliseconds. */
  lemma BackoffTable()
    ensures [Backoff(0), Backoff(1), Backoff(2), Backoff(3), Backoff(4), Backoff(5), Backoff(6)] == [0, 2, 6, 14, 30, 62, 126]
  {
    BackoffNext(1);
    BackoffNext(2);
    BackoffNext(3);
    BackoffNext(4);
    BackoffNext(5);
  }

  /** execute as a function of the transport: its next state and its result. */
  function Issue<S>(step: Step<S>, s: S, tag: U16, cc: U32, params: Bytes): (S, Result<Bytes>) {
    var cmd := Frame(tag, cc, params);
    var n := Attempts(step, s, cmd, 0);
    (After(step, s, cmd, n), Outcome(cc, ReplyAt(step, s, cmd, n - 1)))
  }
}
