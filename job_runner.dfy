/**
 * The job runner executor (lib/task/job_runner.go): it drops the configured fields from a
 * JSON job event, re-encodes it and POSTs it to the job endpoint, retrying with a doubling
 * wait until an attempt succeeds or the attempts run out.
 */
module JobRunner {
  import opened Wrappers

  /** Attempts and first wait (milliseconds) that `Execute` gives `retryExecute`. */
  const MaxAttempts: int := 4
  const InitialWaitMs: int := 1000

  /** What one POST to the endpoint meets: no usable reply, or a status with its body. */
  datatype Exchange = Failed(msg: string) | Replied(status: int, body: string)

  const FailurePrefix: string := "job runner execute failed, response: "

  /** `doExecute`: success exactly on a reply with a 2xx status; otherwise an error. */
  function DoExecute(x: Exchange): (err: Option<string>)
    ensures err == None <==> x.Replied? && 200 <= x.status < 300
    ensures x.Failed? ==> err == Some(x.msg)
    ensures x.Replied? && err.Some? ==> err.value == FailurePrefix + x.body
  {
    match x
    case Failed(msg) => Some(msg)
    case Replied(status, body) =>
      if status < 200 || status >= 300 then Some(FailurePrefix + body) else None
  }

  /** How a retried call ended: the error returned, the attempts made and the waits between them. */
  datatype RetryRun = RetryRun(err: Option<string>, attempts: nat, waits: seq<int>)

  /**
   * `retryExecute`: attempt number `k` meets `exchange(k)`. A failed attempt is retried with
   * twice the wait while attempts remain; the last error is returned.
   */
  function Retry(exchange: nat -> Exchange, k: nat, times: int, wait: int): (run: RetryRun)
    ensures 1 <= run.attempts && |run.waits| == run.attempts - 1
    ensures run.err.Some? ==> run.err == DoExecute(exchange(k + run.attempts - 1))
    decreases times
  {
    var e := DoExecute(exchange(k));
    if e.None? then RetryRun(None, 1, [])
    else if times - 1 > 0 then
      var rest := Retry(exchange, k + 1, times - 1, 2 * wait);
      RetryRun(rest.err, rest.attempts + 1, [wait] + rest.waits)
    else RetryRun(e, 1, [])
  }

  function Pow2(n: nat): (p: int)
    ensures p >= 1
  {
    if n == 0 then 1 else 2 * Pow2(n - 1)
  }

  function Max1(times: int): int
  {
    if times < 1 then 1 else times
  }

  /**
   * Attempts are at least one and at most `times` (one when `times` is not positive);
   * before attempt i + 1 the call waits `wait * 2^i`.
   */
  lemma {:induction false} RetryBounds(exchange: nat -> Exchange, k: nat, times: int, wait: int)
    ensures var run := Retry(exchange, k, times, wait);
            && 1 <= run.attempts <= Max1(times)
            && |run.waits| == run.attempts - 1
            && forall i :: 0 <= i < |run.waits| ==> run.waits[i] == wait * Pow2(i)
    decreases times
  {
    var e := DoExecute(exchange(k));
    if e.Some? && times - 1 > 0 {
      RetryBounds(exchange, k + 1, times - 1, 2 * wait);
      var rest := Retry(exchange, k + 1, times - 1, 2 * wait);
      var run := Retry(exchange, k, times, wait);
      forall i | 0 < i < |run.waits| ensures run.waits[i] == wait * Pow2(i) {
        assert run.waits[i] == rest.waits[i - 1];
      }
    }
  }

  /** Attempt number `n` fails. */
  predicate Fails(exchange: nat -> Exchange, n: nat)
  {
    DoExecute(exchange(n)).Some?
  }

  /**
   * Every attempt but the last failed, and the call returns exactly what the last attempt
   * returned: nil when it succeeded, its error otherwise. Attempts stop before `times` only
   * on a success.
   */
  lemma {:induction false} RetryOutcome(exchange: nat -> Exchange, k: nat, times: int, wait: int)
    ensures var run := Retry(exchange, k, times, wait);
            && run.attempts >= 1
            && (forall n: nat :: k <= n < k + run.attempts - 1 ==> Fails(exchange, n))
            && run.err == DoExecute(exchange(k + run.attempts - 1))
            && (run.err.Some? ==> run.attempts == Max1(times))
    decreases times
  {
    var e := DoExecute(exchange(k));
    if e.Some? && times - 1 > 0 {
      RetryOutcome(exchange, k + 1, times - 1, 2 * wait);
      var rest := Retry(exchange, k + 1, times - 1, 2 * wait);
      assert Fails(exchange, k);
      assert k + 1 + rest.attempts - 1 == k + (rest.attempts + 1) - 1;
    }
  }

  /** The call succeeds exactly when one of its first `times` attempts (at least one) succeeds. */
  lemma RetrySucceedsIffSomeAttemptDoes(exchange: nat -> Exchange, k: nat, times: int, wait: int)
    ensures Retry(exchange, k, times, wait).err == None
        <==> exists n: nat :: k <= n < k + Max1(times) && !Fails(exchange, n)
  {
    RetryOutcome(exchange, k, times, wait);
    RetryBounds(exchange, k, times, wait);
    var run := Retry(exchange, k, times, wait);
    if run.err == None {
      assert !Fails(exchange, k + run.attempts - 1);
    } else {
      assert Fails(exchange, k + run.attempts - 1);
    }
  }

  /**
   * When attempt `f` (counted from 0) is the first to succeed and lies within the budget,
   * exactly f + 1 attempts are made and nil is returned.
   */
  lemma RetryStopsAtFirstSuccess(exchange: nat -> Exchange, k: nat, times: int, wait: int, f: nat)
    requires f < Max1(times) && !Fails(exchange, k + f)
    requires forall n: nat :: k <= n < k + f ==> Fails(exchange, n)
    ensures Retry(exchange, k, times, wait).attempts == f + 1
    ensures Retry(exchange, k, times, wait).err == None
  {
    RetryOutcome(exchange, k, times, wait);
    RetryBounds(exchange, k, times, wait);
    var run := Retry(exchange, k, times, wait);
    var last: nat := k + run.attempts - 1;
    var first: nat := k + f;
    assert last < first ==> Fails(exchange, last);
    assert first < last ==> Fails(exchange, first);
  }

  /** With four attempts that all fail, the waits are one, two and four seconds. */
  lemma AllFourAttemptsFail(exchange: nat -> Exchange)
    requires forall n: nat :: n < 4 ==> Fails(exchange, n)
    ensures Retry(exchange, 0, MaxAttempts, InitialWaitMs)
         == RetryRun(DoExecute(exchange(3)), 4, [1000, 2000, 4000])
  {
    RetryBounds(exchange, 0, MaxAttempts, InitialWaitMs);
    RetryOutcome(exchange, 0, MaxAttempts, InitialWaitMs);
    var run := Retry(exchange, 0, MaxAttempts, InitialWaitMs);
    assert Fails(exchange, run.attempts - 1);
    assert run.attempts == 4;
    assert Pow2(2) == 4;
    assert run.waits[0] == 1000 * Pow2(0);
    assert run.waits[1] == 1000 * Pow2(1);
    assert run.waits[2] == 1000 * Pow2(2);
  }

  /** The delete loop over the excluded field names: those keys go, nothing else changes. */
  method ExcludeFields<V>(fields: map<string, V>, excludeFields: seq<string>) returns (m: map<string, V>)
    ensures m.Keys == fields.Keys - set f | f in excludeFields
    ensures forall k :: k in m ==> m[k] == fields[k]
  {
    m := fields;
    for i := 0 to |excludeFields|
      invariant m.Keys == fields.Keys - set f | f in excludeFields[..i]
      invariant forall k :: k in m ==> m[k] == fields[k]
    {
      m := m - {excludeFields[i]};
      assert excludeFields[..i + 1] == excludeFields[..i] + [excludeFields[i]];
    }
    assert excludeFields[..|excludeFields|] == excludeFields;
  }

  /** The attempts of one job: POST number k of `body` meets `exchange(body, k)`. */
  function AttemptsOf(exchange: (string, nat) -> Exchange, body: string): nat -> Exchange
  {
    (k: nat) => exchange(body, k)
  }

  /**
   * `JobRunnerExecutor.Execute`. `decoded` is the JSON object the message decodes to (or the
   * decoding error), `encode` json.Marshal. A message that does not decode or re-encode is
   * never sent; otherwise the reduced object is sent with four attempts from a one-second
   * wait, and the retried call's error is returned.
   */
  method Execute<V>(decoded: Result<map<string, V>>, excludeFields: seq<string>,
                    encode: map<string, V> -> Result<string>, exchange: (string, nat) -> Exchange)
    returns (err: Option<string>, forwarded: Option<map<string, V>>, attempts: nat)
    ensures decoded.Err? ==> err == Some(decoded.error) && forwarded == None && attempts == 0
    ensures decoded.Ok? ==>
              && forwarded.Some?
              && forwarded.value.Keys == decoded.value.Keys - set f | f in excludeFields
              && forall k :: k in forwarded.value ==> k in decoded.value && forwarded.value[k] == decoded.value[k]
    ensures decoded.Ok? && forwarded.Some? && encode(forwarded.value).Err? ==>
              err == Some(encode(forwarded.value).error) && attempts == 0
    ensures decoded.Ok? && forwarded.Some? && encode(forwarded.value).Ok? ==>
              var run := Retry(AttemptsOf(exchange, encode(forwarded.value).value), 0, MaxAttempts, InitialWaitMs);
              err == run.err && attempts == run.attempts && 1 <= attempts <= MaxAttempts
  {
    if decoded.Err? {
      return Some(decoded.error), None, 0;
    }
    var messageMap := ExcludeFields(decoded.value, excludeFields);
    forwarded := Some(messageMap);
    var rb := encode(messageMap);
    if rb.Err? {
      return Some(rb.error), forwarded, 0;
    }
    var run := Retry(AttemptsOf(exchange, rb.value), 0, MaxAttempts, InitialWaitMs);
    RetryBounds(AttemptsOf(exchange, rb.value), 0, MaxAttempts, InitialWaitMs);
    err := run.err;
    attempts := run.attempts;
  }
}
