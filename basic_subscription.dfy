/**
 * A subscription of one rule to its Kafka topics (lib/basic_subscription.go): a two-state
 * lifecycle (subscribed or not) holding the reader, its cancel function and an optional
 * rate limiter, and the consume loop that hands each fetched message to the rule's
 * executor and then commits it.
 */
module Subscription {
  import opened Wrappers
  import opened Strings
  import Brokers

  /** The parts of utils.RuleConfig the subscription reads or writes. */
  datatype RuleConfig = RuleConfig(name: string, topics: seq<string>, taskType: string,
                                   rateLimit: int, rateInterval: int)

  /** SubscriptionConfig: the broker list and the consumer group prefix. */
  datatype SubscriptionConfig = SubscriptionConfig(brokerList: string, groupIdPrefix: string)

  datatype StartOffset = FirstOffset | LastOffset

  /** A token bucket: `count` events per `intervalMs` milliseconds, bursts of `burst`. */
  datatype Limiter = Limiter(count: int, intervalMs: int, burst: int)

  /** Milliseconds a rate interval of 0 stands for. */
  const DefaultRateIntervalMs: int := 1000

  /** A Kafka consumer-group reader; only its configuration and its closing are observed. */
  class Reader {
    const brokers: seq<string>
    const groupId: string
    const groupTopics: seq<string>
    const startOffset: StartOffset
    var closeCalls: nat

    constructor (brokers: seq<string>, groupId: string, groupTopics: seq<string>, startOffset: StartOffset)
      ensures this.brokers == brokers && this.groupId == groupId
      ensures this.groupTopics == groupTopics && this.startOffset == startOffset
      ensures closeCalls == 0
    {
      this.brokers := brokers;
      this.groupId := groupId;
      this.groupTopics := groupTopics;
      this.startOffset := startOffset;
      closeCalls := 0;
    }

    /** `Close`: a failure is only logged. */
    method Close()
      modifies this
      ensures closeCalls == old(closeCalls) + 1
    {
      closeCalls := closeCalls + 1;
    }
  }

  /** The context.CancelFunc of the consume loop; only its calls are observed. */
  class CancelFunc {
    var calls: nat

    constructor ()
      ensures calls == 0
    {
      calls := 0;
    }

    method Call()
      modifies this
      ensures calls == old(calls) + 1
    {
      calls := calls + 1;
    }
  }

  // ---------------------------------------------------------------------------
  // The consume loop over given outcomes
  // ---------------------------------------------------------------------------

  datatype KafkaMessage = KafkaMessage(partition: int, offset: int, value: string)

  /** How a blocking call ends: normally, or with an error that may be a cancellation. */
  datatype CallOutcome = Done | Failed(cancelled: bool)

  /**
   * One turn of the loop. `wait` is what the limiter's Wait returns (not consulted without a
   * limiter), `exec` the executor's result, `commit` what CommitMessages returns.
   */
  datatype FetchOutcome =
    | FetchFailed(cancelled: bool)
    | Fetched(msg: KafkaMessage, wait: CallOutcome, exec: Option<string>, commit: CallOutcome)

  /** What the loop does with a message. */
  datatype TraceEntry = Dispatched(m: KafkaMessage) | CommitAttempted(m: KafkaMessage)

  /** The message of this turn passes the limiter (trivially, without one). */
  predicate Passes(step: FetchOutcome, limited: bool)
  {
    step.Fetched? && (!limited || step.wait.Done?)
  }

  /** This turn ends the loop: a cancellation at fetch, at the limiter's wait or at commit. */
  predicate EndsLoop(step: FetchOutcome, limited: bool)
  {
    match step
    case FetchFailed(cancelled) => cancelled
    case Fetched(_, wait, _, commit) =>
      if limited && wait.Failed? then wait.cancelled else commit.Failed? && commit.cancelled
  }

  /**
   * The reference behaviour of `consume`: a message that passes the limiter is dispatched
   * and then has its commit attempted; other errors skip the turn; a cancellation ends it.
   */
  function Run(steps: seq<FetchOutcome>, limited: bool): seq<TraceEntry>
  {
    if steps == [] then []
    else
      var step := steps[0];
      Turn(step, limited) + (if EndsLoop(step, limited) then [] else Run(steps[1..], limited))
  }

  /** What one turn adds to the trace. */
  function Turn(step: FetchOutcome, limited: bool): seq<TraceEntry>
  {
    if Passes(step, limited) then [Dispatched(step.msg), CommitAttempted(step.msg)] else []
  }

  lemma RunFrom(steps: seq<FetchOutcome>, limited: bool, i: nat)
    requires i < |steps|
    ensures Run(steps[i..], limited)
         == Turn(steps[i], limited) + (if EndsLoop(steps[i], limited) then [] else Run(steps[i + 1..], limited))
  {
    assert steps[i..][1..] == steps[i + 1..];
  }

  /** A trace that has followed the run up to turn `i` goes on following it after that turn. */
  lemma RunStep(steps: seq<FetchOutcome>, limited: bool, i: nat, trace: seq<TraceEntry>)
    requires i < |steps|
    ensures EndsLoop(steps[i], limited) ==> trace + Turn(steps[i], limited) == trace + Run(steps[i..], limited)
    ensures !EndsLoop(steps[i], limited) ==>
              (trace + Turn(steps[i], limited)) + Run(steps[i + 1..], limited) == trace + Run(steps[i..], limited)
  {
    RunFrom(steps, limited, i);
    var t := Turn(steps[i], limited);
    if EndsLoop(steps[i], limited) {
      assert t + [] == t;
    } else {
      var r := Run(steps[i + 1..], limited);
      assert (trace + t) + r == trace + (t + r);
    }
  }

  /** A run of (dispatch, commit) pairs, each pair for one message. */
  predicate Paired(t: seq<TraceEntry>)
    decreases |t|
  {
    t == [] || (|t| >= 2 && t[0].Dispatched? && t[1] == CommitAttempted(t[0].m) && Paired(t[2..]))
  }

  /** Every message dispatched has its commit attempted right after, before anything else. */
  lemma {:induction false} RunPairs(steps: seq<FetchOutcome>, limited: bool)
    ensures Paired(Run(steps, limited))
  {
    if steps != [] {
      var tail := if EndsLoop(steps[0], limited) then [] else Run(steps[1..], limited);
      if !EndsLoop(steps[0], limited) {
        RunPairs(steps[1..], limited);
      }
      var t := Turn(steps[0], limited) + tail;
      if Passes(steps[0], limited) {
        assert t[2..] == tail;
      } else {
        assert t == tail;
      }
    }
  }

  /** Two outcome lists that differ at most in what the executor returned. */
  predicate SameButExecutor(a: seq<FetchOutcome>, b: seq<FetchOutcome>)
  {
    |a| == |b|
    && forall i :: 0 <= i < |a| ==>
         if a[i].Fetched? then b[i].Fetched? && a[i].(exec := b[i].exec) == b[i] else a[i] == b[i]
  }

  /** At-most-once: what is dispatched and committed does not depend on the executor's results. */
  lemma {:induction false} RunIgnoresExecutor(a: seq<FetchOutcome>, b: seq<FetchOutcome>, limited: bool)
    requires SameButExecutor(a, b)
    ensures Run(a, limited) == Run(b, limited)
  {
    if a != [] {
      assert SameButExecutor(a[1..], b[1..]) by {
        forall i | 0 <= i < |a[1..]| ensures
          if a[1..][i].Fetched? then b[1..][i].Fetched? && a[1..][i].(exec := b[1..][i].exec) == b[1..][i]
          else a[1..][i] == b[1..][i]
        {
          assert a[1..][i] == a[i + 1] && b[1..][i] == b[i + 1];
        }
      }
      RunIgnoresExecutor(a[1..], b[1..], limited);
      assert Passes(a[0], limited) == Passes(b[0], limited);
    }
  }

  /** Nothing after a turn that ends the loop makes a difference. */
  lemma {:induction false} CancellationEndsRun(steps: seq<FetchOutcome>, limited: bool, i: nat)
    requires i < |steps| && EndsLoop(steps[i], limited)
    ensures Run(steps, limited) == Run(steps[..i + 1], limited)
  {
    if i > 0 {
      CancellationEndsRun(steps[1..], limited, i - 1);
      assert steps[1..][..i] == steps[..i + 1][1..];
    }
  }

  /** The messages of the turns that fetched one, in fetch order. */
  function FetchedMessages(steps: seq<FetchOutcome>): seq<KafkaMessage>
  {
    if steps == [] then []
    else (if steps[0].Fetched? then [steps[0].msg] else []) + FetchedMessages(steps[1..])
  }

  /** The messages whose commit was attempted, in order. */
  function Commits(t: seq<TraceEntry>): seq<KafkaMessage>
  {
    if t == [] then []
    else (if t[0].CommitAttempted? then [t[0].m] else []) + Commits(t[1..])
  }

  lemma {:induction false} CommitsAppend(a: seq<TraceEntry>, b: seq<TraceEntry>)
    ensures Commits(a + b) == Commits(a) + Commits(b)
  {
    if a != [] {
      assert (a + b)[1..] == a[1..] + b;
      CommitsAppend(a[1..], b);
    } else {
      assert a + b == b;
    }
  }

  /** `a` is `b` with some elements left out, the rest in the same order. */
  predicate Subsequence(a: seq<KafkaMessage>, b: seq<KafkaMessage>)
    decreases |b|
  {
    if a == [] then true
    else if b == [] then false
    else (a[0] == b[0] && Subsequence(a[1..], b[1..])) || Subsequence(a, b[1..])
  }

  lemma {:induction false} SubsequenceOfTail(a: seq<KafkaMessage>, b: seq<KafkaMessage>, x: KafkaMessage)
    requires Subsequence(a, b)
    ensures Subsequence(a, [x] + b)
  {
    assert ([x] + b)[1..] == b;
  }

  /** Commits are attempted in fetch order, each for a fetched message, none twice. */
  lemma {:induction false} CommitsInFetchOrder(steps: seq<FetchOutcome>, limited: bool)
    ensures Subsequence(Commits(Run(steps, limited)), FetchedMessages(steps))
    decreases |steps|
  {
    if steps != [] {
      var step := steps[0];
      var tail := if EndsLoop(step, limited) then [] else Run(steps[1..], limited);
      var here := Turn(step, limited);
      CommitsAppend(here, tail);
      assert Run(steps, limited) == here + tail;
      var rest := FetchedMessages(steps[1..]);
      assert Subsequence(Commits(tail), rest) by {
        if EndsLoop(step, limited) {
          assert Commits(tail) == [];
        } else {
          CommitsInFetchOrder(steps[1..], limited);
        }
      }
      if Passes(step, limited) {
        assert Commits(here) == [step.msg] by {
          assert here[1..] == [CommitAttempted(step.msg)];
          assert here[1..][1..] == [];
        }
        assert FetchedMessages(steps) == [step.msg] + rest;
        assert ([step.msg] + Commits(tail))[1..] == Commits(tail);
        assert ([step.msg] + rest)[1..] == rest;
      } else {
        assert Commits(here) == [];
        assert here + tail == tail;
        if step.Fetched? {
          SubsequenceOfTail(Commits(tail), rest, step.msg);
        } else {
          assert FetchedMessages(steps) == rest;
        }
      }
    }
  }

  /**
   * At-most-once, the other way round: a message that passes the limiter before any turn
   * has ended the loop is dispatched and has its commit attempted.
   */
  lemma {:induction false} PassingCommitted(steps: seq<FetchOutcome>, limited: bool, i: nat)
    requires i < |steps| && Passes(steps[i], limited)
    requires forall j :: 0 <= j < i ==> !EndsLoop(steps[j], limited)
    ensures Dispatched(steps[i].msg) in Run(steps, limited)
    ensures CommitAttempted(steps[i].msg) in Run(steps, limited)
  {
    var here := Turn(steps[0], limited);
    var tail := if EndsLoop(steps[0], limited) then [] else Run(steps[1..], limited);
    assert Run(steps, limited) == here + tail;
    if i == 0 {
      assert here == [Dispatched(steps[0].msg), CommitAttempted(steps[0].msg)];
    } else {
      assert !EndsLoop(steps[0], limited);
      assert steps[1..][i - 1] == steps[i];
      PassingCommitted(steps[1..], limited, i - 1);
    }
  }

  /** The number of turns the loop runs: up to and including the first that ends it. */
  function TurnsRun(steps: seq<FetchOutcome>, limited: bool): (n: nat)
    ensures n <= |steps|
    ensures forall j :: 0 <= j < n - 1 ==> !EndsLoop(steps[j], limited)
    ensures n < |steps| ==> n > 0 && EndsLoop(steps[n - 1], limited)
  {
    if steps == [] then 0
    else if EndsLoop(steps[0], limited) then 1
    else
      var n := 1 + TurnsRun(steps[1..], limited);
      assert forall j :: 1 <= j < n - 1 ==> steps[j] == steps[1..][j - 1];
      n
  }

  /** The messages of the turns that pass the limiter, in fetch order. */
  function PassingMessages(steps: seq<FetchOutcome>, limited: bool): seq<KafkaMessage>
  {
    if steps == [] then []
    else (if Passes(steps[0], limited) then [steps[0].msg] else []) + PassingMessages(steps[1..], limited)
  }

  /** The messages dispatched, in order. */
  function Dispatches(t: seq<TraceEntry>): seq<KafkaMessage>
  {
    if t == [] then []
    else (if t[0].Dispatched? then [t[0].m] else []) + Dispatches(t[1..])
  }

  lemma {:induction false} DispatchesAppend(a: seq<TraceEntry>, b: seq<TraceEntry>)
    ensures Dispatches(a + b) == Dispatches(a) + Dispatches(b)
  {
    if a != [] {
      assert (a + b)[1..] == a[1..] + b;
      DispatchesAppend(a[1..], b);
    } else {
      assert a + b == b;
    }
  }

  /**
   * Exactly the messages that pass the limiter while the loop runs are dispatched and
   * exactly they have their commits attempted, in fetch order: a failed handler causes no
   * redelivery and no lost commit.
   */
  lemma {:induction false} CommitsArePassing(steps: seq<FetchOutcome>, limited: bool)
    ensures Dispatches(Run(steps, limited)) == PassingMessages(steps[..TurnsRun(steps, limited)], limited)
    ensures Commits(Run(steps, limited)) == PassingMessages(steps[..TurnsRun(steps, limited)], limited)
  {
    if steps != [] {
      var step := steps[0];
      var here := Turn(step, limited);
      var tail := if EndsLoop(step, limited) then [] else Run(steps[1..], limited);
      assert Run(steps, limited) == here + tail;
      CommitsAppend(here, tail);
      DispatchesAppend(here, tail);
      var mine := if Passes(step, limited) then [step.msg] else [];
      assert Commits(here) == mine && Dispatches(here) == mine by {
        if Passes(step, limited) {
          assert here[1..] == [CommitAttempted(step.msg)];
          assert here[1..][1..] == [];
        }
      }
      var n := TurnsRun(steps, limited);
      var ran := steps[..n];
      assert ran[0] == step;
      assert PassingMessages(ran, limited) == mine + PassingMessages(ran[1..], limited);
      if EndsLoop(step, limited) {
        assert ran[1..] == [];
        assert Commits(tail) == [] && Dispatches(tail) == [];
      } else {
        CommitsArePassing(steps[1..], limited);
        assert ran[1..] == steps[1..][..TurnsRun(steps[1..], limited)];
      }
    }
  }

  /** A dispatched message came from a turn whose message passed the limiter. */
  lemma {:induction false} DispatchedPassedLimiter(steps: seq<FetchOutcome>, limited: bool, m: KafkaMessage)
    requires Dispatched(m) in Run(steps, limited)
    ensures exists i :: 0 <= i < |steps| && Passes(steps[i], limited) && steps[i].msg == m
  {
    var step := steps[0];
    var here := Turn(step, limited);
    var tail := if EndsLoop(step, limited) then [] else Run(steps[1..], limited);
    assert Run(steps, limited) == here + tail;
    if Dispatched(m) !in here {
      assert Dispatched(m) in tail;
      DispatchedPassedLimiter(steps[1..], limited, m);
      var i :| 0 <= i < |steps[1..]| && Passes(steps[1..][i], limited) && steps[1..][i].msg == m;
      assert steps[i + 1] == steps[1..][i];
    }
  }

  // ---------------------------------------------------------------------------
  // The subscription
  // ---------------------------------------------------------------------------

  class BasicSubscription {
    const config: SubscriptionConfig
    var rule: RuleConfig
    var reader: Reader?
    var subscribed: bool
    var cancel: CancelFunc?
    var limiter: Option<Limiter>

    /**
     * Subscribed exactly when a reader and a cancel function are held; a limiter exists only
     * for a positive rate limit, with a non-zero interval and a burst of the limit.
     */
    ghost predicate Valid()
      reads this
    {
      && (subscribed ==> reader != null && cancel != null)
      && (!subscribed ==> reader == null && cancel == null)
      && (limiter.Some? ==>
            rule.rateLimit > 0 && rule.rateInterval != 0
            && limiter.value == Limiter(rule.rateLimit, rule.rateInterval, rule.rateLimit))
    }

    /** A subscription that has not subscribed yet. */
    constructor (config: SubscriptionConfig, rule: RuleConfig)
      ensures this.config == config && this.rule == rule
      ensures !subscribed && reader == null && cancel == null && limiter == None
      ensures Valid()
    {
      this.config := config;
      this.rule := rule;
      reader := null;
      subscribed := false;
      cancel := null;
      limiter := None;
    }

    /**
     * `Subscribe`: nothing changes when already subscribed. Otherwise a fresh reader of the
     * rule's topics in group `prefix + name` from the first offset, and a fresh cancel
     * function; with a positive rate limit, an interval of 0 is stored back as 1000 ms and
     * a limiter with a burst of the limit is created. It always returns nil.
     */
    method Subscribe() returns (err: Option<string>)
      requires Valid()
      modifies this
      ensures Valid() && err == None
      ensures old(subscribed) ==>
                rule == old(rule) && reader == old(reader) && subscribed
                && cancel == old(cancel) && limiter == old(limiter)
      ensures !old(subscribed) ==>
                && subscribed && fresh(reader) && fresh(cancel)
                && reader.brokers == Brokers.CleanParts(Split(config.brokerList, ','))
                && reader.groupId == config.groupIdPrefix + old(rule).name
                && reader.groupTopics == old(rule).topics
                && reader.startOffset == FirstOffset
                && reader.closeCalls == 0 && cancel.calls == 0
      ensures !old(subscribed) && old(rule).rateLimit > 0 ==>
                && rule == old(rule).(rateInterval := if old(rule).rateInterval == 0 then DefaultRateIntervalMs
                                                      else old(rule).rateInterval)
                && limiter == Some(Limiter(rule.rateLimit, rule.rateInterval, rule.rateLimit))
      ensures !old(subscribed) && old(rule).rateLimit <= 0 ==> rule == old(rule) && limiter == None
    {
      if subscribed {
        return None;
      }
      var topics := rule.topics;
      var brokers := Brokers.SplitBrokers(config.brokerList);
      reader := new Reader(brokers, config.groupIdPrefix + rule.name, topics, FirstOffset);
      subscribed := true;
      if rule.rateLimit > 0 {
        if rule.rateInterval == 0 {
          rule := rule.(rateInterval := DefaultRateIntervalMs);
        }
        limiter := Some(Limiter(rule.rateLimit, rule.rateInterval, rule.rateLimit));
      }
      cancel := new CancelFunc();
      return None;
    }

    /**
     * `Unsubscribe`: nothing happens when not subscribed. Otherwise the loop's context is
     * cancelled once and the reader closed once, and both are dropped.
     */
    method Unsubscribe()
      requires Valid()
      modifies this, reader, cancel
      ensures Valid()
      ensures rule == old(rule) && limiter == old(limiter) && !subscribed
      ensures !old(subscribed) ==> reader == null && cancel == null
      ensures old(subscribed) ==>
                && reader == null && cancel == null
                && old(cancel).calls == old(cancel.calls) + 1
                && old(reader).closeCalls == old(reader.closeCalls) + 1
    {
      if !subscribed {
        return;
      }
      subscribed := false;
      if cancel != null {
        cancel.Call();
        cancel := null;
      }
      if reader != null {
        reader.Close();
        reader := null;
      }
    }

    /**
     * One pass of the `consume` loop body: `stop` when the loop returns. The executor's
     * result (`handleMessage`'s error) is not consulted.
     */
    static method ConsumeTurn(step: FetchOutcome, limited: bool, trace: seq<TraceEntry>)
      returns (trace': seq<TraceEntry>, stop: bool)
      ensures trace' == trace + Turn(step, limited)
      ensures stop == EndsLoop(step, limited)
    {
      trace' := trace;
      match step
      case FetchFailed(cancelled) =>
        stop := cancelled;
      case Fetched(msg, wait, exec, commit) =>
        if limited && wait.Failed? {
          stop := wait.cancelled;
        } else {
          trace' := trace' + [Dispatched(msg)];
          trace' := trace' + [CommitAttempted(msg)];
          stop := commit.Failed? && commit.cancelled;
        }
    }

    /** `consume` over the given turns, up to the first cancellation or the end of the turns. */
    method Consume(steps: seq<FetchOutcome>) returns (trace: seq<TraceEntry>)
      ensures trace == Run(steps, limiter.Some?)
    {
      var limited := limiter.Some?;
      trace := [];
      var i := 0;
      assert steps[0..] == steps;
      while i < |steps|
        invariant 0 <= i <= |steps|
        invariant trace + Run(steps[i..], limited) == Run(steps, limited)
      {
        RunStep(steps, limited, i, trace);
        var stop;
        trace, stop := ConsumeTurn(steps[i], limited, trace);
        if stop {
          return;
        }
        i := i + 1;
      }
      assert steps[|steps|..] == [];
    }
  }
}
