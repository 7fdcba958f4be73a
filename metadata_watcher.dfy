/**
 * The metadata watcher (lib/metadata_watcher.go): it lists the topics of the Kafka cluster,
 * and on every tick notifies its listeners when a topic has appeared or when the listing
 * failed. Notification copies the listener list at the moment of the event; the copy is
 * recorded in `deliveries`, the asynchronous sends themselves are not modelled.
 */
module Watcher {
  import opened Wrappers
  import opened Strings

  /** A listener's channel; two channels are the same listener only when identical. */
  class EventChannel {
    constructor ()
    {
    }
  }

  /** MetadataWatcherEvent: new topic list, or a listing error. */
  datatype WatcherEvent = TopicsChanged(topics: seq<string>) | WatchError(err: string)

  /** One emitted event together with the listeners it was addressed to. */
  datatype Delivery = Delivery(listeners: seq<EventChannel>, event: WatcherEvent)

  /** What asking one broker for its partitions yields. */
  datatype BrokerReply = DialFailed(err: string) | ReadFailed(err: string) | Partitions(topics: seq<string>)

  const NoBrokersError: string := "no kafka brokers configured"
  const ConnectError: string := "failed to connect to kafka brokers"

  // ---------------------------------------------------------------------------
  // The topic listing (reference definition)
  // ---------------------------------------------------------------------------

  /** The distinct topics of a partition list, in increasing order. */
  function SortedTopics(partitionTopics: seq<string>): (r: seq<string>)
    ensures StrictlySorted(r)
    ensures forall t :: t in r <==> t in partitionTopics
  {
    if partitionTopics == [] then []
    else
      var init := partitionTopics[..|partitionTopics| - 1];
      var last := partitionTopics[|partitionTopics| - 1];
      var r := SortedTopics(init);
      assert partitionTopics == init + [last];
      if last in r then r else Insert(r, last)
  }

  /** Brokers are asked in order; the first that answers decides, otherwise the last error. */
  function FirstAnswer(brokers: seq<string>, reply: string -> BrokerReply, lastErr: Option<string>): Result<seq<string>>
  {
    if brokers == [] then Err(if lastErr.None? then ConnectError else lastErr.value)
    else
      match reply(brokers[0])
      case DialFailed(e) => FirstAnswer(brokers[1..], reply, Some(e))
      case ReadFailed(e) => FirstAnswer(brokers[1..], reply, Some(e))
      case Partitions(ts) => Ok(SortedTopics(ts))
  }

  /**
   * `GetTopics` as a function of the configured brokers and of what each one replies: an
   * error without brokers; otherwise a listing exactly when some broker answers, and then
   * strictly sorted.
   */
  function ListTopics(brokers: seq<string>, reply: string -> BrokerReply): (r: Result<seq<string>>)
    ensures brokers == [] ==> r == Err(NoBrokersError)
    ensures r.Ok? <==> exists i :: 0 <= i < |brokers| && reply(brokers[i]).Partitions?
    ensures r.Ok? ==> StrictlySorted(r.value)
  {
    FirstAnswerSource(brokers, reply, None);
    if |brokers| == 0 then Err(NoBrokersError) else FirstAnswer(brokers, reply, None)
  }

  /**
   * A listing that succeeds comes from the first broker that answered: every broker before
   * it failed, and the list is that broker's distinct topics in increasing order.
   */
  lemma {:induction false} FirstAnswerSource(brokers: seq<string>, reply: string -> BrokerReply, lastErr: Option<string>)
    ensures FirstAnswer(brokers, reply, lastErr).Ok? <==> exists i :: 0 <= i < |brokers| && reply(brokers[i]).Partitions?
    ensures FirstAnswer(brokers, reply, lastErr).Ok? ==>
              exists i :: 0 <= i < |brokers| && reply(brokers[i]).Partitions?
                          && (forall j :: 0 <= j < i ==> !reply(brokers[j]).Partitions?)
                          && FirstAnswer(brokers, reply, lastErr).value == SortedTopics(reply(brokers[i]).topics)
  {
    if brokers != [] && !reply(brokers[0]).Partitions? {
      var tail := brokers[1..];
      FirstAnswerSource(tail, reply, Some(reply(brokers[0]).err));
      if exists i :: 0 <= i < |brokers| && reply(brokers[i]).Partitions? {
        var i :| 0 <= i < |brokers| && reply(brokers[i]).Partitions?;
        assert tail[i - 1] == brokers[i];
      }
      if FirstAnswer(brokers, reply, lastErr).Ok? {
        var i :| 0 <= i < |tail| && reply(tail[i]).Partitions?
                 && (forall j :: 0 <= j < i ==> !reply(tail[j]).Partitions?)
                 && FirstAnswer(tail, reply, Some(reply(brokers[0]).err)).value == SortedTopics(reply(tail[i]).topics);
        assert brokers[i + 1] == tail[i];
        forall j | 0 <= j < i + 1 ensures !reply(brokers[j]).Partitions? {
          if j > 0 { assert brokers[j] == tail[j - 1]; }
        }
      }
    }
  }

  /** When every broker fails, the listing fails with the last broker's error. */
  lemma {:induction false} AllBrokersFail(brokers: seq<string>, reply: string -> BrokerReply)
    requires |brokers| > 0
    requires forall i :: 0 <= i < |brokers| ==> !reply(brokers[i]).Partitions?
    ensures ListTopics(brokers, reply) == Err(reply(brokers[|brokers| - 1]).err)
  {
    FailingTail(brokers, reply, None);
  }

  lemma {:induction false} FailingTail(brokers: seq<string>, reply: string -> BrokerReply, lastErr: Option<string>)
    requires |brokers| > 0
    requires forall i :: 0 <= i < |brokers| ==> !reply(brokers[i]).Partitions?
    ensures FirstAnswer(brokers, reply, lastErr) == Err(reply(brokers[|brokers| - 1]).err)
  {
    if |brokers| > 1 {
      var tail := brokers[1..];
      assert forall i :: 0 <= i < |tail| ==> tail[i] == brokers[i + 1];
      FailingTail(tail, reply, Some(reply(brokers[0]).err));
    }
  }

  // ---------------------------------------------------------------------------
  // Change detection
  // ---------------------------------------------------------------------------

  /** Some listed topic is not among the known ones. */
  predicate HasNewTopic(topics: seq<string>, known: seq<string>)
  {
    exists i :: 0 <= i < |topics| && topics[i] !in known
  }

  /** Topics that disappear, or a reordering, are not a change. */
  lemma RemovalIsNoChange(topics: seq<string>, known: seq<string>)
    requires forall t :: t in topics ==> t in known
    ensures !HasNewTopic(topics, known)
  {
    forall i | 0 <= i < |topics| ensures topics[i] in known {
      assert topics[i] in topics;
    }
  }

  /** The nested search of the tick: is some listed topic missing from the known ones? */
  method NewTopicAppeared(topics: seq<string>, known: seq<string>) returns (added: bool)
    ensures added <==> HasNewTopic(topics, known)
  {
    added := false;
    for i := 0 to |topics|
      invariant !added
      invariant forall k :: 0 <= k < i ==> topics[k] in known
    {
      var exist := false;
      for j := 0 to |known|
        invariant exist <==> topics[i] in known[..j]
      {
        if topics[i] == known[j] {
          exist := true;
          assert topics[i] in known[..j + 1];
          break;
        }
        assert known[..j + 1] == known[..j] + [known[j]];
      }
      assert known[..|known|] == known;
      if !exist {
        added := true;
        break;
      }
    }
  }

  // ---------------------------------------------------------------------------
  // Listener lists
  // ---------------------------------------------------------------------------

  /** The list without its first occurrence of `x`; unchanged when `x` is absent. */
  function RemoveFirst<T(==)>(s: seq<T>, x: T): seq<T>
  {
    if s == [] then []
    else if s[0] == x then s[1..]
    else [s[0]] + RemoveFirst(s[1..], x)
  }

  lemma {:induction false} RemoveFirstAbsent<T>(s: seq<T>, x: T)
    requires x !in s
    ensures RemoveFirst(s, x) == s
  {
    if s != [] {
      RemoveFirstAbsent(s[1..], x);
    }
  }

  /** Removing cuts out exactly the first occurrence. */
  lemma {:induction false} RemoveFirstAt<T>(s: seq<T>, x: T, i: nat)
    requires i < |s| && s[i] == x && forall j :: 0 <= j < i ==> s[j] != x
    ensures RemoveFirst(s, x) == s[..i] + s[i + 1..]
  {
    if i > 0 {
      RemoveFirstAt(s[1..], x, i - 1);
      assert s[..i] == [s[0]] + s[1..][..i - 1];
      assert s[i + 1..] == s[1..][i..];
    }
  }

  /** Exactly one copy of `x` goes, when there is one. */
  lemma {:induction false} RemoveFirstMultiset<T>(s: seq<T>, x: T)
    ensures multiset(RemoveFirst(s, x)) == multiset(s) - multiset{x}
  {
    if s != [] {
      RemoveFirstMultiset(s[1..], x);
      assert s == [s[0]] + s[1..];
    }
  }

  /** Adding a new listener and then removing it restores the list. */
  lemma {:induction false} RemoveAfterAdd<T>(s: seq<T>, x: T)
    requires x !in s
    ensures RemoveFirst(s + [x], x) == s
  {
    RemoveFirstAt(s + [x], x, |s|);
    assert (s + [x])[..|s|] == s;
  }

  // ---------------------------------------------------------------------------
  // The watcher
  // ---------------------------------------------------------------------------

  class MetadataWatcher {
    const brokers: seq<string>
    var knownTopics: seq<string>
    var eventChannels: seq<EventChannel>
    /** Every event emitted so far, each with the listener list it was sent to. */
    var deliveries: seq<Delivery>
    /** The ticking goroutine has been told to stop. */
    var stopped: bool

    /** Known topics and every announced list are strictly sorted listings. */
    ghost predicate Valid()
      reads this
    {
      && StrictlySorted(knownTopics)
      && forall d :: d in deliveries && d.event.TopicsChanged? ==> StrictlySorted(d.event.topics)
    }

    /** The watcher before `setup`: no known topics, no listeners. */
    constructor (brokers: seq<string>)
      ensures this.brokers == brokers
      ensures knownTopics == [] && eventChannels == [] && deliveries == [] && !stopped
      ensures Valid()
    {
      this.brokers := brokers;
      knownTopics := [];
      eventChannels := [];
      deliveries := [];
      stopped := false;
    }

    /** `GetTopics`: the listing of the configured brokers. */
    method GetTopics(reply: string -> BrokerReply) returns (r: Result<seq<string>>)
      ensures r == ListTopics(brokers, reply)
    {
      if |brokers| == 0 {
        return Err(NoBrokersError);
      }
      var lastErr: Option<string> := None;
      for i := 0 to |brokers|
        invariant FirstAnswer(brokers, reply, None) == FirstAnswer(brokers[i..], reply, lastErr)
      {
        var broker := brokers[i];
        assert brokers[i..][1..] == brokers[i + 1..];
        match reply(broker)
        case DialFailed(e) =>
          lastErr := Some(e);
        case ReadFailed(e) =>
          lastErr := Some(e);
        case Partitions(partitions) =>
          var topicsMap: set<string> := {};
          for j := 0 to |partitions|
            invariant forall t :: t in topicsMap <==> t in partitions[..j]
          {
            topicsMap := topicsMap + {partitions[j]};
            assert partitions[..j + 1] == partitions[..j] + [partitions[j]];
          }
          assert partitions[..|partitions|] == partitions;
          // Appending in map order and then sorting is modelled as inserting each topic
          // into its place.
          var topics: seq<string> := [];
          var remaining := topicsMap;
          while remaining != {}
            invariant remaining <= topicsMap
            invariant StrictlySorted(topics)
            invariant forall t :: t in topics <==> t in topicsMap && t !in remaining
            decreases |remaining|
          {
            var topic :| topic in remaining;
            topics := Insert(topics, topic);
            remaining := remaining - {topic};
          }
          SortedUnique(topics, SortedTopics(partitions));
          return Ok(topics);
      }
      if lastErr == None {
        lastErr := Some(ConnectError);
      }
      return Err(lastErr.value);
    }

    /** `emit`: the event goes to a copy of the current listener list. */
    method Emit(event: WatcherEvent)
      requires Valid()
      requires event.TopicsChanged? ==> StrictlySorted(event.topics)
      modifies this
      ensures Valid()
      ensures deliveries == old(deliveries) + [Delivery(eventChannels, event)]
      ensures knownTopics == old(knownTopics) && eventChannels == old(eventChannels) && stopped == old(stopped)
    {
      var chans := eventChannels;
      deliveries := deliveries + [Delivery(chans, event)];
    }

    /**
     * One tick of the watching goroutine. A failed listing is emitted as an error and the
     * known topics stay; a listing with a topic not known before is emitted and becomes the
     * known list; any other listing is ignored. After `Disconnect` nothing happens.
     */
    method Tick(reply: string -> BrokerReply)
      requires Valid()
      modifies this
      ensures Valid()
      ensures eventChannels == old(eventChannels) && stopped == old(stopped)
      ensures old(stopped) ==> knownTopics == old(knownTopics) && deliveries == old(deliveries)
      ensures !old(stopped) ==>
                var r := ListTopics(brokers, reply);
                && (r.Err? ==> knownTopics == old(knownTopics)
                               && deliveries == old(deliveries) + [Delivery(eventChannels, WatchError(r.error))])
                && (r.Ok? && HasNewTopic(r.value, old(knownTopics)) ==>
                      knownTopics == r.value
                      && deliveries == old(deliveries) + [Delivery(eventChannels, TopicsChanged(r.value))])
                && (r.Ok? && !HasNewTopic(r.value, old(knownTopics)) ==>
                      knownTopics == old(knownTopics) && deliveries == old(deliveries))
    {
      if stopped {
        return;
      }
      var r := GetTopics(reply);
      if r.Err? {
        Emit(WatchError(r.error));
        return;
      }
      var added := NewTopicAppeared(r.value, knownTopics);
      if added {
        Emit(TopicsChanged(r.value));
        knownTopics := r.value;
      }
    }

    /** `AddListener`: the channel joins the end of the list. */
    method AddListener(ch: EventChannel)
      requires Valid()
      modifies this
      ensures Valid()
      ensures eventChannels == old(eventChannels) + [ch]
      ensures knownTopics == old(knownTopics) && deliveries == old(deliveries) && stopped == old(stopped)
    {
      eventChannels := eventChannels + [ch];
    }

    /** `RemoveListener`: the first occurrence of the channel leaves the list, if any. */
    method RemoveListener(ch: EventChannel)
      requires Valid()
      modifies this
      ensures Valid()
      ensures eventChannels == RemoveFirst(old(eventChannels), ch)
      ensures knownTopics == old(knownTopics) && deliveries == old(deliveries) && stopped == old(stopped)
    {
      var i := 0;
      while i < |eventChannels|
        invariant 0 <= i <= |eventChannels|
        invariant eventChannels == old(eventChannels)
        invariant forall j :: 0 <= j < i ==> eventChannels[j] != ch
      {
        if eventChannels[i] == ch {
          RemoveFirstAt(eventChannels, ch, i);
          eventChannels := eventChannels[..i] + eventChannels[i + 1..];
          return;
        }
        i := i + 1;
      }
      RemoveFirstAbsent(eventChannels, ch);
    }

    /** `Disconnect`: stops the ticking; always nil. */
    method Disconnect() returns (err: Option<string>)
      requires Valid()
      modifies this
      ensures Valid()
      ensures err == None && stopped
      ensures knownTopics == old(knownTopics) && eventChannels == old(eventChannels) && deliveries == old(deliveries)
    {
      stopped := true;
      err := None;
    }
  }

  /**
   * `NewMetadataWatcher`: a watcher exists only when the initial listing succeeds, and it
   * starts out knowing that listing.
   */
  method NewMetadataWatcher(brokers: seq<string>, reply: string -> BrokerReply)
    returns (mw: MetadataWatcher?, err: Option<string>)
    ensures ListTopics(brokers, reply).Err? ==> mw == null && err == Some(ListTopics(brokers, reply).error)
    ensures ListTopics(brokers, reply).Ok? ==>
              && err == None && mw != null && fresh(mw)
              && mw.brokers == brokers && mw.knownTopics == ListTopics(brokers, reply).value
              && mw.eventChannels == [] && mw.deliveries == [] && !mw.stopped && mw.Valid()
  {
    var watcher := new MetadataWatcher(brokers);
    var topics := watcher.GetTopics(reply);
    if topics.Err? {
      return null, Some(topics.error);
    }
    watcher.knownTopics := topics.value;
    return watcher, None;
  }
}
