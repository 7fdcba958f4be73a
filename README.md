# timburr core in Dafny

timburr bridges Kafka to HTTP. Each *rule* subscribes a consumer group to some topics and
hands every message to an *executor*. This project models that core and proves properties of it.

- **Subscription lifecycle** (`Subscription`, `basic_subscription.dfy`). A `BasicSubscription` is
  either subscribed (it holds a reader, a cancel function and an optional rate limiter) or not.
  `Subscribe` and `Unsubscribe` move between the two states. The consume loop is given as a
  list of fetch, limiter and commit outcomes, and each message that passes the limiter is
  dispatched and then committed.
- **Broker list** (`Brokers`, `brokers.dfy`). The comma-separated broker configuration is split,
  each part is trimmed, and empty parts are dropped.
- **Metadata watcher** (`Watcher`, `metadata_watcher.dfy`). It lists the cluster's topics from the
  first broker that answers, sorted and without duplicates. Each tick notifies a copy of the
  listener list when a topic appears or the listing fails.
- **Job runner executor** (`JobRunner`, `job_runner.dfy`). It removes the excluded fields from the
  JSON job, re-encodes it and POSTs it, with up to four attempts. The wait before each retry
  starts at one second and doubles.
- **Purge executor** (`Purge`, `purge.dfy`).
  - It drops stale events.
  - It computes the purge requests of every matching entry: each URI template crossed with each
    variant. It skips variants when the URI already names one, and adds `/wiki/` short links.
  - It deduplicates the requests by URL.
  - `doRequest` sends one request: a Cloudflare purge or an HTTP request. It sets the
    canonicalised headers and `Host`, and classifies the response status.
- `Strings` (`strings.dfy`) models the Go string functions the core uses: `strings.Split`,
  `ReplaceAll`, `TrimSpace`, `ToLower` and the byte order of `sort.Strings`. `Wrappers` holds
  `Option` and `Result`.

The outside world is passed in as parameters:
- what a broker replies;
- what an HTTP exchange returns;
- what `url.Parse`, `regexp.MatchString`, `json.Unmarshal` and `json.Marshal` yield;
- what the Kafka reader's fetch and commit report.

Notes on what the code does:
- A template in which `#variants#` does not occur once `#url#` is bound gives every variant
  the same primary URL, and `uniq` keeps it once, so such a template yields one primary
  request per URI plus the `/wiki/` short links (`Purge.PrimaryUrlWithoutPlaceholder`).
- Header values bind `#url#` to the raw event URI `item`, not to the request path and query.
- When several entries plan the same URL, `uniq` keeps the request of the earliest such
  entry, with that entry's method and headers (`Purge.HandlePurge`).

## Model

| member | source | states |
|---|---|---|
| Brokers.SplitBrokers | utils/brokers.go:6-16 | The brokers are the trimmed non-empty comma-separated parts, in order. No broker is empty, has white space at either end or contains a comma. There are at most one more brokers than commas. |
| Brokers.CleanPartsMembers | utils/brokers.go:9-14 | A string is a broker exactly when it is non-empty and is the trimmed form of some part. |
| Brokers.CleanPartsLength | utils/brokers.go:9-14 | No more brokers than parts. |
| Brokers.CleanPartsExclude | utils/brokers.go:7-14 | A character absent from every part is absent from every broker. |
| Brokers.BlankListHasNoBrokers | utils/brokers.go:6-16 | An empty or all-white-space broker list yields no broker. |
| Strings.Split | utils/brokers.go:7 | `strings.Split` never returns an empty slice. |
| Strings.SplitJoin | utils/brokers.go:7 | Split yields Count+1 pieces. No piece holds the separator. Joining the pieces gives the input back. |
| Strings.SplitNoSeparator | lib/task/purge.go:94-98 | A string without the separator splits into itself alone. |
| Strings.SplitAround | lib/task/purge.go:94-103 | Splitting `x + sep + y` is splitting `x` followed by splitting `y`. |
| Strings.SplitLast | lib/task/purge.go:94-98 | The last piece of a split is the separator-free suffix: the whole string, or what follows its last separator. |
| Strings.ReplaceAll | lib/task/purge.go:133 | Replacing a pattern by itself changes nothing, and a replacement of the pattern's length keeps the length. |
| Strings.ReplaceAllSkipsPrefix | lib/task/purge.go:133 | A prefix in which no occurrence of the pattern starts is copied unchanged. |
| Strings.ReplaceAllAbsent | lib/task/purge.go:133 | Without an occurrence of the pattern, ReplaceAll returns its input. |
| Strings.ReplaceAllAtStart | lib/task/purge.go:133 | An occurrence at the start is replaced, and the scan resumes after it (non-overlapping). |
| Strings.TrimSpace | utils/brokers.go:10 | The result is a contiguous slice of the input. Everything cut from either end is white space, and neither end of the result is white space. |
| Strings.TrimSpaceExcludes | utils/brokers.go:10 | Trimming adds no new character. |
| Strings.TrimSpaceOf | utils/brokers.go:10 | Space-only padding around a trimmed string is exactly what TrimSpace removes. |
| Strings.ToLower | lib/task/purge.go:163 | Keeps the length and lower-cases each character. |
| Strings.LessIrreflexive | lib/metadata_watcher.go:149 | The byte order of `sort.Strings` is irreflexive. |
| Strings.LessTransitive | lib/metadata_watcher.go:149 | The byte order is transitive. |
| Strings.LessTotal | lib/metadata_watcher.go:149 | Any two distinct strings are ordered. |
| Strings.Insert | lib/metadata_watcher.go:145-149 | Inserting a new topic into a strictly sorted list keeps it strictly sorted, adds exactly that topic and grows the list by one. |
| Strings.SortedUnique | lib/metadata_watcher.go:149 | Two strictly sorted lists with the same elements are equal, so the sorted topic list does not depend on map order. |
| Purge.LastQuery | lib/task/purge.go:94-98 | The last query piece never contains `&` and is no longer than the query. |
| Purge.LastQuerySuffix | lib/task/purge.go:94-98 | The last query piece is the `&`-free suffix of the query: all of it, or what follows its last `&`. |
| Purge.FirstPath | lib/task/purge.go:99-103 | The first path piece never contains `/`, and a path without `/` has none. |
| Purge.LastQueryAfterLastAmpersand | lib/task/purge.go:94-98 | The last query component is the text after the last `&`. |
| Purge.LastQueryWithoutAmpersand | lib/task/purge.go:94-98 | A query without `&` is its own last component (the empty query included). |
| Purge.FirstPathAfterFirstSlash | lib/task/purge.go:99-103 | For a path `a/r/b` with `a` and `r` slash-free, the first path segment is `r`. |
| Purge.FirstPathWithoutSlash | lib/task/purge.go:99-103 | A path without `/` has an empty first segment. |
| Purge.TemplatesRequestsOrigin | lib/task/purge.go:125-145 | A request comes from an entry's templates exactly when some template and some variant of the entry call for it. |
| Purge.RequestOrigin | lib/task/purge.go:105-145 | A request is planned exactly when some entry that matches by host and path pattern, one of its templates and one of its variants call for it. |
| Purge.EmptyVariantRequested | lib/task/purge.go:119-135 | The empty variant of every template of every matching entry is always requested, never skipped. |
| Purge.ShortLinkRequested | lib/task/purge.go:137-143 | For a `/wiki/` URI, a non-empty variant that is not skipped gives both the templated URL and the `/wiki/` to `/<variant>/` rewrite. |
| Purge.CanonicalUriPurgesOnlyEmptyVariant | lib/task/purge.go:126-135 | When the last query component or the first path segment is one of the entry's variants, only the empty-variant URL of each template is requested. |
| Purge.PrimaryUrlWithoutPlaceholder | lib/task/purge.go:131-135 | A template in which `#variants#` does not occur once `#url#` is bound gives the same primary URL, the `#url#`-bound template, for every variant. |
| Purge.DedupUrls | lib/task/purge.go:214-224 | `uniq` keeps every URL of its input. |
| Purge.DedupDistinct | lib/task/purge.go:214-224 | After `uniq`, no two requests share a URL. |
| Purge.DedupKeepsFirstOccurrences | lib/task/purge.go:214-224 | `uniq` keeps exactly the first request of each URL. Every kept request is in the input. |
| Purge.Uniq | lib/task/purge.go:214-224 | The seen-set loop computes the first-occurrence deduplication: distinct URLs, the same URL set, only input requests. |
| Purge.EntryRequestsCarryEntry | lib/task/purge.go:131-143 | Every request an entry calls for carries that entry's method and header templates. |
| Purge.InEntryOrderFirstPlanner | lib/task/purge.go:105-148 | In the request list built entry by entry, every request that `uniq` keeps is called for by the earliest entry that calls for its URL. |
| Purge.BuildVariantSet | lib/task/purge.go:119-123 | The variants map holds the empty variant and exactly the configured codes. |
| Purge.ExpandVariant | lib/task/purge.go:127-143 | One (template, variant) pair gives nothing when skipped, otherwise its primary request and, for a `/wiki/` URI and a non-empty variant, its short link. |
| Purge.ExpandTemplate | lib/task/purge.go:126-144 | Whatever the map order, the requests of one template are exactly the planned non-skipped primary and short-link requests. |
| Purge.ExpandEntry | lib/task/purge.go:125-145 | The template loop of one entry gives exactly that entry's planned requests. |
| Purge.PlanEntry | lib/task/purge.go:105-145 | An entry of another host, or whose path pattern does not match or is invalid, gives nothing; a matching entry gives exactly its planned requests. |
| Purge.HandlePurge | lib/task/purge.go:88-148 | An unparsable URI gives no request. Otherwise: the requests have distinct URLs; each is a planned request of a matching entry; every planned URL is requested; and the request kept for a URL is one the earliest entry planning that URL calls for, so it carries that entry's method and headers. |
| Purge.Execute | lib/task/purge.go:65-86 | A decode error is returned and nothing is sent. A stale event or an unparsable URI sends nothing. Otherwise the deduplicated plan is dispatched, each URL with the request of the earliest entry planning it, and the `k`-th request is handled by `doRequest` with the event URI and the RFC 3339 text of the event date. Once decoded, the result is always nil. |
| Purge.Classify | lib/task/purge.go:188-192 | A 2xx status is a success. Any status of 300 or more other than 400 and 404 is a warning. Everything else is accepted quietly. |
| Purge.HostKeyAnyCase | lib/task/purge.go:177-181 | A header key spelled `host` in any case sets the `Host` header. |
| Purge.SetHeaders | lib/task/purge.go:174-178 | The headers set are the canonical forms of the configured keys. Each value is a substituted template of a key with that canonical form. Without canonical clashes, each key gets exactly its own template. |
| Purge.CanonicalKey | lib/task/purge.go:177 | The key keeps its length; its first letter and every letter after `-` are upper case, all other letters lower case. |
| Purge.DispatchAll | lib/task/purge.go:147-159 | One outcome per request. Request `k` is handled by `doRequest` with the event URI `item`, the date text and its own call outcomes. The wait reports nil exactly when no request failed, and otherwise one of their errors. |
| Purge.DoRequest | lib/task/purge.go:162-212 | Its outcome satisfies `Handled`. A Cloudflare method without an API client is a nil no-op. With a client, the PurgeCache error of that one URL is returned. A request-construction error is returned. Otherwise the request carries its method and URL, and its headers are the configured keys in canonical form with their templates' `#url#` bound to the raw event URI and `#date#` to the date text; a non-empty `Host` header overrides the host; a transport error is returned; and any response, classified by status, yields nil. Only these three kinds of error are ever returned. |
| JobRunner.DoExecute | lib/task/job_runner.go:72-95 | Success exactly on a reply with a 2xx status. A transport error is returned as is. A non-2xx reply gives the failure prefix followed by the body. |
| JobRunner.Retry | lib/task/job_runner.go:60-70 | At least one attempt, one wait fewer than attempts, and a failing call returns the error of its last attempt. |
| JobRunner.RetryBounds | lib/task/job_runner.go:60-70 | Between 1 and `times` attempts (one when `times` is not positive). The wait before retry i+1 is `wait·2^i`. |
| JobRunner.RetryOutcome | lib/task/job_runner.go:60-70 | Every attempt but the last fails. The call returns what the last attempt returned. A failing call has used every attempt. |
| JobRunner.RetrySucceedsIffSomeAttemptDoes | lib/task/job_runner.go:60-70 | The call succeeds if and only if one of its allowed attempts succeeds. |
| JobRunner.RetryStopsAtFirstSuccess | lib/task/job_runner.go:60-70 | When attempt f is the first to succeed, exactly f+1 attempts are made and nil is returned. |
| JobRunner.AllFourAttemptsFail | lib/task/job_runner.go:52-70 | When every attempt fails, four attempts are made with waits of 1 s, 2 s and 4 s, and the fourth error is returned. |
| JobRunner.ExcludeFields | lib/task/job_runner.go:45-47 | Exactly the excluded keys are removed. Every other value is unchanged. |
| JobRunner.Execute | lib/task/job_runner.go:40-58 | A decode or encode error is returned without sending. Otherwise the reduced object is sent with four attempts from a one-second wait, and the retried call's error is returned after 1 to 4 attempts. |
| Watcher.SortedTopics | lib/metadata_watcher.go:141-150 | The listed topics are the partitions' distinct topics, strictly sorted. |
| Watcher.ListTopics | lib/metadata_watcher.go:124-156 | No brokers give an error. Otherwise a listing exists exactly when some broker answers, and it is strictly sorted. |
| Watcher.FirstAnswerSource | lib/metadata_watcher.go:129-151 | A listing succeeds if and only if some broker answers. Then it is the sorted topics of the first broker that answers, and every broker before it failed. |
| Watcher.AllBrokersFail | lib/metadata_watcher.go:129-155 | When every broker fails, the listing fails with the last broker's error. |
| Watcher.RemovalIsNoChange | lib/metadata_watcher.go:64-76 | Topics that disappear or are reordered do not count as a change. |
| Watcher.NewTopicAppeared | lib/metadata_watcher.go:64-76 | The nested search reports a change if and only if some listed topic is not known. |
| Watcher.RemoveFirstAbsent | lib/metadata_watcher.go:112-121 | Removing a channel that is not listed leaves the list unchanged. |
| Watcher.RemoveFirstAt | lib/metadata_watcher.go:112-121 | Removal cuts out exactly the first occurrence. |
| Watcher.RemoveFirstMultiset | lib/metadata_watcher.go:112-121 | Removal takes away exactly one copy of the channel, if there is one. |
| Watcher.RemoveAfterAdd | lib/metadata_watcher.go:105-121 | Adding a new channel and then removing it restores the list. |
| Watcher.MetadataWatcher.constructor | lib/metadata_watcher.go:30-34 | A new watcher knows no topics, has no listeners and has emitted nothing. |
| Watcher.MetadataWatcher.GetTopics | lib/metadata_watcher.go:124-156 | The broker loop, the topic set and the sort compute the reference listing: an error with no brokers, otherwise the first answer or the last error. |
| Watcher.MetadataWatcher.Emit | lib/metadata_watcher.go:92-102 | The event is addressed to a snapshot of the current listeners, and nothing else changes. A topic list it announces must be strictly sorted, so the watcher invariant holds. |
| Watcher.MetadataWatcher.Tick | lib/metadata_watcher.go:57-81 | It keeps the invariant that known topics and every announced list are sorted. A failed listing emits its error. A listing with a new topic is announced and becomes known. Any other listing changes nothing. After Disconnect, a tick does nothing. |
| Watcher.MetadataWatcher.AddListener | lib/metadata_watcher.go:105-109 | The channel joins the end of the list, and nothing else changes; the watcher invariant is kept. |
| Watcher.MetadataWatcher.RemoveListener | lib/metadata_watcher.go:112-121 | The list loses the first occurrence of the channel, and nothing else changes; the watcher invariant is kept. |
| Watcher.MetadataWatcher.Disconnect | lib/metadata_watcher.go:159-162 | Ticking stops, and the result is nil; nothing else changes and the watcher invariant is kept. |
| Watcher.NewMetadataWatcher | lib/metadata_watcher.go:29-48 | A watcher exists only when the initial listing succeeds, and it starts out knowing that listing. |
| Subscription.Reader.Close | lib/basic_subscription.go:114-118 | One close per call. |
| Subscription.CancelFunc.Call | lib/basic_subscription.go:110-113 | One cancellation per call. |
| Subscription.RunPairs | lib/basic_subscription.go:81-89 | Each dispatched message has its commit attempted right after, before anything else. |
| Subscription.RunIgnoresExecutor | lib/basic_subscription.go:81-100 | The executor's result never changes what the loop does. |
| Subscription.CancellationEndsRun | lib/basic_subscription.go:62-91 | A cancelled fetch, limiter wait or commit ends the loop: later turns have no effect. |
| Subscription.CommitsInFetchOrder | lib/basic_subscription.go:62-91 | Commits occur in fetch order and cover only fetched messages. |
| Subscription.PassingCommitted | lib/basic_subscription.go:72-89 | A message that passes the limiter before any turn has ended the loop is dispatched and has its commit attempted. |
| Subscription.TurnsRun | lib/basic_subscription.go:62-91 | The loop runs up to and including the first turn that ends it: no earlier turn ends it, and a loop that stops early stops on an ending turn. |
| Subscription.CommitsArePassing | lib/basic_subscription.go:72-100 | The dispatched messages, and likewise the committed ones, are exactly the messages that pass the limiter while the loop runs, in fetch order, whatever the executor returns. |
| Subscription.DispatchedPassedLimiter | lib/basic_subscription.go:72-83 | Each dispatched message was fetched and passed the limiter. |
| Subscription.BasicSubscription.constructor | lib/basic_subscription.go:17-25 | A new subscription is unsubscribed and holds no reader, cancel function or limiter. |
| Subscription.BasicSubscription.Subscribe | lib/basic_subscription.go:32-60 | Idempotent when already subscribed. Otherwise: a fresh reader of the rule's topics, with group prefix+name, from the first offset, on the split broker list; a fresh cancel function; and, for a positive rate limit, an interval of 0 stored back as 1000 ms and a limiter with a burst equal to the limit. It always returns nil. |
| Subscription.BasicSubscription.Unsubscribe | lib/basic_subscription.go:103-120 | A no-op when not subscribed. Otherwise it cancels once, closes the reader once and drops both. |
| Subscription.BasicSubscription.ConsumeTurn | lib/basic_subscription.go:63-90 | One loop pass adds the reference turn to the trace and stops exactly on a cancellation. |
| Subscription.BasicSubscription.Consume | lib/basic_subscription.go:62-91 | The loop over the given turns produces the reference run under the subscription's limiter. |

## Left out

- **Concurrency.** The following are not modelled: mutexes; the consume goroutine; the ticking
  goroutine with its ticker and stop channel (`Disconnect` sets a flag that `Tick` honours); the
  asynchronous channel sends of `emit` (only the snapshot of listeners is recorded); and the
  errgroup fan-out of the purge requests with its timeouts. `Purge.DispatchAll` runs the requests
  one after the other. The cancellation of sibling requests after the first failure is not modelled.
- **I/O and libraries.** They are parameters. The Kafka reader's fetch and commit and the limiter's
  Wait are turn outcomes. The following are given results: HTTP exchanges, the Cloudflare
  PurgeCache result, `url.Parse` (parts of the URI, or a failure), `regexp.MatchString`,
  `json.Unmarshal` and `json.Marshal`. Logging is not modelled.
- **Time.** The clock (the current time in milliseconds), `time.Sleep` and the RFC 3339 rendering
  of a date (the `formatDate` parameter of `Purge.Execute`) are inputs. Retry waits are recorded, not slept.
- **Rate limiter.** The `rate.Limiter` token bucket and its float refill rate are reduced to count,
  interval and burst.
- **Go string semantics.** `TrimSpace`, `ToLower` and `CanonicalMIMEHeaderKey` are ASCII-only.
  `CanonicalKey` does not model Go leaving keys with invalid header characters unchanged.
- JobRunner.Retry: the doubling wait is an unbounded integer, so `time.Duration` (int64) overflow is
  not modelled. Four attempts never come near it.
- Watcher.MetadataWatcher.GetTopics: `sort.Strings` after collecting map keys is modelled as
  inserting each key into its place. `SortedUnique` shows that the result is the same.
- Subscription.BasicSubscription.Consume: the Go loop runs until cancelled. The model runs over a
  finite list of turns.
- The per-message executor (`handleMessage`) is an outcome that the loop never consults. Resolving
  the executor by task type (`TypeFromString`, `GetExecutor`) and the rule's topic resolution
  (`ruleTopics`) are not part of this model: the rule's topic list is given.
- Setup code, configuration loading and the HTTP server (`main.go`, `server/server.go`,
  executor constructors) are not part of this model.
- Errors from the reader's `Close` are only logged, and are not modelled.
- Watcher.FirstAnswer: what a broker replies is a function of its address, so a broker
  listed twice gives the same reply both times, while Go dials it again and may get another.
  No proved property relies on this.
