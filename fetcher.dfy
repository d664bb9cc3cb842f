/**
 * `request_one_pk`: fetching every entity of one partition.  The HTTP layer is
 * a script of outcomes, one per request, in the order the requests are made;
 * the requests sent and the sleeps taken are recorded in a ghost log.
 *
 * `Run` states, outcome by outcome, what the `while True` loop does;
 * `RequestOnePartition` is the loop itself, proved to agree with `Run`; the
 * lemmas state the retry bound, the backoff schedule and the pagination.
 */
module Fetcher {
  import opened Wrappers
  import OData

  /** One table entity, each property already rendered as text. */
  type Entity = map<string, string>

  /** The query parameters of one request. */
  type Params = map<string, string>

  /** What one `requests.get` (and the JSON decoding of its body) produces. */
  datatype Outcome =
    | Reply(status: int, value: Option<seq<Entity>>,
            nextPartitionKey: Option<string>, nextRowKey: Option<string>)
      // `value` is None when the body has no "value" member or it is null;
      // the two continuation headers are None when the response lacks them
    | RequestFailed
      // a `requests.RequestException`: connection error, timeout, or a body
      // that cannot be decoded as JSON

  /** How the fetch of one partition ends. */
  datatype Ending =
    | Fetched(entities: seq<Entity>)   // the list returned at line 200
    | Denied(status: int)              // the RuntimeError for 401/403
    | RetriesExhausted                 // the RuntimeError raised at line 196
    | InvalidSleep                     // `time.sleep` refused a negative backoff (ValueError)
    | ScriptExhausted                  // the script ended while the loop wanted another response

  datatype Request = Request(url: string, params: Params)

  /** How a fetch ended, with every request sent and every sleep taken, in order. */
  datatype Trace = Trace(ending: Ending, requests: seq<Request>, sleeps: seq<real>)

  /** What stays fixed during one fetch. */
  datatype Query = Query(pk: string, tableUrl: string, maxRetries: int)

  /** The loop variables of `request_one_pk`. */
  datatype FetchState = FetchState(results: seq<Entity>, params: Params, backoff: real, tries: int)

  /** The longest sleep the doubling can reach. */
  const BackoffCap: real := 60.0

  predicate IsAuthFailure(status: int) {
    status == 401 || status == 403
  }

  /** The statuses handled as throttling or a transient server error at line 168. */
  predicate IsThrottled(status: int) {
    status == 429 || status == 500 || status == 502 || status == 503 || status == 504
  }

  /** The statuses for which `raise_for_status` raises `HTTPError`. */
  predicate IsHttpError(status: int) {
    400 <= status < 600
  }

  /**
   * The outcomes that reach a retry: a failed request, a throttling status,
   * or any other status `raise_for_status` rejects (an `HTTPError` is a
   * `RequestException`, caught at line 193).
   */
  predicate IsRetried(o: Outcome) {
    o.RequestFailed? || (!IsAuthFailure(o.status) && (IsThrottled(o.status) || IsHttpError(o.status)))
  }

  /** A reply whose body is read as a page of entities. */
  predicate IsPage(o: Outcome) {
    o.Reply? && !IsAuthFailure(o.status) && !IsRetried(o)
  }

  /** A header value that is present and non-empty (truthy in Python). */
  predicate Present(h: Option<string>) {
    h.Some? && h.value != ""
  }

  predicate HasContinuation(o: Outcome)
    requires o.Reply?
  {
    Present(o.nextPartitionKey) || Present(o.nextRowKey)
  }

  /** `data.get("value", []) or []`. */
  function PageValue(o: Outcome): seq<Entity>
    requires o.Reply?
  {
    o.value.GetOr([])
  }

  /** The parameters of the first request: only the filter. */
  function BaseParams(pk: string): Params {
    map["$filter" := OData.Filter(pk)]
  }

  /**
   * The parameters of the request that follows a page: the filter and the
   * continuation markers of that page, and nothing carried over from earlier
   * pages.
   */
  function ContinuationParams(pk: string, npk: Option<string>, nrk: Option<string>): (p: Params)
    ensures p.Keys <= {"$filter", "NextPartitionKey", "NextRowKey"}
    ensures "$filter" in p && p["$filter"] == OData.Filter(pk)
    ensures "NextPartitionKey" in p <==> Present(npk)
    ensures "NextRowKey" in p <==> Present(nrk)
    ensures Present(npk) ==> p["NextPartitionKey"] == npk.value
    ensures Present(nrk) ==> p["NextRowKey"] == nrk.value
  {
    var p := BaseParams(pk);
    var p := if Present(npk) then p["NextPartitionKey" := npk.value] else p;
    if Present(nrk) then p["NextRowKey" := nrk.value] else p
  }

  /**
   * `min(backoff * 2, 60)`: the backoff doubles until it reaches the 60-second
   * cap, never exceeds the cap afterwards, and stays non-negative.
   */
  function NextBackoff(b: real): (r: real)
    ensures r <= BackoffCap
    ensures r == b * 2.0 || r == BackoffCap
    ensures b * 2.0 <= BackoffCap ==> r == b * 2.0
    ensures 0.0 <= b ==> 0.0 <= r
  {
    if b * 2.0 <= BackoffCap then b * 2.0 else BackoffCap
  }

  /** The backoff after `k` doublings of `b`: the length of the `k`-th sleep (from 0). */
  function BackoffAt(b: real, k: nat): real {
    if k == 0 then b else NextBackoff(BackoffAt(b, k - 1))
  }

  function Start(pk: string, initialBackoff: real): FetchState {
    FetchState([], BaseParams(pk), initialBackoff, 0)
  }

  /** `t` preceded by one request and the sleeps that followed it. */
  function After(r: Request, slept: seq<real>, t: Trace): Trace {
    Trace(t.ending, [r] + t.requests, slept + t.sleeps)
  }

  /** What one response does to the loop: end it, or go round again from a new state. */
  datatype Step = Done(ending: Ending) | Again(next: FetchState, slept: seq<real>)

  /**
   * One pass of the loop body of `request_one_pk` for the response `o`.
   * A 401 or 403 ends the fetch with that status; a retried response either
   * gives up, or sleeps the current backoff and retries with the same
   * parameters and entities; a page without continuation returns the entities
   * gathered so far plus its own; a page with continuation goes on from the
   * continuation parameters, with the retry counter and backoff untouched.
   */
  function StepOn(pk: string, maxRetries: int, st: FetchState, o: Outcome): (s: Step)
    ensures s.Done? && s.ending.Denied? <==> o.Reply? && IsAuthFailure(o.status)
    ensures s == Done(RetriesExhausted) <==>
      !(o.Reply? && IsAuthFailure(o.status)) && IsRetried(o) && st.tries + 1 > maxRetries
    ensures s == Done(InvalidSleep) <==>
      !(o.Reply? && IsAuthFailure(o.status)) && IsRetried(o) && st.tries + 1 <= maxRetries && st.backoff < 0.0
    ensures s.Again? && s.slept != [] ==>
      IsRetried(o) && s.slept == [st.backoff] && 0.0 <= st.backoff
      && s.next == st.(tries := st.tries + 1, backoff := NextBackoff(st.backoff))
    ensures s.Again? && s.slept == [] ==>
      IsPage(o) && HasContinuation(o) && s.next.tries == st.tries && s.next.backoff == st.backoff
      && s.next.results == st.results + PageValue(o)
      && s.next.params == ContinuationParams(pk, o.nextPartitionKey, o.nextRowKey)
    ensures s.Done? && s.ending.Fetched? ==>
      IsPage(o) && !HasContinuation(o) && s.ending.entities == st.results + PageValue(o)
    ensures o.Reply? && IsAuthFailure(o.status) ==> s == Done(Denied(o.status))
    ensures IsRetried(o) && st.tries + 1 <= maxRetries && 0.0 <= st.backoff ==>
      s.Again? && s.slept == [st.backoff]
    ensures IsPage(o) && HasContinuation(o) ==> s.Again? && s.slept == []
    ensures IsPage(o) && !HasContinuation(o) ==> s == Done(Fetched(st.results + PageValue(o)))
  {
    if o.Reply? && IsAuthFailure(o.status) then Done(Denied(o.status))
    else if IsRetried(o) then
      if st.tries + 1 > maxRetries then Done(RetriesExhausted)
      else if st.backoff < 0.0 then Done(InvalidSleep)
      else Again(st.(tries := st.tries + 1, backoff := NextBackoff(st.backoff)), [st.backoff])
    else
      var results := st.results + PageValue(o);
      if HasContinuation(o) then
        Again(st.(results := results, params := ContinuationParams(pk, o.nextPartitionKey, o.nextRowKey)), [])
      else Done(Fetched(results))
  }

  /** The loop of `request_one_pk`, from state `st`, answered by `script`. */
  function Run(q: Query, st: FetchState, script: seq<Outcome>): (t: Trace)
    ensures |t.requests| <= |script|
    ensures script != [] ==> |t.requests| >= 1
    decreases |script|
  {
    if script == [] then Trace(ScriptExhausted, [], [])
    else
      var sent := Request(q.tableUrl + "()", st.params);
      match StepOn(q.pk, q.maxRetries, st, script[0])
      case Done(e) => Trace(e, [sent], [])
      case Again(st', slept) => After(sent, slept, Run(q, st', script[1..]))
  }

  /** Unfolding `Run` at a response that continues the loop. */
  lemma RunAgain(q: Query, st: FetchState, script: seq<Outcome>, i: nat, st': FetchState, slept: seq<real>)
    requires i < |script| && StepOn(q.pk, q.maxRetries, st, script[i]) == Again(st', slept)
    ensures Run(q, st, script[i..])
         == After(Request(q.tableUrl + "()", st.params), slept, Run(q, st', script[i + 1..]))
  {
    assert script[i..][0] == script[i] && script[i..][1..] == script[i + 1..];
  }

  /** Unfolding `Run` at a response that ends the loop. */
  lemma RunDone(q: Query, st: FetchState, script: seq<Outcome>, i: nat, e: Ending)
    requires i < |script| && StepOn(q.pk, q.maxRetries, st, script[i]) == Done(e)
    ensures Run(q, st, script[i..]) == Trace(e, [Request(q.tableUrl + "()", st.params)], [])
  {
    assert script[i..][0] == script[i];
  }

  /** The number of retried outcomes in `s`. */
  function Retried(s: seq<Outcome>): nat {
    if s == [] then 0 else (if IsRetried(s[0]) then 1 else 0) + Retried(s[1..])
  }

  /** The entities of the pages in `s`, in order. */
  function Pages(s: seq<Outcome>): seq<Entity> {
    if s == [] then [] else (if IsPage(s[0]) then PageValue(s[0]) else []) + Pages(s[1..])
  }

  function Max(a: int, b: int): int {
    if a < b then b else a
  }

  function MaxReal(a: real, b: real): real {
    if a < b then b else a
  }

  function MinReal(a: real, b: real): real {
    if a < b then a else b
  }

  /** `b` doubled `k` times, without a cap. */
  function Doubled(b: real, k: nat): real {
    if k == 0 then b else 2.0 * Doubled(b, k - 1)
  }

  // ---------------------------------------------------------------------------
  // Properties of the fetch

  /** The run sends one request per response it reads, never more than the script holds, all to `<table>()`. */
  lemma {:induction false} RunRequests(q: Query, st: FetchState, script: seq<Outcome>)
    ensures var t := Run(q, st, script);
      && (t.ending.ScriptExhausted? ==> |t.requests| == |script|)
      && (forall i :: 0 <= i < |t.requests| ==> t.requests[i].url == q.tableUrl + "()")
    decreases |script|
  {
    if script != [] {
      match StepOn(q.pk, q.maxRetries, st, script[0])
      case Done(e) =>
      case Again(st', slept) =>
        RunRequests(q, st', script[1..]);
        var t, t' := Run(q, st, script), Run(q, st', script[1..]);
        assert forall i :: 0 < i < |t.requests| ==> t.requests[i] == t'.requests[i - 1];
    }
  }

  /** The first `n` responses of `script`, seen from the second response on. */
  lemma PrefixTail(script: seq<Outcome>, n: nat)
    requires 1 <= n <= |script|
    ensures script[..n][0] == script[0] && script[..n][1..] == script[1..][..n - 1]
  {
  }

  /**
   * A 401 or 403 ends the fetch at once: it is the last response read, the
   * fetch fails with that status, and no response before it was a 401 or 403.
   */
  lemma {:induction false} AuthFailureEndsFetch(q: Query, st: FetchState, script: seq<Outcome>)
    ensures var t := Run(q, st, script);
      && (forall i :: 0 <= i < |t.requests| && script[i].Reply? && IsAuthFailure(script[i].status) ==>
            i == |t.requests| - 1 && t.ending == Denied(script[i].status))
      && (t.ending.Denied? ==>
            |t.requests| >= 1 && script[|t.requests| - 1].Reply?
            && IsAuthFailure(script[|t.requests| - 1].status)
            && t.ending.status == script[|t.requests| - 1].status)
    decreases |script|
  {
    RunRequests(q, st, script);
    if script != [] {
      match StepOn(q.pk, q.maxRetries, st, script[0])
      case Done(e) =>
      case Again(st', slept) =>
        AuthFailureEndsFetch(q, st', script[1..]);
        var t, t' := Run(q, st, script), Run(q, st', script[1..]);
        forall i | 0 <= i < |t.requests| && script[i].Reply? && IsAuthFailure(script[i].status)
          ensures i == |t.requests| - 1 && t.ending == Denied(script[i].status)
        {
          assert i > 0;
          assert script[1..][i - 1] == script[i];
        }
        if t.ending.Denied? {
          assert script[1..][|t'.requests| - 1] == script[|t.requests| - 1];
        }
    }
  }

  /**
   * Retry accounting, with one counter for the whole fetch: every retried
   * response (a failed request, a throttling status, any other HTTP error)
   * read so far either led to a sleep or, as the last response read, ended
   * the fetch; the fetch gives up exactly when the counter passes
   * `maxRetries`, and until then no more than `maxRetries` retried responses
   * are absorbed.
   */
  lemma {:induction false} RetryAccounting(q: Query, st: FetchState, script: seq<Outcome>)
    ensures var t := Run(q, st, script);
      var n := |t.requests|;
      var retried := Retried(script[..n]);
      && n <= |script|
      && |t.sleeps| + (if t.ending.RetriesExhausted? || t.ending.InvalidSleep? then 1 else 0) == retried
      && (t.ending.RetriesExhausted? ==> st.tries + retried == Max(q.maxRetries, st.tries) + 1)
      && (!t.ending.RetriesExhausted? ==> st.tries + retried <= Max(q.maxRetries, st.tries))
    decreases |script|
  {
    RunRequests(q, st, script);
    if script != [] {
      var t := Run(q, st, script);
      var n := |t.requests|;
      PrefixTail(script, n);
      match StepOn(q.pk, q.maxRetries, st, script[0])
      case Done(e) =>
        assert n == 1 && script[..n][1..] == [];
      case Again(st', slept) =>
        RetryAccounting(q, st', script[1..]);
    }
  }

  /** No more than `maxRetries` sleeps happen in a whole fetch, across all its pages. */
  lemma RetryBound(pk: string, tableUrl: string, maxRetries: int, initialBackoff: real, script: seq<Outcome>)
    ensures var t := Run(Query(pk, tableUrl, maxRetries), Start(pk, initialBackoff), script);
      var retried := Retried(script[..|t.requests|]);
      && |t.sleeps| <= Max(maxRetries, 0)
      && (t.ending.RetriesExhausted? <==> retried == Max(maxRetries, 0) + 1)
      && (!t.ending.RetriesExhausted? ==> retried <= Max(maxRetries, 0))
  {
    RetryAccounting(Query(pk, tableUrl, maxRetries), Start(pk, initialBackoff), script);
  }

  /** Doubling first and then `k` more times is doubling `k + 1` times. */
  lemma {:induction false} BackoffShift(b: real, k: nat)
    ensures BackoffAt(NextBackoff(b), k) == BackoffAt(b, k + 1)
  {
    if k > 0 {
      BackoffShift(b, k - 1);
    }
  }

  /**
   * The backoff schedule, shared across pages: the `k`-th sleep of a fetch
   * lasts `BackoffAt(initial, k)`, and a fetch only sleeps when the backoff
   * is not negative.
   */
  lemma {:induction false} BackoffSchedule(q: Query, st: FetchState, script: seq<Outcome>)
    ensures var t := Run(q, st, script);
      && (forall k :: 0 <= k < |t.sleeps| ==> t.sleeps[k] == BackoffAt(st.backoff, k))
      && (t.sleeps != [] ==> st.backoff >= 0.0)
    decreases |script|
  {
    if script != [] {
      match StepOn(q.pk, q.maxRetries, st, script[0])
      case Done(e) =>
      case Again(st', slept) =>
        BackoffSchedule(q, st', script[1..]);
        var t, t' := Run(q, st, script), Run(q, st', script[1..]);
        if slept != [] {
          forall k | 0 < k < |t.sleeps| ensures t.sleeps[k] == BackoffAt(st.backoff, k) {
            assert t.sleeps[k] == t'.sleeps[k - 1];
            BackoffShift(st.backoff, k - 1);
          }
        }
    }
  }

  /**
   * Closed form of the schedule: after the first sleep, which lasts the
   * initial backoff itself, the `k`-th sleep lasts `min(initial * 2^k, 60)`.
   */
  lemma {:induction false} BackoffClosedForm(b: real, k: nat)
    requires b >= 0.0 && k >= 1
    ensures BackoffAt(b, k) == MinReal(Doubled(b, k), BackoffCap)
  {
    if k > 1 {
      BackoffClosedForm(b, k - 1);
    }
  }

  /** No sleep is negative or longer than the larger of the initial backoff and 60. */
  lemma {:induction false} BackoffBounded(b: real, k: nat)
    requires b >= 0.0
    ensures 0.0 <= BackoffAt(b, k) <= MaxReal(b, BackoffCap)
  {
    if k > 0 {
      BackoffBounded(b, k - 1);
    }
  }

  /** With an initial backoff between 0 and 60 the sleeps never get shorter. */
  lemma {:induction false} BackoffNonDecreasing(b: real, k: nat)
    requires 0.0 <= b <= BackoffCap
    ensures BackoffAt(b, k) <= BackoffAt(b, k + 1)
  {
    BackoffBounded(b, k);
    assert BackoffAt(b, k) <= BackoffCap;
  }

  /** An initial backoff above 60 is slept once in full; every later sleep is capped at 60. */
  lemma LargeInitialBackoff(b: real, k: nat)
    requires b > BackoffCap && k >= 1
    ensures BackoffAt(b, k) == BackoffCap < BackoffAt(b, 0)
  {
    BackoffClosedForm(b, k);
    DoubledGrows(b, k);
  }

  lemma {:induction false} DoubledGrows(b: real, k: nat)
    requires b >= 0.0
    ensures Doubled(b, k) >= b
  {
    if k > 0 {
      DoubledGrows(b, k - 1);
    }
  }

  /**
   * Pagination, the result: a successful fetch ends on a page without a
   * continuation header and returns the entities of every page read, in
   * request order (a missing or null "value" counts as empty).
   */
  lemma {:induction false} PagesConcatenated(q: Query, st: FetchState, script: seq<Outcome>)
    decreases |script|
    ensures var t := Run(q, st, script);
      var n := |t.requests|;
      t.ending.Fetched? ==>
        n >= 1 && IsPage(script[n - 1]) && !HasContinuation(script[n - 1])
        && t.ending.entities == st.results + Pages(script[..n])
  {
    if script != [] {
      var t := Run(q, st, script);
      var n := |t.requests|;
      PrefixTail(script, n);
      match StepOn(q.pk, q.maxRetries, st, script[0])
      case Done(e) =>
        assert n == 1 && script[..n][1..] == [];
      case Again(st', slept) =>
        PagesConcatenated(q, st', script[1..]);
        if t.ending.Fetched? {
          assert script[1..][n - 2] == script[n - 1];
        }
    }
  }

  /** Pagination, the requests: a page leads to another request exactly when it carries a non-empty continuation header. */
  lemma {:induction false} ContinuationDrivesRequests(q: Query, st: FetchState, script: seq<Outcome>)
    decreases |script|
    ensures var t := Run(q, st, script);
      var n := |t.requests|;
      forall i :: 0 <= i < n && IsPage(script[i]) ==>
        (HasContinuation(script[i]) <==> (i < n - 1 || t.ending.ScriptExhausted?))
  {
    if script != [] {
      match StepOn(q.pk, q.maxRetries, st, script[0])
      case Done(e) =>
      case Again(st', slept) =>
        ContinuationDrivesRequests(q, st', script[1..]);
        var t := Run(q, st, script);
        var n := |t.requests|;
        forall i | 0 < i < n && IsPage(script[i])
          ensures HasContinuation(script[i]) <==> (i < n - 1 || t.ending.ScriptExhausted?)
        {
          assert script[1..][i - 1] == script[i];
        }
    }
  }

  /**
   * Pagination, the parameters: the first request carries the state's
   * parameters; each later one carries the filter plus only the markers of
   * the page just read, or the same parameters again after a retried
   * response.
   */
  lemma {:induction false} RequestParameters(q: Query, st: FetchState, script: seq<Outcome>)
    decreases |script|
    ensures var t := Run(q, st, script);
      var n := |t.requests|;
      && (n >= 1 ==> t.requests[0].params == st.params)
      && (forall i :: 0 <= i < n - 1 ==>
            t.requests[i + 1].params == FollowingParams(q.pk, script[i], t.requests[i].params))
  {
    if script != [] {
      match StepOn(q.pk, q.maxRetries, st, script[0])
      case Done(e) =>
      case Again(st', slept) =>
        RequestParameters(q, st', script[1..]);
        var t, t' := Run(q, st, script), Run(q, st', script[1..]);
        var n := |t.requests|;
        assert st'.params == FollowingParams(q.pk, script[0], st.params);
        forall i | 0 <= i < n - 1
          ensures t.requests[i + 1].params == FollowingParams(q.pk, script[i], t.requests[i].params)
        {
          if i > 0 {
            assert t.requests[i] == t'.requests[i - 1] && t.requests[i + 1] == t'.requests[i];
            assert script[1..][i - 1] == script[i];
          }
        }
    }
  }

  /** The parameters of the request after response `o`, given those of the request that drew it. */
  function FollowingParams(pk: string, o: Outcome, prev: Params): Params {
    if IsPage(o) then ContinuationParams(pk, o.nextPartitionKey, o.nextRowKey) else prev
  }

  // ---------------------------------------------------------------------------
  // Worked scripts

  /**
   * Two 503s and then a page, with `maxRetries >= 2`: three identical
   * requests, sleeps of the initial backoff and then of its double (capped),
   * and the third response's entities.
   */
  lemma ThrottledTwiceThenPageExample(pk: string, url: string, maxRetries: int, b: real, page: seq<Entity>)
    requires maxRetries >= 2 && b >= 0.0
    ensures var busy := Reply(503, None, None, None);
      var request := Request(url + "()", BaseParams(pk));
      Run(Query(pk, url, maxRetries), Start(pk, b), [busy, busy, Reply(200, Some(page), None, None)])
        == Trace(Fetched(page), [request, request, request], [b, MinReal(2.0 * b, BackoffCap)])
  {
    var busy, ok := Reply(503, None, None, None), Reply(200, Some(page), None, None);
    var q := Query(pk, url, maxRetries);
    var request := Request(url + "()", BaseParams(pk));
    var st0 := Start(pk, b);
    var st1 := st0.(tries := 1, backoff := NextBackoff(b));
    var st2 := st1.(tries := 2, backoff := NextBackoff(NextBackoff(b)));
    assert [] + page == page;
    assert Run(q, st2, [ok]) == Trace(Fetched(page), [request], []);
    assert [busy, ok][1..] == [ok];
    assert Run(q, st1, [busy, ok]) == After(request, [NextBackoff(b)], Run(q, st2, [ok]));
    assert [busy, busy, ok][1..] == [busy, ok];
    assert Run(q, st0, [busy, busy, ok]) == After(request, [b], Run(q, st1, [busy, ok]));
  }

  /** A 403 fails the key on the first response, without a sleep or a second request. */
  lemma ForbiddenExample(q: Query, st: FetchState, rest: seq<Outcome>)
    ensures Run(q, st, [Reply(403, None, None, None)] + rest)
         == Trace(Denied(403), [Request(q.tableUrl + "()", st.params)], [])
  {
    assert ([Reply(403, None, None, None)] + rest)[0] == Reply(403, None, None, None);
  }

  /**
   * Continuation markers on the first two pages and none on the third: three
   * requests, the second and third carrying the markers of the page before,
   * and the three pages' entities in order.
   */
  lemma ThreePagesExample(pk: string, url: string, maxRetries: int, b: real,
                          p1: seq<Entity>, p2: seq<Entity>, p3: seq<Entity>, m1: string, m2: string)
    requires m1 != "" && m2 != ""
    ensures var script := [Reply(200, Some(p1), Some(m1), None), Reply(200, Some(p2), None, Some(m2)),
                           Reply(200, Some(p3), None, None)];
      var t := Run(Query(pk, url, maxRetries), Start(pk, b), script);
      && t.ending == Fetched(p1 + p2 + p3)
      && t.requests == [Request(url + "()", BaseParams(pk)),
                        Request(url + "()", BaseParams(pk)["NextPartitionKey" := m1]),
                        Request(url + "()", BaseParams(pk)["NextRowKey" := m2])]
      && t.sleeps == []
  {
    var r1, r2, r3 := Reply(200, Some(p1), Some(m1), None), Reply(200, Some(p2), None, Some(m2)),
                      Reply(200, Some(p3), None, None);
    var q := Query(pk, url, maxRetries);
    var st0 := Start(pk, b);
    var st1 := st0.(results := p1, params := ContinuationParams(pk, Some(m1), None));
    var st2 := st1.(results := p1 + p2, params := ContinuationParams(pk, None, Some(m2)));
    assert Run(q, st2, [r3]) == Trace(Fetched(p1 + p2 + p3), [Request(url + "()", st2.params)], []);
    assert [r2, r3][1..] == [r3];
    assert Run(q, st1, [r2, r3]) == After(Request(url + "()", st1.params), [], Run(q, st2, [r3]));
    assert [r1, r2, r3][1..] == [r2, r3];
    assert [] + p1 == p1;
    assert Run(q, st0, [r1, r2, r3]) == After(Request(url + "()", st0.params), [], Run(q, st1, [r2, r3]));
  }

  // ---------------------------------------------------------------------------
  // The loop itself

  /**
   * `request_one_pk(pk, table_url, headers, timeout_sec, max_retries,
   * initial_backoff)` answered by `script`.
   */
  method RequestOnePartition(pk: string, tableUrl: string, maxRetries: int, initialBackoff: real,
                             script: seq<Outcome>)
    returns (ending: Ending, ghost requests: seq<Request>, ghost sleeps: seq<real>)
    ensures ending == Run(Query(pk, tableUrl, maxRetries), Start(pk, initialBackoff), script).ending
    ensures Trace(ending, requests, sleeps)
         == Run(Query(pk, tableUrl, maxRetries), Start(pk, initialBackoff), script)
  {
    ghost var q := Query(pk, tableUrl, maxRetries);
    var safePk := OData.Escape(pk);
    var params := map["$filter" := "PartitionKey eq '" + safePk + "'"];
    var url := tableUrl + "()";

    var results: seq<Entity> := [];
    var nextParams := params;
    var backoff := initialBackoff;
    var tries := 0;
    var next := 0;  // the position in the script of the next response
    requests, sleeps := [], [];
    ghost var whole := Run(q, Start(pk, initialBackoff), script);
    ghost var remaining := whole;

    while true
      invariant 0 <= next <= |script|
      invariant remaining == Run(q, FetchState(results, nextParams, backoff, tries), script[next..])
      invariant whole == Trace(remaining.ending, requests + remaining.requests, sleeps + remaining.sleeps)
      decreases |script| - next
    {
      if next == |script| {
        ending := ScriptExhausted;
        return;
      }
      ghost var st := FetchState(results, nextParams, backoff, tries);
      var resp := script[next];
      requests := requests + [Request(url, nextParams)];
      var step := Attempt(pk, params, maxRetries, results, nextParams, backoff, tries, resp);
      match step
      case Done(e) =>
        RunDone(q, st, script, next, e);
        ending := e;
        return;
      case Again(st', slept) =>
        RunAgain(q, st, script, next, st', slept);
        results, nextParams, backoff, tries := st'.results, st'.params, st'.backoff, st'.tries;
        sleeps := sleeps + slept;
        next := next + 1;
        remaining := Run(q, st', script[next..]);
        assert whole.requests == requests + remaining.requests;
    }
  }

  /**
   * One pass through the `try`/`except` body of the loop (lines 158-198) for
   * the response `resp`: the loop ends, or the loop variables are updated
   * (with the sleep taken, if any) and the loop goes round again.
   */
  method Attempt(pk: string, params: Params, maxRetries: int, results: seq<Entity>, nextParams: Params,
                 backoff: real, tries: int, resp: Outcome)
    returns (step: Step)
    requires params == BaseParams(pk)
    ensures step == StepOn(pk, maxRetries, FetchState(results, nextParams, backoff, tries), resp)
  {
    var raised := false;  // a RequestException reaches the handler
    var tries := tries;
    if resp.RequestFailed? {
      raised := true;
    } else if resp.status == 401 || resp.status == 403 {
      return Done(Denied(resp.status));
    } else if IsThrottled(resp.status) {
      tries := tries + 1;
      if tries > maxRetries {
        raised := true;  // raise_for_status, caught by the handler below
      } else {
        if backoff < 0.0 {
          return Done(InvalidSleep);
        }
        return Again(FetchState(results, nextParams, NextBackoff(backoff), tries), [backoff]);
      }
    } else if IsHttpError(resp.status) {
      raised := true;
    } else {
      var gathered := results + resp.value.GetOr([]);
      var npk, nrk := resp.nextPartitionKey, resp.nextRowKey;
      if Present(npk) || Present(nrk) {
        var following := params;
        if Present(npk) {
          following := following["NextPartitionKey" := npk.value];
        }
        if Present(nrk) {
          following := following["NextRowKey" := nrk.value];
        }
        return Again(FetchState(gathered, following, backoff, tries), []);
      }
      return Done(Fetched(gathered));
    }
    // except requests.RequestException
    tries := tries + 1;
    if tries > maxRetries {
      return Done(RetriesExhausted);
    }
    if backoff < 0.0 {
      return Done(InvalidSleep);
    }
    return Again(FetchState(results, nextParams, NextBackoff(backoff), tries), [backoff]);
  }
}
