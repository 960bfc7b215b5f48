/**
 * The GitHub REST client: the rate-limit decision taken on every response,
 * the two paging loops (issue search and plain list endpoints), the retry
 * loop of a single pull-request fetch, and the query sequencing of the
 * user's pull requests.
 *
 * HTTP and the clock are oracles: the n-th request the client sends gets
 * the response `api(n, ...)` and is handled at time `clock(n)`. Sleeping is
 * recorded in a ghost trace. The source's loops are unbounded; here each
 * loop takes a fuel bound and reports OutOfFuel when it runs out.
 */
module GitHubClient {
  import opened PyStr
  import opened Models
  import opened SeqLemmas

  /** Items per page requested from list and search endpoints. */
  const PageSize: nat := 100
  /** Longest wait, in seconds, the client sleeps through on its own. */
  const MaxAutoWait: nat := 120
  /** Below this many remaining requests the client slows down. */
  const LowQuota: int := 5
  /** The slow-down pause, in seconds. */
  const ThrottleSeconds: nat := 2

  /**
   * The fields of a pull request (or search hit) that the detector reads.
   * `state` is "" when the field is absent; the other optional fields are
   * None when absent or null. `nestedMergedAt` is `pull_request.merged_at`
   * of a search hit, `mergedAt` the top-level field of a pull fetch.
   */
  datatype PullRecord = PullRecord(
    number: int,
    title: string,
    htmlUrl: string,
    login: string,
    state: string,
    createdAt: Option<string>,
    nestedMergedAt: Option<string>,
    mergedAt: Option<string>,
    baseRef: Option<string>,
    body: Option<string>)

  /** One entry of the branch list endpoint. */
  datatype BranchRecord = BranchRecord(name: string)

  /** A response: the two rate-limit headers (when present), whether the status is a success, and the decoded body. */
  datatype Response<B> = Response(remaining: Option<int>, reset: Option<int>, ok: bool, body: B)

  /** What the client does after reading a response's rate-limit headers. */
  datatype RateLimitAction =
    | Proceed
    | Throttle                       // sleep ThrottleSeconds, then go on with this response
    | RetryAfter(wait: nat)          // sleep `wait` seconds, then send the same request again
    | Exceeded(reported: Option<nat>) // raise; `reported` is the wait when a reset time was given

  datatype ClientError =
    | RateLimited(wait: Option<nat>)
    | HttpError
    | OutOfFuel

  /** Seconds to wait for a reset at time `reset` seen at time `now`: never less than one. */
  function WaitSeconds(reset: int, now: int): (w: nat)
    ensures w >= 1
    ensures w == 1 <==> reset <= now
    ensures reset > now ==> now + w == reset + 1
  {
    (if reset > now then reset - now else 0) + 1
  }

  /** `_handle_rate_limit` as a decision. */
  function HandleRateLimit(remaining: Option<int>, reset: Option<int>, now: int, autoWait: bool): (a: RateLimitAction)
    ensures a.RetryAfter? <==>
      remaining == Some(0) && reset.Some? && autoWait && WaitSeconds(reset.value, now) <= MaxAutoWait
    ensures a.RetryAfter? ==> a.wait == WaitSeconds(reset.value, now)
    ensures a.Exceeded? <==>
      remaining == Some(0) && (reset.None? || !autoWait || WaitSeconds(reset.value, now) > MaxAutoWait)
    ensures a.Exceeded? ==> a.reported == if reset.Some? then Some(WaitSeconds(reset.value, now)) else None
    ensures a.Throttle? <==> remaining.Some? && remaining.value != 0 && remaining.value < LowQuota
    ensures a.Proceed? <==> remaining.None? || remaining.value >= LowQuota
  {
    if remaining == Some(0) then
      if reset.Some? then
        var w := WaitSeconds(reset.value, now);
        if autoWait && w <= MaxAutoWait then RetryAfter(w) else Exceeded(Some(w))
      else Exceeded(None)
    else if remaining.Some? && remaining.value < LowQuota then Throttle
    else Proceed
  }

  /** The sleep a decision causes. */
  function SleepOf(a: RateLimitAction): seq<nat> {
    match a
    case RetryAfter(w) => [w]
    case Throttle => [ThrottleSeconds]
    case _ => []
  }

  /**
   * With no quota left and a reset given: auto-wait off always raises with
   * the wait; with auto-wait on, a reset at most 119 s ahead is waited for
   * (a past one for one second) and a reset 120 s or more ahead raises.
   */
  lemma AutoWaitBoundary(reset: int, now: int)
    ensures HandleRateLimit(Some(0), Some(reset), now, false) == Exceeded(Some(WaitSeconds(reset, now)))
    ensures reset <= now ==> HandleRateLimit(Some(0), Some(reset), now, true) == RetryAfter(1)
    ensures reset - now <= 119 ==> HandleRateLimit(Some(0), Some(reset), now, true) == RetryAfter(WaitSeconds(reset, now))
    ensures reset - now >= 120 ==> HandleRateLimit(Some(0), Some(reset), now, true) == Exceeded(Some(reset - now + 1))
  {
  }

  // ---------------------------------------------------------------------------
  // Paging: the specification of `_search_issues` and `_paginate`

  /** One request as the client saw it: its number, the page asked for, the decision taken, the status and the item count. */
  datatype Exchange = Exchange(request: nat, page: nat, action: RateLimitAction, ok: bool, size: nat)

  /** What a run of requests produced: the result, the requests, the sleeps. */
  datatype Outcome<R> = Outcome(result: Result<R, ClientError>, trace: seq<Exchange>, sleeps: seq<nat>)

  /** A response the loop goes on with: not retried, not raised, and a success status. */
  predicate Accepted(e: Exchange) {
    (e.action.Proceed? || e.action.Throttle?) && e.ok
  }

  /** The request after `e` is the next request number, for the same page after a retry and for the next page after a full accepted page. */
  predicate Links(e: Exchange, n: Exchange) {
    n.request == e.request + 1 &&
    if e.action.RetryAfter? then n.page == e.page
    else Accepted(e) && e.size >= PageSize && n.page == e.page + 1
  }

  /** `e` records what the oracle answered to request `e.request` for page `e.page`. */
  predicate Observed<T>(api: (nat, string, nat) -> Response<seq<T>>, key: string, clock: nat -> int, autoWait: bool, e: Exchange) {
    var resp := api(e.request, key, e.page);
    e.action == HandleRateLimit(resp.remaining, resp.reset, clock(e.request), autoWait)
    && e.ok == resp.ok && e.size == |resp.body|
  }

  /** The items of the accepted pages of a trace, in request order. */
  function Collected<T>(api: (nat, string, nat) -> Response<seq<T>>, key: string, t: seq<Exchange>): seq<T> {
    if t == [] then []
    else (if Accepted(t[0]) then api(t[0].request, key, t[0].page).body else []) + Collected(api, key, t[1..])
  }

  lemma CollectedCons<T>(api: (nat, string, nat) -> Response<seq<T>>, key: string, e: Exchange, t: seq<Exchange>)
    ensures Collected(api, key, [e] + t) == (if Accepted(e) then api(e.request, key, e.page).body else []) + Collected(api, key, t)
  {
    assert ([e] + t)[1..] == t;
  }

  /** The sleeps the decisions of a trace cause, in order. */
  function Naps(t: seq<Exchange>): seq<nat> {
    if t == [] then [] else SleepOf(t[0].action) + Naps(t[1..])
  }

  /** An outcome continued after items, requests and sleeps already done. */
  function Resume<T>(items: seq<T>, trace: seq<Exchange>, naps: seq<nat>, o: Outcome<seq<T>>): Outcome<seq<T>> {
    Outcome(if o.result.Ok? then Ok(items + o.result.value) else o.result, trace + o.trace, naps + o.sleeps)
  }

  /** An outcome continued after requests and sleeps that produced nothing. */
  function Prefixed<R>(trace: seq<Exchange>, naps: seq<nat>, o: Outcome<R>): Outcome<R> {
    Outcome(o.result, trace + o.trace, naps + o.sleeps)
  }

  lemma ResumeNothing<T>(o: Outcome<seq<T>>)
    ensures Resume([], [], [], o) == o
  {
    if o.result.Ok? {
      assert [] + o.result.value == o.result.value;
    }
    assert [] + o.trace == o.trace && [] + o.sleeps == o.sleeps;
  }

  /** Continuing twice is continuing once with the joined prefixes. */
  lemma ResumeStep<T>(a: seq<T>, t: seq<Exchange>, n: seq<nat>, b: seq<T>, u: seq<Exchange>, m: seq<nat>, o: Outcome<seq<T>>)
    ensures Resume(a, t, n, Resume(b, u, m, o)) == Resume(a + b, t + u, n + m, o)
  {
    if o.result.Ok? {
      assert a + (b + o.result.value) == (a + b) + o.result.value;
    }
    assert t + (u + o.trace) == (t + u) + o.trace;
    assert n + (m + o.sleeps) == (n + m) + o.sleeps;
  }

  /**
   * The paging loop from request number k on, asking for `page`: retry the
   * same page when told to wait, raise on an exceeded limit or a failure
   * status, stop on an empty or short page, and otherwise go on with the
   * next page.
   */
  function PageRun<T>(api: (nat, string, nat) -> Response<seq<T>>, key: string, clock: nat -> int, autoWait: bool,
                      k: nat, page: nat, fuel: nat): Outcome<seq<T>>
    decreases fuel
  {
    if fuel == 0 then Outcome(Err(OutOfFuel), [], [])
    else
      var resp := api(k, key, page);
      var action := HandleRateLimit(resp.remaining, resp.reset, clock(k), autoWait);
      var e := Exchange(k, page, action, resp.ok, |resp.body|);
      if action.RetryAfter? then
        Resume([], [e], [action.wait], PageRun(api, key, clock, autoWait, k + 1, page, fuel - 1))
      else if action.Exceeded? then Outcome(Err(RateLimited(action.reported)), [e], [])
      else if !resp.ok then Outcome(Err(HttpError), [e], SleepOf(action))
      else if |resp.body| < PageSize then Outcome(Ok(resp.body), [e], SleepOf(action))
      else Resume(resp.body, [e], SleepOf(action), PageRun(api, key, clock, autoWait, k + 1, page + 1, fuel - 1))
  }

  /**
   * The paging loop as the client runs it, carrying the items, requests and
   * sleeps so far; it ends where PageRun ends.
   */
  function PageLoop<T>(api: (nat, string, nat) -> Response<seq<T>>, key: string, clock: nat -> int, autoWait: bool,
                       k: nat, page: nat, fuel: nat, items: seq<T>, trace: seq<Exchange>, naps: seq<nat>): Outcome<seq<T>>
    decreases fuel
  {
    if fuel == 0 then Outcome(Err(OutOfFuel), trace, naps)
    else
      var resp := api(k, key, page);
      var action := HandleRateLimit(resp.remaining, resp.reset, clock(k), autoWait);
      var e := Exchange(k, page, action, resp.ok, |resp.body|);
      if action.RetryAfter? then
        PageLoop(api, key, clock, autoWait, k + 1, page, fuel - 1, items, trace + [e], naps + SleepOf(action))
      else if action.Exceeded? then Outcome(Err(RateLimited(action.reported)), trace + [e], naps + SleepOf(action))
      else if !resp.ok then Outcome(Err(HttpError), trace + [e], naps + SleepOf(action))
      else if |resp.body| < PageSize then Outcome(Ok(items + resp.body), trace + [e], naps + SleepOf(action))
      else PageLoop(api, key, clock, autoWait, k + 1, page + 1, fuel - 1, items + resp.body, trace + [e], naps + SleepOf(action))
  }

  /** One step of the paging loop, with the request's answer and decision named. */
  lemma PageLoopStep<T>(api: (nat, string, nat) -> Response<seq<T>>, key: string, clock: nat -> int, autoWait: bool,
                        k: nat, page: nat, fuel: nat, items: seq<T>, trace: seq<Exchange>, naps: seq<nat>,
                        resp: Response<seq<T>>, action: RateLimitAction)
    requires fuel > 0 && resp == api(k, key, page)
    requires action == HandleRateLimit(resp.remaining, resp.reset, clock(k), autoWait)
    ensures var e := Exchange(k, page, action, resp.ok, |resp.body|);
      PageLoop(api, key, clock, autoWait, k, page, fuel, items, trace, naps) ==
        if action.RetryAfter? then
          PageLoop(api, key, clock, autoWait, k + 1, page, fuel - 1, items, trace + [e], naps + SleepOf(action))
        else if action.Exceeded? then Outcome(Err(RateLimited(action.reported)), trace + [e], naps + SleepOf(action))
        else if !resp.ok then Outcome(Err(HttpError), trace + [e], naps + SleepOf(action))
        else if |resp.body| < PageSize then Outcome(Ok(items + resp.body), trace + [e], naps + SleepOf(action))
        else PageLoop(api, key, clock, autoWait, k + 1, page + 1, fuel - 1, items + resp.body, trace + [e], naps + SleepOf(action))
  {
  }

  /** The loop with carried state is PageRun continued after that state. */
  lemma {:induction false} PageLoopResumes<T>(api: (nat, string, nat) -> Response<seq<T>>, key: string, clock: nat -> int, autoWait: bool,
                                              k: nat, page: nat, fuel: nat, items: seq<T>, trace: seq<Exchange>, naps: seq<nat>)
    ensures PageLoop(api, key, clock, autoWait, k, page, fuel, items, trace, naps)
         == Resume(items, trace, naps, PageRun(api, key, clock, autoWait, k, page, fuel))
    decreases fuel
  {
    if fuel > 0 {
      var resp := api(k, key, page);
      var action := HandleRateLimit(resp.remaining, resp.reset, clock(k), autoWait);
      var e := Exchange(k, page, action, resp.ok, |resp.body|);
      if action.RetryAfter? {
        var next := PageRun(api, key, clock, autoWait, k + 1, page, fuel - 1);
        PageLoopResumes(api, key, clock, autoWait, k + 1, page, fuel - 1, items, trace + [e], naps + SleepOf(action));
        ResumeStep(items, trace, naps, [], [e], SleepOf(action), next);
        assert items + [] == items;
      } else if action.Exceeded? {
        assert naps + [] == naps;
      } else if resp.ok && |resp.body| >= PageSize {
        var next := PageRun(api, key, clock, autoWait, k + 1, page + 1, fuel - 1);
        PageLoopResumes(api, key, clock, autoWait, k + 1, page + 1, fuel - 1, items + resp.body, trace + [e], naps + SleepOf(action));
        ResumeStep(items, trace, naps, resp.body, [e], SleepOf(action), next);
      }
    } else {
      assert trace + [] == trace && naps + [] == naps;
    }
  }

  /** The first request of a paging run, and what follows it when the loop goes on. */
  lemma PageRunHead<T>(api: (nat, string, nat) -> Response<seq<T>>, key: string, clock: nat -> int, autoWait: bool,
                       k: nat, page: nat, fuel: nat, resp: Response<seq<T>>, action: RateLimitAction,
                       o: Outcome<seq<T>>, rest: Outcome<seq<T>>)
    requires fuel > 0 && resp == api(k, key, page)
    requires action == HandleRateLimit(resp.remaining, resp.reset, clock(k), autoWait)
    requires o == PageRun(api, key, clock, autoWait, k, page, fuel)
    requires rest == PageRun(api, key, clock, autoWait, k + 1, if action.RetryAfter? then page else page + 1, fuel - 1)
    ensures o.trace != [] && o.trace[0] == Exchange(k, page, action, resp.ok, |resp.body|)
    ensures action.RetryAfter? || (!action.Exceeded? && resp.ok && |resp.body| >= PageSize) ==>
      && o.trace[1..] == rest.trace
      && (rest.result.Ok? ==> o.result == Ok((if action.RetryAfter? then [] else resp.body) + rest.result.value))
      && (!rest.result.Ok? ==> o.result == rest.result)
    ensures !(action.RetryAfter? || (!action.Exceeded? && resp.ok && |resp.body| >= PageSize)) ==>
      && |o.trace| == 1
      && o.result == (if action.Exceeded? then Err(RateLimited(action.reported))
                      else if !resp.ok then Err(HttpError) else Ok(resp.body))
  {
    var e := Exchange(k, page, action, resp.ok, |resp.body|);
    assert ([e] + rest.trace)[1..] == rest.trace;
  }

  /** Each request of t records the oracle's answer and is linked to the next. */
  predicate WellLinked<T>(api: (nat, string, nat) -> Response<seq<T>>, key: string, clock: nat -> int, autoWait: bool,
                          t: seq<Exchange>) {
    && (forall j :: 0 <= j < |t| ==> Observed(api, key, clock, autoWait, t[j]))
    && (forall j :: 0 <= j < |t| - 1 ==> Links(t[j], t[j + 1]))
  }

  /** A well-linked trace stays well linked with an observed request in front that links to its first. */
  lemma WellLinkedCons<T>(api: (nat, string, nat) -> Response<seq<T>>, key: string, clock: nat -> int, autoWait: bool,
                          t: seq<Exchange>, rest: seq<Exchange>)
    requires t != [] && t[1..] == rest && Observed(api, key, clock, autoWait, t[0])
    requires rest != [] ==> Links(t[0], rest[0])
    requires WellLinked(api, key, clock, autoWait, rest)
    ensures WellLinked(api, key, clock, autoWait, t)
  {
    forall j | 0 < j < |t|
      ensures Observed(api, key, clock, autoWait, t[j])
      ensures j < |t| - 1 ==> Links(t[j], t[j + 1])
    {
      assert t[j] == rest[j - 1];
      if j < |t| - 1 {
        assert t[j + 1] == rest[j];
      }
    }
  }

  /** A paging run sends at least one request and at most fuel, the first for request number k and the given page. */
  lemma {:induction false} PageRunShape<T>(api: (nat, string, nat) -> Response<seq<T>>, key: string, clock: nat -> int, autoWait: bool,
                                           k: nat, page: nat, fuel: nat)
    ensures var t := PageRun(api, key, clock, autoWait, k, page, fuel).trace;
      && |t| <= fuel && (fuel > 0 ==> |t| > 0)
      && (t != [] ==> t[0].request == k && t[0].page == page)
    decreases fuel
  {
    if fuel > 0 {
      var resp := api(k, key, page);
      var action := HandleRateLimit(resp.remaining, resp.reset, clock(k), autoWait);
      var next := if action.RetryAfter? then page else page + 1;
      var o := PageRun(api, key, clock, autoWait, k, page, fuel);
      var rest := PageRun(api, key, clock, autoWait, k + 1, next, fuel - 1);
      PageRunHead(api, key, clock, autoWait, k, page, fuel, resp, action, o, rest);
      if action.RetryAfter? || (!action.Exceeded? && resp.ok && |resp.body| >= PageSize) {
        PageRunShape(api, key, clock, autoWait, k + 1, next, fuel - 1);
      }
    }
  }

  /**
   * Each request of a paging run records the oracle's answer and is linked
   * to the next: the next request number, the same page after a retry, and
   * the next page only after a full accepted page.
   */
  lemma {:induction false} PageRunTrace<T>(api: (nat, string, nat) -> Response<seq<T>>, key: string, clock: nat -> int, autoWait: bool,
                                           k: nat, page: nat, fuel: nat)
    ensures WellLinked(api, key, clock, autoWait, PageRun(api, key, clock, autoWait, k, page, fuel).trace)
    decreases fuel
  {
    if fuel > 0 {
      var resp := api(k, key, page);
      var action := HandleRateLimit(resp.remaining, resp.reset, clock(k), autoWait);
      var next := if action.RetryAfter? then page else page + 1;
      var o := PageRun(api, key, clock, autoWait, k, page, fuel);
      var rest := PageRun(api, key, clock, autoWait, k + 1, next, fuel - 1);
      PageRunHead(api, key, clock, autoWait, k, page, fuel, resp, action, o, rest);
      var e := Exchange(k, page, action, resp.ok, |resp.body|);
      assert Observed(api, key, clock, autoWait, e);
      if action.RetryAfter? || (!action.Exceeded? && resp.ok && |resp.body| >= PageSize) {
        PageRunTrace(api, key, clock, autoWait, k + 1, next, fuel - 1);
        PageRunShape(api, key, clock, autoWait, k + 1, next, fuel - 1);
        assert rest.trace != [] ==> Links(e, rest.trace[0]);
        WellLinkedCons(api, key, clock, autoWait, o.trace, rest.trace);
      } else {
        WellLinkedCons(api, key, clock, autoWait, o.trace, []);
      }
    }
  }

  /** The sleeps of a paging run are those its decisions call for. */
  lemma {:induction false} PageRunNaps<T>(api: (nat, string, nat) -> Response<seq<T>>, key: string, clock: nat -> int, autoWait: bool,
                                          k: nat, page: nat, fuel: nat)
    ensures var o := PageRun(api, key, clock, autoWait, k, page, fuel); o.sleeps == Naps(o.trace)
    decreases fuel
  {
    if fuel > 0 {
      var resp := api(k, key, page);
      var action := HandleRateLimit(resp.remaining, resp.reset, clock(k), autoWait);
      var e := Exchange(k, page, action, resp.ok, |resp.body|);
      var o := PageRun(api, key, clock, autoWait, k, page, fuel);
      if action.RetryAfter? || (!action.Exceeded? && resp.ok && |resp.body| >= PageSize) {
        var next := if action.RetryAfter? then page else page + 1;
        PageRunNaps(api, key, clock, autoWait, k + 1, next, fuel - 1);
        assert o.trace[1..] == PageRun(api, key, clock, autoWait, k + 1, next, fuel - 1).trace;
      } else {
        assert o.trace[1..] == [];
      }
    }
  }

  /** The last request of a trace was accepted and brought a page shorter than PageSize. */
  predicate EndsOnShortPage(t: seq<Exchange>) {
    t != [] && Accepted(t[|t| - 1]) && t[|t| - 1].size < PageSize
  }

  /** A successful paging run ends on an accepted page shorter than PageSize (possibly empty). */
  lemma {:induction false} PageRunOk<T>(api: (nat, string, nat) -> Response<seq<T>>, key: string, clock: nat -> int, autoWait: bool,
                                        k: nat, page: nat, fuel: nat)
    ensures var o := PageRun(api, key, clock, autoWait, k, page, fuel);
      o.result.Ok? ==> EndsOnShortPage(o.trace)
    decreases fuel
  {
    if fuel > 0 {
      var resp := api(k, key, page);
      var action := HandleRateLimit(resp.remaining, resp.reset, clock(k), autoWait);
      var o := PageRun(api, key, clock, autoWait, k, page, fuel);
      var next := if action.RetryAfter? then page else page + 1;
      var restRun := PageRun(api, key, clock, autoWait, k + 1, next, fuel - 1);
      PageRunHead(api, key, clock, autoWait, k, page, fuel, resp, action, PageRun(api, key, clock, autoWait, k, page, fuel), restRun);
      if action.RetryAfter? || (!action.Exceeded? && resp.ok && |resp.body| >= PageSize) {
        PageRunOk(api, key, clock, autoWait, k + 1, next, fuel - 1);
        var rest := PageRun(api, key, clock, autoWait, k + 1, next, fuel - 1);
        if o.result.Ok? {
          assert rest.result.Ok?;
          LastOfTail(o.trace, rest.trace);
        }
      }
    }
  }

  /** A successful paging run returns the items of all accepted pages, in request order. */
  lemma {:induction false} PageRunItems<T>(api: (nat, string, nat) -> Response<seq<T>>, key: string, clock: nat -> int, autoWait: bool,
                                           k: nat, page: nat, fuel: nat)
    ensures var o := PageRun(api, key, clock, autoWait, k, page, fuel);
      o.result.Ok? ==> o.result.value == Collected(api, key, o.trace)
    decreases fuel
  {
    if fuel > 0 {
      var resp := api(k, key, page);
      var action := HandleRateLimit(resp.remaining, resp.reset, clock(k), autoWait);
      var o := PageRun(api, key, clock, autoWait, k, page, fuel);
      var next := if action.RetryAfter? then page else page + 1;
      var restRun := PageRun(api, key, clock, autoWait, k + 1, next, fuel - 1);
      PageRunHead(api, key, clock, autoWait, k, page, fuel, resp, action, PageRun(api, key, clock, autoWait, k, page, fuel), restRun);
      var e := o.trace[0];
      if action.RetryAfter? || (!action.Exceeded? && resp.ok && |resp.body| >= PageSize) {
        PageRunItems(api, key, clock, autoWait, k + 1, next, fuel - 1);
        var rest := PageRun(api, key, clock, autoWait, k + 1, next, fuel - 1);
        if o.result.Ok? {
          assert rest.result.Ok?;
          HeadTail(o.trace);
          CollectedCons(api, key, e, rest.trace);
        }
      } else if o.result.Ok? {
        assert Accepted(e);
        HeadTail(o.trace);
        CollectedCons(api, key, e, []);
      }
    }
  }

  /**
   * A failed run failed on its last request: a rate-limit error when that
   * request's limit was exceeded, an HTTP error when its status was a failure
   * that was not a rate-limit case, and OutOfFuel only after using every
   * request the fuel allows.
   */
  predicate FailureExplained<R>(o: Outcome<R>, fuel: nat) {
    && (o.result.Err? && o.result.error.RateLimited? ==>
          o.trace != [] && o.trace[|o.trace| - 1].action == Exceeded(o.result.error.wait))
    && (o.result == Err(HttpError) ==>
          o.trace != [] && !o.trace[|o.trace| - 1].ok
          && (o.trace[|o.trace| - 1].action.Proceed? || o.trace[|o.trace| - 1].action.Throttle?))
    && (o.result == Err(OutOfFuel) ==> |o.trace| == fuel)
  }

  /** A failure explained after the first request stays explained with that request in front. */
  lemma FailureExplainedStep<R>(o: Outcome<R>, rest: Outcome<R>, fuel: nat)
    requires fuel > 0 && o.trace != [] && o.trace[1..] == rest.trace
    requires o.result.Err? ==> o.result == rest.result
    requires FailureExplained(rest, fuel - 1)
    ensures FailureExplained(o, fuel)
  {
    if rest.trace != [] {
      LastOfTail(o.trace, rest.trace);
    }
  }

  /** Every failure of a paging run is explained by its last request. */
  lemma {:induction false} PageRunErr<T>(api: (nat, string, nat) -> Response<seq<T>>, key: string, clock: nat -> int, autoWait: bool,
                                         k: nat, page: nat, fuel: nat)
    ensures FailureExplained(PageRun(api, key, clock, autoWait, k, page, fuel), fuel)
    decreases fuel
  {
    if fuel > 0 {
      var resp := api(k, key, page);
      var action := HandleRateLimit(resp.remaining, resp.reset, clock(k), autoWait);
      var o := PageRun(api, key, clock, autoWait, k, page, fuel);
      var next := if action.RetryAfter? then page else page + 1;
      var restRun := PageRun(api, key, clock, autoWait, k + 1, next, fuel - 1);
      PageRunHead(api, key, clock, autoWait, k, page, fuel, resp, action, PageRun(api, key, clock, autoWait, k, page, fuel), restRun);
      if action.RetryAfter? || (!action.Exceeded? && resp.ok && |resp.body| >= PageSize) {
        PageRunErr(api, key, clock, autoWait, k + 1, next, fuel - 1);
        FailureExplainedStep(o, PageRun(api, key, clock, autoWait, k + 1, next, fuel - 1), fuel);
      }
    }
  }

  // ---------------------------------------------------------------------------
  // The retry loop of a single pull-request fetch

  /**
   * The retry loop of `get_pr_details` from request number k on. A pull
   * fetch asks for no page and its body is one record, so its exchanges
   * record page 1 and size 1; only request, action and status carry meaning.
   */
  function DetailRun(api: (nat, string, int) -> Response<PullRecord>, repo: string, number: int, clock: nat -> int, autoWait: bool, k: nat, fuel: nat): Outcome<PullRecord>
    decreases fuel
  {
    if fuel == 0 then Outcome(Err(OutOfFuel), [], [])
    else
      var resp := api(k, repo, number);
      var action := HandleRateLimit(resp.remaining, resp.reset, clock(k), autoWait);
      var e := Exchange(k, 1, action, resp.ok, 1);
      if action.RetryAfter? then
        Prefixed([e], [action.wait], DetailRun(api, repo, number, clock, autoWait, k + 1, fuel - 1))
      else if action.Exceeded? then Outcome(Err(RateLimited(action.reported)), [e], [])
      else if !resp.ok then Outcome(Err(HttpError), [e], SleepOf(action))
      else Outcome(Ok(resp.body), [e], SleepOf(action))
  }

  /** One step of the pull fetch, continued after requests and sleeps already done. */
  lemma DetailRunStep(api: (nat, string, int) -> Response<PullRecord>, repo: string, number: int, clock: nat -> int,
                      autoWait: bool, k: nat, fuel: nat, trace: seq<Exchange>, naps: seq<nat>,
                      resp: Response<PullRecord>, action: RateLimitAction)
    requires fuel > 0 && resp == api(k, repo, number)
    requires action == HandleRateLimit(resp.remaining, resp.reset, clock(k), autoWait)
    ensures var e := Exchange(k, 1, action, resp.ok, 1);
      Prefixed(trace, naps, DetailRun(api, repo, number, clock, autoWait, k, fuel)) ==
        if action.RetryAfter? then
          Prefixed(trace + [e], naps + SleepOf(action), DetailRun(api, repo, number, clock, autoWait, k + 1, fuel - 1))
        else
          var result := if action.Exceeded? then Err(RateLimited(action.reported))
            else if !resp.ok then Err(HttpError) else Ok(resp.body);
          Outcome(result, trace + [e], naps + SleepOf(action))
  {
    var e := Exchange(k, 1, action, resp.ok, 1);
    if action.RetryAfter? {
      var rest := DetailRun(api, repo, number, clock, autoWait, k + 1, fuel - 1);
      assert trace + ([e] + rest.trace) == trace + [e] + rest.trace;
      assert naps + ([action.wait] + rest.sleeps) == naps + [action.wait] + rest.sleeps;
    } else if action.Exceeded? {
      assert naps + [] == naps;
    }
  }

  /** `e` records what the oracle answered to request `e.request` of a pull fetch. */
  predicate Fetched(api: (nat, string, int) -> Response<PullRecord>, repo: string, number: int, clock: nat -> int,
                    autoWait: bool, e: Exchange) {
    var resp := api(e.request, repo, number);
    e.action == HandleRateLimit(resp.remaining, resp.reset, clock(e.request), autoWait) && e.ok == resp.ok
  }

  /** The first request of a pull fetch, and what follows it. */
  lemma DetailRunHead(api: (nat, string, int) -> Response<PullRecord>, repo: string, number: int, clock: nat -> int,
                      autoWait: bool, k: nat, fuel: nat)
    requires fuel > 0
    ensures var resp := api(k, repo, number);
      var action := HandleRateLimit(resp.remaining, resp.reset, clock(k), autoWait);
      var o := DetailRun(api, repo, number, clock, autoWait, k, fuel);
      var rest := DetailRun(api, repo, number, clock, autoWait, k + 1, fuel - 1);
      && o.trace != [] && o.trace[0] == Exchange(k, 1, action, resp.ok, 1)
      && (action.RetryAfter? ==> o.result == rest.result && o.trace[1..] == rest.trace)
      && (!action.RetryAfter? ==>
            && o.trace == [o.trace[0]]
            && o.result == (if action.Exceeded? then Err(RateLimited(action.reported))
                            else if !resp.ok then Err(HttpError) else Ok(resp.body)))
  {
    var resp := api(k, repo, number);
    var action := HandleRateLimit(resp.remaining, resp.reset, clock(k), autoWait);
    if action.RetryAfter? {
      var e := Exchange(k, 1, action, resp.ok, 1);
      var rest := DetailRun(api, repo, number, clock, autoWait, k + 1, fuel - 1);
      assert ([e] + rest.trace)[1..] == rest.trace;
    }
  }

  /**
   * The requests of t are numbered consecutively from k, each records the
   * oracle's answer, and every one but the last was told to retry.
   */
  predicate RetriedUntilLast(api: (nat, string, int) -> Response<PullRecord>, repo: string, number: int, clock: nat -> int,
                             autoWait: bool, k: nat, t: seq<Exchange>) {
    && (forall j :: 0 <= j < |t| ==> t[j].request == k + j && Fetched(api, repo, number, clock, autoWait, t[j]))
    && (forall j :: 0 <= j < |t| - 1 ==> t[j].action.RetryAfter?)
  }

  lemma RetriedUntilLastCons(api: (nat, string, int) -> Response<PullRecord>, repo: string, number: int, clock: nat -> int,
                             autoWait: bool, k: nat, t: seq<Exchange>, rest: seq<Exchange>)
    requires t != [] && t[1..] == rest
    requires t[0].request == k && Fetched(api, repo, number, clock, autoWait, t[0])
    requires rest != [] ==> t[0].action.RetryAfter?
    requires RetriedUntilLast(api, repo, number, clock, autoWait, k + 1, rest)
    ensures RetriedUntilLast(api, repo, number, clock, autoWait, k, t)
  {
    forall j | 0 < j < |t|
      ensures t[j].request == k + j && Fetched(api, repo, number, clock, autoWait, t[j])
      ensures j < |t| - 1 ==> t[j].action.RetryAfter?
    {
      assert t[j] == rest[j - 1];
    }
  }

  /** A pull fetch sends at least one request and at most fuel, and retries until its last request. */
  lemma {:induction false} DetailRunTrace(api: (nat, string, int) -> Response<PullRecord>, repo: string, number: int, clock: nat -> int, autoWait: bool, k: nat, fuel: nat)
    ensures var t := DetailRun(api, repo, number, clock, autoWait, k, fuel).trace;
      && |t| <= fuel && (fuel > 0 ==> |t| > 0)
      && RetriedUntilLast(api, repo, number, clock, autoWait, k, t)
    decreases fuel
  {
    if fuel > 0 {
      var resp := api(k, repo, number);
      var action := HandleRateLimit(resp.remaining, resp.reset, clock(k), autoWait);
      DetailRunHead(api, repo, number, clock, autoWait, k, fuel);
      var t := DetailRun(api, repo, number, clock, autoWait, k, fuel).trace;
      assert Fetched(api, repo, number, clock, autoWait, t[0]);
      if action.RetryAfter? {
        DetailRunTrace(api, repo, number, clock, autoWait, k + 1, fuel - 1);
        var rest := DetailRun(api, repo, number, clock, autoWait, k + 1, fuel - 1).trace;
        RetriedUntilLastCons(api, repo, number, clock, autoWait, k, t, rest);
      } else {
        RetriedUntilLastCons(api, repo, number, clock, autoWait, k, t, []);
      }
    }
  }

  /**
   * A pull fetch from request number k succeeded exactly when its last
   * request was accepted, and then returned that request's body; it ran out
   * of fuel only after using every request the fuel allows.
   */
  predicate FetchSettled(api: (nat, string, int) -> Response<PullRecord>, repo: string, number: int, k: nat, fuel: nat,
                         o: Outcome<PullRecord>) {
    && (o.result.Ok? <==> o.trace != [] && Accepted(o.trace[|o.trace| - 1]))
    && (o.result.Ok? ==> o.result.value == api(k + |o.trace| - 1, repo, number).body)
    && (o.result == Err(OutOfFuel) ==> |o.trace| == fuel)
  }

  /** A fetch settled after a first request that was told to retry stays settled with that request in front. */
  lemma FetchSettledStep(api: (nat, string, int) -> Response<PullRecord>, repo: string, number: int, k: nat, fuel: nat,
                         o: Outcome<PullRecord>, rest: Outcome<PullRecord>)
    requires fuel > 0 && o.trace != [] && o.trace[1..] == rest.trace && o.result == rest.result
    requires !Accepted(o.trace[0])
    requires FetchSettled(api, repo, number, k + 1, fuel - 1, rest)
    ensures FetchSettled(api, repo, number, k, fuel, o)
  {
    if rest.trace != [] {
      LastOfTail(o.trace, rest.trace);
    }
  }

  /** Every pull fetch is settled by its last request. */
  lemma {:induction false} DetailRunResult(api: (nat, string, int) -> Response<PullRecord>, repo: string, number: int, clock: nat -> int, autoWait: bool, k: nat, fuel: nat)
    ensures FetchSettled(api, repo, number, k, fuel, DetailRun(api, repo, number, clock, autoWait, k, fuel))
    decreases fuel
  {
    if fuel > 0 {
      var resp := api(k, repo, number);
      var action := HandleRateLimit(resp.remaining, resp.reset, clock(k), autoWait);
      DetailRunHead(api, repo, number, clock, autoWait, k, fuel);
      if action.RetryAfter? {
        DetailRunResult(api, repo, number, clock, autoWait, k + 1, fuel - 1);
        FetchSettledStep(api, repo, number, k, fuel, DetailRun(api, repo, number, clock, autoWait, k, fuel),
                         DetailRun(api, repo, number, clock, autoWait, k + 1, fuel - 1));
      }
    }
  }

  /** Every failure of a pull fetch is explained by its last request, as for the paging runs. */
  lemma {:induction false} DetailRunErr(api: (nat, string, int) -> Response<PullRecord>, repo: string, number: int, clock: nat -> int, autoWait: bool, k: nat, fuel: nat)
    ensures FailureExplained(DetailRun(api, repo, number, clock, autoWait, k, fuel), fuel)
    decreases fuel
  {
    if fuel > 0 {
      var resp := api(k, repo, number);
      var action := HandleRateLimit(resp.remaining, resp.reset, clock(k), autoWait);
      DetailRunHead(api, repo, number, clock, autoWait, k, fuel);
      if action.RetryAfter? {
        DetailRunErr(api, repo, number, clock, autoWait, k + 1, fuel - 1);
        FailureExplainedStep(DetailRun(api, repo, number, clock, autoWait, k, fuel),
                             DetailRun(api, repo, number, clock, autoWait, k + 1, fuel - 1), fuel);
      }
    }
  }

  // ---------------------------------------------------------------------------
  // Search queries

  /** The merged-PR query; a `since` date narrows it by merge date. */
  function MergedQuery(repo: string, author: string, base: string, since: Option<string>): string {
    "repo:" + repo + " is:pr " + "is:merged" + " author:" + author + " base:" + base
      + (if since.Some? then " merged:>=" + since.value else "")
  }

  /** The open-PR query; a `since` date narrows it by creation date. */
  function OpenQuery(repo: string, author: string, base: string, since: Option<string>): string {
    "repo:" + repo + " is:pr " + "is:open" + " author:" + author + " base:" + base
      + (if since.Some? then " created:>=" + since.value else "")
  }

  /** The query for PRs whose body mentions a number. */
  function RelatedQuery(repo: string, number: int): string {
    "repo:" + repo + " is:pr " + IntToString(number) + " in:body"
  }

  /** A date narrows the merged query by merge date and the open query by creation date, and nothing else changes. */
  lemma SinceQualifiers(repo: string, author: string, base: string, date: string)
    ensures MergedQuery(repo, author, base, Some(date)) == MergedQuery(repo, author, base, None) + " merged:>=" + date
    ensures OpenQuery(repo, author, base, Some(date)) == OpenQuery(repo, author, base, None) + " created:>=" + date
  {
  }

  /** The merged query asks for merged PRs and the open query for open ones. */
  lemma QueryStates(repo: string, author: string, base: string, since: Option<string>)
    ensures Contains(MergedQuery(repo, author, base, since), "is:merged")
    ensures Contains(OpenQuery(repo, author, base, since), "is:open")
  {
    var head := "repo:" + repo + " is:pr ";
    QualifierKept(head, "is:merged", author, base, if since.Some? then " merged:>=" + since.value else "");
    QualifierKept(head, "is:open", author, base, if since.Some? then " created:>=" + since.value else "");
  }

  lemma QualifierKept(head: string, state: string, author: string, base: string, date: string)
    ensures Contains(head + state + " author:" + author + " base:" + base + date, state)
  {
    ContainsSuffix(head, state);
    ContainsExtend(head + state, " author:", state);
    ContainsExtend(head + state + " author:", author, state);
    ContainsExtend(head + state + " author:" + author, " base:", state);
    ContainsExtend(head + state + " author:" + author + " base:", base, state);
    ContainsExtend(head + state + " author:" + author + " base:" + base, date, state);
  }

  // ---------------------------------------------------------------------------
  // The client

  class GitHubClient {
    const autoWait: bool
    /** Search endpoint: request number, query, page. */
    const searchApi: (nat, string, nat) -> Response<seq<PullRecord>>
    /** A list endpoint: request number, endpoint path, page. */
    const listApi: (nat, string, nat) -> Response<seq<BranchRecord>>
    /** Single pull fetch: request number, repository, PR number. */
    const pullApi: (nat, string, int) -> Response<PullRecord>
    /** The time at which the response to a request is handled. */
    const clock: nat -> int

    /** Requests sent so far; the next request has this number. */
    var sent: nat
    /** Every sleep, in seconds, in order. */
    ghost var sleeps: seq<nat>

    constructor (autoWait: bool,
                 searchApi: (nat, string, nat) -> Response<seq<PullRecord>>,
                 listApi: (nat, string, nat) -> Response<seq<BranchRecord>>,
                 pullApi: (nat, string, int) -> Response<PullRecord>,
                 clock: nat -> int)
      ensures this.autoWait == autoWait && this.searchApi == searchApi && this.listApi == listApi
      ensures this.pullApi == pullApi && this.clock == clock
      ensures sent == 0 && sleeps == []
    {
      this.autoWait := autoWait;
      this.searchApi := searchApi;
      this.listApi := listApi;
      this.pullApi := pullApi;
      this.clock := clock;
      sent := 0;
      sleeps := [];
    }

    /** `_search_issues`: all hits of a query, page by page. */
    method SearchIssues(query: string, fuel: nat) returns (r: Result<seq<PullRecord>, ClientError>)
      modifies this
      ensures var o := PageRun(searchApi, query, clock, autoWait, old(sent), 1, fuel);
        r == o.result && sent == old(sent) + |o.trace| && sleeps == old(sleeps) + o.sleeps
    {
      ghost var whole := PageLoop(searchApi, query, clock, autoWait, sent, 1, fuel, [], [], []);
      PageLoopResumes(searchApi, query, clock, autoWait, sent, 1, fuel, [], [], []);
      ResumeNothing(PageRun(searchApi, query, clock, autoWait, sent, 1, fuel));
      var k := sent;
      var page := 1;
      var left := fuel;
      var items: seq<PullRecord> := [];
      ghost var trace: seq<Exchange> := [];
      ghost var naps: seq<nat> := [];
      while left > 0
        invariant whole == PageLoop(searchApi, query, clock, autoWait, k, page, left, items, trace, naps)
        invariant sent == old(sent) && sleeps == old(sleeps) && k == sent + |trace|
        decreases left
      {
        var response := searchApi(k, query, page);
        var action := HandleRateLimit(response.remaining, response.reset, clock(k), autoWait);
        ghost var e := Exchange(k, page, action, response.ok, |response.body|);
        PageLoopStep(searchApi, query, clock, autoWait, k, page, left, items, trace, naps, response, action);
        trace, naps := trace + [e], naps + SleepOf(action);
        k, left := k + 1, left - 1;
        if action.RetryAfter? {
          continue;
        }
        if action.Exceeded? {
          r := Err(RateLimited(action.reported));
          sent, sleeps := k, sleeps + naps;
          return;
        }
        if !response.ok {
          r := Err(HttpError);
          sent, sleeps := k, sleeps + naps;
          return;
        }
        var data := response.body;
        items := items + data;
        if |data| < PageSize {
          r := Ok(items);
          sent, sleeps := k, sleeps + naps;
          return;
        }
        page := page + 1;
      }
      r := Err(OutOfFuel);
      sent, sleeps := k, sleeps + naps;
    }

    /** `_paginate` over a list endpoint: all entries, page by page. */
    method Paginate(endpoint: string, fuel: nat) returns (r: Result<seq<BranchRecord>, ClientError>)
      modifies this
      ensures var o := PageRun(listApi, endpoint, clock, autoWait, old(sent), 1, fuel);
        r == o.result && sent == old(sent) + |o.trace| && sleeps == old(sleeps) + o.sleeps
    {
      ghost var whole := PageLoop(listApi, endpoint, clock, autoWait, sent, 1, fuel, [], [], []);
      PageLoopResumes(listApi, endpoint, clock, autoWait, sent, 1, fuel, [], [], []);
      ResumeNothing(PageRun(listApi, endpoint, clock, autoWait, sent, 1, fuel));
      var k := sent;
      var page := 1;
      var left := fuel;
      var items: seq<BranchRecord> := [];
      ghost var trace: seq<Exchange> := [];
      ghost var naps: seq<nat> := [];
      while left > 0
        invariant whole == PageLoop(listApi, endpoint, clock, autoWait, k, page, left, items, trace, naps)
        invariant sent == old(sent) && sleeps == old(sleeps) && k == sent + |trace|
        decreases left
      {
        var response := listApi(k, endpoint, page);
        var action := HandleRateLimit(response.remaining, response.reset, clock(k), autoWait);
        ghost var e := Exchange(k, page, action, response.ok, |response.body|);
        PageLoopStep(listApi, endpoint, clock, autoWait, k, page, left, items, trace, naps, response, action);
        trace, naps := trace + [e], naps + SleepOf(action);
        k, left := k + 1, left - 1;
        if action.RetryAfter? {
          continue;
        }
        if action.Exceeded? {
          r := Err(RateLimited(action.reported));
          sent, sleeps := k, sleeps + naps;
          return;
        }
        if !response.ok {
          r := Err(HttpError);
          sent, sleeps := k, sleeps + naps;
          return;
        }
        var data := response.body;
        items := items + data;
        if |data| < PageSize {
          r := Ok(items);
          sent, sleeps := k, sleeps + naps;
          return;
        }
        page := page + 1;
      }
      r := Err(OutOfFuel);
      sent, sleeps := k, sleeps + naps;
    }

    /** `get_pr_details`: fetch one pull request, retrying while told to wait. */
    method GetPrDetails(repo: string, number: int, fuel: nat) returns (r: Result<PullRecord, ClientError>)
      modifies this
      ensures var o := DetailRun(pullApi, repo, number, clock, autoWait, old(sent), fuel);
        r == o.result && sent == old(sent) + |o.trace| && sleeps == old(sleeps) + o.sleeps
    {
      ghost var whole := DetailRun(pullApi, repo, number, clock, autoWait, sent, fuel);
      var k := sent;
      var left := fuel;
      ghost var trace: seq<Exchange> := [];
      ghost var naps: seq<nat> := [];
      assert [] + whole.trace == whole.trace && [] + whole.sleeps == whole.sleeps;
      while left > 0
        invariant whole == Prefixed(trace, naps, DetailRun(pullApi, repo, number, clock, autoWait, k, left))
        invariant sent == old(sent) && sleeps == old(sleeps) && k == sent + |trace|
        decreases left
      {
        var response := pullApi(k, repo, number);
        var action := HandleRateLimit(response.remaining, response.reset, clock(k), autoWait);
        DetailRunStep(pullApi, repo, number, clock, autoWait, k, left, trace, naps, response, action);
        trace, naps := trace + [Exchange(k, 1, action, response.ok, 1)], naps + SleepOf(action);
        k, left := k + 1, left - 1;
        if action.RetryAfter? {
          continue;
        }
        sent, sleeps := k, sleeps + naps;
        if action.Exceeded? {
          r := Err(RateLimited(action.reported));
          return;
        }
        if !response.ok {
          r := Err(HttpError);
          return;
        }
        r := Ok(response.body);
        return;
      }
      r := Err(OutOfFuel);
      sent, sleeps := k, sleeps + naps;
    }

    /** `get_branches`: the names of all branches of a repository, in listing order. */
    method GetBranches(repo: string, fuel: nat) returns (r: Result<seq<string>, ClientError>)
      modifies this
      ensures var o := PageRun(listApi, "/repos/" + repo + "/branches", clock, autoWait, old(sent), 1, fuel);
        && sent == old(sent) + |o.trace| && sleeps == old(sleeps) + o.sleeps
        && (r.Ok? <==> o.result.Ok?)
        && (r.Err? ==> r == Err(o.result.error))
        && (r.Ok? ==>
              |r.value| == |o.result.value| && forall i :: 0 <= i < |r.value| ==> r.value[i] == o.result.value[i].name)
    {
      var listed := Paginate("/repos/" + repo + "/branches", fuel);
      if listed.Err? {
        return Err(listed.error);
      }
      var names: seq<string> := [];
      for i := 0 to |listed.value|
        invariant |names| == i
        invariant forall j :: 0 <= j < i ==> names[j] == listed.value[j].name
      {
        names := names + [listed.value[i].name];
      }
      r := Ok(names);
    }

    /** `search_related_prs`: every PR whose body mentions the number. */
    method SearchRelatedPrs(repo: string, number: int, fuel: nat) returns (r: Result<seq<PullRecord>, ClientError>)
      modifies this
      ensures var o := PageRun(searchApi, RelatedQuery(repo, number), clock, autoWait, old(sent), 1, fuel);
        r == o.result && sent == old(sent) + |o.trace| && sleeps == old(sleeps) + o.sleeps
    {
      r := SearchIssues(RelatedQuery(repo, number), fuel);
    }

    /**
     * The two searches of `get_user_prs` from request number k: the merged
     * query first, then the open query only when asked for, starting at the
     * request after the merged run.
     */
    function UserPrsRun(k: nat, repo: string, author: string, base: string, since: Option<string>,
                        includeOpen: bool, fuel: nat): Outcome<seq<PullRecord>>
    {
      var merged := PageRun(searchApi, MergedQuery(repo, author, base, since), clock, autoWait, k, 1, fuel);
      if merged.result.Err? || !includeOpen then merged
      else
        var open := PageRun(searchApi, OpenQuery(repo, author, base, since), clock, autoWait, k + |merged.trace|, 1, fuel);
        Resume(merged.result.value, merged.trace, merged.sleeps, open)
    }

    /** When the merged search succeeds and open PRs are asked for, the open search continues it. */
    lemma UserPrsRunBoth(k: nat, repo: string, author: string, base: string, since: Option<string>,
                         includeOpen: bool, fuel: nat, m: Outcome<seq<PullRecord>>, o: Outcome<seq<PullRecord>>)
      requires includeOpen
      requires m == PageRun(searchApi, MergedQuery(repo, author, base, since), clock, autoWait, k, 1, fuel) && m.result.Ok?
      requires o == PageRun(searchApi, OpenQuery(repo, author, base, since), clock, autoWait, k + |m.trace|, 1, fuel)
      ensures UserPrsRun(k, repo, author, base, since, includeOpen, fuel) == Resume(m.result.value, m.trace, m.sleeps, o)
    {
    }

    method GetUserPrs(repo: string, author: string, base: string, since: Option<string>, includeOpen: bool, fuel: nat)
      returns (r: Result<seq<PullRecord>, ClientError>)
      modifies this
      ensures var o := UserPrsRun(old(sent), repo, author, base, since, includeOpen, fuel);
        r == o.result && sent == old(sent) + |o.trace| && sleeps == old(sleeps) + o.sleeps
    {
      var mergedQuery := MergedQuery(repo, author, base, since);
      ghost var k0, s0 := sent, sleeps;
      ghost var m := PageRun(searchApi, mergedQuery, clock, autoWait, k0, 1, fuel);
      var merged := SearchIssues(mergedQuery, fuel);
      if merged.Err? || !includeOpen {
        return merged;
      }
      var openQuery := OpenQuery(repo, author, base, since);
      ghost var k1, s1 := sent, sleeps;
      ghost var o := PageRun(searchApi, openQuery, clock, autoWait, k1, 1, fuel);
      var open := SearchIssues(openQuery, fuel);
      assert k1 == k0 + |m.trace| && s1 == s0 + m.sleeps && merged == m.result && open == o.result;
      UserPrsRunBoth(k0, repo, author, base, since, includeOpen, fuel, m, o);
      r := if open.Ok? then Ok(merged.value + open.value) else open;
      ConcatAssoc(s0, m.sleeps, o.sleeps);
    }

    /**
     * Every merged-query hit comes before every open-query hit, the open
     * query is not sent unless asked for, and without it the result is the
     * merged search alone.
     */
    lemma UserPrsOrder(k: nat, repo: string, author: string, base: string, since: Option<string>, includeOpen: bool, fuel: nat)
      ensures var o := UserPrsRun(k, repo, author, base, since, includeOpen, fuel);
        var merged := PageRun(searchApi, MergedQuery(repo, author, base, since), clock, autoWait, k, 1, fuel);
        && (!includeOpen ==> o == merged)
        && (o.result.Ok? ==> merged.result.Ok? && o.result.value[..|merged.result.value|] == merged.result.value)
        && |merged.trace| <= |o.trace| && o.trace[..|merged.trace|] == merged.trace
    {
    }
  }
}
