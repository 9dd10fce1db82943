/**
 The update check: one server-side cache with an expiry, refreshed from the release API, with the stale answer as the
 fallback. Times are in seconds on a clock that never runs backwards.
 */
module UpdateCheck {
  import opened Wrappers

  const HOUR: int := 3600

  /** The fields of an answer that come from the release. */
  datatype Release = Release(updateAvailable: bool, latestVersion: string)

  /** What the request for the latest release does: a release, a network error, or any other error. */
  datatype Fetch = Fetched(release: Release) | NetworkError | UnexpectedError

  datatype Answer =
    | Fresh(release: Release)
    | Cached(release: Release)
    | Stale(release: Release, error: Fetch)
    | NoAnswer(error: Fetch)

  datatype Cache = Cache(entry: Option<Release>, expiry: Option<int>)

  /**
   One call: `now` is the clock at the expiry test, `done` the clock when a fetched release is stored, and `fetch` what
   the request would do if it is made.
   */
  datatype Call = Call(now: int, done: int, fetch: Fetch)

  predicate Hit(c: Cache, now: int)
  {
    c.entry.Some? && c.expiry.Some? && now < c.expiry.value
  }

  predicate Refreshes(c: Cache, call: Call)
  {
    !Hit(c, call.now) && call.fetch.Fetched?
  }

  function CacheAfter(c: Cache, call: Call): Cache
  {
    if Refreshes(c, call) then Cache(Some(call.fetch.release), Some(call.done + HOUR)) else c
  }

  function AnswerTo(c: Cache, call: Call): Answer
  {
    if Hit(c, call.now) then Cached(c.entry.value)
    else if call.fetch.Fetched? then Fresh(call.fetch.release)
    else if c.entry.Some? then Stale(c.entry.value, call.fetch)
    else NoAnswer(call.fetch)
  }

  class VersionManager {
    var updateCache: Option<Release>
    var cacheExpiry: Option<int>

    constructor ()
      ensures updateCache == None && cacheExpiry == None
    {
      updateCache, cacheExpiry := None, None;
    }

    function State(): Cache
      reads this
    {
      Cache(updateCache, cacheExpiry)
    }

    /** `check_for_updates`, under the cache lock. */
    method CheckForUpdates(call: Call) returns (answer: Answer)
      modifies this
      ensures State() == CacheAfter(old(State()), call)
      ensures answer == AnswerTo(old(State()), call)
    {
      if cacheExpiry.Some? && call.now < cacheExpiry.value && updateCache.Some? {
        return Cached(updateCache.value);
      }
      match call.fetch {
        case Fetched(release) =>
          updateCache := Some(release);
          cacheExpiry := Some(call.done + HOUR);
          answer := Fresh(release);
        case _ =>
          if updateCache.Some? {
            answer := Stale(updateCache.value, call.fetch);
          } else {
            answer := NoAnswer(call.fetch);
          }
      }
    }
  }

  // ---------------------------------------------------------------------------------------------
  // Runs
  // ---------------------------------------------------------------------------------------------

  const EMPTY := Cache(None, None)

  function CacheAt(calls: seq<Call>): Cache
  {
    if calls == [] then EMPTY else CacheAfter(CacheAt(calls[..|calls| - 1]), calls[|calls| - 1])
  }

  /** The lock makes calls follow each other, so the clock readings are in order. */
  predicate Ordered(calls: seq<Call>)
  {
    && (forall i :: 0 <= i < |calls| ==> calls[i].now <= calls[i].done)
    && (forall i, j :: 0 <= i < j < |calls| ==> calls[i].done <= calls[j].now)
  }

  /** The releases fetched successfully so far, with the time each was stored. */
  datatype GoodFetch = GoodFetch(release: Release, asked: int, stored: int)

  function Successes(calls: seq<Call>): seq<GoodFetch>
  {
    if calls == [] then []
    else (
      var before, call := calls[..|calls| - 1], calls[|calls| - 1];
      Successes(before)
      + (if Refreshes(CacheAt(before), call) then [GoodFetch(call.fetch.release, call.now, call.done)] else [])
    )
  }

  /** The cache is exactly the last success and its expiry an hour after it; failures leave no trace. */
  lemma {:induction false} CacheIsLastSuccess(calls: seq<Call>)
    ensures var s := Successes(calls);
            CacheAt(calls) == if s == [] then EMPTY else Cache(Some(s[|s| - 1].release), Some(s[|s| - 1].stored + HOUR))
  {
    if calls != [] {
      CacheIsLastSuccess(calls[..|calls| - 1]);
    }
  }

  /** Every cached or stale answer is the last release that was fetched, and a cached one is less than an hour old. */
  lemma AnswersAreTheLastSuccess(calls: seq<Call>, next: Call)
    ensures var s, answer := Successes(calls), AnswerTo(CacheAt(calls), next);
            && (answer.Cached? || answer.Stale? ==> s != [] && answer.release == s[|s| - 1].release)
            && (answer.Cached? <==> s != [] && next.now < s[|s| - 1].stored + HOUR)
            && (answer.NoAnswer? <==> s == [] && !next.fetch.Fetched?)
  {
    CacheIsLastSuccess(calls);
  }

  /** A fetched release is answered as fresh, and every call in the hour after it gets it from the cache. */
  lemma FreshThenCached(calls: seq<Call>, first: Call, next: Call)
    requires AnswerTo(CacheAt(calls), first).Fresh?
    ensures first.fetch == Fetched(AnswerTo(CacheAt(calls), first).release)
    ensures next.now < first.done + 3600 ==>
              AnswerTo(CacheAt(calls + [first]), next) == Cached(AnswerTo(CacheAt(calls), first).release)
    ensures next.now >= first.done + 3600 && !next.fetch.Fetched? ==>
              AnswerTo(CacheAt(calls + [first]), next)
              == Stale(AnswerTo(CacheAt(calls), first).release, next.fetch)
  {
    assert (calls + [first])[..|calls|] == calls;
  }

  /** When the answer is fresh, and what is said when there is nothing to say. */
  lemma FreshExactly(calls: seq<Call>, next: Call)
    ensures AnswerTo(CacheAt(calls), next).Fresh? <==> !AnswerTo(CacheAt(calls), next).Cached? && next.fetch.Fetched?
    ensures AnswerTo(CacheAt(calls), next).NoAnswer? ==> AnswerTo(CacheAt(calls), next).error == next.fetch
    ensures AnswerTo(CacheAt([]), next)
         == if next.fetch.Fetched? then Fresh(next.fetch.release) else NoAnswer(next.fetch)
  {}

  /** A fetch that fails changes neither the cache nor its expiry. */
  lemma FailuresChangeNothing(calls: seq<Call>, next: Call)
    requires !next.fetch.Fetched?
    ensures CacheAt(calls + [next]) == CacheAt(calls) && Successes(calls + [next]) == Successes(calls)
  {
    assert (calls + [next])[..|calls|] == calls;
  }

  /** Two consecutive successes are at least an hour apart, so k of them span at least k - 1 hours. */
  lemma {:induction false} SuccessesAreHoursApart(calls: seq<Call>)
    requires Ordered(calls)
    ensures var s := Successes(calls);
            && (forall k :: 0 <= k < |s| ==> s[k].asked <= s[k].stored)
            && (s != [] ==> s[|s| - 1].stored - s[0].asked >= (|s| - 1) * HOUR)
            && (s != [] ==> s[|s| - 1].asked - s[0].asked >= (|s| - 1) * HOUR)
  {
    if calls != [] {
      var before, call := calls[..|calls| - 1], calls[|calls| - 1];
      SuccessesAreHoursApart(before);
      CacheIsLastSuccess(before);
    }
  }

  /** Whether a call goes out to the release API. */
  predicate MakesRequest(calls: seq<Call>, i: nat)
    requires i < |calls|
  {
    !Hit(CacheAt(calls[..i]), calls[i].now)
  }

  /**
   Only successes are spaced out: once the cache has expired (or was never filled), every call of a failing stretch
   makes its own request, however close together the calls are.
   */
  lemma {:induction false} FailuresAreNotRateLimited(calls: seq<Call>, from: nat)
    requires from <= |calls|
    requires forall i :: from <= i < |calls| ==> !calls[i].fetch.Fetched? && !Hit(CacheAt(calls[..from]), calls[i].now)
    ensures CacheAt(calls) == CacheAt(calls[..from])
    ensures forall i :: from <= i < |calls| ==> MakesRequest(calls, i)
  {
    if from == |calls| {
      assert calls[..from] == calls;
    } else {
      var before, last := calls[..|calls| - 1], |calls| - 1;
      assert before[..from] == calls[..from];
      FailuresAreNotRateLimited(before, from);
      forall i | from <= i < last ensures MakesRequest(calls, i) {
        assert MakesRequest(before, i) && before[..i] == calls[..i];
      }
      assert MakesRequest(calls, last);
    }
  }

  // ---------------------------------------------------------------------------------------------
  // When requests are spaced out
  // ---------------------------------------------------------------------------------------------

  /** Any two requests to the release API are at least an hour apart. */
  predicate SpacedOut(calls: seq<Call>)
  {
    forall i, j :: 0 <= i < j < |calls| && MakesRequest(calls, i) && MakesRequest(calls, j) ==>
      calls[j].now - calls[i].now >= HOUR
  }

  /** Request i fails although it is made. */
  predicate FailedRequest(calls: seq<Call>, i: nat)
    requires i < |calls|
  {
    MakesRequest(calls, i) && !calls[i].fetch.Fetched?
  }

  /** Nobody calls within an hour after a failed request. */
  predicate FailuresArePatient(calls: seq<Call>)
  {
    forall i :: 0 <= i < |calls| - 1 && FailedRequest(calls, i) ==> calls[i + 1].now - calls[i].now >= HOUR
  }

  lemma CacheStep(calls: seq<Call>, i: nat)
    requires i < |calls|
    ensures CacheAt(calls[..i + 1]) == CacheAfter(CacheAt(calls[..i]), calls[i])
  {
    assert calls[..i + 1][..i] == calls[..i];
  }

  /** The call after a failed request is a request, too. */
  lemma FailureIsRetried(calls: seq<Call>, i: nat)
    requires Ordered(calls) && i + 1 < |calls| && FailedRequest(calls, i)
    ensures MakesRequest(calls, i + 1)
  {
    CacheStep(calls, i);
    assert calls[i].now <= calls[i].done <= calls[i + 1].now;
  }

  /** After a success the cache stays valid for an hour: it expires no earlier than that, whatever is fetched later. */
  lemma {:induction false} SuccessLasts(calls: seq<Call>, i: nat, j: nat)
    requires Ordered(calls) && i < j <= |calls| && MakesRequest(calls, i) && calls[i].fetch.Fetched?
    ensures var c := CacheAt(calls[..j]);
            c.entry.Some? && c.expiry.Some? && c.expiry.value >= calls[i].done + HOUR
    decreases j
  {
    CacheStep(calls, j - 1);
    if j > i + 1 {
      SuccessLasts(calls, i, j - 1);
      assert calls[i].done <= calls[j - 1].now <= calls[j - 1].done;
    }
  }

  /** Requests are at least an hour apart exactly when no call follows a failed request within the hour. */
  lemma SpacedOutExactly(calls: seq<Call>)
    requires Ordered(calls)
    ensures SpacedOut(calls) <==> FailuresArePatient(calls)
  {
    if SpacedOut(calls) {
      forall i | 0 <= i < |calls| - 1 && FailedRequest(calls, i) ensures calls[i + 1].now - calls[i].now >= HOUR {
        FailureIsRetried(calls, i);
      }
    }
    if FailuresArePatient(calls) {
      forall i, j | 0 <= i < j < |calls| && MakesRequest(calls, i) && MakesRequest(calls, j)
        ensures calls[j].now - calls[i].now >= HOUR
      {
        RequestsApart(calls, i, j);
      }
    }
  }

  lemma RequestsApart(calls: seq<Call>, i: nat, j: nat)
    requires Ordered(calls) && FailuresArePatient(calls) && i < j < |calls|
    requires MakesRequest(calls, i) && MakesRequest(calls, j)
    ensures calls[j].now - calls[i].now >= HOUR
  {
    assert calls[i].now <= calls[i].done;
    if calls[i].fetch.Fetched? {
      SuccessLasts(calls, i, j);
    } else {
      assert FailedRequest(calls, i);
      if j > i + 1 {
        assert calls[i + 1].done <= calls[j].now && calls[i + 1].now <= calls[i + 1].done;
      }
    }
  }

  /** Two calls at one instant while the network is down are two requests. */
  lemma TwoFailuresAtOnce(now: int)
    ensures var calls := [Call(now, now, NetworkError), Call(now, now, NetworkError)];
            Ordered(calls) && MakesRequest(calls, 0) && MakesRequest(calls, 1) && !SpacedOut(calls)
  {
    var calls := [Call(now, now, NetworkError), Call(now, now, NetworkError)];
    assert calls[..0] == [];
    assert CacheAt(calls[..0]) == EMPTY;
    CacheStep(calls, 0);
  }
}
