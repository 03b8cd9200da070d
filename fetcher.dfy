/**
 * The retrying page fetch (`fetch_html_safe`, ML_LAB5.py:92-125).
 *
 * The remote server is a total function from the 0-based attempt number to
 * what that attempt produced: a response with a status code and, for a
 * page that parses, the parsed page; or an exception raised anywhere in the
 * attempt (timeout, connection failure, decoding). The random user agent
 * and the short random delay before each attempt are not modelled; the
 * pause charged after each failed attempt is recorded instead of slept.
 */
module Fetcher {
  import opened Wrappers

  /** The default `max_tries`. */
  const MAX_TRIES: nat := 5
  /** The pause after a response that is neither 200 nor 404. */
  const STATUS_PAUSE: nat := 5
  /** The base of the linear back-off after an exception. */
  const BACKOFF_BASE: nat := 5

  datatype Attempt<P> = Response(code: int, page: P) | Raised

  /** What one call produced: the page (Python's `None` when absent), how
      many attempts it made and the pauses slept after them, in order. */
  datatype FetchLog<P> = FetchLog(page: Option<P>, attempts: nat, pauses: seq<nat>)

  /** A 200 or a 404 ends the call; everything else is retried. */
  predicate Decisive<P>(a: Attempt<P>) {
    a.Response? && (a.code == 200 || a.code == 404)
  }

  /** The pause slept after a non-decisive attempt number `k`. */
  function PauseAfter<P>(k: nat, a: Attempt<P>): nat {
    if a.Raised? then BACKOFF_BASE * (k + 1) else STATUS_PAUSE
  }

  /** No attempt before number `n` was decisive. */
  ghost predicate AllTransient<P>(server: nat -> Attempt<P>, n: nat) {
    forall i: nat :: i < n ==> !Decisive(server(i))
  }

  /** The pauses slept after attempts 0 .. n-1. */
  function Pauses<P>(server: nat -> Attempt<P>, n: nat): (r: seq<nat>)
    ensures |r| == n
  {
    if n == 0 then [] else Pauses(server, n - 1) + [PauseAfter(n - 1, server(n - 1))]
  }

  /** The loop of `fetch_html_safe` from attempt `tryNum` on, having
      already slept `pauses`. */
  function Run<P>(server: nat -> Attempt<P>, maxTries: nat, tryNum: nat, pauses: seq<nat>): FetchLog<P>
    decreases maxTries - tryNum
  {
    if tryNum >= maxTries then FetchLog(None, tryNum, pauses)
    else match server(tryNum)
      case Raised =>
        Run(server, maxTries, tryNum + 1, pauses + [BACKOFF_BASE * (tryNum + 1)])
      case Response(code, page) =>
        if code == 200 then FetchLog(Some(page), tryNum + 1, pauses)
        else if code == 404 then FetchLog(None, tryNum + 1, pauses)
        else Run(server, maxTries, tryNum + 1, pauses + [STATUS_PAUSE])
  }

  function Fetch<P>(server: nat -> Attempt<P>, maxTries: nat): FetchLog<P> {
    Run(server, maxTries, 0, [])
  }

  /** `fetch_html_safe(target_link, max_tries)` against `server`. */
  method FetchHtmlSafe<P>(server: nat -> Attempt<P>, maxTries: nat) returns (r: FetchLog<P>)
    ensures r == Fetch(server, maxTries)
  {
    var pauses: seq<nat> := [];
    for tryNum := 0 to maxTries
      invariant Run(server, maxTries, tryNum, pauses) == Fetch(server, maxTries)
    {
      var a := server(tryNum);
      if a.Raised? {
        pauses := pauses + [BACKOFF_BASE * (tryNum + 1)];
      } else if a.code == 200 {
        return FetchLog(Some(a.page), tryNum + 1, pauses);
      } else if a.code == 404 {
        return FetchLog(None, tryNum + 1, pauses);
      } else {
        pauses := pauses + [STATUS_PAUSE];
      }
    }
    r := FetchLog(None, maxTries, pauses);
  }

  lemma {:induction false} RunDecided<P>(server: nat -> Attempt<P>, maxTries: nat, tryNum: nat, d: nat)
    requires tryNum <= d < maxTries
    requires Decisive(server(d)) && AllTransient(server, d)
    ensures Run(server, maxTries, tryNum, Pauses(server, tryNum)) ==
      FetchLog(if server(d).code == 200 then Some(server(d).page) else None, d + 1, Pauses(server, d))
    decreases d - tryNum
  {
    if tryNum < d {
      assert !Decisive(server(tryNum));
      RunDecided(server, maxTries, tryNum + 1, d);
    }
  }

  lemma {:induction false} RunExhausted<P>(server: nat -> Attempt<P>, maxTries: nat, tryNum: nat)
    requires tryNum <= maxTries
    requires AllTransient(server, maxTries)
    ensures Run(server, maxTries, tryNum, Pauses(server, tryNum)) ==
      FetchLog(None, maxTries, Pauses(server, maxTries))
    decreases maxTries - tryNum
  {
    if tryNum < maxTries {
      assert !Decisive(server(tryNum));
      RunExhausted(server, maxTries, tryNum + 1);
    }
  }

  /** The first decisive attempt ends the call: a 200 returns its page, a
      404 returns nothing, with no pause after it and no further attempt,
      whatever budget is left. Every earlier attempt was followed by its
      pause. */
  lemma FetchDecided<P>(server: nat -> Attempt<P>, maxTries: nat, d: nat)
    requires d < maxTries
    requires Decisive(server(d)) && AllTransient(server, d)
    ensures var r := Fetch(server, maxTries);
      r.attempts == d + 1 && r.pauses == Pauses(server, d) &&
      r.page == if server(d).code == 200 then Some(server(d).page) else None
  {
    RunDecided(server, maxTries, 0, d);
  }

  /** With no decisive attempt within the budget, the call makes exactly
      `maxTries` attempts, pauses after each and returns nothing. */
  lemma FetchExhausted<P>(server: nat -> Attempt<P>, maxTries: nat)
    requires AllTransient(server, maxTries)
    ensures Fetch(server, maxTries) == FetchLog(None, maxTries, Pauses(server, maxTries))
  {
    RunExhausted(server, maxTries, 0);
  }

  lemma {:induction false} RunBounds<P>(server: nat -> Attempt<P>, maxTries: nat, tryNum: nat, pauses: seq<nat>)
    requires tryNum <= maxTries && |pauses| == tryNum
    ensures var r := Run(server, maxTries, tryNum, pauses);
      tryNum <= r.attempts <= maxTries &&
      (r.page.Some? ==> r.attempts >= 1 && server(r.attempts - 1) == Response(200, r.page.value)) &&
      (r.attempts < maxTries ==> r.attempts >= 1 && Decisive(server(r.attempts - 1)))
    decreases maxTries - tryNum
  {
    if tryNum < maxTries && !Decisive(server(tryNum)) {
      RunBounds(server, maxTries, tryNum + 1, pauses + [PauseAfter(tryNum, server(tryNum))]);
    }
  }

  /** The call never makes more than `maxTries` attempts; a page comes back
      only from a 200 on the last attempt made; stopping early means the
      last attempt was a 200 or a 404. */
  lemma FetchBounds<P>(server: nat -> Attempt<P>, maxTries: nat)
    ensures var r := Fetch(server, maxTries);
      r.attempts <= maxTries &&
      (maxTries > 0 ==> r.attempts >= 1) &&
      (r.page.Some? ==> server(r.attempts - 1) == Response(200, r.page.value)) &&
      (r.attempts < maxTries ==> Decisive(server(r.attempts - 1)))
  {
    RunBounds(server, maxTries, 0, []);
  }

  /** A target that answers 404 on its first attempt is tried exactly once
      and yields nothing, without any pause. */
  lemma NotFoundNotRetried<P>(server: nat -> Attempt<P>, maxTries: nat)
    requires maxTries >= 1
    requires server(0).Response? && server(0).code == 404
    ensures Fetch(server, maxTries) == FetchLog(None, 1, [])
  {
    FetchDecided(server, maxTries, 0);
  }

  /** A target that raises on every attempt is tried exactly `maxTries`
      times; the pause after attempt k is 5 * (k + 1), so the pauses grow
      strictly; the call yields nothing. */
  lemma {:induction false} AlwaysRaisingBacksOff<P>(server: nat -> Attempt<P>, maxTries: nat)
    requires forall i: nat :: server(i).Raised?
    ensures var r := Fetch(server, maxTries);
      r.page == None && r.attempts == maxTries && |r.pauses| == maxTries &&
      (forall k :: 0 <= k < maxTries ==> r.pauses[k] == BACKOFF_BASE * (k + 1)) &&
      (forall j, k :: 0 <= j < k < maxTries ==> r.pauses[j] < r.pauses[k])
  {
    FetchExhausted(server, maxTries);
    PausesAllRaised(server, maxTries);
  }

  lemma {:induction false} PausesAllRaised<P>(server: nat -> Attempt<P>, n: nat)
    requires forall i: nat :: server(i).Raised?
    ensures forall k :: 0 <= k < n ==> Pauses(server, n)[k] == BACKOFF_BASE * (k + 1)
  {
    if n > 0 {
      PausesAllRaised(server, n - 1);
    }
  }

  /** A target that keeps answering with some other status (say 503) is
      tried `maxTries` times with the same pause of 5 after each. */
  lemma {:induction false} FailingStatusPausesConstant<P>(server: nat -> Attempt<P>, maxTries: nat)
    requires forall i: nat :: server(i).Response? && server(i).code != 200 && server(i).code != 404
    ensures var r := Fetch(server, maxTries);
      r.page == None && r.attempts == maxTries && |r.pauses| == maxTries &&
      forall k :: 0 <= k < |r.pauses| ==> r.pauses[k] == STATUS_PAUSE
  {
    FetchExhausted(server, maxTries);
    PausesAllStatus(server, maxTries);
  }

  lemma {:induction false} PausesAllStatus<P>(server: nat -> Attempt<P>, n: nat)
    requires forall i: nat :: server(i).Response? && server(i).code != 200 && server(i).code != 404
    ensures forall k :: 0 <= k < n ==> Pauses(server, n)[k] == STATUS_PAUSE
  {
    if n > 0 {
      PausesAllStatus(server, n - 1);
    }
  }
}
