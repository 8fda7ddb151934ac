/** backend/app/core/rate_limit.py: per-client sliding-window admission. */
module RateLimit {
  import opened SlidingWindow

  datatype Config = Config(maxRequests: int, windowSeconds: real)

  datatype Request = Request(client: string, skipHeader: bool, now: real)

  type Counts = map<string, seq<real>>

  /** The test client may opt out of the limiter altogether. */
  predicate Bypasses(q: Request) {
    q.client == "testserver" && q.skipHeader
  }

  /** A missing client reads as an empty list. */
  function TimesOf(counts: Counts, client: string): seq<real> {
    if client in counts then counts[client] else []
  }

  /** `[t for t in times if now - t < window]` */
  function Prune(times: seq<real>, now: real, window: real): seq<real> {
    if times == [] then []
    else
      var earlier, last := Prune(times[..|times| - 1], now, window), times[|times| - 1];
      if Recent(last, now, window, false) then earlier + [last] else earlier
  }

  /** The counts after one request, and whether it was passed on. */
  function Dispatch(c: Config, counts: Counts, q: Request): (Counts, bool) {
    if Bypasses(q) then (counts, true)
    else
      var kept := Prune(TimesOf(counts, q.client), q.now, c.windowSeconds);
      if |kept| >= c.maxRequests then (counts[q.client := kept], false)
      else (counts[q.client := kept + [q.now]], true)
  }

  class RateLimiter {
    const config: Config
    var requestCounts: Counts

    constructor (config: Config)
      ensures this.config == config && requestCounts == map[]
    {
      this.config := config;
      requestCounts := map[];
    }

    method Handle(client: string, skipHeader: bool, now: real) returns (admitted: bool)
      modifies this
      ensures (requestCounts, admitted)
           == Dispatch(config, old(requestCounts), Request(client, skipHeader, now))
    {
      if client == "testserver" && skipHeader {
        return true;
      }
      var times := TimesOf(requestCounts, client);
      requestCounts := requestCounts[client := Prune(times, now, config.windowSeconds)];
      if |requestCounts[client]| >= config.maxRequests {
        return false;
      }
      requestCounts := requestCounts[client := requestCounts[client] + [now]];
      assert requestCounts == old(requestCounts)[client := requestCounts[client]];
      return true;
    }
  }

  // ---- Whole histories ----

  /** The limiter's own lists, the full log of what it admitted and counted, and its answers. */
  datatype History = History(counts: Counts, log: seq<Entry<string>>, answers: seq<bool>)

  function Serve(c: Config, requests: seq<Request>): (h: History)
    ensures |h.answers| == |requests|
  {
    if requests == [] then History(map[], [], [])
    else
      var h, q := Serve(c, requests[..|requests| - 1]), requests[|requests| - 1];
      var (counts, admitted) := Dispatch(c, h.counts, q);
      History(counts,
              if admitted && !Bypasses(q) then h.log + [Entry(q.client, q.now)] else h.log,
              h.answers + [admitted])
  }

  ghost predicate InOrder(requests: seq<Request>) {
    forall i, j :: 0 <= i < j < |requests| ==> requests[i].now <= requests[j].now
  }

  lemma {:induction false} PruneTwice(times: seq<real>, early: real, late: real, window: real)
    requires early <= late
    ensures Prune(Prune(times, early, window), late, window) == Prune(times, late, window)
  {
    if times != [] {
      var earlier, last := times[..|times| - 1], times[|times| - 1];
      PruneTwice(earlier, early, late, window);
      AppendPrune(Prune(earlier, early, window), last, late, window);
    }
  }

  lemma AppendPrune(times: seq<real>, t: real, now: real, window: real)
    ensures Prune(times + [t], now, window)
         == if Recent(t, now, window, false) then Prune(times, now, window) + [t]
            else Prune(times, now, window)
  {
  }

  lemma AppendRecent(log: seq<Entry<string>>, e: Entry<string>, key: string, now: real,
                     window: real)
    ensures CountRecent(log + [e], key, now, window, false)
         == CountRecent(log, key, now, window, false)
            + if e.key == key && Recent(e.time, now, window, false) then 1 else 0
  {
  }

  ghost predicate Faithful(c: Config, h: History, client: string, now: real) {
    |Prune(TimesOf(h.counts, client), now, c.windowSeconds)|
      == CountRecent(h.log, client, now, c.windowSeconds, false)
  }

  /** Pruning loses nothing: from the last request on, the pruned list of a client counts
      exactly the recent entries of its full log. */
  lemma {:induction false} PruningIsFaithful(c: Config, requests: seq<Request>, client: string,
                                             now: real)
    requires InOrder(requests)
    requires forall i :: 0 <= i < |requests| ==> requests[i].now <= now
    ensures Faithful(c, Serve(c, requests), client, now)
  {
    if requests != [] {
      var earlier, q := requests[..|requests| - 1], requests[|requests| - 1];
      var h := Serve(c, earlier);
      PruningIsFaithful(c, earlier, client, now);
      if client == q.client && !Bypasses(q) {
        var times := TimesOf(h.counts, client);
        PruneTwice(times, q.now, now, c.windowSeconds);
        AppendPrune(Prune(times, q.now, c.windowSeconds), q.now, now, c.windowSeconds);
      }
      AppendRecent(h.log, Entry(q.client, q.now), client, now, c.windowSeconds);
    }
  }

  /** The limiter refines the unpruned rule: over every history in time order, request i is passed
      on exactly if it is the test client's and opts out, or fewer than `maxRequests` requests of
      its client were admitted in the window that ends with it. */
  lemma {:induction false} AnswersAreExact(c: Config, requests: seq<Request>, i: nat)
    requires InOrder(requests) && i < |requests|
    ensures var q := requests[i];
            (Serve(c, requests).answers[i]
             <==> || (q.client == "testserver" && q.skipHeader)
                  || CountInside(Serve(c, requests[..i]).log, q.client, q.now - c.windowSeconds,
                                 c.windowSeconds, false) < c.maxRequests)
  {
    AnswersStand(c, requests, i + 1);
    assert requests[..i + 1] == requests[..i] + [requests[i]];
    assert InOrder(requests[..i]);
    hide Serve, CountInside, CountRecent, InOrder;
    LastAnswer(c, requests[..i], requests[i]);
    AdmittedInWindow(c, requests[..i], requests[i].client, requests[i].now);
  }

  /** Later requests do not change the answers given. */
  lemma AnswersStand(c: Config, requests: seq<Request>, n: nat)
    requires n <= |requests|
    ensures Serve(c, requests[..n]).answers == Serve(c, requests).answers[..n]
    decreases |requests| - n
  {
    if n < |requests| {
      AnswersStand(c, requests, n + 1);
      assert requests[..n + 1][..n] == requests[..n];
      assert Serve(c, requests[..n]).answers == Serve(c, requests[..n + 1]).answers[..n];
    } else {
      assert requests[..n] == requests;
    }
  }

  lemma {:induction false} LastAnswer(c: Config, earlier: seq<Request>, q: Request)
    requires InOrder(earlier) && forall i :: 0 <= i < |earlier| ==> earlier[i].now <= q.now
    ensures Serve(c, earlier + [q]).answers[|earlier|]
       <==> || (q.client == "testserver" && q.skipHeader)
            || CountRecent(Serve(c, earlier).log, q.client, q.now, c.windowSeconds, false)
               < c.maxRequests
  {
    assert (earlier + [q])[..|earlier|] == earlier;
    PruningIsFaithful(c, earlier, q.client, q.now);
  }

  lemma {:induction false} AdmittedInWindow(c: Config, requests: seq<Request>, client: string,
                                            now: real)
    requires InOrder(requests) && forall i :: 0 <= i < |requests| ==> requests[i].now <= now
    ensures CountRecent(Serve(c, requests).log, client, now, c.windowSeconds, false)
         == CountInside(Serve(c, requests).log, client, now - c.windowSeconds, c.windowSeconds, false)
  {
    LogIsGoverned(c, requests, now);
    hide InOrder, Serve, Ordered, Governed;
    RecentIsInside(Serve(c, requests).log, client, now, c.windowSeconds, false);
  }

  ghost predicate LogOk(c: Config, log: seq<Entry<string>>, now: real) {
    && Ordered(log) && Governed(log, c.maxRequests, c.windowSeconds, false)
    && forall i :: 0 <= i < |log| ==> log[i].time <= now
  }

  lemma AppendOk(c: Config, log: seq<Entry<string>>, e: Entry<string>)
    requires LogOk(c, log, e.time)
    requires CountRecent(log, e.key, e.time, c.windowSeconds, false) < c.maxRequests
    ensures LogOk(c, log + [e], e.time)
  {
    AppendGoverned(log, e, c.maxRequests, c.windowSeconds, false);
  }

  lemma {:induction false} LogIsGoverned(c: Config, requests: seq<Request>, now: real)
    requires InOrder(requests) && forall i :: 0 <= i < |requests| ==> requests[i].now <= now
    ensures LogOk(c, Serve(c, requests).log, now)
  {
    if requests != [] {
      var earlier, q := requests[..|requests| - 1], requests[|requests| - 1];
      LogIsGoverned(c, earlier, q.now);
      PruningIsFaithful(c, earlier, q.client, q.now);
      var log := Serve(c, earlier).log;
      if Serve(c, requests).log != log {
        AppendOk(c, log, Entry(q.client, q.now));
      }
    }
  }

  /** The sliding-window bound: for every history in time order, every client and every interval
      (a, a + window], aligned or not, at most `maxRequests` counted requests were admitted. */
  lemma AtMostMaxPerWindow(c: Config, requests: seq<Request>, client: string, a: real)
    requires InOrder(requests)
    ensures CountInside(Serve(c, requests).log, client, a, c.windowSeconds, false) <= Maximum(c)
  {
    if c.maxRequests < 0 {
      NothingAdmitted(c, requests);
    } else {
      LogIsGoverned(c, requests, if requests == [] then 0.0 else requests[|requests| - 1].now);
      WindowBound(Serve(c, requests).log, client, a, c.maxRequests, c.windowSeconds, false);
    }
  }

  // ---- Closed intervals ----

  /** m requests at time 0. */
  function Burst(m: nat): seq<Request> {
    seq(m, _ => Request("a", false, 0.0))
  }

  lemma RecentAtMostAll(log: seq<Entry<string>>, key: string, now: real, window: real)
    ensures CountRecent(log, key, now, window, false) <= |log|
  {
  }

  lemma AdmittedNext(c: Config, earlier: seq<Request>, q: Request)
    requires InOrder(earlier) && (forall i :: 0 <= i < |earlier| ==> earlier[i].now <= q.now)
    requires !Bypasses(q)
    requires CountRecent(Serve(c, earlier).log, q.client, q.now, c.windowSeconds, false)
           < c.maxRequests
    ensures Serve(c, earlier + [q]).log == Serve(c, earlier).log + [Entry(q.client, q.now)]
  {
    assert (earlier + [q])[..|earlier|] == earlier;
    PruningIsFaithful(c, earlier, q.client, q.now);
  }

  /** A burst within the maximum is admitted whole. */
  lemma {:induction false} BurstAdmitted(c: Config, m: nat)
    requires m <= c.maxRequests
    ensures var log := Serve(c, Burst(m)).log;
            |log| == m && forall i :: 0 <= i < m ==> log[i] == Entry("a", 0.0)
  {
    if m > 0 {
      BurstAdmitted(c, m - 1);
      RecentAtMostAll(Serve(c, Burst(m - 1)).log, "a", 0.0, c.windowSeconds);
      hide Serve;
      AdmittedNext(c, Burst(m - 1), Request("a", false, 0.0));
      assert Burst(m) == Burst(m - 1) + [Request("a", false, 0.0)];
    } else {
      assert Burst(0) == [];
    }
  }

  lemma {:induction false} NoneRecent(log: seq<Entry<string>>, key: string, now: real,
                                      window: real)
    requires forall i :: 0 <= i < |log| ==> now - log[i].time >= window
    ensures CountRecent(log, key, now, window, false) == 0
  {
    if log != [] {
      NoneRecent(log[..|log| - 1], key, now, window);
    }
  }

  lemma {:induction false} AllInside(log: seq<Entry<string>>, key: string, a: real, window: real)
    requires forall i :: 0 <= i < |log| ==> log[i].key == key && a <= log[i].time <= a + window
    ensures CountInside(log, key, a, window, true) == |log|
  {
    if log != [] {
      AllInside(log[..|log| - 1], key, a, window);
    }
  }

  /** The interval has to be half open: a full burst at 0 and one request a window later are all
      admitted, so the closed interval between them holds one more than the maximum. */
  lemma ClosedIntervalMayHoldMore(c: Config)
    requires c.maxRequests >= 1 && c.windowSeconds >= 0.0
    ensures var requests := Burst(c.maxRequests) + [Request("a", false, c.windowSeconds)];
            && InOrder(requests)
            && CountInside(Serve(c, requests).log, "a", 0.0, c.windowSeconds, true)
               == c.maxRequests + 1
  {
    hide Serve, CountRecent, CountInside;
    var burst, last := Burst(c.maxRequests), Request("a", false, c.windowSeconds);
    BurstAdmitted(c, c.maxRequests);
    NoneRecent(Serve(c, burst).log, "a", c.windowSeconds, c.windowSeconds);
    AdmittedNext(c, burst, last);
    AllInside(Serve(c, burst + [last]).log, "a", 0.0, c.windowSeconds);
  }

  lemma {:induction false} NothingAdmitted(c: Config, requests: seq<Request>)
    requires c.maxRequests <= 0
    ensures Serve(c, requests).log == []
  {
    if requests != [] {
      NothingAdmitted(c, requests[..|requests| - 1]);
    }
  }

  lemma {:induction false} NothingInside(log: seq<Entry<string>>, key: string, a: real,
                                         window: real)
    requires window < 0.0
    ensures CountInside(log, key, a, window, true) == 0
  {
    if log != [] {
      NothingInside(log[..|log| - 1], key, a, window);
    }
  }

  /** The bound holds of the closed intervals of all histories. */
  ghost predicate BoundsClosedIntervals(c: Config) {
    forall requests: seq<Request>, client: string, a: real :: InOrder(requests) ==>
      CountInside(Serve(c, requests).log, client, a, c.windowSeconds, true) <= Maximum(c)
  }

  function Maximum(c: Config): nat {
    if c.maxRequests < 0 then 0 else c.maxRequests
  }

  /** It holds of closed intervals only if nothing is admitted or no interval has a length. */
  lemma ClosedBoundExactly(c: Config)
    ensures BoundsClosedIntervals(c) <==> c.maxRequests <= 0 || c.windowSeconds < 0.0
  {
    if c.maxRequests <= 0 || c.windowSeconds < 0.0 {
      forall requests: seq<Request>, client: string, a: real | InOrder(requests)
        ensures CountInside(Serve(c, requests).log, client, a, c.windowSeconds, true) <= Maximum(c)
      {
        if c.maxRequests <= 0 {
          NothingAdmitted(c, requests);
        } else {
          NothingInside(Serve(c, requests).log, client, a, c.windowSeconds);
        }
      }
    } else {
      ClosedIntervalMayHoldMore(c);
    }
  }

  // ---- Clients do not affect each other ----

  function Only(requests: seq<Request>, client: string): seq<Request> {
    if requests == [] then []
    else
      var earlier, q := Only(requests[..|requests| - 1], client), requests[|requests| - 1];
      if q.client == client then earlier + [q] else earlier
  }

  function AnswersTo(c: Config, requests: seq<Request>, client: string): seq<bool> {
    if requests == [] then []
    else
      var n := |requests| - 1;
      var earlier := AnswersTo(c, requests[..n], client);
      if requests[n].client == client then earlier + [Serve(c, requests).answers[n]] else earlier
  }

  /** A client gets the answers it would get if it were the only one. */
  lemma {:induction false} ClientsAreIndependent(c: Config, requests: seq<Request>, client: string)
    ensures AnswersTo(c, requests, client) == Serve(c, Only(requests, client)).answers
    ensures TimesOf(Serve(c, requests).counts, client)
         == TimesOf(Serve(c, Only(requests, client)).counts, client)
  {
    if requests != [] {
      var earlier, q := requests[..|requests| - 1], requests[|requests| - 1];
      ClientsAreIndependent(c, earlier, client);
      if q.client == client {
        var alone := Only(earlier, client);
        assert (alone + [q])[..|alone|] == alone;
      }
    }
  }
}
