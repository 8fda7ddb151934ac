/** backend/app/core/security.py, `authenticate_and_create_session`: failed logins are counted
    per fingerprint in a stored log. */
module LoginThrottle {
  import opened SlidingWindow

  datatype Settings = Settings(
    maxAttempts: int,
    windowSeconds: real,
    sessionSeconds: real,
    operatorKey: string,
    reviewerKey: string)

  datatype Attempt = Attempt(fingerprint: string, role: string, succeeded: bool, attemptedAt: real)

  datatype Session = Session(role: string, actor: string, expiresAt: real)

  datatype Login = Login(role: string, suppliedKey: string, actor: string, fingerprint: string,
                         now: real)

  datatype Outcome = UnknownRole | Throttled | InvalidCredentials | Granted(session: Session)

  datatype Store = Store(attempts: seq<Attempt>, sessions: seq<Session>)

  /** The query: failed attempts of the fingerprint since the start of the window. */
  function FailuresSince(attempts: seq<Attempt>, fingerprint: string, since: real): nat {
    if attempts == [] then 0
    else
      var last := attempts[|attempts| - 1];
      FailuresSince(attempts[..|attempts| - 1], fingerprint, since)
      + if last.fingerprint == fingerprint && !last.succeeded && last.attemptedAt >= since
        then 1 else 0
  }

  function ExpectedKey(s: Settings, role: string): string {
    if role == "operator" then s.operatorKey else s.reviewerKey
  }

  function Authenticate(s: Settings, store: Store, l: Login): (Store, Outcome) {
    if l.role !in {"operator", "reviewer"} then (store, UnknownRole)
    else if FailuresSince(store.attempts, l.fingerprint, l.now - s.windowSeconds) >= s.maxAttempts
      then (store, Throttled)
    else
      var succeeded := l.suppliedKey == ExpectedKey(s, l.role);
      var attempts := store.attempts + [Attempt(l.fingerprint, l.role, succeeded, l.now)];
      if !succeeded then (Store(attempts, store.sessions), InvalidCredentials)
      else
        var session := Session(l.role, l.actor, l.now + s.sessionSeconds);
        (Store(attempts, store.sessions + [session]), Granted(session))
  }

  class AuthService {
    const settings: Settings
    var attempts: seq<Attempt>
    var sessions: seq<Session>

    constructor (settings: Settings)
      ensures this.settings == settings && attempts == [] && sessions == []
    {
      this.settings := settings;
      attempts, sessions := [], [];
    }

    method AuthenticateAndCreateSession(l: Login) returns (outcome: Outcome)
      modifies this
      ensures (Store(attempts, sessions), outcome)
           == Authenticate(settings, old(Store(attempts, sessions)), l)
    {
      if l.role != "operator" && l.role != "reviewer" {
        return UnknownRole;
      }
      var since := l.now - settings.windowSeconds;
      var failures := FailuresSince(attempts, l.fingerprint, since);
      if failures >= settings.maxAttempts {
        return Throttled;
      }
      var expected := if l.role == "operator" then settings.operatorKey else settings.reviewerKey;
      var succeeded := l.suppliedKey == expected;
      attempts := attempts + [Attempt(l.fingerprint, l.role, succeeded, l.now)];
      if !succeeded {
        return InvalidCredentials;
      }
      var session := Session(l.role, l.actor, l.now + settings.sessionSeconds);
      sessions := sessions + [session];
      return Granted(session);
    }
  }

  // ---- Whole histories ----

  function Serve(s: Settings, logins: seq<Login>): Store {
    if logins == [] then Store([], [])
    else Authenticate(s, Serve(s, logins[..|logins| - 1]), logins[|logins| - 1]).0
  }

  ghost predicate InOrder(logins: seq<Login>) {
    forall i, j :: 0 <= i < j < |logins| ==> logins[i].now <= logins[j].now
  }

  /** The failed attempts as a window log. */
  function FailureLog(attempts: seq<Attempt>): seq<Entry<string>> {
    if attempts == [] then []
    else
      var earlier, last := FailureLog(attempts[..|attempts| - 1]), attempts[|attempts| - 1];
      if last.succeeded then earlier else earlier + [Entry(last.fingerprint, last.attemptedAt)]
  }

  lemma AppendFailure(attempts: seq<Attempt>, a: Attempt)
    ensures FailureLog(attempts + [a])
         == if a.succeeded then FailureLog(attempts)
            else FailureLog(attempts) + [Entry(a.fingerprint, a.attemptedAt)]
  {
  }

  /** The query counts the recent entries of the failure log, in a closed window. */
  lemma {:induction false} QueryCountsFailures(attempts: seq<Attempt>, fingerprint: string,
                                               now: real, window: real)
    ensures FailuresSince(attempts, fingerprint, now - window)
         == CountRecent(FailureLog(attempts), fingerprint, now, window, true)
  {
    if attempts != [] {
      var earlier := attempts[..|attempts| - 1];
      QueryCountsFailures(earlier, fingerprint, now, window);
      var last := attempts[|attempts| - 1];
      var log, e := FailureLog(earlier), Entry(last.fingerprint, last.attemptedAt);
      assert (log + [e])[..|log|] == log;
    }
  }

  /** A login adds at most its own failure to the log, and only below the limit. */
  lemma NextFailureLog(s: Settings, store: Store, l: Login)
    ensures var log, log' := FailureLog(store.attempts),
                             FailureLog(Authenticate(s, store, l).0.attempts);
            || log' == log
            || (&& log' == log + [Entry(l.fingerprint, l.now)]
                && CountRecent(log, l.fingerprint, l.now, s.windowSeconds, true) < s.maxAttempts)
  {
    QueryCountsFailures(store.attempts, l.fingerprint, l.now, s.windowSeconds);
    AppendFailure(store.attempts, Attempt(l.fingerprint, l.role, false, l.now));
    AppendFailure(store.attempts, Attempt(l.fingerprint, l.role, true, l.now));
  }

  ghost predicate LogOk(s: Settings, log: seq<Entry<string>>, now: real) {
    && Ordered(log) && Governed(log, s.maxAttempts, s.windowSeconds, true)
    && forall i :: 0 <= i < |log| ==> log[i].time <= now
  }

  lemma AppendOk(s: Settings, log: seq<Entry<string>>, e: Entry<string>)
    requires LogOk(s, log, e.time)
    requires CountRecent(log, e.key, e.time, s.windowSeconds, true) < s.maxAttempts
    ensures LogOk(s, log + [e], e.time)
  {
    AppendGoverned(log, e, s.maxAttempts, s.windowSeconds, true);
  }

  lemma {:induction false} FailuresAreGoverned(s: Settings, logins: seq<Login>, now: real)
    requires InOrder(logins) && forall i :: 0 <= i < |logins| ==> logins[i].now <= now
    ensures LogOk(s, FailureLog(Serve(s, logins).attempts), now)
  {
    if logins != [] {
      var earlier, l := logins[..|logins| - 1], logins[|logins| - 1];
      FailuresAreGoverned(s, earlier, l.now);
      NextFailureLog(s, Serve(s, earlier), l);
      var log := FailureLog(Serve(s, earlier).attempts);
      if FailureLog(Serve(s, logins).attempts) != log {
        AppendOk(s, log, Entry(l.fingerprint, l.now));
      }
    }
  }

  /** For every history in time order, every fingerprint and every closed interval
      [a, a + window], at most `maxAttempts` failed logins are recorded. */
  lemma AtMostMaxFailures(s: Settings, logins: seq<Login>, fingerprint: string, a: real)
    requires InOrder(logins) && s.maxAttempts >= 0
    ensures CountInside(FailureLog(Serve(s, logins).attempts), fingerprint, a, s.windowSeconds,
                        true) <= s.maxAttempts
  {
    FailuresAreGoverned(s, logins, if logins == [] then 0.0 else logins[|logins| - 1].now);
    WindowBound(FailureLog(Serve(s, logins).attempts), fingerprint, a, s.maxAttempts,
                s.windowSeconds, true);
  }

  /** A known role is throttled exactly when that many failures of its fingerprint lie in the
      closed window before the login, whatever key it supplies; being throttled changes nothing,
      and a success neither counts against the fingerprint nor clears its failures. */
  lemma ThrottleIsExact(s: Settings, store: Store, l: Login)
    requires l.role in {"operator", "reviewer"}
    ensures var (store', outcome) := Authenticate(s, store, l);
            && (outcome == Throttled
                <==> CountRecent(FailureLog(store.attempts), l.fingerprint, l.now,
                                 s.windowSeconds, true) >= s.maxAttempts)
            && (outcome == Throttled ==> store' == store)
            && (outcome.Granted? ==> FailureLog(store'.attempts) == FailureLog(store.attempts)
                                     && |store'.sessions| == |store.sessions| + 1)
            && (!outcome.Granted? ==> store'.sessions == store.sessions)
  {
    QueryCountsFailures(store.attempts, l.fingerprint, l.now, s.windowSeconds);
    AppendFailure(store.attempts, Attempt(l.fingerprint, l.role, true, l.now));
  }

  /** The key of each role. */
  predicate HoldsKey(s: Settings, l: Login) {
    || (l.role == "operator" && l.suppliedKey == s.operatorKey)
    || (l.role == "reviewer" && l.suppliedKey == s.reviewerKey)
  }

  /** What a login that is not throttled gets: a session of its role and actor, which ends after
      the configured time, exactly for the key of its role. It stores one attempt of its own,
      marked with the answer, and a wrong key is one more recent failure of its fingerprint. */
  lemma KeyDecides(s: Settings, store: Store, l: Login)
    ensures var (store', outcome) := Authenticate(s, store, l);
            && (outcome == UnknownRole <==> l.role != "operator" && l.role != "reviewer")
            && (outcome == UnknownRole ==> store' == store)
            && (outcome != UnknownRole && outcome != Throttled ==>
                  && (outcome.Granted? <==> HoldsKey(s, l))
                  && (outcome == InvalidCredentials <==> !HoldsKey(s, l))
                  && store'.attempts
                     == store.attempts + [Attempt(l.fingerprint, l.role, HoldsKey(s, l), l.now)]
                  && (outcome.Granted? ==>
                        && outcome.session == Session(l.role, l.actor, l.now + s.sessionSeconds)
                        && store'.sessions == store.sessions + [outcome.session])
                  && CountRecent(FailureLog(store'.attempts), l.fingerprint, l.now,
                                 s.windowSeconds, true)
                     == CountRecent(FailureLog(store.attempts), l.fingerprint, l.now,
                                    s.windowSeconds, true)
                        + if HoldsKey(s, l) || s.windowSeconds < 0.0 then 0 else 1)
  {
    var log := FailureLog(store.attempts);
    AppendFailure(store.attempts, Attempt(l.fingerprint, l.role, HoldsKey(s, l), l.now));
    AppendCount(log, Entry(l.fingerprint, l.now), l.fingerprint, l.now, s.windowSeconds);
  }

  lemma AppendCount(log: seq<Entry<string>>, e: Entry<string>, key: string, now: real, window: real)
    ensures CountRecent(log + [e], key, now, window, true)
         == CountRecent(log, key, now, window, true)
            + if e.key == key && Recent(e.time, now, window, true) then 1 else 0
  {
    assert (log + [e])[..|log|] == log;
  }

  /** Over every history a session is only ever opened by the key of its role. */
  lemma {:induction false} SessionsNeedKeys(s: Settings, logins: seq<Login>, session: Session)
    requires session in Serve(s, logins).sessions
    ensures exists i :: 0 <= i < |logins| && HoldsKey(s, logins[i])
                     && session == Session(logins[i].role, logins[i].actor,
                                           logins[i].now + s.sessionSeconds)
  {
    var n := |logins| - 1;
    var earlier := Serve(s, logins[..n]);
    if session in earlier.sessions {
      SessionsNeedKeys(s, logins[..n], session);
      var i :| 0 <= i < n && HoldsKey(s, logins[..n][i])
            && session == Session(logins[..n][i].role, logins[..n][i].actor,
                                  logins[..n][i].now + s.sessionSeconds);
      assert logins[i] == logins[..n][i];
    } else {
      KeyDecides(s, earlier, logins[n]);
      ThrottledStoresNothing(s, earlier, logins[n]);
      assert HoldsKey(s, logins[n]);
    }
  }

  lemma ThrottledStoresNothing(s: Settings, store: Store, l: Login)
    ensures var (store', outcome) := Authenticate(s, store, l);
            !outcome.Granted? ==> store'.sessions == store.sessions
  {
  }

  // ---- Fingerprints do not affect each other ----

  /** The answers to a list of logins. */
  function Outcomes(s: Settings, logins: seq<Login>): seq<Outcome> {
    if logins == [] then []
    else
      var earlier, l := logins[..|logins| - 1], logins[|logins| - 1];
      Outcomes(s, earlier) + [Authenticate(s, Serve(s, earlier), l).1]
  }

  function Only(logins: seq<Login>, fingerprint: string): seq<Login> {
    if logins == [] then []
    else
      var earlier, l := Only(logins[..|logins| - 1], fingerprint), logins[|logins| - 1];
      if l.fingerprint == fingerprint then earlier + [l] else earlier
  }

  /** The answers to the logins of one fingerprint among others. */
  function OutcomesTo(s: Settings, logins: seq<Login>, fingerprint: string): seq<Outcome> {
    if logins == [] then []
    else
      var earlier, l := logins[..|logins| - 1], logins[|logins| - 1];
      OutcomesTo(s, earlier, fingerprint)
      + if l.fingerprint == fingerprint then [Authenticate(s, Serve(s, earlier), l).1] else []
  }

  /** The stored attempts of one fingerprint. */
  function AttemptsOf(attempts: seq<Attempt>, fingerprint: string): seq<Attempt> {
    if attempts == [] then []
    else
      var earlier, last := attempts[..|attempts| - 1], attempts[|attempts| - 1];
      AttemptsOf(earlier, fingerprint)
      + if last.fingerprint == fingerprint then [last] else []
  }

  lemma AppendAttempt(attempts: seq<Attempt>, a: Attempt, fingerprint: string)
    ensures AttemptsOf(attempts + [a], fingerprint)
         == AttemptsOf(attempts, fingerprint) + if a.fingerprint == fingerprint then [a] else []
  {
    assert (attempts + [a])[..|attempts|] == attempts;
  }

  lemma CountAttempt(attempts: seq<Attempt>, a: Attempt, fingerprint: string, since: real)
    ensures FailuresSince(attempts + [a], fingerprint, since)
         == FailuresSince(attempts, fingerprint, since)
            + if a.fingerprint == fingerprint && !a.succeeded && a.attemptedAt >= since then 1 else 0
  {
    assert (attempts + [a])[..|attempts|] == attempts;
  }

  lemma {:induction false} OwnFailures(attempts: seq<Attempt>, fingerprint: string, since: real)
    ensures FailuresSince(attempts, fingerprint, since)
         == FailuresSince(AttemptsOf(attempts, fingerprint), fingerprint, since)
  {
    if attempts != [] {
      var earlier, last := attempts[..|attempts| - 1], attempts[|attempts| - 1];
      OwnFailures(earlier, fingerprint, since);
      assert attempts == earlier + [last];
      AppendAttempt(earlier, last, fingerprint);
      CountAttempt(earlier, last, fingerprint, since);
      CountAttempt(AttemptsOf(earlier, fingerprint), last, fingerprint, since);
      hide AttemptsOf, FailuresSince;
      assert AttemptsOf(earlier, fingerprint) + [] == AttemptsOf(earlier, fingerprint);
    }
  }

  /** Another fingerprint's login leaves a fingerprint's attempts alone; its own login is answered
      as if the others' attempts were not stored. */
  lemma LoginAlone(s: Settings, store: Store, alone: Store, l: Login, fingerprint: string)
    requires alone.attempts == AttemptsOf(store.attempts, fingerprint)
    ensures var (store', outcome) := Authenticate(s, store, l);
            if l.fingerprint == fingerprint then
              && Authenticate(s, alone, l).1 == outcome
              && Authenticate(s, alone, l).0.attempts == AttemptsOf(store'.attempts, fingerprint)
            else AttemptsOf(store'.attempts, fingerprint) == alone.attempts
  {
    hide FailuresSince, AttemptsOf;
    OwnFailures(store.attempts, fingerprint, l.now - s.windowSeconds);
    AppendAttempt(store.attempts, Attempt(l.fingerprint, l.role, true, l.now), fingerprint);
    AppendAttempt(store.attempts, Attempt(l.fingerprint, l.role, false, l.now), fingerprint);
  }

  /** Over every history a fingerprint gets exactly the answers that it would get alone. */
  lemma {:induction false} FingerprintsAreIndependent(s: Settings, logins: seq<Login>,
                                                      fingerprint: string)
    ensures OutcomesTo(s, logins, fingerprint) == Outcomes(s, Only(logins, fingerprint))
    ensures AttemptsOf(Serve(s, logins).attempts, fingerprint)
         == Serve(s, Only(logins, fingerprint)).attempts
  {
    if logins != [] {
      var earlier, l := logins[..|logins| - 1], logins[|logins| - 1];
      FingerprintsAreIndependent(s, earlier, fingerprint);
      var own := Only(earlier, fingerprint);
      LoginAlone(s, Serve(s, earlier), Serve(s, own), l, fingerprint);
      assert (own + [l])[..|own|] == own;
    }
  }
}
