/** backend/app/core/database.py, `run_transaction`: bounded retry of a whole transaction with
    exponential backoff. */
module TransactionRetry {
  import opened Common

  /** What `is_retryable_database_error` says of an exception. */
  datatype Failure = Failure(message: string, retryable: bool)

  /** What one run of the operation does to its session before returning or raising. */
  datatype Effect<T, R> =
    | Returned(state: T, result: R)
    | RaisedBy(state: T, failure: Failure)

  datatype Outcome<R> = Success(result: R) | Raised(failure: Failure) | Unreachable

  /** The environment: what attempt k of the operation does on a given state, whether the commit
      of attempt k fails, and what other transactions make of the committed state before attempt
      k + 1. */
  datatype Operation<!T, R> = Operation(run: (nat, T) -> Effect<T, R>,
                                        commitFailure: nat -> Option<Failure>,
                                        others: (nat, T) -> T)
  {
    /** The committed state that attempt k reads, if all attempts before it have failed. */
    function StateAt(start: T, k: nat): T {
      if k == 0 then start else others(k - 1, StateAt(start, k - 1))
    }

    /** How attempt k fails, if it does. */
    function FailureOf(k: nat, start: T): Option<Failure> {
      match run(k, StateAt(start, k))
      case RaisedBy(_, f) => Some(f)
      case Returned(_, _) => commitFailure(k)
    }

    /** Attempt k is the last one. */
    predicate Stops(k: nat, limit: int, start: T) {
      var f := FailureOf(k, start);
      f.None? || k >= limit || !f.value.retryable
    }
  }

  class Store<T> {
    var committed: T

    constructor (initial: T)
      ensures committed == initial
    {
      committed := initial;
    }
  }

  /** A session works on its own copy until it commits; a rollback drops the copy. */
  class Session<T> {
    const store: Store<T>
    var working: T

    constructor (store: Store<T>)
      ensures this.store == store && working == store.committed
    {
      this.store := store;
      working := store.committed;
    }

    method Commit()
      modifies store
      ensures store.committed == working
    {
      store.committed := working;
    }

    method Rollback()
      modifies this
      ensures working == store.committed
    {
      working := store.committed;
    }
  }

  function Pow2(k: nat): nat {
    if k == 0 then 1 else 2 * Pow2(k - 1)
  }

  /** Seconds slept after the first k attempts have failed. */
  function Backoff(delay: real, k: nat): real {
    if k == 0 then 0.0 else Backoff(delay, k - 1) + delay * Pow2(k - 1) as real
  }

  /** The waits add up to delay * (2^k - 1). */
  lemma {:induction false} BackoffTotal(delay: real, k: nat)
    ensures Backoff(delay, k) == delay * (Pow2(k) - 1) as real
  {
    if k > 0 {
      BackoffTotal(delay, k - 1);
      var p := Pow2(k - 1) as real;
      assert (Pow2(k) - 1) as real == 2.0 * p - 1.0;
    }
  }

  /** The first attempt, from `from` on, that is not followed by another. */
  function FirstStop<T, R>(op: Operation<T, R>, limit: nat, state: T, from: nat): (k: nat)
    requires from <= limit
    ensures from <= k <= limit && op.Stops(k, limit, state)
    ensures forall j :: from <= j < k ==> !op.Stops(j, limit, state)
    decreases limit - from
  {
    if op.Stops(from, limit, state) then from else FirstStop(op, limit, state, from + 1)
  }

  lemma {:induction false} FirstStopIsLeast<T, R>(op: Operation<T, R>, limit: nat, state: T,
                                                  from: nat, k: nat)
    requires from <= k <= limit && op.Stops(k, limit, state)
    requires forall j :: from <= j < k ==> !op.Stops(j, limit, state)
    ensures FirstStop(op, limit, state, from) == k
    decreases k - from
  {
    if from < k {
      FirstStopIsLeast(op, limit, state, from + 1, k);
    }
  }

  /** A failure that is not retryable is never followed by another attempt. */
  lemma NeverRetriesOtherFailures<T, R>(op: Operation<T, R>, limit: nat, state: T, k: nat)
    requires k <= limit
    requires op.FailureOf(k, state).Some? && !op.FailureOf(k, state).value.retryable
    ensures FirstStop(op, limit, state, 0) <= k
  {
    assert op.Stops(k, limit, state);
  }

  /** Attempt k would raise an error that is worth another attempt. */
  predicate FailsRetryably<T, R>(op: Operation<T, R>, start: T, k: nat) {
    op.FailureOf(k, start).Some? && op.FailureOf(k, start).value.retryable
  }

  /** Attempt k succeeds after failures that are all worth another attempt. */
  ghost predicate SucceedsAt<T, R>(op: Operation<T, R>, start: T, k: nat) {
    op.FailureOf(k, start) == None && forall j :: 0 <= j < k ==> FailsRetryably(op, start, j)
  }

  lemma Continues<T, R>(op: Operation<T, R>, limit: int, start: T, k: nat)
    ensures op.Stops(k, limit, start) <==> k >= limit || !FailsRetryably(op, start, k)
  {
    assert op.Stops(k, limit, start) == (k >= limit || !FailsRetryably(op, start, k));
  }

  /** What the attempt that stops tells of the others. */
  lemma LastAttempt<T, R>(op: Operation<T, R>, limit: nat, start: T, last: nat)
    requires last <= limit && op.Stops(last, limit, start)
    requires forall j :: 0 <= j < last ==> !op.Stops(j, limit, start)
    ensures FirstStop(op, limit, start, 0) == last
    ensures forall j :: 0 <= j < last ==> FailsRetryably(op, start, j)
    ensures FailsRetryably(op, start, last) ==> last == limit
    ensures forall k: nat :: k <= limit && SucceedsAt(op, start, k) ==> k == last
  {
    FirstStopIsLeast(op, limit, start, 0, last);
    forall j | 0 <= j <= last {
      Continues(op, limit, start, j);
    }
    forall k: nat | k <= limit && SucceedsAt(op, start, k)
      ensures k == last
    {
      assert k < last ==> FailsRetryably(op, start, k);
      assert last < k ==> FailsRetryably(op, start, last);
    }
  }

  /** One round of the loop up to the retry: the operation runs on a session of its own, which is
      committed if it returns and rolled back if it raises or the commit does. */
  method Attempt<T, R>(store: Store<T>, op: Operation<T, R>, k: nat, ghost start: T)
    returns (failure: Option<Failure>, result: Option<R>)
    requires store.committed == op.StateAt(start, k)
    modifies store
    ensures failure == op.FailureOf(k, start)
    ensures failure.Some? ==> store.committed == old(store.committed)
    ensures failure.None? ==>
              && op.run(k, old(store.committed)).Returned? && op.commitFailure(k) == None
              && result == Some(op.run(k, old(store.committed)).result)
              && store.committed == op.run(k, old(store.committed)).state
  {
    var session := new Session(store);
    var effect := op.run(k, session.working);
    session.working := effect.state;
    failure := if effect.RaisedBy? then Some(effect.failure) else op.commitFailure(k);
    if failure == None {
      session.Commit();
      return None, Some(effect.result);
    }
    session.Rollback();
    result := None;
  }

  /** `run_transaction`. With k the first attempt that stops: every attempt before it failed
      with a retryable error and left the store to the other transactions, and attempt k either
      committed the operation exactly once, on the state it had read, or raised and left that
      state unchanged. Retrying is not given up early: a retryable error is raised by the last
      allowed attempt only, and a success that is within the limit is reached. */
  method RunTransaction<T, R>(store: Store<T>, op: Operation<T, R>, limit: int, delay: real)
    returns (outcome: Outcome<R>, attempts: nat, slept: real)
    modifies store
    ensures limit < 0 <==> outcome == Unreachable
    ensures limit < 0 ==> attempts == 0 && slept == 0.0 && store.committed == old(store.committed)
    ensures limit >= 0 ==>
              && 1 <= attempts <= limit + 1
              && attempts - 1 == FirstStop(op, limit, old(store.committed), 0)
              && slept == Backoff(delay, attempts - 1)
              && var k := attempts - 1;
                 var read := op.StateAt(old(store.committed), k);
                 match op.FailureOf(k, old(store.committed))
                 case None =>
                   && op.run(k, read).Returned?
                   && outcome == Success(op.run(k, read).result)
                   && store.committed == op.run(k, read).state
                 case Some(f) =>
                   && outcome == Raised(f)
                   && store.committed == read
    ensures forall j :: 0 <= j < attempts - 1 ==> FailsRetryably(op, old(store.committed), j)
    ensures outcome.Raised? && outcome.failure.retryable ==> attempts == limit + 1
    ensures outcome.Success? ==>
              op.run(attempts - 1, op.StateAt(old(store.committed), attempts - 1)).Returned?
              && op.commitFailure(attempts - 1) == None
    ensures forall k: nat :: k <= limit && SucceedsAt(op, old(store.committed), k) ==>
              attempts == k + 1 && outcome.Success?
  {
    attempts, slept := 0, 0.0;
    var attempt := 0;
    while attempt < limit + 1
      invariant 0 <= attempt && attempt == attempts
      invariant limit >= 0 ==> attempt <= limit
      invariant limit < 0 ==> attempt == 0
      invariant store.committed == op.StateAt(old(store.committed), attempt)
      invariant forall j :: 0 <= j < attempt ==>
                  !op.Stops(j, limit, old(store.committed))
      invariant slept == Backoff(delay, attempt)
      decreases limit + 1 - attempt
    {
      attempts := attempt + 1;
      var failure, result := Attempt(store, op, attempt, old(store.committed));
      Continues(op, limit, old(store.committed), attempt);
      if op.Stops(attempt, limit, old(store.committed)) {
        LastAttempt(op, limit, old(store.committed), attempt);
      }
      hide FirstStop, FailsRetryably;
      if failure == None {
        return Success(result.value), attempts, slept;
      }
      if attempt >= limit || !failure.value.retryable {
        return Raised(failure.value), attempts, slept;
      }
      slept := slept + delay * Pow2(attempt) as real;
      store.committed := op.others(attempt, store.committed);
      attempt := attempt + 1;
    }
    outcome := Unreachable;
  }
}
