/** Admission by counting recent entries of a log: the bound that the rate limiter and the
    login throttle have in common. */
module SlidingWindow {

  datatype Entry<K> = Entry(key: K, time: real)

  /** Still inside the window at `now`; a closed window keeps an entry exactly `window` old. */
  predicate Recent(time: real, now: real, window: real, closed: bool) {
    if closed then now - time <= window else now - time < window
  }

  function CountRecent<K(==)>(log: seq<Entry<K>>, key: K, now: real, window: real, closed: bool)
    : nat
  {
    if log == [] then 0
    else
      var last := log[|log| - 1];
      CountRecent(log[..|log| - 1], key, now, window, closed)
      + if last.key == key && Recent(last.time, now, window, closed) then 1 else 0
  }

  /** In (a, a + window], or in [a, a + window] for a closed window. */
  predicate Inside(time: real, a: real, window: real, closed: bool) {
    (if closed then a <= time else a < time) && time <= a + window
  }

  function CountInside<K(==)>(log: seq<Entry<K>>, key: K, a: real, window: real, closed: bool): nat
  {
    if log == [] then 0
    else
      var last := log[|log| - 1];
      CountInside(log[..|log| - 1], key, a, window, closed)
      + if last.key == key && Inside(last.time, a, window, closed) then 1 else 0
  }

  ghost predicate Ordered<K>(log: seq<Entry<K>>) {
    forall i, j :: 0 <= i < j < |log| ==> log[i].time <= log[j].time
  }

  /** Every entry was admitted with fewer than `max` recent entries of its key before it. */
  ghost predicate Governed<K>(log: seq<Entry<K>>, max: int, window: real, closed: bool) {
    forall i :: 0 <= i < |log| ==>
      CountRecent(log[..i], log[i].key, log[i].time, window, closed) < max
  }

  lemma GovernedPrefix<K>(log: seq<Entry<K>>, max: int, window: real, closed: bool)
    requires log != [] && Governed(log, max, window, closed)
    ensures Governed(log[..|log| - 1], max, window, closed)
  {
    var earlier := log[..|log| - 1];
    assert forall i {:trigger earlier[..i]} :: 0 <= i < |earlier| ==> earlier[..i] == log[..i];
  }

  lemma AppendGoverned<K>(log: seq<Entry<K>>, e: Entry<K>, max: int, window: real, closed: bool)
    requires Governed(log, max, window, closed)
    requires CountRecent(log, e.key, e.time, window, closed) < max
    ensures Governed(log + [e], max, window, closed)
  {
    var next := log + [e];
    assert forall i {:trigger next[..i]} :: 0 <= i <= |log| ==> next[..i] == log[..i];
    assert log[..|log|] == log;
  }

  /** An interval of the window's length that reaches back from `now` holds recent entries only. */
  lemma InsideIsRecent<K>(log: seq<Entry<K>>, key: K, a: real, now: real, window: real,
                          closed: bool)
    requires now <= a + window
    ensures CountInside(log, key, a, window, closed) <= CountRecent(log, key, now, window, closed)
  {
  }

  /** In a log without later entries the recent ones are those of the window that ends now. */
  lemma RecentIsInside<K>(log: seq<Entry<K>>, key: K, now: real, window: real, closed: bool)
    requires forall i :: 0 <= i < |log| ==> log[i].time <= now
    ensures CountRecent(log, key, now, window, closed)
         == CountInside(log, key, now - window, window, closed)
  {
  }

  /** In every interval of the window's length, aligned or not, at most `max` entries of any one
      key were admitted. */
  lemma {:induction false} WindowBound<K>(log: seq<Entry<K>>, key: K, a: real, max: int,
                                          window: real, closed: bool)
    requires Ordered(log) && Governed(log, max, window, closed) && max >= 0
    ensures CountInside(log, key, a, window, closed) <= max
  {
    if log != [] {
      var earlier, last := log[..|log| - 1], log[|log| - 1];
      GovernedPrefix(log, max, window, closed);
      WindowBound(earlier, key, a, max, window, closed);
      if last.key == key && Inside(last.time, a, window, closed) {
        InsideIsRecent(earlier, key, a, last.time, window, closed);
      }
    }
  }
}
