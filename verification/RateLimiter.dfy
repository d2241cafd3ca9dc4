/** The sliding-window limiter of app/core/ratelimit.py, and what it guarantees over whole runs. */
module RateLimiting {
  // The limiter forgets attempts as they leave the window; the laws compare what it remembers with
  // the full history of admissions.

  import opened Text

  // ---------------------------------------------------------------- one key's window

  // Attempts older than the cutoff leave from the front.
  function Prune(hits: seq<real>, cutoff: real): (r: seq<real>)
    ensures |r| <= |hits|
  {
    if hits != [] && hits[0] < cutoff then Prune(hits[1..], cutoff) else hits
  }

  // The remaining attempts after one at time `now`, and whether it was admitted.
  function Attempt(limit: int, window: int, hits: seq<real>, now: real): (bool, seq<real>) {
    var recent := Prune(hits, now - window as real);
    if |recent| >= limit then (false, recent) else (true, recent + [now])
  }

  type Hits = map<string, seq<real>>

  function HitsOf(hits: Hits, key: string): seq<real> {
    if key in hits then hits[key] else []
  }

  // One key is forgotten, or all of them.
  function Forgotten(hits: Hits, which: Option<string>): Hits {
    if which.None? then map[] else hits - {which.value}
  }

  class RateLimiter {
    const limit: int
    const window: int
    var hits: Hits

    constructor (limit: int, window: int)
      ensures this.limit == limit && this.window == window && hits == map[]
    {
      this.limit := limit;
      this.window := window;
      hits := map[];
    }

    // Record an attempt against a key; refuse it once the window is full.
    method Allow(key: string, now: real) returns (admitted: bool)
      modifies this
      ensures (admitted, HitsOf(hits, key)) == Attempt(limit, window, HitsOf(old(hits), key), now)
      ensures hits == old(hits)[key := HitsOf(hits, key)]
    {
      var recent := HitsOf(hits, key);
      var cutoff := now - window as real;
      while recent != [] && recent[0] < cutoff
        invariant Prune(recent, cutoff) == Prune(HitsOf(old(hits), key), cutoff)
        decreases |recent|
      {
        recent := recent[1..];
      }
      if |recent| >= limit {
        hits := hits[key := recent];
        return false;
      }
      hits := hits[key := recent + [now]];
      return true;
    }

    // `reset`: forget one key, or all of them.
    method Reset(key: Option<string>)
      modifies this
      ensures hits == Forgotten(old(hits), key)
      ensures forall other :: (key.None? || key.value == other) ==> HitsOf(hits, other) == []
      ensures forall other :: key.Some? && key.value != other ==> HitsOf(hits, other) == HitsOf(old(hits), other)
    {
      if key.None? {
        hits := map[];
      } else {
        hits := hits - {key.value};
      }
    }
  }

  // ---------------------------------------------------------------- whole runs

  // An attempt, or a reset of one key or all of them, at a time of the clock.
  datatype Call =
    | Attempted(key: string, now: real)
    | Forget(which: Option<string>, now: real)

  predicate Forgets(call: Call, key: string) {
    call.Forget? && (call.which.None? || call.which.value == key)
  }

  // The memory that one call leaves.
  function Record(limit: int, window: int, memory: Hits, call: Call): Hits {
    match call
    case Attempted(key, now) => memory[key := Attempt(limit, window, HitsOf(memory, key), now).1]
    case Forget(which, _) => Forgotten(memory, which)
  }

  // The limiter's memory after a run of calls.
  function After(limit: int, window: int, calls: seq<Call>): Hits {
    if calls == [] then map[]
    else Record(limit, window, After(limit, window, calls[..|calls| - 1]), calls[|calls| - 1])
  }

  // Whether call i of a run was an attempt and admitted.
  predicate AdmittedAt(limit: int, window: int, calls: seq<Call>, i: nat)
    requires i < |calls|
  {
    && calls[i].Attempted?
    && Attempt(limit, window, HitsOf(After(limit, window, calls[..i]), calls[i].key), calls[i].now).0
  }

  // Every admission that a key had since it was last reset, never pruned.
  function History(limit: int, window: int, calls: seq<Call>, key: string): seq<real> {
    if calls == [] then []
    else
      var n := |calls| - 1;
      if Forgets(calls[n], key) then []
      else
        History(limit, window, calls[..n], key)
        + if AdmittedAt(limit, window, calls, n) && calls[n].key == key then [calls[n].now] else []
  }

  predicate ClockNeverFalls(calls: seq<Call>) {
    forall i, j :: 0 <= i <= j < |calls| ==> calls[i].now <= calls[j].now
  }

  predicate Ascending(times: seq<real>) {
    forall i, j :: 0 <= i <= j < |times| ==> times[i] <= times[j]
  }

  // How many times lie in a closed interval.
  function Within(times: seq<real>, lo: real, hi: real): nat {
    if times == [] then 0
    else Within(times[..|times| - 1], lo, hi) + if lo <= times[|times| - 1] <= hi then 1 else 0
  }

  predicate UpTo(times: seq<real>, hi: real) {
    forall k :: 0 <= k < |times| ==> times[k] <= hi
  }

  lemma {:induction false} PruneAll(times: seq<real>, hi: real, cutoff: real)
    requires UpTo(times, hi) && hi < cutoff
    ensures Prune(times, cutoff) == []
  {
    if times != [] {
      PruneAll(times[1..], hi, cutoff);
    }
  }

  // Pruning in steps with a rising cutoff is pruning once.
  lemma {:induction false} PruneTwice(times: seq<real>, early: real, late: real)
    requires early <= late
    ensures Prune(Prune(times, early), late) == Prune(times, late)
  {
    if times != [] && times[0] < early {
      PruneTwice(times[1..], early, late);
    }
  }

  lemma {:induction false} PruneAppend(times: seq<real>, cutoff: real, now: real)
    ensures Prune(times + [now], cutoff) ==
      if Prune(times, cutoff) != [] || cutoff <= now then Prune(times, cutoff) + [now] else []
  {
    if times != [] && times[0] < cutoff {
      assert (times + [now])[1..] == times[1..] + [now];
      PruneAppend(times[1..], cutoff, now);
    } else if times == [] {
      assert times + [now] == [now] && [now][1..] == [];
    }
  }

  lemma {:induction false} HistoryAscends(limit: int, window: int, calls: seq<Call>, key: string)
    requires ClockNeverFalls(calls)
    ensures Ascending(History(limit, window, calls, key))
    ensures calls == [] ==> History(limit, window, calls, key) == []
    ensures calls != [] ==> UpTo(History(limit, window, calls, key), calls[|calls| - 1].now)
  {
    hide Attempt, AdmittedAt;
    if calls != [] {
      var n := |calls| - 1;
      var front := calls[..n];
      HistoryAscends(limit, window, front, key);
      var earlier := History(limit, window, front, key);
      if front != [] {
        assert front[|front| - 1] == calls[n - 1];
        UpToLater(earlier, calls[n - 1].now, calls[n].now);
      }
      assert earlier + [] == earlier;
    }
  }

  lemma UpToLater(times: seq<real>, lo: real, hi: real)
    requires UpTo(times, lo) && lo <= hi
    ensures UpTo(times, hi)
  {
  }

  // What one more call does to a key's memory and history.
  predicate AdmitsNext(limit: int, window: int, front: seq<Call>, last: Call) {
    last.Attempted? && |Prune(HitsOf(After(limit, window, front), last.key), last.now - window as real)| < limit
  }

  lemma NextAdmitted(limit: int, window: int, front: seq<Call>, last: Call)
    ensures AdmittedAt(limit, window, front + [last], |front|) == AdmitsNext(limit, window, front, last)
  {
    hide After, Prune;
    assert (front + [last])[..|front|] == front;
  }

  lemma RecordKeeps(limit: int, window: int, memory: Hits, call: Call, key: string)
    ensures HitsOf(Record(limit, window, memory, call), key) ==
      if Forgets(call, key) then []
      else if call.Attempted? && call.key == key then Attempt(limit, window, HitsOf(memory, key), call.now).1
      else HitsOf(memory, key)
  {
    hide Attempt;
  }

  lemma AfterNext(limit: int, window: int, front: seq<Call>, last: Call)
    ensures After(limit, window, front + [last]) == Record(limit, window, After(limit, window, front), last)
  {
    hide Record;
    assert (front + [last])[..|front|] == front;
  }

  lemma NextMemory(limit: int, window: int, front: seq<Call>, last: Call, key: string)
    ensures HitsOf(After(limit, window, front + [last]), key) ==
      if Forgets(last, key) then []
      else if last.Attempted? && last.key == key then
        var recent := Prune(HitsOf(After(limit, window, front), key), last.now - window as real);
        if AdmitsNext(limit, window, front, last) then recent + [last.now] else recent
      else HitsOf(After(limit, window, front), key)
  {
    hide Prune, After, HitsOf, Record;
    AfterNext(limit, window, front, last);
    RecordKeeps(limit, window, After(limit, window, front), last, key);
  }

  lemma NextHistory(limit: int, window: int, front: seq<Call>, last: Call, key: string)
    ensures History(limit, window, front + [last], key) ==
      if Forgets(last, key) then []
      else if AdmitsNext(limit, window, front, last) && last.key == key then History(limit, window, front, key) + [last.now]
      else History(limit, window, front, key)
  {
    hide AdmittedAt;
    NextAdmitted(limit, window, front, last);
    assert (front + [last])[..|front|] == front;
    assert History(limit, window, front, key) + [] == History(limit, window, front, key);
  }

  lemma EarlierClock(front: seq<Call>, last: Call)
    requires ClockNeverFalls(front + [last])
    ensures ClockNeverFalls(front)
    ensures front != [] ==> front[|front| - 1].now <= last.now
  {
    var calls := front + [last];
    assert forall i :: 0 <= i < |front| ==> front[i] == calls[i];
    assert calls[|front|] == last;
  }

  // One attempt, seen by a later pruning: the memory after it and the history after it agree
  // when they agreed before.
  lemma AgreesAfterOne(memory: seq<real>, history: seq<real>, early: real, late: real, now: real, admitted: bool)
    requires early <= late
    requires Prune(memory, late) == Prune(history, late)
    ensures var recent := Prune(memory, early);
      Prune(if admitted then recent + [now] else recent, late) == Prune(if admitted then history + [now] else history, late)
  {
    hide Prune;
    PruneTwice(memory, early, late);
    PruneAppend(Prune(memory, early), late, now);
    PruneAppend(history, late, now);
  }

  // The pruned memory of a key agrees with its full history about everything since a cutoff.
  predicate Agrees(limit: int, window: int, calls: seq<Call>, key: string, cutoff: real) {
    Prune(HitsOf(After(limit, window, calls), key), cutoff) == Prune(History(limit, window, calls, key), cutoff)
  }

  lemma AgreesAtFirst(limit: int, window: int, key: string, cutoff: real)
    ensures Agrees(limit, window, [], key, cutoff)
  {
    hide Prune;
    assert HitsOf(After(limit, window, []), key) == History(limit, window, [], key);
  }

  lemma AgreesNext(limit: int, window: int, front: seq<Call>, last: Call, key: string, cutoff: real)
    requires Agrees(limit, window, front, key, cutoff) && last.now - window as real <= cutoff
    ensures Agrees(limit, window, front + [last], key, cutoff)
  {
    hide Prune, After, History, HitsOf;
    NextMemory(limit, window, front, last, key);
    NextHistory(limit, window, front, last, key);
    if last.Attempted? && last.key == key {
      AgreesAfterOne(HitsOf(After(limit, window, front), key), History(limit, window, front, key),
                     last.now - window as real, cutoff, last.now, AdmitsNext(limit, window, front, last));
    }
  }

  // With a clock that never falls, it agrees since any cutoff that the key's next attempt can use.
  lemma {:induction false} MemoryAgrees(limit: int, window: int, calls: seq<Call>, key: string, cutoff: real)
    requires ClockNeverFalls(calls)
    requires calls != [] ==> calls[|calls| - 1].now - window as real <= cutoff
    ensures Agrees(limit, window, calls, key, cutoff)
  {
    hide Agrees, ClockNeverFalls;
    if calls == [] {
      AgreesAtFirst(limit, window, key, cutoff);
    } else {
      var front := calls[..|calls| - 1];
      var last := calls[|calls| - 1];
      assert calls == front + [last];
      EarlierClock(front, last);
      MemoryAgrees(limit, window, front, key, cutoff);
      AgreesNext(limit, window, front, last, key, cutoff);
    }
  }

  lemma AscendingFront(front: seq<real>, last: real, hi: real)
    requires Ascending(front + [last]) && UpTo(front + [last], hi)
    ensures Ascending(front) && UpTo(front, last) && UpTo(front, hi) && last <= hi
  {
    var times := front + [last];
    assert times[|front|] == last;
    assert forall k :: 0 <= k < |front| ==> front[k] == times[k];
  }

  lemma WithinAppend(front: seq<real>, last: real, lo: real, hi: real)
    ensures Within(front + [last], lo, hi) == Within(front, lo, hi) + if lo <= last <= hi then 1 else 0
  {
    assert (front + [last])[..|front|] == front;
  }

  // Recent attempts are the ones in the window that ends now.
  lemma {:induction false} RecentIsWithin(times: seq<real>, lo: real, hi: real)
    requires Ascending(times) && UpTo(times, hi)
    ensures |Prune(times, lo)| == Within(times, lo, hi)
  {
    if times != [] {
      hide Prune, Within, Ascending, UpTo;
      var front := times[..|times| - 1];
      var last := times[|times| - 1];
      assert times == front + [last];
      AscendingFront(front, last, hi);
      RecentIsWithin(front, lo, hi);
      PruneAppend(front, lo, last);
      WithinAppend(front, last, lo, hi);
      if last < lo {
        PruneAll(front, last, lo);
      }
    } else {
      assert Prune(times, lo) == [] && Within(times, lo, hi) == 0;
    }
  }

  lemma HistoryUpTo(limit: int, window: int, calls: seq<Call>, i: nat, key: string)
    requires ClockNeverFalls(calls) && i < |calls|
    ensures Ascending(History(limit, window, calls[..i], key)) && UpTo(History(limit, window, calls[..i], key), calls[i].now)
  {
    hide History;
    var front := calls[..i];
    HistoryAscends(limit, window, front, key);
    if front != [] {
      assert front[|front| - 1] == calls[i - 1];
      UpToLater(History(limit, window, front, key), calls[i - 1].now, calls[i].now);
    }
  }

  // An attempt is refused exactly when `limit` admissions lie in the window that ends with it,
  // counted in the full history.
  lemma RefusedIffFull(limit: int, window: int, calls: seq<Call>, i: nat)
    requires ClockNeverFalls(calls) && i < |calls| && calls[i].Attempted? && window >= 0
    ensures var now := calls[i].now;
      AdmittedAt(limit, window, calls, i) <==>
        Within(History(limit, window, calls[..i], calls[i].key), now - window as real, now) < limit
  {
    hide Prune, Within, After, History;
    var front := calls[..i];
    var now := calls[i].now;
    var key := calls[i].key;
    assert front != [] ==> front[|front| - 1] == calls[i - 1] && calls[i - 1].now <= now;
    MemoryAgrees(limit, window, front, key, now - window as real);
    HistoryUpTo(limit, window, calls, i, key);
    RecentIsWithin(History(limit, window, front, key), now - window as real, now);
  }

  // A later interval of the same length that ends with the newest time holds no fewer.
  lemma {:induction false} WithinShifts(times: seq<real>, a: real, b: real, c: real, d: real)
    requires c <= a && UpTo(times, d)
    ensures Within(times, a, b) <= Within(times, c, d)
  {
    if times != [] {
      WithinShifts(times[..|times| - 1], a, b, c, d);
    }
  }

  // An admitted attempt finds room in every window that reaches it.
  lemma AdmittedFindsRoom(limit: int, window: int, front: seq<Call>, last: Call, start: real)
    requires ClockNeverFalls(front + [last]) && window >= 0 && last.Attempted?
    requires AdmitsNext(limit, window, front, last) && last.now <= start + window as real
    ensures Within(History(limit, window, front, last.key), start, start + window as real) < limit
  {
    hide ClockNeverFalls, AdmitsNext, AdmittedAt, History, Within, UpTo, Ascending;
    var calls := front + [last];
    assert calls[..|front|] == front && calls[|front|] == last;
    NextAdmitted(limit, window, front, last);
    RefusedIffFull(limit, window, calls, |front|);
    HistoryUpTo(limit, window, calls, |front|, last.key);
    WithinShifts(History(limit, window, front, last.key), start, start + window as real, last.now - window as real, last.now);
  }

  // Any closed interval of the window's length holds at most `limit` admissions of a key.
  lemma {:induction false} WindowNeverOverfull(limit: int, window: int, calls: seq<Call>, key: string, start: real)
    requires ClockNeverFalls(calls) && window >= 0 && limit >= 0
    ensures Within(History(limit, window, calls, key), start, start + window as real) <= limit
  {
    if calls == [] {
      assert History(limit, window, calls, key) == [];
    } else {
      hide History, AdmitsNext, ClockNeverFalls, Within;
      var front := calls[..|calls| - 1];
      var last := calls[|calls| - 1];
      assert calls == front + [last];
      EarlierClock(front, last);
      WindowNeverOverfull(limit, window, front, key, start);
      NextHistory(limit, window, front, last, key);
      WithinAppend(History(limit, window, front, key), last.now, start, start + window as real);
      if last.Attempted? && last.key == key && AdmitsNext(limit, window, front, last) && last.now <= start + window as real {
        AdmittedFindsRoom(limit, window, front, last, start);
      }
    }
  }
}
