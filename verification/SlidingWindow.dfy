/** The per-key sliding-window limiter: a log that is pruned and whose stalest keys
    are evicted, answering like a log that keeps everything. */
module SlidingWindow {

  type Key = string

  /** The calls of `log` that are less than `window` old at `now`. */
  function Recent(log: seq<real>, now: real, window: real): seq<real> {
    if log == [] then []
    else
      var rest := Recent(log[1..], now, window);
      if now - log[0] < window then [log[0]] + rest else rest
  }

  predicate Sorted(log: seq<real>) {
    forall i, j :: 0 <= i < j < |log| ==> log[i] <= log[j]
  }

  /** Any `limit + 1` calls in a row span at least a window. */
  predicate Spaced(log: seq<real>, limit: int, window: real) {
    forall i, j :: 0 <= i < j < |log| && j - i >= limit ==> log[j] - log[i] >= window
  }

  /** `kept` is `log` without some calls that no later window can reach. */
  ghost predicate Prunes(kept: seq<real>, log: seq<real>, now: real, window: real) {
    && |kept| <= |log| && kept == log[|log| - |kept|..]
    && forall i :: 0 <= i < |log| - |kept| ==> now - log[i] >= window
  }

  /** On a sorted log the recent calls are a suffix. */
  lemma {:induction false} RecentIsSuffix(log: seq<real>, now: real, window: real)
    requires Sorted(log)
    ensures Prunes(Recent(log, now, window), log, now, window)
  {
    if log != [] {
      if now - log[0] < window {
        assert forall i :: 0 <= i < |log| ==> log[0] <= log[i];
        RecentOfAll(log, now, window);
      } else {
        RecentIsSuffix(log[1..], now, window);
        var kept := Recent(log[1..], now, window);
        assert Recent(log, now, window) == kept;
        var cut := |log[1..]| - |kept|;
        assert log[1..][cut..] == log[cut + 1..];
        assert forall i :: 1 <= i < cut + 1 ==> log[i] == log[1..][i - 1];
      }
    }
  }

  lemma {:induction false} RecentOfAll(log: seq<real>, now: real, window: real)
    requires forall i :: 0 <= i < |log| ==> now - log[i] < window
    ensures Recent(log, now, window) == log
  {
    if log != [] {
      RecentOfAll(log[1..], now, window);
    }
  }

  lemma {:induction false} RecentOfNone(log: seq<real>, rest: seq<real>, now: real, window: real)
    requires forall i :: 0 <= i < |log| ==> now - log[i] >= window
    ensures Recent(log + rest, now, window) == Recent(rest, now, window)
  {
    if log == [] {
      assert log + rest == rest;
    } else {
      assert (log + rest)[1..] == log[1..] + rest;
      RecentOfNone(log[1..], rest, now, window);
    }
  }

  /** A pruned log answers like the whole one, now and later. */
  lemma PrunedAnswersAlike(kept: seq<real>, log: seq<real>, then': real, now: real, window: real)
    requires Prunes(kept, log, then', window) && then' <= now
    ensures Recent(kept, now, window) == Recent(log, now, window)
  {
    var cut := |log| - |kept|;
    assert log == log[..cut] + kept;
    RecentOfNone(log[..cut], kept, now, window);
  }

  /** One more allowed call keeps the calls spaced. */
  lemma AllowedStaysSpaced(log: seq<real>, now: real, limit: int, window: real)
    requires Sorted(log) && Spaced(log, limit, window) && limit >= 1
    requires forall i :: 0 <= i < |log| ==> log[i] <= now
    requires |Recent(log, now, window)| < limit
    ensures Sorted(log + [now]) && Spaced(log + [now], limit, window)
  {
    RecentIsSuffix(log, now, window);
    var cut := |log| - |Recent(log, now, window)|;
    assert forall i :: 0 <= i < |log| && |log| - i >= limit ==> now - log[i] >= window;
  }

  /** The calls of `log` inside `[from, from + window)`. */
  function Within(log: seq<real>, from: real, window: real): seq<real> {
    if log == [] then []
    else
      var rest := Within(log[1..], from, window);
      if from <= log[0] < from + window then [log[0]] + rest else rest
  }

  /** No window anywhere holds more than `limit` allowed calls. */
  lemma {:induction false} NoWindowHoldsMore(log: seq<real>, limit: int, from: real, window: real)
    requires Sorted(log) && Spaced(log, limit, window) && limit >= 1
    ensures |Within(log, from, window)| <= limit
  {
    if log != [] {
      SpacedTail(log, limit, window);
      if from <= log[0] < from + window {
        if |log| > limit {
          assert log[limit] - log[0] >= window;
          WithinEnds(log, limit, from, window);
        } else {
          WithinLength(log, from, window);
        }
      } else {
        NoWindowHoldsMore(log[1..], limit, from, window);
      }
    }
  }

  lemma SpacedTail(log: seq<real>, limit: int, window: real)
    requires log != [] && Sorted(log) && Spaced(log, limit, window)
    ensures Sorted(log[1..]) && Spaced(log[1..], limit, window)
  {
  }

  lemma {:induction false} WithinLength(log: seq<real>, from: real, window: real)
    ensures |Within(log, from, window)| <= |log|
  {
    if log != [] {
      WithinLength(log[1..], from, window);
    }
  }

  /** Calls from position `n` on lie past the window. */
  lemma {:induction false} WithinEnds(log: seq<real>, n: nat, from: real, window: real)
    requires n <= |log| && Sorted(log)
    requires n < |log| ==> log[n] >= from + window
    ensures |Within(log, from, window)| <= n
  {
    if log != [] {
      if n > 0 {
        WithinEnds(log[1..], n - 1, from, window);
      } else {
        WithinEnds(log[1..], 0, from, window);
      }
    }
  }

  function Last(calls: seq<real>): real
    requires calls != []
  {
    calls[|calls| - 1]
  }

  /** An entry of the dictionary of hits, which is kept in insertion order. */
  datatype Entry = Entry(key: Key, calls: seq<real>)

  predicate DistinctKeys(hits: seq<Entry>) {
    forall i, j :: 0 <= i < j < |hits| ==> hits[i].key != hits[j].key
  }

  /** The position of `key`, or the number of entries. */
  function Find(hits: seq<Entry>, key: Key): (i: nat)
    ensures i <= |hits|
    ensures i < |hits| ==> hits[i].key == key
    ensures forall j :: 0 <= j < i ==> hits[j].key != key
  {
    if hits == [] || hits[0].key == key then 0 else 1 + Find(hits[1..], key)
  }

  function CallsOf(hits: seq<Entry>, key: Key): seq<real> {
    var i := Find(hits, key);
    if i < |hits| then hits[i].calls else []
  }

  /** Dictionary assignment: a key that is already there keeps its place. */
  function Put(hits: seq<Entry>, key: Key, calls: seq<real>): seq<Entry> {
    var i := Find(hits, key);
    if i < |hits| then hits[i := Entry(key, calls)] else hits + [Entry(key, calls)]
  }

  lemma FindUnique(hits: seq<Entry>, i: nat)
    requires DistinctKeys(hits) && i < |hits|
    ensures Find(hits, hits[i].key) == i
  {
  }

  lemma PutCalls(hits: seq<Entry>, key: Key, calls: seq<real>, k: Key)
    requires DistinctKeys(hits)
    ensures DistinctKeys(Put(hits, key, calls))
    ensures CallsOf(Put(hits, key, calls), k) == if k == key then calls else CallsOf(hits, k)
    ensures |hits| <= |Put(hits, key, calls)| <= |hits| + 1
  {
    var r := Put(hits, key, calls);
    assert DistinctKeys(r);
    var i, j := Find(hits, k), Find(r, k);
    if i < |hits| {
      assert r[i].key == k;
      FindUnique(r, i);
    }
    if j < |r| && j < |hits| {
      FindUnique(hits, j);
    }
  }

  lemma PutAllCalls(hits: seq<Entry>, key: Key, calls: seq<real>)
    requires DistinctKeys(hits)
    ensures forall k :: CallsOf(Put(hits, key, calls), k) == if k == key then calls else CallsOf(hits, k)
  {
    forall k
      ensures CallsOf(Put(hits, key, calls), k) == if k == key then calls else CallsOf(hits, k)
    {
      PutCalls(hits, key, calls, k);
    }
  }

  /** Everything but the entry at `at`. */
  function Removed(hits: seq<Entry>, at: nat): seq<Entry>
    requires at < |hits|
  {
    hits[..at] + hits[at + 1..]
  }

  lemma RemovedDistinct(hits: seq<Entry>, at: nat)
    requires DistinctKeys(hits) && at < |hits|
    ensures DistinctKeys(Removed(hits, at))
  {
  }

  lemma {:induction false} RemovedCalls(hits: seq<Entry>, at: nat, k: Key)
    requires at < |hits| && k != hits[at].key
    ensures CallsOf(Removed(hits, at), k) == CallsOf(hits, k)
  {
    hide CallsOf, Removed;
    var head, tail := hits[0], hits[1..];
    assert hits == [head] + tail;
    CallsOfCons(head, tail, k);
    RemovedCons(hits, at);
    if at > 0 {
      RemovedCalls(tail, at - 1, k);
      CallsOfCons(head, Removed(tail, at - 1), k);
    }
  }

  lemma CallsOfCons(head: Entry, tail: seq<Entry>, k: Key)
    ensures CallsOf([head] + tail, k) == if head.key == k then head.calls else CallsOf(tail, k)
  {
    assert ([head] + tail)[1..] == tail;
  }

  lemma RemovedCons(hits: seq<Entry>, at: nat)
    requires at < |hits|
    ensures Removed(hits, at) == if at == 0 then hits[1..] else [hits[0]] + Removed(hits[1..], at - 1)
  {
  }

  /** What is kept for a key answers for all the key's allowed calls so far. */
  ghost predicate KeyOk(calls: seq<real>, log: seq<real>, clock: real, limit: int, window: real) {
    && Prunes(calls, log, clock, window)
    && Sorted(log) && (limit >= 1 ==> Spaced(log, limit, window))
    && forall i :: 0 <= i < |log| ==> log[i] <= clock
  }

  lemma KeyOkLater(calls: seq<real>, log: seq<real>, clock: real, now: real, limit: int, window: real)
    requires KeyOk(calls, log, clock, limit, window) && clock <= now
    ensures KeyOk(calls, log, now, limit, window)
  {
  }

  /** Pruning at a call keeps the answer right. */
  lemma KeyOkPruned(calls: seq<real>, log: seq<real>, clock: real, now: real, limit: int, window: real)
    requires KeyOk(calls, log, clock, limit, window) && clock <= now
    ensures Recent(calls, now, window) == Recent(log, now, window)
    ensures KeyOk(Recent(calls, now, window), log, now, limit, window)
  {
    PrunedAnswersAlike(calls, log, clock, now, window);
    RecentIsSuffix(log, now, window);
  }

  /** So does recording an allowed call. */
  lemma KeyOkRecorded(recent: seq<real>, log: seq<real>, now: real, limit: int, window: real)
    requires KeyOk(recent, log, now, limit, window)
    requires recent == Recent(log, now, window) && |recent| < limit
    ensures KeyOk(recent + [now], log + [now], now, limit, window)
  {
    hide Recent, Spaced, Sorted, Prunes;
    AllowedStaysSpaced(log, now, limit, window);
    PrunesAppend(recent, log, now, now, window);
  }

  lemma PrunesAppend(kept: seq<real>, log: seq<real>, call: real, now: real, window: real)
    requires Prunes(kept, log, now, window)
    ensures Prunes(kept + [call], log + [call], now, window)
  {
    var cut := |log| - |kept|;
    assert (log + [call])[cut..] == log[cut..] + [call];
  }

  function LogOf(log: map<Key, seq<real>>, k: Key): seq<real> {
    if k in log then log[k] else []
  }

  ghost predicate KeysOk(hits: seq<Entry>, log: map<Key, seq<real>>, evicted: set<Key>, clock: real, limit: int, window: real) {
    forall k :: k !in evicted ==> KeyOk(CallsOf(hits, k), LogOf(log, k), clock, limit, window)
  }

  lemma RefusedKeeps(hits: seq<Entry>, log: map<Key, seq<real>>, evicted: set<Key>, clock: real, now: real,
                     limit: int, window: real, key: Key)
    requires DistinctKeys(hits) && KeysOk(hits, log, evicted, clock, limit, window) && clock <= now
    ensures KeysOk(Put(hits, key, Recent(CallsOf(hits, key), now, window)), log, evicted, now, limit, window)
  {
    hide KeyOk, Put, CallsOf;
    var recent := Recent(CallsOf(hits, key), now, window);
    forall k | k !in evicted
      ensures KeyOk(CallsOf(Put(hits, key, recent), k), LogOf(log, k), now, limit, window)
    {
      PutCalls(hits, key, recent, k);
      KeyOkPruned(CallsOf(hits, k), LogOf(log, k), clock, now, limit, window);
      KeyOkLater(CallsOf(hits, k), LogOf(log, k), clock, now, limit, window);
    }
  }

  lemma AllowedKeeps(hits: seq<Entry>, log: map<Key, seq<real>>, evicted: set<Key>, clock: real, now: real,
                     limit: int, window: real, key: Key)
    requires DistinctKeys(hits) && KeysOk(hits, log, evicted, clock, limit, window) && clock <= now
    requires |Recent(CallsOf(hits, key), now, window)| < limit
    ensures KeysOk(Put(hits, key, Recent(CallsOf(hits, key), now, window) + [now]),
                   log[key := LogOf(log, key) + [now]], evicted, now, limit, window)
  {
    hide KeyOk, Put, CallsOf;
    var recent := Recent(CallsOf(hits, key), now, window);
    var log' := log[key := LogOf(log, key) + [now]];
    forall k | k !in evicted
      ensures KeyOk(CallsOf(Put(hits, key, recent + [now]), k), LogOf(log', k), now, limit, window)
    {
      PutCalls(hits, key, recent + [now], k);
      KeyOkPruned(CallsOf(hits, k), LogOf(log, k), clock, now, limit, window);
      KeyOkLater(CallsOf(hits, k), LogOf(log, k), clock, now, limit, window);
      if k == key {
        KeyOkRecorded(recent, LogOf(log, k), now, limit, window);
      }
    }
  }

  lemma AnswerIsRight(hits: seq<Entry>, log: map<Key, seq<real>>, evicted: set<Key>, clock: real, now: real,
                      limit: int, window: real, key: Key)
    requires KeysOk(hits, log, evicted, clock, limit, window) && clock <= now
    ensures key !in evicted ==> Recent(CallsOf(hits, key), now, window) == Recent(LogOf(log, key), now, window)
  {
    if key !in evicted {
      KeyOkPruned(CallsOf(hits, key), LogOf(log, key), clock, now, limit, window);
    }
  }

  lemma PutEntries(hits: seq<Entry>, key: Key, calls: seq<real>)
    requires DistinctKeys(hits)
    ensures var r := Put(hits, key, calls);
            && DistinctKeys(r) && |r| <= |hits| + 1
            && (CallsOf(hits, key) != [] ==> |r| == |hits|)
            && forall e :: e in r ==> e in hits || e.calls == calls
  {
    PutCalls(hits, key, calls, key);
  }

  lemma {:induction false} RecentOf(log: seq<real>, now: real, window: real)
    ensures |Recent(log, now, window)| <= |log|
  {
    if log != [] {
      RecentOf(log[1..], now, window);
    }
  }

  lemma EvictionKeeps(before: seq<Entry>, hits: seq<Entry>, gone: seq<Entry>, log: map<Key, seq<real>>,
                      evicted: set<Key>, clock: real, limit: int, window: real)
    requires KeysOk(before, log, evicted, clock, limit, window)
    requires forall k :: (forall g :: g in gone ==> g.key != k) ==> CallsOf(hits, k) == CallsOf(before, k)
    ensures KeysOk(hits, log, evicted + set g | g in gone :: g.key, clock, limit, window)
  {
    hide KeyOk, CallsOf;
    forall k | k !in evicted + set g | g in gone :: g.key
      ensures KeyOk(CallsOf(hits, k), LogOf(log, k), clock, limit, window)
    {
      assert forall g :: g in gone ==> g.key != k;
      assert CallsOf(hits, k) == CallsOf(before, k);
    }
  }

  class SlidingWindowLimiter {
    const limit: int
    const window: real
    const maxKeys: nat
    var hits: seq<Entry>

    /** Every allowed call there ever was, the keys that were evicted at some time,
        and the last reading of the clock. */
    ghost var log: map<Key, seq<real>>
    ghost var evicted: set<Key>
    ghost var clock: real

    /** With a positive limit the tracked keys stay within their bound. */
    ghost predicate Valid()
      reads this
    {
      && DistinctKeys(hits)
      && (limit >= 1 ==> |hits| <= maxKeys && forall e :: e in hits ==> e.calls != [])
      && KeysOk(hits, log, evicted, clock, limit, window)
    }

    constructor (limit: int, window: real, maxKeys: nat, now: real)
      ensures Valid() && hits == [] && log == map[] && evicted == {} && clock == now
      ensures this.limit == limit && this.window == window && this.maxKeys == maxKeys
    {
      this.limit, this.window, this.maxKeys := limit, window, maxKeys;
      hits, log, evicted, clock := [], map[], {}, now;
    }

    /** The entry whose last hit is oldest; the earliest inserted of those. */
    method Oldest() returns (at: nat)
      requires hits != [] && forall e :: e in hits ==> e.calls != []
      ensures at < |hits|
      ensures forall e :: e in hits ==> Last(hits[at].calls) <= Last(e.calls)
      ensures forall j :: 0 <= j < at ==> Last(hits[at].calls) < Last(hits[j].calls)
    {
      at := 0;
      for i := 1 to |hits|
        invariant at < |hits|
        invariant forall j :: 0 <= j < i ==> Last(hits[at].calls) <= Last(hits[j].calls)
        invariant forall j :: 0 <= j < at ==> Last(hits[at].calls) < Last(hits[j].calls)
      {
        if Last(hits[i].calls) < Last(hits[at].calls) {
          at := i;
        }
      }
    }

    /** Drops the stalest entries beyond the bound. */
    method Evict() returns (gone: seq<Entry>)
      requires DistinctKeys(hits) && forall e :: e in hits ==> e.calls != []
      modifies this`hits
      ensures DistinctKeys(hits) && |hits| == if |old(hits)| <= maxKeys then |old(hits)| else maxKeys
      ensures |old(hits)| == |hits| + |gone| && (|old(hits)| <= maxKeys ==> gone == [])
      ensures forall e :: e in hits ==> e in old(hits)
      ensures forall g :: g in gone ==> g in old(hits)
      ensures forall k :: (forall g :: g in gone ==> g.key != k) ==> CallsOf(hits, k) == CallsOf(old(hits), k)
      ensures forall g, e :: g in gone && e in hits ==> g.calls != [] && Last(g.calls) <= Last(e.calls)
    {
      gone := [];
      while |hits| > maxKeys
        invariant DistinctKeys(hits)
        invariant |old(hits)| == |hits| + |gone| && (|old(hits)| <= maxKeys ==> gone == [])
        invariant |old(hits)| > maxKeys ==> |hits| >= maxKeys
        invariant forall e :: e in hits ==> e in old(hits)
        invariant forall g :: g in gone ==> g in old(hits)
        invariant forall k :: (forall g :: g in gone ==> g.key != k) ==> CallsOf(hits, k) == CallsOf(old(hits), k)
        invariant forall g, e :: g in gone && e in hits ==> g.calls != [] && Last(g.calls) <= Last(e.calls)
        decreases |hits|
      {
        var at := Oldest();
        var victim := hits[at];
        ghost var before, goneBefore := hits, gone;
        hits := Removed(hits, at);
        gone := gone + [victim];
        forall k | forall g :: g in gone ==> g.key != k
          ensures CallsOf(hits, k) == CallsOf(old(hits), k)
        {
          assert victim in gone && forall g :: g in goneBefore ==> g in gone;
          RemovedCalls(before, at, k);
        }
        RemovedDistinct(before, at);
      }
    }

    /** Records a call at `now` unless the window is full; a refused call is not
        recorded. The answer is the one the log of all allowed calls would give. */
    method Allow(key: Key, now: real) returns (allowed: bool, gone: seq<Entry>)
      requires Valid() && clock <= now
      modifies this
      ensures Valid() && clock == now
      ensures key !in old(evicted) ==> (allowed <==> |Recent(LogOf(old(log), key), now, window)| < limit)
      ensures log == if allowed then old(log)[key := LogOf(old(log), key) + [now]] else old(log)
      ensures evicted == old(evicted) + set g | g in gone :: g.key
      ensures key !in old(evicted) ==>
                var calls := LogOf(old(log), key);
                (allowed <==> |set i | 0 <= i < |calls| && now - calls[i] < window| < limit)
      ensures allowed <==> |Recent(CallsOf(old(hits), key), now, window)| < limit
      ensures forall k :: (forall g :: g in gone ==> g.key != k) ==>
                CallsOf(hits, k) ==
                if k != key then CallsOf(old(hits), k)
                else Recent(CallsOf(old(hits), key), now, window) + if allowed then [now] else []
      ensures !allowed ==> gone == []
      ensures limit >= 1 ==> |gone| <= 1 && (gone != [] ==> |hits| == maxKeys)
      ensures forall g, e :: g in gone && e in hits ==> g.calls != [] && e.calls != [] && Last(g.calls) <= Last(e.calls)
    {
      hide KeysOk, Recent;
      RecentCount(LogOf(log, key), now, window);
      var calls := CallsOf(hits, key);
      var recent := Recent(calls, now, window);
      AnswerIsRight(hits, log, evicted, clock, now, limit, window, key);
      gone := [];
      if |recent| >= limit {
        RefusedKeeps(hits, log, evicted, clock, now, limit, window, key);
        PutEntries(hits, key, recent);
        RecentOf(calls, now, window);
        PutAllCalls(hits, key, recent);
        hits := Put(hits, key, recent);
        clock := now;
        return false, gone;
      }
      AllowedKeeps(hits, log, evicted, clock, now, limit, window, key);
      PutEntries(hits, key, recent + [now]);
      PutAllCalls(hits, key, recent + [now]);
      hits := Put(hits, key, recent + [now]);
      log, clock := log[key := LogOf(log, key) + [now]], now;
      ghost var before := hits;
      gone := Evict();
      EvictionKeeps(before, hits, gone, log, evicted, clock, limit, window);
      evicted := evicted + set g | g in gone :: g.key;
      return true, gone;
    }
  }

  /** Of a key that was never evicted, no window holds more than `limit` allowed calls. */
  lemma NoWindowIsOverfull(l: SlidingWindowLimiter, key: Key, from: real)
    requires l.Valid() && l.limit >= 1 && key !in l.evicted
    ensures |Within(LogOf(l.log, key), from, l.window)| <= l.limit
    ensures var log := LogOf(l.log, key);
            |set i | 0 <= i < |log| && from <= log[i] < from + l.window| <= l.limit
    ensures |l.hits| <= l.maxKeys
  {
    NoWindowHoldsMore(LogOf(l.log, key), l.limit, from, l.window);
    WithinCount(LogOf(l.log, key), from, l.window);
  }

  lemma {:induction false} RecentAppend(log: seq<real>, call: real, now: real, window: real)
    ensures Recent(log + [call], now, window) == Recent(log, now, window) + if now - call < window then [call] else []
  {
    if log == [] {
      assert log + [call] == [call];
      assert [call][1..] == [];
    } else {
      assert (log + [call])[1..] == log[1..] + [call];
      RecentAppend(log[1..], call, now, window);
    }
  }

  lemma {:induction false} WithinAppend(log: seq<real>, call: real, from: real, window: real)
    ensures Within(log + [call], from, window) == Within(log, from, window) + if from <= call < from + window then [call] else []
  {
    if log == [] {
      assert log + [call] == [call];
      assert [call][1..] == [];
    } else {
      assert (log + [call])[1..] == log[1..] + [call];
      WithinAppend(log[1..], call, from, window);
    }
  }

  /** The positions of the recent calls, and of those inside a window. */
  function RecentPositions(log: seq<real>, now: real, window: real): set<int> {
    set i | 0 <= i < |log| && now - log[i] < window
  }

  function PositionsWithin(log: seq<real>, from: real, window: real): set<int> {
    set i | 0 <= i < |log| && from <= log[i] < from + window
  }

  lemma {:induction false} RecentCount(log: seq<real>, now: real, window: real)
    ensures |Recent(log, now, window)| == |RecentPositions(log, now, window)|
  {
    if log == [] {
      assert RecentPositions(log, now, window) == {};
    } else {
      var n := |log| - 1;
      var before := log[..n];
      assert log == before + [log[n]];
      RecentAppend(before, log[n], now, window);
      RecentCount(before, now, window);
      assert RecentPositions(log, now, window)
          == RecentPositions(before, now, window) + (if now - log[n] < window then {n} else {});
    }
  }

  lemma {:induction false} WithinCount(log: seq<real>, from: real, window: real)
    ensures |Within(log, from, window)| == |PositionsWithin(log, from, window)|
  {
    if log == [] {
      assert PositionsWithin(log, from, window) == {};
    } else {
      var n := |log| - 1;
      var before := log[..n];
      assert log == before + [log[n]];
      WithinAppend(before, log[n], from, window);
      WithinCount(before, from, window);
      assert PositionsWithin(log, from, window)
          == PositionsWithin(before, from, window) + (if from <= log[n] < from + window then {n} else {});
    }
  }
}
