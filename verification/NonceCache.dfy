/** Freshness of register frames: a nonce cache that forgets what has expired, and
    still answers like a log of everything it accepted. */
module NonceCache {
  import opened Wrappers

  type AgentId = string
  type Nonce = string

  const TS_WINDOW: real := 300.0
  const NONCE_MIN_HEX_LEN := 32

  /** A pair accepted at some time. */
  datatype Acceptance = Acceptance(agentId: AgentId, nonce: Nonce, at: real)

  type Seen = map<AgentId, map<Nonce, real>>

  function Unexpired(bucket: map<Nonce, real>, now: real): map<Nonce, real> {
    map n | n in bucket && bucket[n] > now :: bucket[n]
  }

  /** Expired nonces go, and buckets that this empties. */
  function Pruned(seen: Seen, now: real): Seen {
    map a | a in seen && Unexpired(seen[a], now) != map[] :: Unexpired(seen[a], now)
  }

  predicate Holds(seen: Seen, agentId: AgentId, nonce: Nonce, expiry: real) {
    agentId in seen && nonce in seen[agentId] && seen[agentId][nonce] >= expiry
  }

  /** No acceptance of the pair is less than a window old. */
  ghost predicate Unused(log: seq<Acceptance>, agentId: AgentId, nonce: Nonce, now: real, window: real) {
    forall a :: a in log && a.agentId == agentId && a.nonce == nonce ==> a.at + window <= now
  }

  /** The entry comes from an acceptance. */
  ghost predicate Backed(log: seq<Acceptance>, agentId: AgentId, nonce: Nonce, expiry: real, window: real) {
    exists a :: a in log && a.agentId == agentId && a.nonce == nonce && a.at + window == expiry
  }

  /** What an acceptance requires of the cache while it can still be replayed. */
  predicate Remembered(seen: Seen, a: Acceptance, clock: real, window: real) {
    a.at <= clock && (a.at + window > clock ==> Holds(seen, a.agentId, a.nonce, a.at + window))
  }

  /** The cache holds what can still be refused, and nothing that was not accepted. */
  ghost predicate Faithful(seen: Seen, log: seq<Acceptance>, clock: real, window: real) {
    && (forall i, n :: i in seen && n in seen[i] ==> Backed(log, i, n, seen[i][n], window))
    && (forall a :: a in log ==> Remembered(seen, a, clock, window))
  }

  lemma PruningStaysFaithful(seen: Seen, log: seq<Acceptance>, clock: real, now: real, window: real)
    requires Faithful(seen, log, clock, window) && clock <= now
    ensures Faithful(Pruned(seen, now), log, now, window)
  {
    hide Backed;
    forall a | a in log
      ensures Remembered(Pruned(seen, now), a, now, window)
    {
      assert Remembered(seen, a, clock, window);
      if a.at + window > now {
        assert a.nonce in Unexpired(seen[a.agentId], now);
      }
    }
  }

  /** A pruned cache knows a pair exactly when the whole log would refuse it. */
  lemma KnownIffUsed(seen: Seen, log: seq<Acceptance>, now: real, window: real, agentId: AgentId, nonce: Nonce)
    requires Faithful(Pruned(seen, now), log, now, window)
    ensures agentId in Pruned(seen, now) && nonce in Pruned(seen, now)[agentId] <==> !Unused(log, agentId, nonce, now, window)
  {
    var p := Pruned(seen, now);
    if agentId in p && nonce in p[agentId] {
      assert Backed(log, agentId, nonce, p[agentId][nonce], window);
    }
    if !Unused(log, agentId, nonce, now, window) {
      var a :| a in log && a.agentId == agentId && a.nonce == nonce && a.at + window > now;
      assert Remembered(p, a, now, window);
    }
  }

  function Recorded(seen: Seen, agentId: AgentId, nonce: Nonce, expiry: real): Seen {
    var bucket := if agentId in seen then seen[agentId] else map[];
    seen[agentId := bucket[nonce := expiry]]
  }

  lemma RecordingStaysFaithful(seen: Seen, log: seq<Acceptance>, now: real, window: real, agentId: AgentId, nonce: Nonce)
    requires Faithful(seen, log, now, window)
    ensures Faithful(Recorded(seen, agentId, nonce, now + window), log + [Acceptance(agentId, nonce, now)], now, window)
  {
    var r := Recorded(seen, agentId, nonce, now + window);
    var log' := log + [Acceptance(agentId, nonce, now)];
    assert log'[|log|] == Acceptance(agentId, nonce, now);
    forall a | a in log'
      ensures Remembered(r, a, now, window)
    {
      assert a in log ==> Remembered(seen, a, now, window);
    }
    forall i, n | i in r && n in r[i]
      ensures Backed(log', i, n, r[i][n], window)
    {
      if i != agentId || n != nonce {
        assert Backed(log, i, n, seen[i][n], window);
        var a :| a in log && a.agentId == i && a.nonce == n && a.at + window == seen[i][n];
        assert a in log';
      }
    }
  }

  class Cache {
    const window: real
    var seen: Seen
    ghost var log: seq<Acceptance>
    ghost var clock: real

    ghost predicate Valid()
      reads this
    {
      Faithful(seen, log, clock, window)
    }

    constructor (window: real, now: real)
      ensures Valid() && this.window == window && seen == map[] && log == [] && clock == now
    {
      this.window, seen, log, clock := window, map[], [], now;
    }

    method PruneBucket(bucket: map<Nonce, real>, now: real) returns (kept: map<Nonce, real>)
      ensures kept == Unexpired(bucket, now)
    {
      kept := bucket;
      var rest := bucket.Keys;
      while rest != {}
        invariant rest <= bucket.Keys
        invariant kept == map n | n in bucket && (n in rest || bucket[n] > now) :: bucket[n]
      {
        var n :| n in rest;
        rest := rest - {n};
        if bucket[n] <= now {
          kept := kept - {n};
        }
      }
    }

    method Prune(now: real)
      modifies this`seen
      ensures seen == Pruned(old(seen), now)
    {
      var before := seen;
      var rest := before.Keys;
      while rest != {}
        invariant rest <= before.Keys
        invariant seen == map a | a in before && (a in rest || Unexpired(before[a], now) != map[]) ::
                            if a in rest then before[a] else Unexpired(before[a], now)
      {
        var a :| a in rest;
        rest := rest - {a};
        var bucket := PruneBucket(before[a], now);
        if bucket == map[] {
          seen := seen - {a};
        } else {
          seen := seen[a := bucket];
        }
      }
    }

    /** Answers as a log that never forgets would; before time zero nothing is fresh. */
    method CheckAndRecord(agentId: AgentId, nonce: Nonce, now: real) returns (isFresh: bool)
      requires Valid() && clock <= now
      modifies this
      ensures Valid() && clock == now
      ensures isFresh <==> now >= 0.0 && Unused(old(log), agentId, nonce, now, window)
      ensures log == if isFresh then old(log) + [Acceptance(agentId, nonce, now)] else old(log)
      ensures window > 0.0 ==> forall i, n :: i in seen && n in seen[i] ==> seen[i][n] > now
    {
      hide Faithful, Unused, Pruned;
      PruningStaysFaithful(seen, log, clock, now, window);
      KnownIffUsed(seen, log, now, window, agentId, nonce);
      Prune(now);
      clock := now;
      var bucket := if agentId in seen then seen[agentId] else map[];
      var expiry := if nonce in bucket then bucket[nonce] else 0.0;
      EmptyBucketStaysFaithful(seen, log, now, window, agentId);
      PrunedAllLater(old(seen), now);
      PrunedIsLater(old(seen), now, agentId, nonce);
      if expiry > now {
        seen := seen[agentId := bucket];
        return false;
      }
      RecordingStaysFaithful(seen, log, now, window, agentId, nonce);
      seen := seen[agentId := bucket[nonce := now + window]];
      log := log + [Acceptance(agentId, nonce, now)];
      return true;
    }

    /** The hub's check of a protected register frame; None when it is fresh. A
        missing or ill-typed field is None here. */
    method CheckRegisterFreshness(agentId: AgentId, nonce: Option<Nonce>, ts: Option<int>, now: real)
      returns (reason: Option<string>)
      requires Valid() && clock <= now && window == TS_WINDOW
      modifies this
      ensures Valid()
      ensures reason.None? <==>
              nonce.Some? && |nonce.value| >= NONCE_MIN_HEX_LEN && ts.Some?
              && ts.value as real - TS_WINDOW <= now <= ts.value as real + TS_WINDOW
              && now >= 0.0 && Unused(old(log), agentId, nonce.value, now, TS_WINDOW)
      ensures reason.Some? ==>
                reason.value ==
                if nonce.None? || |nonce.value| < 32 then "missing or short nonce"
                else if ts.None? then "missing or invalid ts"
                else if !(ts.value as real - 300.0 <= now <= ts.value as real + 300.0) then "stale timestamp"
                else "duplicate nonce"
      ensures log == if reason.None? then old(log) + [Acceptance(agentId, nonce.value, now)] else old(log)
      ensures reason.None? ==>
                forall a :: a in old(log) && a.agentId == agentId && a.nonce == nonce.value ==>
                  a.at + TS_WINDOW <= now <= ts.value as real + TS_WINDOW
    {
      if nonce.None? || |nonce.value| < NONCE_MIN_HEX_LEN {
        return Some("missing or short nonce");
      }
      if ts.None? {
        return Some("missing or invalid ts");
      }
      var drift := now - ts.value as real;
      if (if drift < 0.0 then -drift else drift) > TS_WINDOW {
        return Some("stale timestamp");
      }
      var isFresh := CheckAndRecord(agentId, nonce.value, now);
      return if isFresh then None else Some("duplicate nonce");
    }
  }

  /** Looking a bucket up leaves an empty one behind when there was none. */
  lemma EmptyBucketStaysFaithful(seen: Seen, log: seq<Acceptance>, now: real, window: real, agentId: AgentId)
    requires Faithful(seen, log, now, window)
    ensures Faithful(seen[agentId := if agentId in seen then seen[agentId] else map[]], log, now, window)
  {
    hide Backed;
    var r := seen[agentId := if agentId in seen then seen[agentId] else map[]];
    forall a | a in log
      ensures Remembered(r, a, now, window)
    {
      assert Remembered(seen, a, now, window);
    }
  }

  lemma PrunedAllLater(seen: Seen, now: real)
    ensures forall i, n :: i in Pruned(seen, now) && n in Pruned(seen, now)[i] ==> Pruned(seen, now)[i][n] > now
  {
  }

  lemma PrunedIsLater(seen: Seen, now: real, agentId: AgentId, nonce: Nonce)
    ensures agentId in Pruned(seen, now) && nonce in Pruned(seen, now)[agentId] ==> Pruned(seen, now)[agentId][nonce] > now
  {
  }

  /** A register frame that was accepted at `first` can be accepted again only
      between `first + 300` and `ts + 300`, so never when its timestamp lies
      before its first acceptance. */
  lemma NoReplayWhenStampedEarlier(log: seq<Acceptance>, a: Acceptance, ts: int, now: real)
    requires a in log && ts as real < a.at
    requires Unused(log, a.agentId, a.nonce, now, TS_WINDOW)
    ensures !(ts as real - TS_WINDOW <= now <= ts as real + TS_WINDOW)
  {
  }
}
