/** The agent's metric buffer: a bounded FIFO that may lose its oldest samples
    while a batch of them is waiting for the hub's acknowledgement. */
module MetricBuffer {

  datatype Sample = Sample(metric: string, value: real, clock: int)

  const MAX_SAMPLES_PER_FRAME := 500
  const TWO_TO_64 := 0x1_0000_0000_0000_0000

  function Min(a: int, b: int): (m: int)
    ensures m <= a && m <= b && (m == a || m == b)
  {
    if a < b then a else b
  }

  /** What reaches a flusher that waits: an acknowledgement of some batch, or the
      end of its connection or of the channel its acknowledgements come through. */
  datatype Signal = Ack(requestId: string) | ConnectionDone | ChannelClosed

  /** One round of a flush: the id of its batch, whether the frame was sent, what
      reached the flusher before its deadline, and the sampling that took place
      until the wait was over. */
  datatype Round = Round(requestId: string, sent: bool, signals: seq<Signal>, meanwhile: seq<Sample>)

  /** The batch's own acknowledgement arrives; those of other batches are let pass. */
  ghost predicate AckArrives(signals: seq<Signal>, requestId: string) {
    exists i :: 0 <= i < |signals| && signals[i] == Ack(requestId) && forall j :: 0 <= j < i ==> signals[j].Ack?
  }

  method WaitMetricAck(signals: seq<Signal>, requestId: string) returns (acked: bool)
    ensures acked <==> AckArrives(signals, requestId)
  {
    for i := 0 to |signals|
      invariant forall j :: 0 <= j < i ==> signals[j].Ack? && signals[j] != Ack(requestId)
    {
      match signals[i]
      case ConnectionDone => return false;
      case ChannelClosed => return false;
      case Ack(got) =>
        if got == requestId {
          return true;
        }
    }
    return false;
  }

  /** The newest `capacity` of `all`. */
  function Newest(all: seq<Sample>, capacity: nat): seq<Sample> {
    if |all| <= capacity then all else all[|all| - capacity..]
  }

  ghost predicate Acknowledged(round: Round) {
    round.sent && AckArrives(round.signals, round.requestId)
  }

  /** What one round delivers, and what it leaves. */
  ghost function BatchOf(samples: seq<Sample>, capacity: nat, round: Round): (seq<Sample>, seq<Sample>) {
    if !round.sent then ([], samples)
    else
      var all := Newest(samples + round.meanwhile, capacity);
      if !Acknowledged(round) then ([], all)
      else
        var n := Min(MAX_SAMPLES_PER_FRAME, |samples|);
        (samples[..n], all[Min(n, |all|)..])
  }

  /** What a flush delivers, and what it leaves: batch by batch, until nothing is
      left, the rounds are used up, or one of them fails. */
  ghost function Flushed(samples: seq<Sample>, capacity: nat, rounds: seq<Round>): (seq<Sample>, seq<Sample>)
    decreases |rounds|
  {
    if samples == [] || rounds == [] then ([], samples)
    else
      var (batch, rest) := BatchOf(samples, capacity, rounds[0]);
      if Acknowledged(rounds[0]) then Joined(batch, Flushed(rest, capacity, rounds[1..])) else (batch, rest)
  }

  function Joined(delivered: seq<Sample>, more: (seq<Sample>, seq<Sample>)): (seq<Sample>, seq<Sample>) {
    (delivered + more.0, more.1)
  }

  class Buffer {
    var samples: seq<Sample>
    const capacity: nat
    /** An unsigned 64-bit counter. */
    var dropped: nat

    /** Everything ever added, and how much of it has left by overflow and after
        an acknowledgement. */
    ghost var added: seq<Sample>
    ghost var overflowed: nat
    ghost var removed: nat

    /** The buffer is exactly the newest part of everything added. */
    ghost predicate Valid()
      reads this
    {
      && |samples| <= capacity
      && MAX_SAMPLES_PER_FRAME <= capacity
      && |samples| <= |added|
      && samples == added[|added| - |samples|..]
      && |added| == |samples| + overflowed + removed
      && dropped == overflowed % TWO_TO_64
    }

    /** The position in `added` of the first sample still buffered. */
    ghost function Head(): nat
      reads this
      requires Valid()
    {
      |added| - |samples|
    }

    /** The bookkeeping of the buffer, with no batch under way. */
    ghost function Positions(): State
      reads this
      requires Valid()
    {
      State(capacity, Head(), |added|, overflowed, removed, map[])
    }

    constructor (capacity: nat)
      ensures Valid() && samples == [] && added == [] && overflowed == 0 && removed == 0
      ensures this.capacity == if capacity < MAX_SAMPLES_PER_FRAME then MAX_SAMPLES_PER_FRAME else capacity
    {
      this.capacity := if capacity < MAX_SAMPLES_PER_FRAME then MAX_SAMPLES_PER_FRAME else capacity;
      samples, dropped := [], 0;
      added, overflowed, removed := [], 0, 0;
    }

    method Add(s: seq<Sample>) returns (over: nat)
      requires Valid()
      modifies this
      ensures Valid()
      ensures added == old(added) + s && removed == old(removed)
      ensures samples == Newest(old(samples) + s, capacity)
      ensures |samples| == Min(capacity, |old(samples)| + |s|)
      ensures Positions() == After(old(Positions()), Adds(|s|))
      ensures over == overflowed - old(overflowed) == |old(samples)| + |s| - |samples|
    {
      hide Min, Newest;
      var all := samples + s;
      StaysNewest(added, |samples|, s);
      NewestIs(all, capacity);
      added := added + s;
      if |all| <= capacity {
        samples := all;
        return 0;
      }
      over := |all| - capacity;
      samples := all[over..];
      CountWraps(overflowed, over);
      dropped := (dropped + over) % TWO_TO_64;
      overflowed := overflowed + over;
    }

    method Peek(n: nat) returns (batch: seq<Sample>)
      requires Valid()
      ensures |batch| == Min(n, |samples|) == BatchSize(Positions(), n)
      ensures batch == added[Head()..Head() + |batch|] == samples[..|batch|]
    {
      batch := samples[..Min(n, |samples|)];
    }

    method DropFront(n: nat)
      requires Valid()
      modifies this
      ensures Valid()
      ensures added == old(added) && overflowed == old(overflowed)
      ensures Head() == old(Head()) + Min(n, |old(samples)|)
      ensures removed == old(removed) + Min(n, |old(samples)|)
      ensures samples == old(samples)[Min(n, |old(samples)|)..]
      ensures Positions() == AfterRemoving(old(Positions()), n)
    {
      var m := Min(n, |samples|);
      samples := samples[m..];
      removed := removed + m;
    }

    /** One batch: sent, and dropped once it is acknowledged. */
    method FlushBatch(round: Round) returns (delivered: seq<Sample>, acked: bool)
      requires Valid()
      modifies this
      ensures Valid() && old(added) <= added && overflowed >= old(overflowed)
      ensures acked <==> Acknowledged(round)
      ensures removed == old(removed) + |delivered|
      ensures Head() - old(Head()) == |delivered| + (overflowed - old(overflowed))
      ensures |delivered| <= |old(samples)| && (!acked ==> delivered == [])
      ensures delivered == old(added)[old(Head())..old(Head()) + |delivered|]
      ensures (delivered, samples) == BatchOf(old(samples), capacity, round)
    {
      hide Min;
      var batch := Peek(MAX_SAMPLES_PER_FRAME);
      if !round.sent {
        return [], false;
      }
      var over := Add(round.meanwhile);
      acked := WaitMetricAck(round.signals, round.requestId);
      if !acked {
        return [], false;
      }
      BatchStays(capacity, |old(samples)|, |round.meanwhile|);
      DropFront(|batch|);
      return batch, true;
    }

    /** Sends the buffered samples batch by batch; returns what the hub has
        acknowledged: the oldest samples, in order, when none overflowed meanwhile. */
    method Flush(rounds: seq<Round>) returns (delivered: seq<Sample>)
      requires Valid()
      modifies this
      ensures Valid() && old(added) <= added
      ensures removed == old(removed) + |delivered|
      ensures Head() - old(Head()) == |delivered| + (overflowed - old(overflowed))
      ensures overflowed == old(overflowed) ==> delivered == added[old(Head())..Head()]
      ensures (delivered, samples) == Flushed(old(samples), capacity, rounds)
    {
      hide Min, Newest, AckArrives, Acknowledged, BatchOf, Flushed, Joined;
      delivered := [];
      var i := 0;
      assert rounds[0..] == rounds;
      JoinedNone(Flushed(samples, capacity, rounds));
      while |samples| > 0 && i < |rounds|
        invariant Valid() && old(added) <= added
        invariant i <= |rounds|
        invariant Flushed(old(samples), capacity, rounds) == Joined(delivered, Flushed(samples, capacity, rounds[i..]))
        invariant removed == old(removed) + |delivered|
        invariant overflowed >= old(overflowed)
        invariant Head() - old(Head()) == |delivered| + (overflowed - old(overflowed))
        invariant overflowed == old(overflowed) ==> delivered == added[old(Head())..Head()]
        decreases |rounds| - i
      {
        ghost var from, before, was := Head(), added, samples;
        var batch, acked := FlushBatch(rounds[i]);
        FlushedStep(was, capacity, rounds[i..]);
        assert rounds[i..][0] == rounds[i] && rounds[i..][1..] == rounds[i + 1..];
        JoinedTwice(delivered, batch, Flushed(samples, capacity, rounds[i + 1..]));
        SlicesJoin(before, added, old(Head()), from, from + |batch|);
        if !acked {
          JoinedEnd(delivered, batch, samples);
          return;
        }
        delivered := delivered + batch;
        i := i + 1;
      }
      FlushedStep(samples, capacity, rounds[i..]);
      JoinedEnd(delivered, [], samples);
    }
  }

  lemma JoinedTwice(delivered: seq<Sample>, batch: seq<Sample>, more: (seq<Sample>, seq<Sample>))
    ensures Joined(delivered, Joined(batch, more)) == Joined(delivered + batch, more)
  {
    assert delivered + (batch + more.0) == delivered + batch + more.0;
  }

  lemma JoinedNone(more: (seq<Sample>, seq<Sample>))
    ensures Joined([], more) == more
  {
    assert [] + more.0 == more.0;
  }

  lemma JoinedEnd(delivered: seq<Sample>, batch: seq<Sample>, rest: seq<Sample>)
    ensures batch == [] ==> Joined(delivered, (batch, rest)) == (delivered, rest) && delivered + batch == delivered
  {
    assert delivered + [] == delivered;
  }

  /** A flush is over when nothing is left or the rounds are; otherwise it depends
      on the next round. */
  lemma FlushedStep(samples: seq<Sample>, capacity: nat, rounds: seq<Round>)
    ensures samples == [] || rounds == [] ==> Flushed(samples, capacity, rounds) == ([], samples)
    ensures samples != [] && rounds != [] ==>
              var (batch, rest) := BatchOf(samples, capacity, rounds[0]);
              Flushed(samples, capacity, rounds) ==
              if Acknowledged(rounds[0]) then Joined(batch, Flushed(rest, capacity, rounds[1..])) else (batch, rest)
  {
  }

  /** With every round acknowledged and nothing sampled meanwhile, a flush with
      enough rounds delivers all there is, in order, and leaves nothing. */
  lemma {:induction false} FlushEmpties(samples: seq<Sample>, capacity: nat, rounds: seq<Round>)
    requires |samples| <= capacity && |samples| <= 500 * |rounds|
    requires forall i :: 0 <= i < |rounds| ==>
               rounds[i].sent && AckArrives(rounds[i].signals, rounds[i].requestId) && rounds[i].meanwhile == []
    ensures Flushed(samples, capacity, rounds) == (samples, [])
    decreases |rounds|
  {
    if samples != [] {
      var n := if |samples| < 500 then |samples| else 500;
      assert samples + rounds[0].meanwhile == samples;
      FlushEmpties(samples[n..], capacity, rounds[1..]);
      assert samples[..n] + samples[n..] == samples;
    }
  }

  /** A round that is completed with `level` samples in the buffer, and leaves `next`. */
  ghost predicate Completes(capacity: nat, round: Round, level: nat, next: nat) {
    && level > 0 && round.sent && AckArrives(round.signals, round.requestId)
    && next == Min(capacity, level + |round.meanwhile|) - Min(500, level)
  }

  /** How far a flush goes: the rounds it completes are all acknowledged, each
      delivers up to 500 samples, and it stops at the first that is not, or when
      nothing is left, or when the rounds are used up. */
  lemma {:induction false} FlushGoesOn(samples: seq<Sample>, capacity: nat, rounds: seq<Round>) returns (done: nat, levels: seq<nat>)
    requires capacity >= 500
    ensures done <= |rounds| && |levels| == done + 1 && levels[0] == |samples|
    ensures forall i :: 0 <= i < done ==> Completes(capacity, rounds[i], levels[i], levels[i + 1])
    ensures done == |rounds| || levels[done] == 0
            || !(rounds[done].sent && AckArrives(rounds[done].signals, rounds[done].requestId))
    ensures |Flushed(samples, capacity, rounds).0| == Total(levels[..done])
    decreases |rounds|
  {
    FlushedStep(samples, capacity, rounds);
    if samples == [] || rounds == [] || !Acknowledged(rounds[0]) {
      done, levels := 0, [|samples|];
      NothingDelivered(samples, capacity, rounds);
    } else {
      hide Flushed, AckArrives, Total, Completes, Newest;
      var left := BatchOf(samples, capacity, rounds[0]).1;
      LevelsNext(samples, capacity, rounds[0]);
      var more, rest := FlushGoesOn(left, capacity, rounds[1..]);
      done, levels := more + 1, [|samples|] + rest;
      TotalNext(|samples|, rest[..more]);
      assert levels[..done] == [|samples|] + rest[..more];
      assert forall i :: 0 < i <= more ==> rounds[i] == rounds[1..][i - 1] && levels[i] == rest[i - 1] && levels[i + 1] == rest[i];
    }
  }

  lemma NothingDelivered(samples: seq<Sample>, capacity: nat, rounds: seq<Round>)
    requires samples == [] || rounds == [] || !Acknowledged(rounds[0])
    ensures Flushed(samples, capacity, rounds).0 == [] && Total([|samples|][..0]) == 0
  {
  }

  lemma LevelsNext(samples: seq<Sample>, capacity: nat, round: Round)
    requires capacity >= 500 && Acknowledged(round)
    ensures |BatchOf(samples, capacity, round).0| == Min(500, |samples|)
    ensures samples != [] ==> Completes(capacity, round, |samples|, |BatchOf(samples, capacity, round).1|)
  {
  }

  lemma TotalNext(level: nat, levels: seq<nat>)
    ensures Total([level] + levels) == Min(500, level) + Total(levels)
  {
    assert ([level] + levels)[1..] == levels;
  }

  /** The sizes of the batches sent at these levels. */
  function Total(levels: seq<nat>): nat {
    if levels == [] then 0 else (if levels[0] < 500 then levels[0] else 500) + Total(levels[1..])
  }

  /** A batch is still in the buffer, or newer samples are, when it is dropped. */
  lemma BatchStays(capacity: nat, buffered: nat, more: nat)
    requires MAX_SAMPLES_PER_FRAME <= capacity
    ensures Min(Min(MAX_SAMPLES_PER_FRAME, buffered), Min(capacity, buffered + more)) == Min(MAX_SAMPLES_PER_FRAME, buffered)
    ensures 0 <= Min(MAX_SAMPLES_PER_FRAME, buffered) <= buffered
  {
  }

  lemma NewestIs(all: seq<Sample>, capacity: nat)
    ensures Newest(all, capacity) == if |all| <= capacity then all else all[|all| - capacity..]
    ensures Min(capacity, |all|) == |Newest(all, capacity)|
  {
  }

  lemma StaysNewest(added: seq<Sample>, n: nat, s: seq<Sample>)
    requires n <= |added|
    ensures added[|added| - n..] + s == (added + s)[|added| - n..]
  {
  }

  lemma CountWraps(count: nat, more: nat)
    ensures (count % TWO_TO_64 + more) % TWO_TO_64 == (count + more) % TWO_TO_64
  {
  }

  lemma SlicesJoin(before: seq<Sample>, after: seq<Sample>, i: nat, j: nat, k: nat)
    requires i <= j <= k <= |before| && before <= after
    ensures after[i..k] == before[i..j] + before[j..k]
  {
  }

  // ---- Flushing while samples keep coming ---------------------------------

  /** The buffer's bookkeeping as positions in the stream of everything added:
      `[head, end)` is buffered. Several flushers may have a batch under way, since
      the loop of a lost connection can overlap the next one. */
  datatype State = State(capacity: nat, head: nat, end: nat, overflowed: nat, removed: nat, flights: map<nat, Flight>)

  /** A batch that was peeked and sent, `[from, from + size)`, with what had
      overflowed and been removed by then. */
  datatype Flight = Flight(from: nat, size: nat, overflowedThen: nat, removedThen: nat)

  datatype Event = Adds(n: nat) | Peeks(flusher: nat) | Acked(flusher: nat) | GivesUp(flusher: nat)

  function Empty(capacity: nat): State {
    State(capacity, 0, 0, 0, 0, map[])
  }

  function Over(s: State, n: nat): nat {
    if s.end + n > s.head + s.capacity then s.end + n - s.head - s.capacity else 0
  }

  /** A batch of at most `n` from the front. */
  function BatchSize(s: State, n: nat): nat {
    if s.head + n <= s.end then n else if s.head <= s.end then s.end - s.head else 0
  }

  function AfterRemoving(s: State, n: nat): State {
    s.(head := s.head + BatchSize(s, n), removed := s.removed + BatchSize(s, n))
  }

  function After(s: State, e: Event): State {
    match e
    case Adds(n) => s.(head := s.head + Over(s, n), end := s.end + n, overflowed := s.overflowed + Over(s, n))
    case Peeks(k) =>
      s.(flights := s.flights[k := Flight(s.head, BatchSize(s, MAX_SAMPLES_PER_FRAME), s.overflowed, s.removed)])
    case Acked(k) =>
      if k in s.flights then AfterRemoving(s, s.flights[k].size).(flights := s.flights - {k}) else s
    case GivesUp(k) => s.(flights := s.flights - {k})
  }

  function Run(capacity: nat, events: seq<Event>): State {
    if events == [] then Empty(capacity)
    else After(Run(capacity, events[..|events| - 1]), events[|events| - 1])
  }

  ghost predicate Inv(s: State) {
    && s.head <= s.end <= s.head + s.capacity
    && s.head == s.overflowed + s.removed
    && forall k :: k in s.flights ==>
         var f := s.flights[k];
         && f.from <= s.head && f.from + f.size <= s.end
         && f.overflowedThen <= s.overflowed && f.removedThen <= s.removed
         && f.from == f.overflowedThen + f.removedThen
  }

  lemma {:induction false} RunKeeps(capacity: nat, events: seq<Event>)
    ensures Inv(Run(capacity, events))
  {
    if events != [] {
      RunKeeps(capacity, events[..|events| - 1]);
      StepKeeps(Run(capacity, events[..|events| - 1]), events[|events| - 1]);
    }
  }

  lemma StepKeeps(s: State, e: Event)
    requires Inv(s)
    ensures Inv(After(s, e))
  {
  }

  /** In every run the buffer holds the newest samples, never more than its
      capacity, and what was added is buffered, overflowed or removed. */
  lemma NothingUnaccounted(capacity: nat, events: seq<Event>)
    ensures var s := Run(capacity, events);
            s.end - s.head <= capacity && s.end == (s.end - s.head) + s.overflowed + s.removed
    ensures Run(capacity, events).capacity == capacity
  {
    RunKeeps(capacity, events);
    CapacityStays(capacity, events);
  }

  lemma {:induction false} CapacityStays(capacity: nat, events: seq<Event>)
    ensures Run(capacity, events).capacity == capacity
  {
    if events != [] {
      CapacityStays(capacity, events[..|events| - 1]);
    }
  }

  predicate InBatch(f: Flight, p: int) {
    f.from <= p < f.from + f.size
  }

  /** What an acknowledgement removes: only samples of the acknowledged batch
      exactly when nothing has left the buffer since it was peeked, or nothing
      newer than the batch is in it, or the buffer or the batch is empty; in any
      case at most as many others as have left in between, by overflow or for
      another flusher. */
  lemma AckRemovesItsBatch(capacity: nat, events: seq<Event>, k: nat)
    requires k in Run(capacity, events).flights
    ensures var s, t := Run(capacity, events), After(Run(capacity, events), Acked(k));
            var f := s.flights[k];
            && ((forall p :: s.head <= p < t.head ==> InBatch(f, p)) <==>
                  s.head == f.from || s.end <= f.from + f.size || BatchSize(s, f.size) == 0)
            && (s.head == f.from <==> s.overflowed == f.overflowedThen && s.removed == f.removedThen)
            && (s.head == f.from ==> t.head == f.from + f.size)
            && t.head - (f.from + f.size) <= (s.overflowed - f.overflowedThen) + (s.removed - f.removedThen)
  {
    RunKeeps(capacity, events);
    var s := Run(capacity, events);
    var f, t := s.flights[k], After(s, Acked(k));
    if s.head < t.head <= f.from + f.size {
      assert forall p :: s.head <= p < t.head ==> InBatch(f, p);
    } else if s.head < t.head {
      assert !InBatch(f, t.head - 1);
    }
  }

  lemma RunNext(capacity: nat, events: seq<Event>, e: Event)
    ensures Run(capacity, events + [e]) == After(Run(capacity, events), e)
  {
    assert (events + [e])[..|events|] == events;
  }

  /** Two flushers that overlap across a reconnect: the second acknowledgement of
      the same batch takes a hundred samples that were never sent, though nothing
      has overflowed. */
  lemma OverlappingFlushersLoseSamples()
    ensures var s := Run(1000, [Adds(600), Peeks(0), Peeks(1), Acked(0)]);
            var t := After(s, Acked(1));
            && 1 in s.flights && s.flights[1].from == 0 && s.flights[1].size == 500
            && t.overflowed == 0 && t.head == t.end == 600
  {
    hide Run, After;
    RunOfFour(1000, Adds(600), Peeks(0), Peeks(1), Acked(0));
    OneAcked();
    OtherAcked();
  }

  const BATCH := Flight(0, 500, 0, 0)

  /** 600 samples, and the batches under way. */
  function Waiting(flights: map<nat, Flight>): State {
    State(1000, 0, 600, 0, 0, flights)
  }

  /** Both flushers have peeked the same batch, and the first is acknowledged. */
  const ONE_ACKED := State(1000, 500, 600, 0, 500, map[1 := BATCH])

  lemma SamplesAdded()
    ensures After(Empty(1000), Adds(600)) == Waiting(map[])
  {
  }

  lemma BatchPeeked(flights: map<nat, Flight>, k: nat)
    ensures After(Waiting(flights), Peeks(k)) == Waiting(flights[k := BATCH])
  {
  }

  lemma BatchAcked()
    ensures After(Waiting(map[0 := BATCH][1 := BATCH]), Acked(0)) == ONE_ACKED
  {
    assert map[0 := BATCH][1 := BATCH] - {0} == map[1 := BATCH];
  }

  lemma OneAcked()
    ensures After(After(After(After(Empty(1000), Adds(600)), Peeks(0)), Peeks(1)), Acked(0)) == ONE_ACKED
  {
    hide After, Empty, Waiting;
    SamplesAdded();
    BatchPeeked(map[], 0);
    BatchPeeked(map[0 := BATCH], 1);
    BatchAcked();
  }

  lemma OtherAcked()
    ensures After(ONE_ACKED, Acked(1)) == ONE_ACKED.(head := 600, removed := 600, flights := map[])
  {
  }

  lemma RunOfFour(capacity: nat, a: Event, b: Event, c: Event, d: Event)
    ensures Run(capacity, [a, b, c, d]) == After(After(After(After(Empty(capacity), a), b), c), d)
  {
    assert Run(capacity, []) == Empty(capacity);
    hide Run, After, Empty;
    RunNext(capacity, [], a);
    RunNext(capacity, [a], b);
    RunNext(capacity, [a, b], c);
    RunNext(capacity, [a, b, c], d);
    assert [] + [a] == [a] && [a] + [b] == [a, b] && [a, b] + [c] == [a, b, c] && [a, b, c] + [d] == [a, b, c, d];
  }
}
