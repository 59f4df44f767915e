/** Matching replies to the requests that wait for them, on connection records
    that can be replaced or evicted while callers wait. */
module PendingRequests {
  import opened Wrappers

  type AgentId = string
  type RequestId = string

  /** A reply frame: the request it names and the action it echoes, both possibly
      empty; `fromHub` for the error the hub makes up for an oversize frame. */
  datatype Reply = Reply(requestId: RequestId, forAction: string, fromHub: bool)

  /** The state of a waiting caller's future. */
  datatype Outcome = Waiting | Answered(reply: Reply) | Disconnected | Abandoned

  class Future {
    var outcome: Outcome

    constructor ()
      ensures outcome == Waiting
    {
      outcome := Waiting;
    }

    /** Asyncio raises when a future is settled twice. */
    method Settle(o: Outcome)
      requires outcome == Waiting && o != Waiting
      modifies this
      ensures outcome == o
    {
      outcome := o;
    }
  }

  /** Whether a reply may answer a request issued as `issued` (empty when none is
      recorded), given whether the agent declared that it echoes actions. */
  predicate Binds(issued: string, echoes: bool, reply: Reply) {
    || reply.fromHub
    || issued == ""
    || reply.forAction == issued
    || (reply.forAction == "" && !echoes)
  }

  /** The pending requests of one connection: the ids that are waited for, and the
      actions they were issued as. */
  datatype Record = Record(echoes: bool, futures: set<RequestId>, actions: map<RequestId, string>)

  function Asked(r: Record, requestId: RequestId, action: string): Record {
    r.(futures := r.futures + {requestId},
       actions := if action != "" then r.actions[requestId := action] else r.actions)
  }

  function IssuedAs(r: Record, requestId: RequestId): string {
    if requestId in r.actions then r.actions[requestId] else ""
  }

  function Dropped(r: Record, requestId: RequestId): Record {
    r.(futures := r.futures - {requestId}, actions := r.actions - {requestId})
  }

  /** The reply is let through to the request it names. */
  predicate Takes(r: Record, reply: Reply) {
    reply.requestId != "" && Binds(IssuedAs(r, reply.requestId), r.echoes, reply)
  }

  /** The pending-request side of one connection's record. */
  class ConnectedAgent {
    var echoes: bool
    var futures: map<RequestId, Future>
    var actions: map<RequestId, string>

    ghost predicate Valid()
      reads this
    {
      && actions.Keys <= futures.Keys
      && (forall a, b :: a in futures && b in futures && a != b ==> futures[a] != futures[b])
    }

    function Contents(): Record
      reads this
    {
      Record(echoes, futures.Keys, actions)
    }

    constructor ()
      ensures Valid() && futures == map[] && Contents() == Record(false, {}, map[])
    {
      echoes, futures, actions := false, map[], map[];
    }

    method Wait(requestId: RequestId, action: string) returns (f: Future)
      requires Valid() && requestId !in futures
      modifies this
      ensures Valid() && fresh(f) && f.outcome == Waiting
      ensures futures == old(futures)[requestId := f]
      ensures Contents() == Asked(old(Contents()), requestId, action)
    {
      f := new Future();
      futures := futures[requestId := f];
      if action != "" {
        actions := actions[requestId := action];
      }
    }

    /** The waiting caller's `finally`, whatever ended the wait. */
    method EndWait(requestId: RequestId)
      requires Valid()
      modifies this
      ensures Valid() && futures == old(futures) - {requestId}
      ensures Contents() == Dropped(old(Contents()), requestId)
    {
      futures := futures - {requestId};
      actions := actions - {requestId};
    }

    method StoreCommandResult(reply: Reply)
      requires Valid()
      modifies this, futures.Values
      ensures Valid()
      ensures Contents() == if Takes(old(Contents()), reply) then Dropped(old(Contents()), reply.requestId) else old(Contents())
      ensures futures == if Takes(old(Contents()), reply) then old(futures) - {reply.requestId} else old(futures)
      ensures forall k :: k in old(futures) ==>
                old(futures)[k].outcome ==
                if k == reply.requestId && Takes(old(Contents()), reply) && old(futures[k].outcome) == Waiting
                then Answered(reply) else old(futures[k].outcome)
    {
      var r := reply.requestId;
      if r == "" {
        return;
      }
      var issued := if r in actions then actions[r] else "";
      if !reply.fromHub && issued != "" {
        var echoed := reply.forAction;
        if echoed != issued && (echoed != "" || echoes) {
          return;
        }
      }
      if r in futures {
        var f := futures[r];
        futures := futures - {r};
        actions := actions - {r};
        if f.outcome == Waiting {
          f.Settle(Answered(reply));
        }
      } else {
        actions := actions - {r};
      }
    }

    /** Eviction: every caller still waiting on this record gets an error. */
    method FailAll()
      requires Valid()
      modifies futures.Values
      ensures Valid() && futures == old(futures) && Contents() == old(Contents())
      ensures forall k :: k in futures ==>
                futures[k].outcome == if old(futures[k].outcome) == Waiting then Disconnected else old(futures[k].outcome)
    {
      var rest := futures.Keys;
      while rest != {}
        invariant rest <= futures.Keys
        invariant forall k :: k in rest ==> futures[k].outcome == old(futures[k].outcome)
        invariant forall k :: k in futures && k !in rest ==>
                    futures[k].outcome == if old(futures[k].outcome) == Waiting then Disconnected else old(futures[k].outcome)
      {
        var k :| k in rest;
        rest := rest - {k};
        if futures[k].outcome == Waiting {
          futures[k].Settle(Disconnected);
        }
      }
    }
  }

  // ---- Every interleaving -------------------------------------------------

  type ConnId = nat

  datatype Request = Request(conn: ConnId, action: string)

  /** The records of all connections so far, the one in the table under each agent
      id, the connections whose handler still reads with the id each registered,
      every request ever issued, and the state of its caller's future. `waiting`
      are the callers whose wait has not ended. */
  datatype State = State(
    records: map<ConnId, Record>,
    table: map<AgentId, ConnId>,
    readers: map<ConnId, AgentId>,
    issued: map<RequestId, Request>,
    outcome: map<RequestId, Outcome>,
    waiting: set<RequestId>)

  datatype Event =
    | Connects(conn: ConnId, id: AgentId)
    | Declares(id: AgentId, echoes: bool)
    | Asks(id: AgentId, requestId: RequestId, action: string)
    | Replies(conn: ConnId, reply: Reply)
    | Evicted(id: AgentId)
    | HandlerEnds(conn: ConnId)
    | WaitEnds(requestId: RequestId)

  const START := State(map[], map[], map[], map[], map[], {})

  predicate Possible(s: State, e: Event) {
    match e
    case Connects(conn, _) => conn !in s.records
    case Asks(_, requestId, _) => requestId !in s.issued
    case Replies(conn, _) => conn in s.readers
    case HandlerEnds(conn) => conn in s.readers
    case WaitEnds(requestId) => requestId in s.waiting
    case _ => true
  }

  function Settled(outcome: map<RequestId, Outcome>, requestId: RequestId, o: Outcome): map<RequestId, Outcome> {
    if requestId in outcome && outcome[requestId] == Waiting then outcome[requestId := o] else outcome
  }

  function AfterReply(s: State, conn: ConnId, reply: Reply): State
    requires conn in s.records
  {
    var r := s.records[conn];
    if !Takes(r, reply) then s
    else
      s.(records := s.records[conn := Dropped(r, reply.requestId)],
         outcome := if reply.requestId in r.futures then Settled(s.outcome, reply.requestId, Answered(reply)) else s.outcome)
  }

  function AfterEviction(s: State, id: AgentId, conn: ConnId): State
    requires conn in s.records
  {
    s.(table := s.table - {id},
       outcome := map k | k in s.outcome ::
         if k in s.records[conn].futures && s.outcome[k] == Waiting then Disconnected else s.outcome[k])
  }

  /** The record that a frame read on `conn` is matched against: whichever is in
      the table under the id its handler registered. */
  function Matched(s: State, conn: ConnId): Option<ConnId> {
    if conn in s.readers && s.readers[conn] in s.table && s.table[s.readers[conn]] in s.records
    then Some(s.table[s.readers[conn]]) else None
  }

  function After(s: State, e: Event): State {
    match e
    case Connects(conn, id) =>
      s.(records := s.records[conn := Record(false, {}, map[])], table := s.table[id := conn],
         readers := s.readers[conn := id])
    case Declares(id, echoes) =>
      if id in s.table && s.table[id] in s.records
      then s.(records := s.records[s.table[id] := s.records[s.table[id]].(echoes := echoes)]) else s
    case Asks(id, requestId, action) =>
      if id in s.table && s.table[id] in s.records then
        var conn := s.table[id];
        s.(records := s.records[conn := Asked(s.records[conn], requestId, action)],
           issued := s.issued[requestId := Request(conn, action)],
           outcome := s.outcome[requestId := Waiting],
           waiting := s.waiting + {requestId})
      else s
    case Replies(conn, reply) =>
      if Matched(s, conn).Some? then AfterReply(s, Matched(s, conn).value, reply) else s
    case Evicted(id) =>
      if id in s.table && s.table[id] in s.records then AfterEviction(s, id, s.table[id]) else s
    case HandlerEnds(conn) =>
      var t := s.(readers := s.readers - {conn});
      if Matched(s, conn) == Some(conn) && s.readers[conn] != "" then AfterEviction(t, s.readers[conn], conn) else t
    case WaitEnds(requestId) =>
      if requestId in s.issued && s.issued[requestId].conn in s.records then
        var conn := s.issued[requestId].conn;
        s.(records := s.records[conn := Dropped(s.records[conn], requestId)],
           outcome := Settled(s.outcome, requestId, Abandoned),
           waiting := s.waiting - {requestId})
      else s
  }

  function Run(events: seq<Event>): State {
    if events == [] then START else After(Run(events[..|events| - 1]), events[|events| - 1])
  }

  predicate PossibleRun(events: seq<Event>) {
    events == [] ||
    var n := |events| - 1;
    PossibleRun(events[..n]) && Possible(Run(events[..n]), events[n])
  }

  /** A record holds only requests issued on it whose caller still waits, each
      with the action it was issued as. */
  ghost predicate RecordFits(s: State, conn: ConnId)
    requires conn in s.records
  {
    var r := s.records[conn];
    && r.actions.Keys <= r.futures
    && (forall k :: k in r.futures ==>
          k in s.issued && s.issued[k].conn == conn && k in s.waiting && IssuedAs(r, k) == s.issued[k].action)
  }

  /** An answer came from a reply to that very request; a caller without one is
      held by the record its request was issued on. */
  predicate AnswerFits(s: State, k: RequestId)
    requires k in s.issued && k in s.outcome
  {
    && (s.outcome[k].Answered? ==>
          s.outcome[k].reply.requestId == k && k != "" && Binds(s.issued[k].action, false, s.outcome[k].reply))
    && (s.outcome[k].Waiting? ==>
          s.issued[k].conn in s.records && k in s.records[s.issued[k].conn].futures)
  }

  ghost predicate Inv(s: State) {
    && s.table.Values <= s.records.Keys
    && s.issued.Keys == s.outcome.Keys && s.waiting <= s.issued.Keys
    && (forall k :: k in s.issued ==> s.issued[k].conn in s.records && AnswerFits(s, k))
    && (forall conn :: conn in s.records ==> RecordFits(s, conn))
  }

  lemma AskKeeps(s: State, id: AgentId, requestId: RequestId, action: string)
    requires Inv(s) && requestId !in s.issued
    ensures Inv(After(s, Asks(id, requestId, action)))
  {
    hide Binds, RecordFits;
    var t := After(s, Asks(id, requestId, action));
    if id in s.table && s.table[id] in s.records {
      forall conn | conn in t.records
        ensures RecordFits(t, conn)
      {
        AskKeepsRecord(s, id, requestId, action, conn);
      }
      forall k | k in t.issued
        ensures t.issued[k].conn in t.records && AnswerFits(t, k)
      {
        if k != requestId {
          assert AnswerFits(s, k);
        }
      }
    }
  }

  lemma AskKeepsRecord(s: State, id: AgentId, requestId: RequestId, action: string, conn: ConnId)
    requires requestId !in s.issued && conn in s.records && RecordFits(s, conn)
    requires id in s.table && s.table[id] in s.records
    ensures RecordFits(After(s, Asks(id, requestId, action)), conn)
  {
    assert requestId !in s.records[conn].futures;
  }

  lemma ReplyKeepsRecord(s: State, conn: ConnId, reply: Reply, c: ConnId)
    requires conn in s.records && c in s.records && RecordFits(s, c)
    ensures RecordFits(AfterReply(s, conn, reply), c)
  {
    hide Binds;
  }

  lemma ReplyKeepsAnswer(s: State, conn: ConnId, reply: Reply, k: RequestId)
    requires Inv(s) && conn in s.records && k in s.issued
    ensures AnswerFits(AfterReply(s, conn, reply), k)
  {
    assert RecordFits(s, conn);
    assert AnswerFits(s, k);
  }

  lemma ReplyKeeps(s: State, conn: ConnId, reply: Reply)
    requires Inv(s) && conn in s.records
    ensures Inv(AfterReply(s, conn, reply))
  {
    hide Binds, RecordFits, AnswerFits, Dropped;
    var t := AfterReply(s, conn, reply);
    forall c | c in t.records
      ensures RecordFits(t, c)
    {
      ReplyKeepsRecord(s, conn, reply, c);
    }
    forall k | k in t.issued
      ensures t.issued[k].conn in t.records && AnswerFits(t, k)
    {
      ReplyKeepsAnswer(s, conn, reply, k);
    }
  }

  lemma EvictionKeeps(s: State, id: AgentId, conn: ConnId)
    requires Inv(s) && conn in s.records
    ensures Inv(AfterEviction(s, id, conn))
  {
    var t := AfterEviction(s, id, conn);
    forall c | c in t.records
      ensures RecordFits(t, c)
    {
      assert RecordFits(s, c);
    }
    forall k | k in t.issued
      ensures t.issued[k].conn in t.records && AnswerFits(t, k)
    {
      assert AnswerFits(s, k);
    }
  }

  lemma WaitEndKeeps(s: State, requestId: RequestId)
    requires Inv(s) && requestId in s.waiting
    ensures Inv(After(s, WaitEnds(requestId)))
  {
    hide RecordFits, Dropped;
    var t := After(s, WaitEnds(requestId));
    forall c | c in t.records
      ensures RecordFits(t, c)
    {
      WaitEndKeepsRecord(s, requestId, c);
    }
    forall k | k in t.issued
      ensures t.issued[k].conn in t.records && AnswerFits(t, k)
    {
      WaitEndKeepsAnswer(s, requestId, k);
    }
  }

  lemma WaitEndKeepsAnswer(s: State, requestId: RequestId, k: RequestId)
    requires Inv(s) && requestId in s.waiting && k in s.issued
    ensures var t := After(s, WaitEnds(requestId));
            k in t.issued && k in t.outcome && t.issued[k].conn in t.records && AnswerFits(t, k)
  {
    hide Binds, RecordFits;
    assert AnswerFits(s, k);
  }

  lemma WaitEndKeepsRecord(s: State, requestId: RequestId, conn: ConnId)
    requires requestId in s.issued && s.issued[requestId].conn in s.records
    requires conn in s.records && RecordFits(s, conn)
    ensures RecordFits(After(s, WaitEnds(requestId)), conn)
  {
    assert requestId in s.records[conn].futures ==> s.issued[requestId].conn == conn;
  }

  lemma RecordChangeKeeps(s: State, e: Event)
    requires Inv(s) && Possible(s, e) && (e.Connects? || e.Declares?)
    ensures Inv(After(s, e))
  {
    var t := After(s, e);
    forall c | c in t.records
      ensures RecordFits(t, c)
    {
      assert c in s.records ==> RecordFits(s, c);
    }
    forall k | k in t.issued
      ensures t.issued[k].conn in t.records && AnswerFits(t, k)
    {
      assert AnswerFits(s, k);
    }
  }

  lemma ReaderGoes(s: State, conn: ConnId)
    requires Inv(s)
    ensures Inv(s.(readers := s.readers - {conn}))
  {
    var t := s.(readers := s.readers - {conn});
    forall c | c in t.records
      ensures RecordFits(t, c)
    {
      assert RecordFits(s, c);
    }
    forall k | k in t.issued
      ensures t.issued[k].conn in t.records && AnswerFits(t, k)
    {
      assert AnswerFits(s, k);
    }
  }

  lemma StepKeeps(s: State, e: Event)
    requires Inv(s) && Possible(s, e)
    ensures Inv(After(s, e))
  {
    hide Inv, AfterReply, AfterEviction;
    match e
    case Connects(_, _) => RecordChangeKeeps(s, e);
    case Declares(_, _) => RecordChangeKeeps(s, e);
    case Asks(id, requestId, action) => AskKeeps(s, id, requestId, action);
    case Replies(conn, reply) =>
      if Matched(s, conn).Some? {
        ReplyKeeps(s, Matched(s, conn).value, reply);
      }
    case HandlerEnds(conn) =>
      var t := s.(readers := s.readers - {conn});
      ReaderGoes(s, conn);
      if Matched(s, conn) == Some(conn) && s.readers[conn] != "" {
        EvictionKeeps(t, s.readers[conn], conn);
      }
    case Evicted(id) =>
      if id in s.table && s.table[id] in s.records {
        EvictionKeeps(s, id, s.table[id]);
      }
    case WaitEnds(requestId) => WaitEndKeeps(s, requestId);
  }

  lemma {:induction false} RunKeeps(events: seq<Event>)
    requires PossibleRun(events)
    ensures Inv(Run(events))
  {
    if events != [] {
      hide Inv, After;
      var n := |events| - 1;
      RunKeeps(events[..n]);
      StepKeeps(Run(events[..n]), events[n]);
    }
  }

  /** When a reply read on some connection answers a waiting caller: its request was
      issued on the record that the reply is matched against, which need not be
      that of the connection; the reply names it, and echoes the issued action,
      unless the agent never declared that it would or the reply is the hub's own. */
  lemma AnsweredIff(events: seq<Event>, conn: ConnId, reply: Reply, k: RequestId)
    requires PossibleRun(events) && conn in Run(events).readers
    requires k in Run(events).outcome && Run(events).outcome[k] == Waiting
    ensures var s := Run(events);
            && k in s.issued && s.issued[k].conn in s.records && k in After(s, Replies(conn, reply)).outcome
            && (After(s, Replies(conn, reply)).outcome[k].Answered? <==>
                  && conn in s.readers && s.readers[conn] in s.table && s.table[s.readers[conn]] == s.issued[k].conn
                  && reply.requestId == k && k != ""
                  && (reply.fromHub || s.issued[k].action == "" || reply.forAction == s.issued[k].action
                      || (reply.forAction == "" && !s.records[s.issued[k].conn].echoes)))
            && (After(s, Replies(conn, reply)).outcome[k].Answered? ==>
                  After(s, Replies(conn, reply)).outcome[k] == Answered(reply))
  {
    hide Run, PossibleRun;
    RunKeeps(events);
    var s := Run(events);
    assert AnswerFits(s, k);
    assert RecordFits(s, s.issued[k].conn);
    if Matched(s, conn).Some? {
      assert RecordFits(s, Matched(s, conn).value);
    }
  }

  /** Nothing else answers a caller. */
  lemma AnsweredOnlyByItsReply(events: seq<Event>, e: Event, k: RequestId)
    requires PossibleRun(events) && Possible(Run(events), e)
    requires k in Run(events).outcome && Run(events).outcome[k] == Waiting
    requires k in After(Run(events), e).outcome && After(Run(events), e).outcome[k].Answered?
    ensures var s := Run(events);
            && k in s.issued && e.Replies? && After(s, e).outcome[k] == Answered(e.reply) && e.reply.requestId == k
            && Matched(s, e.conn) == Some(s.issued[k].conn) && s.issued[k].conn in s.records
            && (e.reply.fromHub || s.issued[k].action == "" || e.reply.forAction == s.issued[k].action
                || (e.reply.forAction == "" && !s.records[s.issued[k].conn].echoes))
  {
    if e.Replies? {
      AnsweredIff(events, e.conn, e.reply, k);
    }
  }

  lemma RunNext(events: seq<Event>, e: Event)
    requires PossibleRun(events) && Possible(Run(events), e)
    ensures PossibleRun(events + [e]) && Run(events + [e]) == After(Run(events), e)
  {
    assert (events + [e])[..|events|] == events;
  }

  /** Agent "A" has connected twice, and its second connection has been asked. */
  const ASKED_ON_SECOND :=
    State(map[1 := Record(false, {}, map[]), 2 := Record(false, {"k"}, map["k" := "exec"])],
          map["A" := 2], map[1 := "A", 2 := "A"], map["k" := Request(2, "exec")], map["k" := Waiting], {"k"})

  const TWO_CONNECTIONS: seq<Event> := [] + [Connects(1, "A")] + [Connects(2, "A")] + [Asks("A", "k", "exec")]

  lemma AsksOnSecond()
    ensures PossibleRun(TWO_CONNECTIONS) && Run(TWO_CONNECTIONS) == ASKED_ON_SECOND
  {
    var bare := Record(false, {}, map[]);
    var one := [] + [Connects(1, "A")];
    var two := one + [Connects(2, "A")];
    RunNext([], Connects(1, "A"));
    assert Run(one) == START.(records := map[1 := bare], table := map["A" := 1], readers := map[1 := "A"]);
    RunNext(one, Connects(2, "A"));
    assert Run(two) == START.(records := map[1 := bare, 2 := bare], table := map["A" := 2], readers := map[1 := "A", 2 := "A"]);
    RunNext(two, Asks("A", "k", "exec"));
    assert {} + {"k"} == {"k"};
    assert map[1 := bare, 2 := bare][2 := Record(false, {"k"}, map["k" := "exec"])]
        == ASKED_ON_SECOND.records;
  }

  /** A reply read on a connection that has been replaced, but whose handler still
      reads, answers a request issued on the connection that replaced it. */
  lemma OldConnectionAnswers()
    ensures var events := TWO_CONNECTIONS + [Replies(1, Reply("k", "exec", false))];
            && PossibleRun(events)
            && "k" in Run(events).issued && Run(events).issued["k"].conn == 2
            && "k" in Run(events).outcome && Run(events).outcome["k"] == Answered(Reply("k", "exec", false))
  {
    hide Run, PossibleRun;
    AsksOnSecond();
    RunNext(TWO_CONNECTIONS, Replies(1, Reply("k", "exec", false)));
  }

  /** A future that has been settled keeps its outcome: no request is resolved twice. */
  lemma {:induction false} SettledForGood(events: seq<Event>, n: nat, k: RequestId)
    requires PossibleRun(events) && n <= |events|
    requires k in Run(events[..n]).outcome && Run(events[..n]).outcome[k] != Waiting
    ensures k in Run(events).outcome && Run(events).outcome[k] == Run(events[..n]).outcome[k]
    decreases |events|
  {
    hide After, Inv, Possible;
    if n == |events| {
      assert events[..n] == events;
    } else {
      var m := |events| - 1;
      assert events[..m][..n] == events[..n];
      SettledForGood(events[..m], n, k);
      RunKeeps(events[..m]);
      SettledStep(Run(events[..m]), events[m], k);
    }
  }

  lemma SettledStep(s: State, e: Event, k: RequestId)
    requires Inv(s) && Possible(s, e)
    requires k in s.outcome && s.outcome[k] != Waiting
    ensures k in After(s, e).outcome && After(s, e).outcome[k] == s.outcome[k]
  {
    hide RecordFits, AnswerFits, Binds;
  }

  /** Once a wait has ended, no record holds the request id, in either map; and
      the action map never holds an id the future map does not. */
  lemma ForgottenWhenWaitEnds(events: seq<Event>, conn: ConnId, k: RequestId)
    requires PossibleRun(events) && conn in Run(events).records
    ensures var r := Run(events).records[conn];
            (k !in Run(events).waiting ==> k !in r.futures && k !in r.actions) && (k in r.actions ==> k in r.futures)
  {
    hide Run;
    RunKeeps(events);
    assert RecordFits(Run(events), conn);
  }

  // ---- The other events, in plain fields ----------------------------------

  /** A request goes out on the record in the table, and its caller waits. */
  lemma AskedMeans(events: seq<Event>, id: AgentId, k: RequestId, action: string)
    requires PossibleRun(events) && k !in Run(events).issued && id in Run(events).table
    ensures var s := Run(events);
            var t := After(s, Asks(id, k, action));
            var conn := s.table[id];
            && conn in s.records
            && t.issued == s.issued[k := Request(conn, action)] && t.outcome == s.outcome[k := Waiting]
            && t.waiting == s.waiting + {k} && t.table == s.table && t.readers == s.readers
            && t.records == s.records[conn := Record(s.records[conn].echoes, s.records[conn].futures + {k},
                 if action == "" then s.records[conn].actions else s.records[conn].actions[k := action])]
  {
    hide Run, PossibleRun;
    RunKeeps(events);
  }

  /** An eviction gives every caller that waits on the evicted record an error, and
      touches no other. */
  lemma EvictedMeans(events: seq<Event>, id: AgentId)
    requires PossibleRun(events) && id in Run(events).table
    ensures var s := Run(events);
            var t := After(s, Evicted(id));
            && t.table == s.table - {id} && t.records == s.records && t.issued == s.issued
            && t.waiting == s.waiting && t.readers == s.readers && t.outcome.Keys == s.outcome.Keys
            && forall k :: k in s.outcome ==>
                 t.outcome[k] ==
                 if s.outcome[k] == Waiting && k in s.issued && s.issued[k].conn == s.table[id] then Disconnected else s.outcome[k]
  {
    hide Run, PossibleRun;
    RunKeeps(events);
    var s := Run(events);
    assert RecordFits(s, s.table[id]);
    forall k | k in s.outcome && s.outcome[k] == Waiting
      ensures s.issued[k].conn == s.table[id] <==> k in s.records[s.table[id]].futures
    {
      assert AnswerFits(s, k);
    }
  }

  /** The end of a handler evicts its agent exactly when the connection is still the
      one in the table and the agent's id is not empty. */
  lemma HandlerEndMeans(events: seq<Event>, conn: ConnId)
    requires PossibleRun(events) && conn in Run(events).readers
    ensures var s := Run(events);
            var id := s.readers[conn];
            var t := After(s, HandlerEnds(conn));
            t == if id != "" && id in s.table && s.table[id] == conn
                 then After(s, Evicted(id)).(readers := s.readers - {conn})
                 else s.(readers := s.readers - {conn})
  {
    hide Run, PossibleRun;
    RunKeeps(events);
  }

  /** The end of a wait gives up on the request, unless it was settled. */
  lemma WaitEndMeans(events: seq<Event>, k: RequestId)
    requires PossibleRun(events) && k in Run(events).waiting
    ensures var s := Run(events);
            var t := After(s, WaitEnds(k));
            && k in s.outcome && t.waiting == s.waiting - {k} && t.table == s.table && t.issued == s.issued
            && t.outcome == (if s.outcome[k] == Waiting then s.outcome[k := Abandoned] else s.outcome)
  {
    hide Run, PossibleRun;
    RunKeeps(events);
  }
}
