/** The agent registry: the table of connections and the hostname index over it,
    under reconnects, half-open sockets, stale teardowns and operator evictions. */
module Registry {
  import opened Wrappers

  type AgentId = string
  type Host = string
  type ConnId = nat

  /** A registration. The socket is absent on an entry made without a connection. */
  datatype Conn = Conn(agentId: AgentId, hostname: Host, writer: Option<ConnId>, connId: Option<ConnId>)

  datatype Table = Table(agents: map<AgentId, Conn>, index: map<Host, AgentId>)

  const EMPTY_TABLE := Table(map[], map[])

  /** A socket is live until it begins to close. */
  predicate Live(c: Conn, closing: set<ConnId>) {
    c.writer.Some? && c.writer.value !in closing
  }

  /** The hostname is held by another live agent. */
  predicate HostHeld(t: Table, closing: set<ConnId>, c: Conn) {
    && c.hostname in t.index && t.index[c.hostname] != c.agentId
    && t.index[c.hostname] in t.agents && Live(t.agents[t.index[c.hostname]], closing)
  }

  /** The agent id is live on another host. */
  predicate LiveElsewhere(t: Table, closing: set<ConnId>, c: Conn) {
    c.agentId in t.agents && t.agents[c.agentId].hostname != c.hostname && Live(t.agents[c.agentId], closing)
  }

  function Without<K, V>(m: map<K, V>, key: K): map<K, V> {
    m - {key}
  }

  /** Drops the index entry of `host` if it points at `id`. */
  function Unindexed(index: map<Host, AgentId>, host: Host, id: AgentId): map<Host, AgentId> {
    if host in index && index[host] == id then Without(index, host) else index
  }

  function AfterRegister(t: Table, closing: set<ConnId>, c: Conn): Table {
    if HostHeld(t, closing, c) || LiveElsewhere(t, closing, c) then t
    else
      var index := if c.agentId in t.agents && t.agents[c.agentId].hostname != c.hostname
                   then Unindexed(t.index, t.agents[c.agentId].hostname, c.agentId) else t.index;
      Table(t.agents[c.agentId := c], index[c.hostname := c.agentId])
  }

  /** Another connection than the caller's owns the entry. */
  predicate Superseded(c: Conn, connId: Option<ConnId>) {
    connId.Some? && c.connId.Some? && c.connId != connId
  }

  function AfterUnregister(t: Table, id: AgentId, connId: Option<ConnId>): Table {
    if id !in t.agents || Superseded(t.agents[id], connId) then t
    else Table(Without(t.agents, id), Unindexed(t.index, t.agents[id].hostname, id))
  }

  class AgentRegistry {
    var agents: map<AgentId, Conn>
    var hostnameIndex: map<Host, AgentId>

    function Contents(): Table
      reads this
    {
      Table(agents, hostnameIndex)
    }

    constructor ()
      ensures Contents() == EMPTY_TABLE
    {
      agents, hostnameIndex := map[], map[];
    }

    method Register(c: Conn, closing: set<ConnId>) returns (accepted: bool)
      modifies this
      ensures Contents() == AfterRegister(old(Contents()), closing, c)
      ensures accepted <==> !HostHeld(old(Contents()), closing, c) && !LiveElsewhere(old(Contents()), closing, c)
    {
      if c.hostname in hostnameIndex {
        var holder := hostnameIndex[c.hostname];
        if holder != c.agentId && holder in agents && Live(agents[holder], closing) {
          return false;
        }
      }
      if c.agentId in agents {
        var existing := agents[c.agentId];
        if existing.hostname != c.hostname {
          if Live(existing, closing) {
            return false;
          }
          if existing.hostname in hostnameIndex && hostnameIndex[existing.hostname] == c.agentId {
            hostnameIndex := hostnameIndex - {existing.hostname};
          }
        }
      }
      agents := agents[c.agentId := c];
      hostnameIndex := hostnameIndex[c.hostname := c.agentId];
      return true;
    }

    method Unregister(id: AgentId, connId: Option<ConnId>)
      modifies this
      ensures Contents() == AfterUnregister(old(Contents()), id, connId)
    {
      if id !in agents {
        return;
      }
      var current := agents[id];
      if connId.Some? && current.connId.Some? && current.connId != connId {
        return;
      }
      agents := agents - {id};
      if current.hostname in hostnameIndex && hostnameIndex[current.hostname] == id {
        hostnameIndex := hostnameIndex - {current.hostname};
      }
    }

    /** Returns the socket to close, if there was a live one. */
    method Disconnect(id: AgentId, closing: set<ConnId>) returns (socket: Option<ConnId>)
      modifies this
      ensures Contents() == AfterUnregister(old(Contents()), id, None)
      ensures socket == if id in old(agents) && Live(old(agents)[id], closing) then old(agents)[id].writer else None
    {
      if id !in agents {
        return None;
      }
      var agent := agents[id];
      Unregister(id, None);
      return if Live(agent, closing) then agent.writer else None;
    }

    /** An empty agent id counts as no agent. */
    method GetByHostname(host: Host) returns (c: Option<Conn>)
      ensures c == Lookup(Contents(), host)
    {
      if host in hostnameIndex {
        var id := hostnameIndex[host];
        if id != "" && id in agents {
          return Some(agents[id]);
        }
      }
      return None;
    }
  }

  function Lookup(t: Table, host: Host): Option<Conn> {
    if host in t.index && t.index[host] != "" && t.index[host] in t.agents then Some(t.agents[t.index[host]]) else None
  }

  // ---- Every interleaving of connections ----------------------------------

  /** What a hub goes through: a connection registers; its handler ends; an operator
      disconnects or forgets an agent; a socket begins to close. */
  datatype Event =
    | Registers(conn: ConnId, id: AgentId, host: Host)
    | HandlerEnds(conn: ConnId)
    | Disconnects(id: AgentId)
    | Forgets(id: AgentId)
    | Closes(conn: ConnId)

  /** `used` are the connections so far; `handlers` the registered ones whose
      handler still runs, with the id each registered. */
  datatype Hub = Hub(table: Table, closing: set<ConnId>, used: set<ConnId>, handlers: map<ConnId, AgentId>)

  const IDLE := Hub(EMPTY_TABLE, {}, {}, map[])

  /** Connection ids are fresh, and a handler ends once. */
  predicate Possible(h: Hub, e: Event) {
    match e
    case Registers(conn, _, _) => conn !in h.used
    case HandlerEnds(conn) => conn in h.handlers
    case _ => true
  }

  function NewConn(e: Event): Conn
    requires e.Registers?
  {
    Conn(e.id, e.host, Some(e.conn), Some(e.conn))
  }

  predicate Accepted(h: Hub, e: Event)
    requires e.Registers?
  {
    !HostHeld(h.table, h.closing, NewConn(e)) && !LiveElsewhere(h.table, h.closing, NewConn(e))
  }

  function After(h: Hub, e: Event): Hub {
    match e
    case Registers(conn, id, host) =>
      h.(table := AfterRegister(h.table, h.closing, NewConn(e)), used := h.used + {conn},
         handlers := if Accepted(h, e) then h.handlers[conn := id] else h.handlers,
         closing := if Accepted(h, e) then h.closing else h.closing + {conn})
    case HandlerEnds(conn) =>
      var id := if conn in h.handlers then h.handlers[conn] else "";
      h.(table := if id != "" then AfterUnregister(h.table, id, Some(conn)) else h.table,
         closing := h.closing + {conn}, handlers := Without(h.handlers, conn))
    case Disconnects(id) =>
      h.(table := AfterUnregister(h.table, id, None),
         closing := if id in h.table.agents && h.table.agents[id].writer.Some?
                    then h.closing + {h.table.agents[id].writer.value} else h.closing)
    case Forgets(id) => h.(table := AfterUnregister(h.table, id, None))
    case Closes(conn) => h.(closing := h.closing + {conn})
  }

  /** The two maps agree, and every live entry is the one its hostname finds. */
  ghost predicate Consistent(t: Table, closing: set<ConnId>) {
    && (forall host :: host in t.index ==> t.index[host] in t.agents && t.agents[t.index[host]].hostname == host)
    && (forall id :: id in t.agents ==> t.agents[id].agentId == id)
    && (forall id :: id in t.agents && Live(t.agents[id], closing) ==>
          t.agents[id].hostname in t.index && t.index[t.agents[id].hostname] == id)
  }

  /** Every named entry belongs to a connection whose handler still runs. */
  ghost predicate Owned(h: Hub) {
    && h.handlers.Keys <= h.used
    && (forall id :: id in h.table.agents ==>
          var c := h.table.agents[id];
          c.connId.Some? && c.writer == c.connId && c.connId.value in h.used
          && (id != "" ==> c.connId.value in h.handlers && h.handlers[c.connId.value] == id))
  }

  ghost predicate Inv(h: Hub) {
    Consistent(h.table, h.closing) && Owned(h)
  }

  function Run(events: seq<Event>): Hub {
    if events == [] then IDLE else After(Run(events[..|events| - 1]), events[|events| - 1])
  }

  predicate PossibleRun(events: seq<Event>) {
    events == [] ||
    var n := |events| - 1;
    PossibleRun(events[..n]) && Possible(Run(events[..n]), events[n])
  }

  lemma RegisterKeeps(h: Hub, e: Event)
    requires Inv(h) && e.Registers? && Possible(h, e)
    ensures Inv(After(h, e))
  {
  }

  lemma UnregisterKeeps(t: Table, closing: set<ConnId>, id: AgentId, connId: Option<ConnId>)
    requires Consistent(t, closing)
    ensures Consistent(AfterUnregister(t, id, connId), closing)
  {
  }

  lemma ClosingKeeps(t: Table, closing: set<ConnId>, more: set<ConnId>)
    requires Consistent(t, closing) && closing <= more
    ensures Consistent(t, more)
  {
  }

  lemma StepKeeps(h: Hub, e: Event)
    requires Inv(h) && Possible(h, e)
    ensures Inv(After(h, e))
  {
    match e
    case Registers(_, _, _) => RegisterKeeps(h, e);
    case HandlerEnds(conn) =>
      UnregisterKeeps(h.table, h.closing, h.handlers[conn], Some(conn));
      ClosingKeeps(After(h, e).table, h.closing, h.closing + {conn});
    case Disconnects(id) =>
      UnregisterKeeps(h.table, h.closing, id, None);
      ClosingKeeps(After(h, e).table, h.closing, After(h, e).closing);
    case Forgets(id) => UnregisterKeeps(h.table, h.closing, id, None);
    case Closes(conn) => ClosingKeeps(h.table, h.closing, h.closing + {conn});
  }

  lemma {:induction false} RunKeeps(events: seq<Event>)
    requires PossibleRun(events)
    ensures Inv(Run(events))
  {
    hide Inv, After;
    if events == [] {
      StartsConsistent();
    } else {
      var n := |events| - 1;
      RunKeeps(events[..n]);
      StepKeeps(Run(events[..n]), events[n]);
    }
  }

  lemma StartsConsistent()
    ensures Inv(IDLE)
  {
  }

  /** In every reachable state the index and the table agree, a live entry is what
      a lookup of its hostname finds, unless its id is empty, and no two entries
      of one hostname are live. */
  lemma IndexAndTableAgree(events: seq<Event>)
    requires PossibleRun(events)
    ensures var h := Run(events);
            && Consistent(h.table, h.closing)
            && (forall id :: id in h.table.agents && Live(h.table.agents[id], h.closing) ==>
                  (Lookup(h.table, h.table.agents[id].hostname) == Some(h.table.agents[id]) <==> id != ""))
            && (forall a, b | a in h.table.agents && b in h.table.agents && a != b ::
                  Live(h.table.agents[a], h.closing) && Live(h.table.agents[b], h.closing) ==>
                    h.table.agents[a].hostname != h.table.agents[b].hostname)
  {
    hide Run, PossibleRun;
    RunKeeps(events);
  }

  /** No entry outlives its connection, unless its id is empty: every other one
      belongs to a connection whose handler is still to run its teardown. */
  lemma NoEntryOutlivesItsHandler(events: seq<Event>, id: AgentId)
    requires PossibleRun(events) && id in Run(events).table.agents
    ensures var h := Run(events);
            h.table.agents[id].connId.Some? && (h.table.agents[id].connId.value in h.handlers || id == "")
  {
    hide Run, PossibleRun;
    RunKeeps(events);
  }

  /** The teardown of the connection that owns an entry takes it away exactly when
      its id is not empty; otherwise it changes nothing. */
  lemma OwnTeardownRemovesIff(events: seq<Event>, conn: ConnId)
    requires PossibleRun(events) && conn in Run(events).handlers
    requires var h := Run(events); var id := h.handlers[conn];
             id in h.table.agents && h.table.agents[id].connId == Some(conn)
    ensures var h := Run(events); var t := After(h, HandlerEnds(conn)).table;
            && (h.handlers[conn] !in t.agents <==> h.handlers[conn] != "")
            && (h.handlers[conn] == "" ==> t == h.table)
  {
  }

  /** An entry with an empty id that nobody is left to take away. */
  lemma EmptyIdStaysBehind(conn: ConnId, host: Host)
    ensures var events := [Registers(conn, "", host), HandlerEnds(conn)];
            var h := Run(events);
            && PossibleRun(events)
            && "" in h.table.agents && h.table.agents[""].connId == Some(conn) && conn !in h.handlers
            && Lookup(h.table, host) == None
  {
    var a, b := Registers(conn, "", host), HandlerEnds(conn);
    assert [a, b][..1] == [a] && [a][..0] == [];
    assert Run([a]) == After(IDLE, a);
    assert Run([a, b]) == After(After(IDLE, a), b);
  }

  /** An entry leaves the table only by its own connection's teardown, by an
      operator, or by an accepted registration of the same id, which comes from
      the same host unless the entry's socket was no longer live. */
  lemma EntryLeavesOnlyBy(events: seq<Event>, e: Event, id: AgentId)
    requires PossibleRun(events) && Possible(Run(events), e)
    requires id in Run(events).table.agents
    requires var t := After(Run(events), e).table;
             id !in t.agents || t.agents[id] != Run(events).table.agents[id]
    ensures var h, c := Run(events), Run(events).table.agents[id];
            || (e.HandlerEnds? && c.connId == Some(e.conn))
            || (e.Disconnects? && e.id == id)
            || (e.Forgets? && e.id == id)
            || (e.Registers? && e.id == id && Accepted(h, e) && (Live(c, h.closing) ==> e.host == c.hostname))
  {
    hide Run, PossibleRun;
    RunKeeps(events);
  }

  /** The late teardown of a connection that has been superseded changes nothing. */
  lemma StaleTeardownChangesNothing(events: seq<Event>, conn: ConnId)
    requires PossibleRun(events) && conn in Run(events).handlers
    requires var h := Run(events); var id := h.handlers[conn];
             id in h.table.agents ==> h.table.agents[id].connId != Some(conn)
    ensures After(Run(events), HandlerEnds(conn)).table == Run(events).table
  {
    hide Run, PossibleRun;
    RunKeeps(events);
  }

  // ---- Registration and eviction, in plain fields -------------------------

  /** A fresh connection is accepted exactly when no other agent is live on its host
      and its own agent, if live, is on that host. */
  lemma AcceptedIff(events: seq<Event>, conn: ConnId, id: AgentId, host: Host)
    requires PossibleRun(events) && conn !in Run(events).used
    ensures var h := Run(events);
            Accepted(h, Registers(conn, id, host)) <==>
            && (forall o :: o in h.table.agents && o != id && h.table.agents[o].hostname == host ==>
                  !(h.table.agents[o].writer.Some? && h.table.agents[o].writer.value !in h.closing))
            && (id in h.table.agents && h.table.agents[id].writer.Some? && h.table.agents[id].writer.value !in h.closing ==>
                  h.table.agents[id].hostname == host)
  {
    hide Run, PossibleRun;
    RunKeeps(events);
  }

  /** What an accepted registration leaves: the new entry under its id and its host,
      every other entry as it was; a refused one leaves both maps alone. */
  lemma RegisteredMeans(events: seq<Event>, conn: ConnId, id: AgentId, host: Host)
    requires PossibleRun(events) && conn !in Run(events).used
    ensures var h := Run(events);
            var t := After(h, Registers(conn, id, host));
            if Accepted(h, Registers(conn, id, host)) then
              && t.table.agents == h.table.agents[id := Conn(id, host, Some(conn), Some(conn))]
              && host in t.table.index && t.table.index[host] == id
              && (id != "" ==> Lookup(t.table, host) == Some(Conn(id, host, Some(conn), Some(conn))))
              && conn in t.handlers && t.handlers[conn] == id
              && t.closing == h.closing
            else t.table == h.table && t.handlers == h.handlers && t.closing == h.closing + {conn}
  {
  }

  /** An operator's disconnect takes the entry out of both maps, and no other; it
      closes the entry's socket. */
  lemma DisconnectedMeans(events: seq<Event>, id: AgentId)
    requires PossibleRun(events)
    ensures var h := Run(events);
            var t := After(h, Disconnects(id));
            && t.table.agents == h.table.agents - {id}
            && (forall host :: host in t.table.index <==> host in h.table.index && h.table.index[host] != id)
            && (forall host :: host in t.table.index ==> t.table.index[host] == h.table.index[host])
            && t.closing == h.closing + (if id in h.table.agents && h.table.agents[id].writer.Some?
                                         then {h.table.agents[id].writer.value} else {})
            && t.handlers == h.handlers
            && After(h, Forgets(id)).table == t.table
  {
    hide Run, PossibleRun;
    RunKeeps(events);
  }
}
