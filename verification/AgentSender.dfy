/** The agent's write path: sequence numbers that are given back when a frame
    fails to encode, and generations that keep the loops of a lost connection
    off the socket that replaced it. */
module AgentSender {

  /** Where the reconnecting goroutine is. */
  datatype Phase = Dialing | Connected | Registering | Serving

  /** A frame handed to a socket by code that was started on connection `origin`;
      number 0 when the connection is not protected. */
  datatype Attempt = Attempt(socket: nat, origin: nat, number: nat)

  datatype State = State(
    gen: nat, replayOn: bool, sendSeq: nat, recvExpected: nat, phase: Phase, loops: set<nat>, log: seq<Attempt>)

  datatype SendResult = Sent | StaleConnection | EncodeFailed

  function AfterSend(s: State, origin: nat, encodes: bool): State {
    if !encodes then s
    else if s.replayOn then
      s.(sendSeq := s.sendSeq + 1, log := s.log + [Attempt(s.gen, origin, s.sendSeq + 1)])
    else s.(log := s.log + [Attempt(s.gen, origin, 0)])
  }

  class Agent {
    var conn: nat
    var connGen: nat
    var replayOn: bool
    var sendSeq: nat
    var recvExpected: nat
    ghost var phase: Phase
    ghost var loops: set<nat>
    ghost var log: seq<Attempt>

    /** Each socket is published together with its generation. */
    ghost predicate Valid()
      reads this
    {
      conn == connGen
    }

    ghost function Abstract(): State
      reads this
    {
      State(connGen, replayOn, sendSeq, recvExpected, phase, loops, log)
    }

    constructor ()
      ensures Valid() && Abstract() == START
    {
      conn, connGen, replayOn, sendSeq, recvExpected := 0, 0, false, 0, 0;
      phase, loops, log := Dialing, {}, [];
    }

    method Connect()
      requires Valid()
      modifies this
      ensures Valid() && Abstract() == old(Abstract()).(gen := old(connGen) + 1, phase := Connected)
    {
      conn := conn + 1;
      connGen := connGen + 1;
      phase := Connected;
    }

    method BeginRegister()
      requires Valid()
      modifies this
      ensures Valid() && Abstract() == old(Abstract()).(replayOn := false, phase := Registering)
    {
      replayOn := false;
      phase := Registering;
    }

    method FinishRegister(negotiated: bool, advertised: bool)
      requires Valid()
      modifies this
      ensures Valid()
      ensures Abstract() == if negotiated && advertised
                then old(Abstract()).(sendSeq := 0, recvExpected := 1, replayOn := true, phase := Serving)
                else old(Abstract()).(phase := Serving)
    {
      if negotiated && advertised {
        sendSeq := 0;
        recvExpected := 1;
        replayOn := true;
      }
      phase := Serving;
    }

    method StartLoops()
      requires Valid()
      modifies this
      ensures Valid() && Abstract() == old(Abstract()).(loops := old(loops) + {old(connGen)})
    {
      loops := loops + {connGen};
    }

    /** `macs` and `fits`: whether the code can be computed and the frame encoded. */
    method SendLocked(ghost origin: nat, macs: bool, fits: bool) returns (r: SendResult)
      requires Valid()
      modifies this`sendSeq, this`log
      ensures Valid() && Abstract() == AfterSend(old(Abstract()), origin, (!replayOn || macs) && fits)
      ensures r == if (!replayOn || macs) && fits then Sent else EncodeFailed
    {
      if replayOn {
        sendSeq := sendSeq + 1;
        if !macs {
          sendSeq := sendSeq - 1;
          return EncodeFailed;
        }
      }
      if !fits {
        if replayOn {
          sendSeq := sendSeq - 1;
        }
        return EncodeFailed;
      }
      log := log + [Attempt(conn, origin, if replayOn then sendSeq else 0)];
      return Sent;
    }

    method SendOn(gen: nat, macs: bool, fits: bool) returns (r: SendResult)
      requires Valid()
      modifies this`sendSeq, this`log
      ensures Valid()
      ensures connGen != gen ==> r == StaleConnection && Abstract() == old(Abstract())
      ensures connGen == gen ==> Abstract() == AfterSend(old(Abstract()), gen, (!replayOn || macs) && fits)
      ensures connGen == gen ==> r == if (!replayOn || macs) && fits then Sent else EncodeFailed
    {
      if connGen != gen {
        return StaleConnection;
      }
      r := SendLocked(gen, macs, fits);
    }
  }

  // ---- Every interleaving -------------------------------------------------

  datatype Event =
    | Dialed
    | RegisterBegins
    | RegisterFrame(encodes: bool)
    | RegisterAcked(protect: bool)
    | LoopsStart
    | ServeSends(encodes: bool)
    | LoopSends(gen: nat, encodes: bool)
    | Lost

  const START := State(0, false, 0, 0, Dialing, {}, [])

  /** One goroutine dials, registers and serves in turn; the loops it has started
      keep sending, however long ago their connection went away. */
  predicate Possible(s: State, e: Event) {
    match e
    case Dialed => s.phase.Dialing?
    case RegisterBegins => s.phase.Connected?
    case RegisterFrame(_) => s.phase.Registering?
    case RegisterAcked(_) => s.phase.Registering?
    case LoopsStart => s.phase.Serving?
    case ServeSends(_) => s.phase.Serving?
    case LoopSends(g, _) => g in s.loops
    case Lost => true
  }

  function After(s: State, e: Event): State {
    match e
    case Dialed => s.(gen := s.gen + 1, phase := Connected)
    case RegisterBegins => s.(replayOn := false, phase := Registering)
    case RegisterFrame(encodes) => AfterSend(s, s.gen, encodes)
    case RegisterAcked(protect) =>
      if protect then s.(sendSeq := 0, recvExpected := 1, replayOn := true, phase := Serving) else s.(phase := Serving)
    case LoopsStart => s.(loops := s.loops + {s.gen})
    case ServeSends(encodes) => AfterSend(s, s.gen, encodes)
    case LoopSends(g, encodes) => if s.gen != g then s else AfterSend(s, g, encodes)
    case Lost => s.(phase := Dialing)
  }

  function Run(events: seq<Event>): State {
    if events == [] then START else After(Run(events[..|events| - 1]), events[|events| - 1])
  }

  predicate PossibleRun(events: seq<Event>) {
    events == [] ||
    var n := |events| - 1;
    PossibleRun(events[..n]) && Possible(Run(events[..n]), events[n])
  }

  /** The numbers carried by the protected frames handed to one socket, in order. */
  function Numbers(log: seq<Attempt>, socket: nat): seq<nat> {
    if log == [] then []
    else
      var last := log[|log| - 1];
      var before := Numbers(log[..|log| - 1], socket);
      if last.socket == socket && last.number > 0 then before + [last.number] else before
  }

  predicate Consecutive(numbers: seq<nat>) {
    forall i :: 0 <= i < |numbers| ==> numbers[i] == i + 1
  }

  ghost predicate Inv(s: State) {
    && (forall a :: a in s.log ==> a.origin == a.socket <= s.gen)
    && (forall g :: g in s.loops ==> g <= s.gen)
    && (forall k: nat :: Consecutive(Numbers(s.log, k)))
    && (s.phase.Serving? && s.replayOn ==> |Numbers(s.log, s.gen)| == s.sendSeq)
    && (s.phase.Serving? && !s.replayOn ==> Numbers(s.log, s.gen) == [])
    && (s.phase.Registering? ==> !s.replayOn && Numbers(s.log, s.gen) == [])
    && (s.phase.Connected? ==> Numbers(s.log, s.gen) == [] && s.gen !in s.loops)
    && (s.phase.Registering? ==> s.gen !in s.loops)
    && (s.phase.Dialing? && s.gen in s.loops ==>
          if s.replayOn then |Numbers(s.log, s.gen)| == s.sendSeq else Numbers(s.log, s.gen) == [])
  }

  lemma NumbersAppend(log: seq<Attempt>, a: Attempt, socket: nat)
    ensures Numbers(log + [a], socket) ==
            if a.socket == socket && a.number > 0 then Numbers(log, socket) + [a.number] else Numbers(log, socket)
  {
    assert (log + [a])[..|log|] == log;
  }

  lemma {:induction false} NoNumbersYet(log: seq<Attempt>, socket: nat)
    requires forall a :: a in log ==> a.socket < socket
    ensures Numbers(log, socket) == []
  {
    if log != [] {
      NoNumbersYet(log[..|log| - 1], socket);
      assert log[|log| - 1] in log;
    }
  }

  lemma SendKeeps(s: State, encodes: bool)
    requires Inv(s)
    requires s.phase.Serving? || s.phase.Registering? || (s.phase.Dialing? && s.gen in s.loops)
    ensures Inv(AfterSend(s, s.gen, encodes))
  {
    if encodes {
      var t := AfterSend(s, s.gen, encodes);
      var a := t.log[|s.log|];
      forall k: nat
        ensures Numbers(t.log, k) ==
                if a.socket == k && a.number > 0 then Numbers(s.log, k) + [a.number] else Numbers(s.log, k)
      {
        NumbersAppend(s.log, a, k);
      }
    }
  }

  lemma StepKeeps(s: State, e: Event)
    requires Inv(s) && Possible(s, e)
    ensures Inv(After(s, e))
  {
    match e
    case Dialed => NoNumbersYet(s.log, s.gen + 1);
    case RegisterFrame(encodes) => SendKeeps(s, encodes);
    case ServeSends(encodes) => SendKeeps(s, encodes);
    case LoopSends(g, encodes) =>
      if g == s.gen {
        SendKeeps(s, encodes);
      }
    case _ =>
  }

  lemma {:induction false} RunKeeps(events: seq<Event>)
    requires PossibleRun(events)
    ensures Inv(Run(events))
  {
    if events != [] {
      var n := |events| - 1;
      RunKeeps(events[..n]);
      StepKeeps(Run(events[..n]), events[n]);
    }
  }

  /** Whatever the interleaving of reconnects with the loops of lost connections,
      a frame is only ever handed to the socket its sender was started on. */
  lemma FramesStayOnTheirConnection(events: seq<Event>, a: Attempt)
    requires PossibleRun(events) && a in Run(events).log
    ensures a.origin == a.socket <= Run(events).gen
  {
    RunKeeps(events);
  }

  /** On every socket the protected frames are numbered 1, 2, 3 without a gap,
      however many frames failed to encode in between. */
  lemma NumbersHaveNoGap(events: seq<Event>, socket: nat)
    requires PossibleRun(events)
    ensures Consecutive(Numbers(Run(events).log, socket))
  {
    RunKeeps(events);
  }

  lemma WritesOnCurrentSocket(s: State, e: Event, socket: nat)
    requires socket < s.gen
    ensures Numbers(After(s, e).log, socket) == Numbers(s.log, socket) && After(s, e).gen >= s.gen
  {
    var t := After(s, e);
    if t.log != s.log {
      NumbersAppend(s.log, t.log[|s.log|], socket);
    }
  }

  /** What was written on the socket of a replaced connection stays as it is:
      its loops neither write nor take a number any more. */
  lemma {:induction false} OldSocketsAreFinal(events: seq<Event>, k: nat, socket: nat)
    requires k <= |events| && socket < Run(events[..k]).gen
    ensures Numbers(Run(events).log, socket) == Numbers(Run(events[..k]).log, socket)
    ensures Run(events).gen >= Run(events[..k]).gen
    decreases |events|
  {
    hide After, Numbers;
    if k == |events| {
      assert events[..k] == events;
    } else {
      var n := |events| - 1;
      assert events[..n][..k] == events[..k];
      OldSocketsAreFinal(events[..n], k, socket);
      WritesOnCurrentSocket(Run(events[..n]), events[n], socket);
    }
  }

  /** A send writes one frame, on the current socket and under the next number where
      the connection is protected; or the frame cannot be encoded, and nothing changes. */
  lemma SendWritesOne(s: State, origin: nat, encodes: bool)
    ensures var t := AfterSend(s, origin, encodes);
            if !encodes then t == s
            else
              && t.log == s.log + [Attempt(s.gen, origin, if s.replayOn then s.sendSeq + 1 else 0)]
              && t.sendSeq == (if s.replayOn then s.sendSeq + 1 else s.sendSeq)
              && t.gen == s.gen && t.replayOn == s.replayOn && t.recvExpected == s.recvExpected
              && t.phase == s.phase && t.loops == s.loops
  {
  }

  /** So every frame that can be encoded adds the next number to its socket's. */
  lemma SendAddsItsNumber(events: seq<Event>, e: Event)
    requires PossibleRun(events) && Possible(Run(events), e)
    requires var s := Run(events); s.replayOn && ((e.ServeSends? && e.encodes) || (e.LoopSends? && e.gen == s.gen && e.encodes))
    ensures var s, t := Run(events), After(Run(events), e);
            Numbers(t.log, s.gen) == Numbers(s.log, s.gen) + [|Numbers(s.log, s.gen)| + 1]
  {
    hide Run, PossibleRun;
    RunKeeps(events);
    var s := Run(events);
    NumbersAppend(s.log, Attempt(s.gen, s.gen, s.sendSeq + 1), s.gen);
  }

  lemma RunNext(events: seq<Event>, e: Event)
    requires PossibleRun(events) && Possible(Run(events), e)
    ensures PossibleRun(events + [e]) && Run(events + [e]) == After(Run(events), e)
  {
    assert (events + [e])[..|events|] == events;
  }

  /** A protected connection, up to its first frame. */
  function ConnectAndSend(events: seq<Event>): seq<Event> {
    events + [Dialed] + [RegisterBegins] + [RegisterAcked(true)] + [LoopsStart] + [ServeSends(true)]
  }

  lemma ConnectsAndSends(events: seq<Event>)
    requires PossibleRun(events) && Run(events).phase == Dialing
    ensures PossibleRun(ConnectAndSend(events))
    ensures var s, t := Run(events), Run(ConnectAndSend(events));
            t == State(s.gen + 1, true, 1, 1, Serving, s.loops + {s.gen + 1}, s.log + [Attempt(s.gen + 1, s.gen + 1, 1)])
  {
    hide Run, PossibleRun;
    var a := events + [Dialed];
    var b := a + [RegisterBegins];
    var c := b + [RegisterAcked(true)];
    var d := c + [LoopsStart];
    RunNext(events, Dialed);
    RunNext(a, RegisterBegins);
    RunNext(b, RegisterAcked(true));
    RunNext(c, LoopsStart);
    RunNext(d, ServeSends(true));
  }

  /** A reconnect: the loop of the first connection, trying to send on the second,
      changes nothing, and the second is numbered from 1 again. */
  lemma ReconnectHappens()
    ensures var events := ConnectAndSend(ConnectAndSend([]) + [Lost]) + [LoopSends(1, true)];
            && PossibleRun(events)
            && Run(events).log == [Attempt(1, 1, 1), Attempt(2, 2, 1)] && Run(events).gen == 2
  {
    assert PossibleRun([]) && Run([]) == START;
    hide Run, PossibleRun;
    ConnectsAndSends([]);
    RunNext(ConnectAndSend([]), Lost);
    ConnectsAndSends(ConnectAndSend([]) + [Lost]);
    RunNext(ConnectAndSend(ConnectAndSend([]) + [Lost]), LoopSends(1, true));
  }
}
