/** Length-prefixed frames: writing them, reading them back through reads of any
    size, checking them where the connection is protected, and staying in step
    after a frame that is too large. */
module Framing {
  import opened Wrappers
  import CanonicalJson
  import ReplayChannel

  type Byte = b: int | 0 <= b < 256

  const HEADER_LEN := 4
  const MAX_MESSAGE_SIZE := 1048576
  const MAX_OVERSIZE_DRAIN := 16 * MAX_MESSAGE_SIZE
  const TWO_TO_32 := 0x1_0000_0000

  // ---- The header ---------------------------------------------------------

  function ByteAt(n: nat, unit: nat): Byte
    requires unit > 0
  {
    var quotient: nat := n / unit;
    quotient % 256
  }

  /** The length as four bytes, most significant first. */
  function Header(n: nat): (h: seq<Byte>)
    requires n < TWO_TO_32
    ensures |h| == HEADER_LEN
  {
    [ByteAt(n, 0x100_0000), ByteAt(n, 0x1_0000), ByteAt(n, 0x100), ByteAt(n, 1)]
  }

  function HeaderValue(h: seq<Byte>): (n: nat)
    requires |h| == HEADER_LEN
    ensures n < TWO_TO_32
  {
    var a: int, b: int, c: int, d: int := h[0], h[1], h[2], h[3];
    a * 0x100_0000 + b * 0x1_0000 + c * 0x100 + d
  }

  lemma HeaderRoundTrip(n: nat)
    requires n < TWO_TO_32
    ensures HeaderValue(Header(n)) == n
  {
    var a, b := n / 0x100, n / 0x1_0000;
    assert n == a * 0x100 + n % 0x100;
    assert a / 0x100 == b && a == b * 0x100 + a % 0x100;
    assert b / 0x100 == n / 0x100_0000 && b == b / 0x100 * 0x100 + b % 0x100;
  }

  // ---- Writing ------------------------------------------------------------

  /** The hub's encoder; a length that does not fit four bytes raises. */
  function Encoded(payload: seq<Byte>): Option<seq<Byte>> {
    if |payload| < TWO_TO_32 then Some(Header(|payload|) + payload) else None
  }

  /** The agent's encoder fills a buffer, and refuses what the hub would not take. */
  method EncodeMessage(payload: seq<Byte>) returns (r: Option<array<Byte>>)
    ensures r.Some? <==> |payload| <= MAX_MESSAGE_SIZE
    ensures r.Some? ==> fresh(r.value) && Encoded(payload) == Some(r.value[..])
  {
    if |payload| > MAX_MESSAGE_SIZE {
      return None;
    }
    var buf := new Byte[HEADER_LEN + |payload|];
    var n := |payload|;
    buf[0], buf[1], buf[2], buf[3] :=
      ByteAt(n, 0x100_0000), ByteAt(n, 0x1_0000), ByteAt(n, 0x100), ByteAt(n, 1);
    for i := 0 to n
      invariant buf[..HEADER_LEN] == Header(n)
      invariant buf[HEADER_LEN..HEADER_LEN + i] == payload[..i]
    {
      buf[HEADER_LEN + i] := payload[i];
    }
    assert buf[..] == buf[..HEADER_LEN] + buf[HEADER_LEN..];
    assert buf[HEADER_LEN..] == buf[HEADER_LEN..HEADER_LEN + n];
    assert payload[..n] == payload;
    return Some(buf);
  }

  // ---- Reading ------------------------------------------------------------

  type Frame = CanonicalJson.Frame

  /** What JSON decoding of a body can come to. Bytes that are not UTF-8 raise an
      error of their own. */
  datatype Decoded = Object(frame: Frame) | NotObject | NotJson | NotText

  type Decoder = seq<Byte> -> Decoded

  /** The JSON value of a body, where it is an object. The agent's decoder turns
      its numbers into float64, and fails in one way only. */
  type Unmarshaller = seq<Byte> -> Option<Frame>

  function AgentFrame(unmarshal: Unmarshaller, body: seq<Byte>): Option<Frame> {
    match unmarshal(body)
    case None => None
    case Some(frame) => ReplayChannel.AsRead(ReplayChannel.Agent, frame)
  }

  datatype Message =
    | Received(body: seq<Byte>, frame: Frame) | Oversize(length: nat) | Malformed | Undecodable | Disconnected

  /** What the connection loop does with one frame. */
  datatype Reply = Dispatched(body: seq<Byte>) | TooLarge(length: nat) | ProtocolError

  datatype End = ConnectionLost | ClosedFailClosed | ReplayRejected | DrainCapExceeded | HandlerFailed

  datatype Served = Served(replies: seq<Reply>, end: End)

  /** What an end of the connection checks of each frame. */
  datatype Guard = Unprotected | Protected(mac: ReplayChannel.Mac, key: string, expected: nat)

  predicate Lets(receiver: ReplayChannel.Receiver, g: Guard, frame: Frame) {
    g.Protected? ==> ReplayChannel.Checks(receiver, g.mac, g.key, g.expected, frame)
  }

  /** After `n` frames were let through. */
  function Advanced(g: Guard, n: nat): Guard {
    if g.Protected? then g.(expected := g.expected + n) else g
  }

  function GuardOf(session: ReplayChannel.ReplaySession?): Guard
    reads session
  {
    if session == null then Unprotected else Protected(session.mac, session.key, session.recvExpected)
  }

  function AgentGuardOf(inbound: ReplayChannel.AgentInbound?): Guard
    reads inbound
  {
    if inbound == null then Unprotected else Protected(inbound.mac, inbound.key, inbound.recvExpected)
  }

  /** The hub's check of an inbound frame, where there is one to make. */
  method Check(session: ReplayChannel.ReplaySession?, frame: Frame) returns (ok: bool)
    modifies session
    ensures ok <==> Lets(ReplayChannel.Hub, old(GuardOf(session)), frame)
    ensures GuardOf(session) == if ok then Advanced(old(GuardOf(session)), 1) else old(GuardOf(session))
  {
    if session == null {
      return true;
    }
    ok := session.Verify(frame);
  }

  method CheckInbound(inbound: ReplayChannel.AgentInbound?, frame: Frame) returns (ok: bool)
    modifies inbound
    ensures ok <==> Lets(ReplayChannel.Agent, old(AgentGuardOf(inbound)), frame)
    ensures AgentGuardOf(inbound) == if ok then Advanced(old(AgentGuardOf(inbound)), 1) else old(AgentGuardOf(inbound))
  {
    if inbound == null {
      return true;
    }
    ok := inbound.VerifyInbound(frame);
  }

  /** Bytes up to the end of the connection, delivered in pieces of any size. */
  class StreamReader {
    var stream: seq<Byte>

    constructor (stream: seq<Byte>)
      ensures this.stream == stream
    {
      this.stream := stream;
    }

    /** At least one byte and at most `n`, unless the peer has hung up. */
    method Read(n: nat) returns (chunk: seq<Byte>)
      requires n > 0
      modifies this
      ensures |chunk| <= n && old(stream) == chunk + stream
      ensures chunk == [] ==> old(stream) == []
    {
      if stream == [] {
        return [];
      }
      var most := if n < |stream| then n else |stream|;
      var k: nat :| 1 <= k <= most;
      chunk := stream[..k];
      stream := stream[k..];
    }

    method ReadExact(n: nat) returns (data: Option<seq<Byte>>)
      modifies this
      ensures if n <= |old(stream)| then data == Some(old(stream)[..n]) && stream == old(stream)[n..]
              else data == None && stream == []
    {
      var got: seq<Byte> := [];
      while |got| < n
        invariant |got| <= n && old(stream) == got + stream
        decreases n - |got|
      {
        var before := stream;
        var chunk := Read(n - |got|);
        if chunk == [] {
          return None;
        }
        assert got + before == got + chunk + stream;
        got := got + chunk;
      }
      return Some(got);
    }

    method ReadMessage(decode: Decoder) returns (m: Message)
      modifies this
      ensures (m, stream) == NextMessage(decode, old(stream))
    {
      var hdr := ReadExact(HEADER_LEN);
      if hdr.None? {
        return Disconnected;
      }
      var length := HeaderValue(hdr.value);
      if length > MAX_MESSAGE_SIZE {
        return Oversize(length);
      }
      var body := ReadExact(length);
      if body.None? {
        return Disconnected;
      }
      match decode(body.value)
      case Object(frame) => return Received(body.value, frame);
      case NotObject => return Malformed;
      case NotJson => return Malformed;
      case NotText => return Undecodable;
    }

    /** The connection loop after registration, with idle timeouts left aside;
        `session` is null on an unprotected connection. */
    method Serve(decode: Decoder, session: ReplayChannel.ReplaySession?) returns (served: Served)
      modifies this, session
      ensures served == Serves(decode, old(GuardOf(session)), old(stream))
    {
      hide Lets, Advanced, NextMessage;
      var replies: seq<Reply> := [];
      while true
        invariant Serves(decode, old(GuardOf(session)), old(stream)) ==
                  Prepend(replies, Serves(decode, GuardOf(session), stream))
        decreases |stream|
      {
        var m := ReadMessage(decode);
        match m
        case Disconnected => return Served(replies, ConnectionLost);
        case Undecodable => return Served(replies, HandlerFailed);
        case Oversize(length) =>
          if session != null {
            return Served(replies, ClosedFailClosed);
          }
          if length > MAX_OVERSIZE_DRAIN {
            return Served(replies, DrainCapExceeded);
          }
          var body := ReadExact(length);
          if body.None? {
            return Served(replies, HandlerFailed);
          }
          PrependOne(replies, TooLarge(length), Serves(decode, GuardOf(session), stream));
          replies := replies + [TooLarge(length)];
        case Malformed =>
          if session != null {
            return Served(replies, ClosedFailClosed);
          }
          PrependOne(replies, ProtocolError, Serves(decode, GuardOf(session), stream));
          replies := replies + [ProtocolError];
        case Received(body, frame) =>
          var ok := Check(session, frame);
          if !ok {
            return Served(replies, ReplayRejected);
          }
          PrependOne(replies, Dispatched(body), Serves(decode, GuardOf(session), stream));
          replies := replies + [Dispatched(body)];
      }
    }

    /** The agent's reader; every error is the same to its caller. */
    method ReadForAgent(unmarshal: Unmarshaller) returns (m: Option<(seq<Byte>, Frame)>)
      modifies this
      ensures (m, stream) == NextForAgent(unmarshal, old(stream))
    {
      ghost var start := stream;
      var hdr := ReadExact(HEADER_LEN);
      if hdr.None? {
        return None;
      }
      assert hdr.value == start[..HEADER_LEN] && stream == start[HEADER_LEN..];
      var n := HeaderValue(hdr.value);
      if n > MAX_MESSAGE_SIZE {
        return None;
      }
      var body := ReadExact(n);
      if body.None? {
        return None;
      }
      match AgentFrame(unmarshal, body.value)
      case None => return None;
      case Some(frame) => return Some((body.value, frame));
    }

    /** The agent's serve loop, which ends at the first error; `inbound` is null
        on an unprotected connection. */
    method ServeAgent(unmarshal: Unmarshaller, inbound: ReplayChannel.AgentInbound?) returns (bodies: seq<seq<Byte>>)
      modifies this, inbound
      ensures bodies == AgentServes(unmarshal, old(AgentGuardOf(inbound)), old(stream))
    {
      hide Lets, Advanced, NextForAgent, AgentServes, AgentFrame;
      bodies := [];
      while true
        invariant AgentServes(unmarshal, old(AgentGuardOf(inbound)), old(stream)) ==
                  bodies + AgentServes(unmarshal, AgentGuardOf(inbound), stream)
        decreases |stream|
      {
        ghost var guard, before := AgentGuardOf(inbound), stream;
        AgentServesStep(unmarshal, guard, before);
        var m := ReadForAgent(unmarshal);
        if m.None? {
          return;
        }
        var ok := CheckInbound(inbound, m.value.1);
        if !ok {
          return;
        }
        assert bodies + AgentServes(unmarshal, guard, before)
            == bodies + [m.value.0] + AgentServes(unmarshal, AgentGuardOf(inbound), stream);
        bodies := bodies + [m.value.0];
      }
    }
  }

  function Prepend(replies: seq<Reply>, s: Served): Served {
    Served(replies + s.replies, s.end)
  }

  lemma PrependOne(replies: seq<Reply>, r: Reply, s: Served)
    ensures Prepend(replies + [r], s) == Prepend(replies, Prepend([r], s))
  {
    assert replies + [r] + s.replies == replies + ([r] + s.replies);
  }

  /** The next message of a stream, and what is left. An oversize body is left unread. */
  function NextMessage(decode: Decoder, stream: seq<Byte>): (r: (Message, seq<Byte>))
    ensures |r.1| <= |stream|
    ensures !r.0.Disconnected? ==> |r.1| < |stream|
  {
    if |stream| < HEADER_LEN then (Disconnected, [])
    else
      var length, rest := HeaderValue(stream[..HEADER_LEN]), stream[HEADER_LEN..];
      if length > MAX_MESSAGE_SIZE then (Oversize(length), rest)
      else if |rest| < length then (Disconnected, [])
      else
        var body := rest[..length];
        match decode(body)
        case Object(frame) => (Received(body, frame), rest[length..])
        case NotObject => (Malformed, rest[length..])
        case NotJson => (Malformed, rest[length..])
        case NotText => (Undecodable, rest[length..])
  }

  function Serves(decode: Decoder, g: Guard, stream: seq<Byte>): Served
    decreases |stream|
  {
    var (m, rest) := NextMessage(decode, stream);
    match m
    case Disconnected => Served([], ConnectionLost)
    case Undecodable => Served([], HandlerFailed)
    case Oversize(length) =>
      if g.Protected? then Served([], ClosedFailClosed)
      else if length > MAX_OVERSIZE_DRAIN then Served([], DrainCapExceeded)
      else if |rest| < length then Served([], HandlerFailed)
      else Prepend([TooLarge(length)], Serves(decode, g, rest[length..]))
    case Malformed =>
      if g.Protected? then Served([], ClosedFailClosed)
      else Prepend([ProtocolError], Serves(decode, g, rest))
    case Received(body, frame) =>
      if !Lets(ReplayChannel.Hub, g, frame) then Served([], ReplayRejected)
      else Prepend([Dispatched(body)], Serves(decode, Advanced(g, 1), rest))
  }

  function NextForAgent(unmarshal: Unmarshaller, stream: seq<Byte>): (r: (Option<(seq<Byte>, Frame)>, seq<Byte>))
    ensures r.0.Some? ==> |r.1| < |stream|
  {
    if |stream| < HEADER_LEN then (None, [])
    else
      var n, rest := HeaderValue(stream[..HEADER_LEN]), stream[HEADER_LEN..];
      if n > MAX_MESSAGE_SIZE then (None, rest)
      else if |rest| < n then (None, [])
      else
        match AgentFrame(unmarshal, rest[..n])
        case None => (None, rest[n..])
        case Some(frame) => (Some((rest[..n], frame)), rest[n..])
  }

  /** The bodies the agent acts on, up to the first error. */
  function AgentServes(unmarshal: Unmarshaller, g: Guard, stream: seq<Byte>): seq<seq<Byte>>
    decreases |stream|
  {
    var (m, rest) := NextForAgent(unmarshal, stream);
    if m.None? || !Lets(ReplayChannel.Agent, g, m.value.1) then []
    else [m.value.0] + AgentServes(unmarshal, Advanced(g, 1), rest)
  }

  lemma AgentServesStep(unmarshal: Unmarshaller, g: Guard, stream: seq<Byte>)
    ensures var (m, rest) := NextForAgent(unmarshal, stream);
            AgentServes(unmarshal, g, stream) ==
            if m.None? || !Lets(ReplayChannel.Agent, g, m.value.1) then []
            else [m.value.0] + AgentServes(unmarshal, Advanced(g, 1), rest)
  {
  }

  // ---- Reading undoes writing ---------------------------------------------

  function Framed(payloads: seq<seq<Byte>>): seq<Byte>
    requires forall i :: 0 <= i < |payloads| ==> |payloads[i]| < TWO_TO_32
  {
    if payloads == [] then [] else Encoded(payloads[0]).value + Framed(payloads[1..])
  }

  /** The frame leaves the connection open and the reader on a frame boundary. */
  predicate Survives(decode: Decoder, g: Guard, payload: seq<Byte>) {
    if |payload| > MAX_MESSAGE_SIZE then g.Unprotected? && |payload| <= MAX_OVERSIZE_DRAIN
    else
      match decode(payload)
      case Object(frame) => Lets(ReplayChannel.Hub, g, frame)
      case NotText => false
      case _ => g.Unprotected?
  }

  function Answer(decode: Decoder, payload: seq<Byte>): Reply {
    if |payload| > MAX_MESSAGE_SIZE then TooLarge(|payload|)
    else if decode(payload).Object? then Dispatched(payload)
    else ProtocolError
  }

  function Answers(decode: Decoder, payloads: seq<seq<Byte>>): (r: seq<Reply>)
    ensures |r| == |payloads|
    ensures forall i :: 0 <= i < |payloads| ==> r[i] == Answer(decode, payloads[i])
  {
    if payloads == [] then [] else [Answer(decode, payloads[0])] + Answers(decode, payloads[1..])
  }

  lemma NextOfFramed(decode: Decoder, payload: seq<Byte>, tail: seq<Byte>)
    requires |payload| < TWO_TO_32
    ensures var (m, rest) := NextMessage(decode, Encoded(payload).value + tail);
            if |payload| > MAX_MESSAGE_SIZE then m == Oversize(|payload|) && rest == payload + tail
            else rest == tail
                 && m == match decode(payload)
                         case Object(frame) => Received(payload, frame)
                         case NotObject => Malformed
                         case NotJson => Malformed
                         case NotText => Undecodable
  {
    var stream := Encoded(payload).value + tail;
    HeaderRoundTrip(|payload|);
    assert stream[..HEADER_LEN] == Header(|payload|);
    assert stream[HEADER_LEN..] == payload + tail;
    assert (payload + tail)[..|payload|] == payload && (payload + tail)[|payload|..] == tail;
  }

  lemma NoneAdvanced(g: Guard)
    ensures Advanced(g, 0) == g
  {
  }

  lemma AdvancedTwice(g: Guard, n: nat)
    ensures Advanced(Advanced(g, 1), n) == Advanced(g, n + 1)
  {
  }

  /** One frame: answered and passed, or the end of the connection. */
  lemma ServeOne(decode: Decoder, g: Guard, payload: seq<Byte>, tail: seq<Byte>)
    requires |payload| < TWO_TO_32
    ensures var served := Serves(decode, g, Encoded(payload).value + tail);
            if Survives(decode, g, payload)
            then served == Prepend([Answer(decode, payload)], Serves(decode, Advanced(g, 1), tail))
            else served.replies == [] && served.end != ConnectionLost
  {
    hide Lets;
    NextOfFramed(decode, payload, tail);
    assert (payload + tail)[|payload|..] == tail;
  }

  /** A body that is not text ends even an unprotected connection. */
  lemma NotTextEndsAnyConnection(decode: Decoder, g: Guard, payload: seq<Byte>, tail: seq<Byte>)
    requires |payload| <= MAX_MESSAGE_SIZE && decode(payload).NotText?
    ensures Serves(decode, g, Encoded(payload).value + tail) == Served([], HandlerFailed)
  {
    NextOfFramed(decode, payload, tail);
  }

  /** Frames that survive come out one by one, in order, each answered once, and
      leave the reader where the next frame begins. */
  lemma {:induction false} ReadingUndoesWriting(decode: Decoder, g: Guard, payloads: seq<seq<Byte>>, tail: seq<Byte>)
    requires forall i :: 0 <= i < |payloads| ==> |payloads[i]| < TWO_TO_32
    requires forall i :: 0 <= i < |payloads| ==> Survives(decode, Advanced(g, i), payloads[i])
    ensures Serves(decode, g, Framed(payloads) + tail)
         == Prepend(Answers(decode, payloads), Serves(decode, Advanced(g, |payloads|), tail))
    decreases |payloads|
  {
    NoneAdvanced(g);
    if payloads == [] {
      assert Framed(payloads) + tail == tail;
    } else {
      hide Serves, Survives, Answer, Encoded, Advanced, Lets, Prepend;
      var more := Framed(payloads[1..]) + tail;
      assert Framed(payloads) + tail == Encoded(payloads[0]).value + more;
      ServeOne(decode, g, payloads[0], more);
      TailSurvives(decode, g, payloads);
      AdvancedTwice(g, |payloads| - 1);
      ReadingUndoesWriting(decode, Advanced(g, 1), payloads[1..], tail);
      PrependTwice(Answer(decode, payloads[0]), Answers(decode, payloads[1..]), Serves(decode, Advanced(g, |payloads|), tail));
    }
  }

  lemma PrependTwice(r: Reply, replies: seq<Reply>, s: Served)
    ensures Prepend([r], Prepend(replies, s)) == Prepend([r] + replies, s)
  {
    assert [r] + (replies + s.replies) == [r] + replies + s.replies;
  }

  /** A connection outlives what was written to it exactly when every frame is one
      that survives, each under the number expected by then: otherwise it ends at
      the first that is not. */
  lemma {:induction false} ConnectionOutlivesIff(decode: Decoder, g: Guard, payloads: seq<seq<Byte>>)
    requires forall i :: 0 <= i < |payloads| ==> |payloads[i]| < TWO_TO_32
    ensures Serves(decode, g, Framed(payloads)).end == ConnectionLost <==>
            forall i :: 0 <= i < |payloads| ==> Survives(decode, Advanced(g, i), payloads[i])
    decreases |payloads|
  {
    NoneAdvanced(g);
    if payloads != [] {
      hide Survives, Answer, Encoded, Advanced;
      ServeOne(decode, g, payloads[0], Framed(payloads[1..]));
      ConnectionOutlivesIff(decode, Advanced(g, 1), payloads[1..]);
      TailSurvives(decode, g, payloads);
    }
  }

  lemma TailSurvives(decode: Decoder, g: Guard, payloads: seq<seq<Byte>>)
    requires payloads != []
    ensures (forall i :: 0 <= i < |payloads| ==> Survives(decode, Advanced(g, i), payloads[i])) <==>
            Survives(decode, g, payloads[0])
            && forall i :: 0 <= i < |payloads[1..]| ==> Survives(decode, Advanced(Advanced(g, 1), i), payloads[1..][i])
  {
    NoneAdvanced(g);
    hide Survives, Advanced;
    forall i | 0 <= i < |payloads[1..]|
      ensures Survives(decode, Advanced(Advanced(g, 1), i), payloads[1..][i])
           == Survives(decode, Advanced(g, i + 1), payloads[i + 1])
    {
      AdvancedTwice(g, i);
    }
    if forall i :: 0 <= i < |payloads[1..]| ==> Survives(decode, Advanced(Advanced(g, 1), i), payloads[1..][i]) {
      forall i | 1 <= i < |payloads|
        ensures Survives(decode, Advanced(g, i), payloads[i])
      {
        AdvancedTwice(g, i - 1);
        assert Survives(decode, Advanced(Advanced(g, 1), i - 1), payloads[1..][i - 1]);
      }
    }
  }

  lemma NothingLeft(decode: Decoder, g: Guard)
    ensures Serves(decode, g, []) == Served([], ConnectionLost)
  {
  }

  /** Of what a sender stamped in order, a protected connection dispatches every
      frame, and only the end of the stream ends it. */
  lemma StampedFramesAreDispatched(decode: Decoder, mac: ReplayChannel.Mac, key: string, expected: nat,
                                   frames: seq<Frame>, payloads: seq<seq<Byte>>)
    requires |payloads| == |frames|
    requires forall i :: 0 <= i < |frames| ==>
               CanonicalJson.WellFormed(CanonicalJson.Obj(frames[i])) && |payloads[i]| <= MAX_MESSAGE_SIZE
               && decode(payloads[i]) == Object(ReplayChannel.Stamped(mac, key, frames[i], expected + i))
    ensures Serves(decode, Protected(mac, key, expected), Framed(payloads)) == Served(Answers(decode, payloads), ConnectionLost)
    ensures forall i :: 0 <= i < |payloads| ==> Answers(decode, payloads)[i] == Dispatched(payloads[i])
  {
    hide Serves, ReplayChannel.Stamped, ReplayChannel.Verifies;
    var g := Protected(mac, key, expected);
    forall i | 0 <= i < |payloads|
      ensures Survives(decode, Advanced(g, i), payloads[i])
    {
      ReplayChannel.StampedVerifies(mac, key, frames[i], expected + i);
    }
    NothingLeft(decode, Advanced(g, |payloads|));
    ReadingUndoesWriting(decode, g, payloads, []);
    assert Framed(payloads) + [] == Framed(payloads);
    assert Answers(decode, payloads) + [] == Answers(decode, payloads);
  }

  predicate AgentTakes(unmarshal: Unmarshaller, g: Guard, payload: seq<Byte>) {
    && |payload| <= MAX_MESSAGE_SIZE && AgentFrame(unmarshal, payload).Some?
    && Lets(ReplayChannel.Agent, g, AgentFrame(unmarshal, payload).value)
  }

  /** The agent takes the first `n` frames, and not the next. */
  predicate FirstBad(unmarshal: Unmarshaller, g: Guard, payloads: seq<seq<Byte>>, n: nat) {
    && n <= |payloads|
    && (forall i :: 0 <= i < n ==> AgentTakes(unmarshal, Advanced(g, i), payloads[i]))
    && (n < |payloads| ==> !AgentTakes(unmarshal, Advanced(g, n), payloads[n]))
  }

  lemma FirstBadNext(unmarshal: Unmarshaller, g: Guard, payloads: seq<seq<Byte>>, n: nat)
    requires payloads != [] && AgentTakes(unmarshal, g, payloads[0])
    requires FirstBad(unmarshal, Advanced(g, 1), payloads[1..], n)
    ensures FirstBad(unmarshal, g, payloads, n + 1) && n < |payloads|
  {
    NoneAdvanced(g);
    hide AgentTakes, Advanced;
    forall i | 1 <= i < |payloads|
      ensures AgentTakes(unmarshal, Advanced(g, i), payloads[i])
           == AgentTakes(unmarshal, Advanced(Advanced(g, 1), i - 1), payloads[1..][i - 1])
    {
      AdvancedTwice(g, i - 1);
    }
  }

  /** Of what the hub wrote, the agent acts on exactly the frames before the first
      that is too large, cannot be unmarshalled or is not let through, in order and
      unaltered. */
  lemma {:induction false} AgentReadsUpToFirstBad(unmarshal: Unmarshaller, g: Guard, payloads: seq<seq<Byte>>)
    requires forall i :: 0 <= i < |payloads| ==> |payloads[i]| < TWO_TO_32
    ensures var bodies := AgentServes(unmarshal, g, Framed(payloads));
            FirstBad(unmarshal, g, payloads, |bodies|) && bodies == payloads[..|bodies|]
    decreases |payloads|
  {
    if payloads == [] || !AgentTakes(unmarshal, g, payloads[0]) {
      FirstBadAtOnce(unmarshal, g, payloads);
    }
    if payloads != [] {
      hide AgentTakes, Encoded, AgentServes, Advanced, FirstBad;
      AgentServesOne(unmarshal, g, payloads[0], Framed(payloads[1..]));
      if AgentTakes(unmarshal, g, payloads[0]) {
        AgentReadsUpToFirstBad(unmarshal, Advanced(g, 1), payloads[1..]);
        var n := |AgentServes(unmarshal, Advanced(g, 1), Framed(payloads[1..]))|;
        FirstBadNext(unmarshal, g, payloads, n);
        PrefixOfTail(payloads, n);
      }
    }
  }

  lemma FirstBadAtOnce(unmarshal: Unmarshaller, g: Guard, payloads: seq<seq<Byte>>)
    requires payloads == [] || !AgentTakes(unmarshal, g, payloads[0])
    ensures FirstBad(unmarshal, g, payloads, 0)
  {
    NoneAdvanced(g);
  }

  lemma PrefixOfTail(payloads: seq<seq<Byte>>, n: nat)
    requires n < |payloads|
    ensures [payloads[0]] + payloads[1..][..n] == payloads[..n + 1]
  {
  }

  lemma AgentServesOne(unmarshal: Unmarshaller, g: Guard, payload: seq<Byte>, tail: seq<Byte>)
    requires |payload| < TWO_TO_32
    ensures AgentServes(unmarshal, g, Encoded(payload).value + tail) ==
            if AgentTakes(unmarshal, g, payload) then [payload] + AgentServes(unmarshal, Advanced(g, 1), tail) else []
  {
    hide Lets, AgentFrame;
    var stream := Encoded(payload).value + tail;
    HeaderRoundTrip(|payload|);
    assert stream[..HEADER_LEN] == Header(|payload|);
    assert stream[HEADER_LEN..] == payload + tail;
    assert (payload + tail)[..|payload|] == payload && (payload + tail)[|payload|..] == tail;
  }

  // ---- Whatever bytes arrive ----------------------------------------------

  /** No part of the stream decodes as a frame with a forged code. */
  ghost predicate NothingForged(read: Unmarshaller, mac: ReplayChannel.Mac, key: string, sent: seq<Frame>, stream: seq<Byte>) {
    forall a, b :: 0 <= a <= b <= |stream| && read(stream[a..b]).Some? ==>
      CanonicalJson.WellFormed(CanonicalJson.Obj(read(stream[a..b]).value))
      && ReplayChannel.NotForged(mac, key, sent, read(stream[a..b]).value)
  }

  lemma RestNotForged(read: Unmarshaller, mac: ReplayChannel.Mac, key: string, sent: seq<Frame>, stream: seq<Byte>, k: nat)
    requires NothingForged(read, mac, key, sent, stream) && k <= |stream|
    ensures NothingForged(read, mac, key, sent, stream[k..])
  {
    hide ReplayChannel.NotForged, CanonicalJson.WellFormed;
    var rest := stream[k..];
    forall a, b | 0 <= a <= b <= |rest| && read(rest[a..b]).Some?
      ensures CanonicalJson.WellFormed(CanonicalJson.Obj(read(rest[a..b]).value))
      ensures ReplayChannel.NotForged(mac, key, sent, read(rest[a..b]).value)
    {
      assert rest[a..b] == stream[k + a..k + b];
    }
  }

  /** The bodies are those of the frames sent from number `n` on, as they are read. */
  ghost predicate ReadAsSent(read: Unmarshaller, bodies: seq<seq<Byte>>, sent: seq<Frame>, n: nat) {
    n + |bodies| <= |sent| && forall i :: 0 <= i < |bodies| ==> ReadAs(read, bodies[i], sent[n + i])
  }

  predicate ReadAs(read: Unmarshaller, body: seq<Byte>, sent: Frame) {
    read(body).Some? && CanonicalJson.Same(CanonicalJson.Obj(read(body).value), CanonicalJson.Obj(sent))
  }

  lemma ReadAsSentNext(read: Unmarshaller, body: seq<Byte>, bodies: seq<seq<Byte>>, sent: seq<Frame>, n: nat)
    requires n < |sent| && ReadAs(read, body, sent[n])
    requires ReadAsSent(read, bodies, sent, n + 1)
    ensures ReadAsSent(read, [body] + bodies, sent, n)
  {
    hide ReadAs;
    var all := [body] + bodies;
    forall i | 0 <= i < |all|
      ensures ReadAs(read, all[i], sent[n + i])
    {
      if i > 0 {
        assert all[i] == bodies[i - 1] && sent[n + i] == sent[n + 1 + (i - 1)];
      }
    }
  }

  /** The frame of a body, where the hub's decoder finds one. */
  function HubFrame(decode: Decoder, body: seq<Byte>): Option<Frame> {
    match decode(body)
    case Object(frame) => Some(frame)
    case _ => None
  }

  function HubReader(decode: Decoder): (read: Unmarshaller)
    ensures forall body :: read(body) == HubFrame(decode, body)
  {
    body => HubFrame(decode, body)
  }

  function AgentReader(unmarshal: Unmarshaller): (read: Unmarshaller)
    ensures forall body :: read(body) == AgentFrame(unmarshal, body)
  {
    body => AgentFrame(unmarshal, body)
  }

  function Bodies(replies: seq<Reply>): seq<seq<Byte>> {
    if replies == [] then []
    else (if replies[0].Dispatched? then [replies[0].body] else []) + Bodies(replies[1..])
  }

  /** Whatever bytes arrive on a protected connection, as long as no code in them
      is forged: what the hub dispatches are the first of the frames the agent
      stamped, in order and unaltered, and it answers nothing else. */
  lemma DispatchedIsPrefixOfSent(decode: Decoder, mac: ReplayChannel.Mac, key: string, c: ReplayChannel.Channel, stream: seq<Byte>)
    requires ReplayChannel.Injective(mac, key) && ReplayChannel.Numbering(mac, key, c)
    requires NothingForged(HubReader(decode), mac, key, c.sent, stream)
    ensures var replies := Serves(decode, Protected(mac, key, 1), stream).replies;
            && |Bodies(replies)| == |replies|
            && ReadAsSent(HubReader(decode), Bodies(replies), c.sent, 0)
  {
    hide *;
    DispatchedFrom(decode, HubReader(decode), mac, key, c, 0, stream);
  }

  lemma {:induction false} DispatchedFrom(decode: Decoder, read: Unmarshaller, mac: ReplayChannel.Mac, key: string,
                                          c: ReplayChannel.Channel, n: nat, stream: seq<Byte>)
    requires forall body :: read(body) == HubFrame(decode, body)
    requires ReplayChannel.Injective(mac, key) && ReplayChannel.Numbering(mac, key, c)
    requires n <= |c.sent| && forall i :: 0 <= i < n ==> c.numbers[i] == i + 1
    requires NothingForged(read, mac, key, c.sent, stream)
    ensures var replies := Serves(decode, Protected(mac, key, n + 1), stream).replies;
            && |Bodies(replies)| == |replies|
            && ReadAsSent(read, Bodies(replies), c.sent, n)
    decreases |stream|
  {
    hide ReplayChannel.Injective, ReplayChannel.Numbering, NothingForged, ReadAs, ReplayChannel.Checks;
    var (m, rest) := NextMessage(decode, stream);
    if m.Received? && Lets(ReplayChannel.Hub, Protected(mac, key, n + 1), m.frame) {
      var from := HEADER_LEN + |m.body|;
      NextIsSlice(decode, stream);
      SliceIsSent(read, mac, key, c, n, stream, HEADER_LEN, from);
      RestNotForged(read, mac, key, c.sent, stream, from);
      DispatchedFrom(decode, read, mac, key, c, n + 1, rest);
      var later := Serves(decode, Protected(mac, key, n + 2), rest).replies;
      assert ([Dispatched(m.body)] + later)[1..] == later;
      ReadAsSentNext(read, m.body, Bodies(later), c.sent, n);
    }
  }

  lemma NextIsSlice(decode: Decoder, stream: seq<Byte>)
    requires NextMessage(decode, stream).0.Received?
    ensures var (m, rest) := NextMessage(decode, stream);
            && HEADER_LEN + |m.body| <= |stream|
            && m.body == stream[HEADER_LEN..HEADER_LEN + |m.body|] && rest == stream[HEADER_LEN + |m.body|..]
            && HubFrame(decode, m.body) == Some(m.frame)
  {
  }

  lemma SliceIsSent(read: Unmarshaller, mac: ReplayChannel.Mac, key: string, c: ReplayChannel.Channel, n: nat,
                    stream: seq<Byte>, a: nat, b: nat)
    requires a <= b <= |stream| && read(stream[a..b]).Some?
    requires ReplayChannel.Injective(mac, key) && ReplayChannel.Numbering(mac, key, c)
    requires n <= |c.sent| && forall i :: 0 <= i < n ==> c.numbers[i] == i + 1
    requires NothingForged(read, mac, key, c.sent, stream)
    requires ReplayChannel.Checks(ReplayChannel.Hub, mac, key, n + 1, read(stream[a..b]).value)
          || ReplayChannel.Checks(ReplayChannel.Agent, mac, key, n + 1, read(stream[a..b]).value)
    ensures n < |c.sent| && c.numbers[n] == n + 1 && ReadAs(read, stream[a..b], c.sent[n])
  {
    hide ReplayChannel.Injective, ReplayChannel.Numbering, ReplayChannel.NotForged, ReplayChannel.Checks,
      CanonicalJson.WellFormed, CanonicalJson.Same;
    var frame := read(stream[a..b]).value;
    if ReplayChannel.Checks(ReplayChannel.Hub, mac, key, n + 1, frame) {
      ReplayChannel.CheckedIsNext(ReplayChannel.Hub, mac, key, c, n, frame);
    } else {
      ReplayChannel.CheckedIsNext(ReplayChannel.Agent, mac, key, c, n, frame);
    }
  }

  /** The same for the agent: what it acts on are the first of the frames the hub
      stamped, in order and unaltered. */
  lemma ActedOnIsPrefixOfSent(unmarshal: Unmarshaller, mac: ReplayChannel.Mac, key: string, c: ReplayChannel.Channel, stream: seq<Byte>)
    requires ReplayChannel.Injective(mac, key) && ReplayChannel.Numbering(mac, key, c)
    requires NothingForged(AgentReader(unmarshal), mac, key, c.sent, stream)
    ensures ReadAsSent(AgentReader(unmarshal), AgentServes(unmarshal, Protected(mac, key, 1), stream), c.sent, 0)
  {
    hide *;
    ActedOnFrom(unmarshal, AgentReader(unmarshal), mac, key, c, 0, stream);
  }

  lemma {:induction false} ActedOnFrom(unmarshal: Unmarshaller, read: Unmarshaller, mac: ReplayChannel.Mac, key: string,
                                       c: ReplayChannel.Channel, n: nat, stream: seq<Byte>)
    requires forall body :: read(body) == AgentFrame(unmarshal, body)
    requires ReplayChannel.Injective(mac, key) && ReplayChannel.Numbering(mac, key, c)
    requires n <= |c.sent| && forall i :: 0 <= i < n ==> c.numbers[i] == i + 1
    requires NothingForged(read, mac, key, c.sent, stream)
    ensures ReadAsSent(read, AgentServes(unmarshal, Protected(mac, key, n + 1), stream), c.sent, n)
    decreases |stream|
  {
    hide ReplayChannel.Injective, ReplayChannel.Numbering, NothingForged, ReadAs, ReplayChannel.Checks, AgentFrame;
    var (m, rest) := NextForAgent(unmarshal, stream);
    if m.Some? && Lets(ReplayChannel.Agent, Protected(mac, key, n + 1), m.value.1) {
      var from := HEADER_LEN + |m.value.0|;
      NextForAgentIsSlice(unmarshal, stream);
      SliceIsSent(read, mac, key, c, n, stream, HEADER_LEN, from);
      RestNotForged(read, mac, key, c.sent, stream, from);
      ActedOnFrom(unmarshal, read, mac, key, c, n + 1, rest);
      ReadAsSentNext(read, m.value.0, AgentServes(unmarshal, Protected(mac, key, n + 2), rest), c.sent, n);
    }
  }

  lemma NextForAgentIsSlice(unmarshal: Unmarshaller, stream: seq<Byte>)
    requires NextForAgent(unmarshal, stream).0.Some?
    ensures var (m, rest) := NextForAgent(unmarshal, stream);
            var body := m.value.0;
            && HEADER_LEN + |body| <= |stream|
            && body == stream[HEADER_LEN..HEADER_LEN + |body|] && rest == stream[HEADER_LEN + |body|..]
            && AgentFrame(unmarshal, body) == Some(m.value.1)
  {
  }

  // ---- One frame, case by case --------------------------------------------

  /** The most significant byte comes first. */
  lemma HeaderIsBigEndian(n: nat)
    requires n < TWO_TO_32
    ensures var h := Header(n);
            |h| == 4 && n == h[0] as int * 16777216 + h[1] as int * 65536 + h[2] as int * 256 + h[3] as int
  {
    HeaderRoundTrip(n);
  }

  function Then(r: Reply, s: Served): Served {
    Served([r] + s.replies, s.end)
  }

  /** What the hub does with each kind of frame, and which end an unwelcome one
      brings about. */
  lemma ServeOneSpelled(decode: Decoder, g: Guard, payload: seq<Byte>, tail: seq<Byte>)
    requires |payload| < TWO_TO_32
    ensures Serves(decode, g, Encoded(payload).value + tail) ==
            if |payload| > 1048576 then
              if g.Protected? then Served([], ClosedFailClosed)
              else if |payload| > 16777216 then Served([], DrainCapExceeded)
              else Then(TooLarge(|payload|), Serves(decode, g, tail))
            else
              match decode(payload)
              case NotText => Served([], HandlerFailed)
              case NotJson => if g.Protected? then Served([], ClosedFailClosed) else Then(ProtocolError, Serves(decode, g, tail))
              case NotObject => if g.Protected? then Served([], ClosedFailClosed) else Then(ProtocolError, Serves(decode, g, tail))
              case Object(frame) =>
                if g.Protected? && !(ReplayChannel.Get(frame, "seq") == Some(CanonicalJson.Int(g.expected))
                                     && ReplayChannel.MacMatches(g.mac, g.key, frame))
                then Served([], ReplayRejected)
                else Then(Dispatched(payload),
                          Serves(decode, if g.Protected? then Protected(g.mac, g.key, g.expected + 1) else g, tail))
  {
    hide ReplayChannel.MacMatches, ReplayChannel.Get;
    NextOfFramed(decode, payload, tail);
    assert (payload + tail)[|payload|..] == tail;
  }

  /** A frame that is cut off answers nothing, and ends the connection. */
  lemma CutOffEnds(decode: Decoder, g: Guard, payload: seq<Byte>, k: nat)
    requires |payload| < TWO_TO_32 && k < 4 + |payload|
    ensures Serves(decode, g, Encoded(payload).value[..k]) ==
            if k < 4 || |payload| <= 1048576 then Served([], ConnectionLost)
            else if g.Protected? then Served([], ClosedFailClosed)
            else if |payload| > 16777216 then Served([], DrainCapExceeded)
            else Served([], HandlerFailed)
  {
    var stream := Encoded(payload).value[..k];
    HeaderRoundTrip(|payload|);
    if k >= 4 {
      assert stream[..HEADER_LEN] == Header(|payload|);
    }
  }
}
