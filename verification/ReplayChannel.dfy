/** Replay protection on one connection and one direction: stamping, checking,
    and what an unreliable and hostile channel can make the receiver accept. */
module ReplayChannel {
  import opened Wrappers
  import opened CanonicalJson

  /** HMAC-SHA-256 of a text under a key, as a hex string. */
  type Mac = (string, string) -> string

  ghost predicate Injective(mac: Mac, key: string) {
    forall a, b :: mac(key, a) == mac(key, b) ==> a == b
  }

  // ---- Dictionary access --------------------------------------------------

  function Get(frame: Frame, key: string): Option<Value> {
    var i := IndexOf(frame, key);
    if i < |frame| then Some(frame[i].1) else None
  }

  /** Assignment keeps the place of a key that is already there. */
  function Put(frame: Frame, key: string, v: Value): Frame {
    var i := IndexOf(frame, key);
    if i < |frame| then frame[i := (key, v)] else frame + [(key, v)]
  }

  lemma {:induction false} IndexOfUnique<V>(fields: seq<(string, V)>, key: string, i: nat)
    requires DistinctKeys(fields) && i < |fields| && fields[i].0 == key
    ensures IndexOf(fields, key) == i
  {
  }

  lemma PutKeeps(frame: Frame, key: string, v: Value)
    requires WellFormed(Obj(frame)) && WellFormed(v)
    ensures WellFormed(Obj(Put(frame, key, v)))
    ensures Get(Put(frame, key, v), key) == Some(v)
    ensures forall k :: k != key ==> Get(Put(frame, key, v), k) == Get(frame, k)
  {
    var r := Put(frame, key, v);
    assert forall i :: 0 <= i < |r| ==> WellFormedField(r[i]);
    assert DistinctKeys(r);
    var at := IndexOf(frame, key);
    assert r[at] == (key, v);
    IndexOfUnique(r, key, at);
    forall k | k != key
      ensures Get(r, k) == Get(frame, k)
    {
      var i, j := IndexOf(frame, k), IndexOf(r, k);
      if i < |frame| {
        assert r[i] == frame[i];
        IndexOfUnique(r, k, i);
      }
    }
  }

  lemma {:induction false} GetWithout(frame: Frame, key: string, k: string)
    ensures Get(Without(frame, key), k) == if k == key then None else Get(frame, k)
  {
    if frame != [] {
      GetWithout(frame[1..], key, k);
    }
  }

  // ---- One session --------------------------------------------------------

  function MacOf(mac: Mac, key: string, frame: Frame): string {
    mac(key, CanonicalText(frame))
  }

  function Numbered(frame: Frame, n: nat): Frame {
    Put(Without(frame, "mac"), "seq", Int(n))
  }

  function Stamped(mac: Mac, key: string, frame: Frame, n: nat): Frame {
    Put(Numbered(frame, n), "mac", Str(MacOf(mac, key, Numbered(frame, n))))
  }

  predicate MacMatches(mac: Mac, key: string, frame: Frame) {
    var m := Get(frame, "mac");
    m.Some? && m.value.Str? && m.value.s == MacOf(mac, key, frame)
  }

  /** The hub's check: `seq` must be an integer, and the expected one. */
  predicate Verifies(mac: Mac, key: string, expected: nat, frame: Frame) {
    Get(frame, "seq") == Some(Int(expected)) && MacMatches(mac, key, frame)
  }

  // ---- What the agent's JSON decoder makes of a frame ---------------------

  const TWO_TO_53: nat := 9007199254740992

  /** The spacing of float64 values around `n`. */
  function Ulp(n: nat): (u: nat)
    ensures u >= 1
  {
    if n < TWO_TO_53 then 1 else 2 * Ulp(n / 2)
  }

  /** The float64 nearest to `n`, ties to the even significand. */
  function Float64(n: nat): nat {
    var u := Ulp(n);
    var q, r := n / u, n % u;
    if 2 * r < u || (2 * r == u && q % 2 == 0) then q * u else (q + 1) * u
  }

  lemma Float64Exact(n: nat)
    requires n <= TWO_TO_53
    ensures Float64(n) == n
  {
    if n == TWO_TO_53 {
      assert Ulp(n) == 2;
    }
  }

  /** No number comes out as the first that float64 cannot hold. */
  lemma Float64Misses(n: nat)
    ensures Float64(n) != TWO_TO_53 + 1
  {
    if n < TWO_TO_53 {
      assert Float64(n) == n;
    } else {
      var h := Ulp(n / 2);
      assert Ulp(n) == 2 * h;
      EvenProduct(n / Ulp(n), h);
      EvenProduct(n / Ulp(n) + 1, h);
    }
  }

  lemma EvenProduct(q: nat, h: nat)
    ensures (q * (2 * h)) % 2 == 0
  {
    assert q * (2 * h) == 2 * (q * h);
  }

  function FloatOf(n: int): int {
    if n < 0 then 0 - Float64(-n) else Float64(n)
  }

  /** How often a number must be halved to be below 2^53. */
  function Halvings(n: nat): nat {
    if n < TWO_TO_53 then 0 else 1 + Halvings(n / 2)
  }

  const MAX_HALVINGS := 971

  /** Whether a number is one of float64, or rounds to one, rather than overflow. */
  predicate FitsFloat(n: int) {
    Halvings(Float64(if n < 0 then -n else n)) <= MAX_HALVINGS
  }

  /** Every number of the value can be decoded as a float64. */
  predicate InRange(v: Value) {
    match v
    case Int(n) => FitsFloat(n)
    case Whole(n) => FitsFloat(n)
    case NonFinite(_) => false
    case Arr(items) => forall i :: 0 <= i < |items| ==> InRange(items[i])
    case Obj(fields) => forall i :: 0 <= i < |fields| ==> InRangeField(fields[i])
    case _ => true
  }

  predicate InRangeField(field: (string, Value)) {
    InRange(field.1)
  }

  /** Decoding turns every number into a float64. */
  function Floated(v: Value): Value {
    match v
    case Int(n) => Whole(FloatOf(n))
    case Whole(n) => Whole(FloatOf(n))
    case Arr(items) => Arr(FloatedItems(items))
    case Obj(fields) => Obj(FloatedFields(fields))
    case _ => v
  }

  function FloatedItems(items: seq<Value>): (r: seq<Value>)
    ensures |r| == |items|
    ensures forall i :: 0 <= i < |items| ==> r[i] == Floated(items[i])
  {
    if items == [] then [] else [Floated(items[0])] + FloatedItems(items[1..])
  }

  function FloatedField(field: (string, Value)): (string, Value) {
    (field.0, Floated(field.1))
  }

  function FloatedFields(fields: seq<(string, Value)>): (r: seq<(string, Value)>)
    ensures |r| == |fields|
    ensures forall i :: 0 <= i < |fields| ==> r[i] == FloatedField(fields[i])
  {
    if fields == [] then [] else [FloatedField(fields[0])] + FloatedFields(fields[1..])
  }

  /** Every number of the value is a float64 already. */
  predicate Kept(v: Value) {
    match v
    case Int(n) => FitsFloat(n) && FloatOf(n) == n
    case Whole(n) => FitsFloat(n) && FloatOf(n) == n
    case NonFinite(_) => false
    case Arr(items) => forall i :: 0 <= i < |items| ==> Kept(items[i])
    case Obj(fields) => forall i :: 0 <= i < |fields| ==> KeptField(fields[i])
    case _ => true
  }

  predicate KeptField(field: (string, Value)) {
    Kept(field.1)
  }

  lemma {:induction false} FloatedWellFormed(v: Value)
    requires WellFormed(v)
    ensures WellFormed(Floated(v))
    decreases v
  {
    match v
    case Arr(items) =>
      forall i | 0 <= i < |items|
        ensures WellFormed(FloatedItems(items)[i])
      {
        FloatedWellFormed(items[i]);
      }
    case Obj(fields) =>
      forall i | 0 <= i < |fields|
        ensures WellFormedField(FloatedFields(fields)[i])
      {
        FloatedFieldWellFormed(fields[i]);
      }
    case _ =>
  }

  lemma {:induction false} FloatedFieldWellFormed(field: (string, Value))
    requires WellFormedField(field)
    ensures WellFormedField(FloatedField(field))
    decreases field
  {
    FloatedWellFormed(field.1);
  }

  lemma {:induction false} FloatedIndex(fields: seq<(string, Value)>, key: string)
    ensures IndexOf(FloatedFields(fields), key) == IndexOf(fields, key)
  {
    if fields != [] {
      FloatedIndex(fields[1..], key);
      assert FloatedFields(fields)[1..] == FloatedFields(fields[1..]);
    }
  }

  lemma FloatedGet(frame: Frame, key: string)
    ensures Get(FloatedFields(frame), key) ==
            match Get(frame, key) case None => None case Some(v) => Some(Floated(v))
  {
    FloatedIndex(frame, key);
  }

  /** Decoding leaves a value the same exactly when its numbers are kept. */
  lemma {:induction false} FloatedSameIff(v: Value)
    requires WellFormed(v)
    ensures InRange(v) && Normal(Floated(v)) == Normal(v) <==> Kept(v)
    decreases v
  {
    match v
    case Arr(items) =>
      forall i | 0 <= i < |items|
        ensures InRange(items[i]) && Normal(Floated(items[i])) == Normal(items[i]) <==> Kept(items[i])
      {
        FloatedSameIff(items[i]);
      }
      var a, b := NormalItems(FloatedItems(items)), NormalItems(items);
      assert a == b <==> forall i :: 0 <= i < |items| ==> a[i] == b[i];
    case Obj(fields) =>
      forall i | 0 <= i < |fields|
        ensures InRangeField(fields[i]) && NormalField(FloatedField(fields[i])) == NormalField(fields[i]) <==> KeptField(fields[i])
      {
        FloatedFieldSameIff(fields[i]);
      }
      FloatedWellFormed(v);
      SortedAlikeIff(FloatedFields(fields), fields);
    case _ =>
  }

  lemma {:induction false} FloatedFieldSameIff(field: (string, Value))
    requires WellFormedField(field)
    ensures InRangeField(field) && NormalField(FloatedField(field)) == NormalField(field) <==> KeptField(field)
    decreases field
  {
    FloatedSameIff(field.1);
  }

  /** Dictionaries filled in the same order are sorted alike only if they are alike. */
  lemma SortedAlikeIff(a: seq<(string, Value)>, b: seq<(string, Value)>)
    requires DistinctKeys(a) && DistinctKeys(b) && |a| == |b|
    requires forall i :: 0 <= i < |a| ==> a[i].0 == b[i].0
    ensures Sort(NormalFields(a)) == Sort(NormalFields(b)) <==>
            forall i :: 0 <= i < |a| ==> NormalField(a[i]) == NormalField(b[i])
  {
    hide Sort;
    var x, y := NormalFields(a), NormalFields(b);
    NormalFieldsDistinct(a);
    NormalFieldsDistinct(b);
    SortsAlikeIff(x, y);
    if forall f :: f in x <==> f in y {
      forall i | 0 <= i < |a|
        ensures x[i] == y[i]
      {
        assert x[i] in x;
      }
    }
    if forall i :: 0 <= i < |a| ==> NormalField(a[i]) == NormalField(b[i]) {
      assert x == y;
    }
  }

  // ---- The checks ---------------------------------------------------------

  /** The integer part of a float that is not negative; with an exponent it is below one. */
  function Truncated(repr: Fraction): nat {
    if 'e' in repr then 0 else ValueOf(repr[..DigitRun(repr)])
  }

  /** What the agent's conversion of a decoded sequence number to an unsigned
      integer makes of it. Negative numbers come out as none that is ever expected. */
  function AgentNumber(v: Value): Option<nat> {
    match v
    case Whole(n) => if n >= 0 then Some(n) else None
    case Frac(repr) => Some(Truncated(repr))
    case _ => None
  }

  /** The agent's check of a decoded frame. */
  predicate AgentVerifies(mac: Mac, key: string, expected: nat, frame: Frame) {
    var n := Get(frame, "seq");
    n.Some? && AgentNumber(n.value) == Some(expected) && MacMatches(mac, key, frame)
  }

  datatype Receiver = Hub | Agent

  /** A frame as the receiver's decoder hands it over, if it does. */
  function AsRead(receiver: Receiver, frame: Frame): Option<Frame> {
    match receiver
    case Hub => Some(frame)
    case Agent => if InRange(Obj(frame)) then Some(FloatedFields(frame)) else None
  }

  /** The receiver's check of what it has read. */
  predicate Checks(receiver: Receiver, mac: Mac, key: string, expected: nat, frame: Frame) {
    match receiver
    case Hub => Verifies(mac, key, expected, frame)
    case Agent => AgentVerifies(mac, key, expected, frame)
  }

  predicate Accepts(receiver: Receiver, mac: Mac, key: string, expected: nat, frame: Frame) {
    var read := AsRead(receiver, frame);
    read.Some? && Checks(receiver, mac, key, expected, read.value)
  }

  lemma AsReadWellFormed(receiver: Receiver, frame: Frame)
    requires WellFormed(Obj(frame)) && AsRead(receiver, frame).Some?
    ensures WellFormed(Obj(AsRead(receiver, frame).value))
  {
    FloatedWellFormed(Obj(frame));
  }

  class ReplaySession {
    const mac: Mac
    const key: string
    var sendSeq: nat
    var recvExpected: nat

    constructor (mac: Mac, key: string)
      ensures this.mac == mac && this.key == key && sendSeq == 0 && recvExpected == 1
    {
      this.mac, this.key := mac, key;
      sendSeq, recvExpected := 0, 1;
    }

    method Stamp(frame: Frame) returns (out: Frame)
      modifies this`sendSeq
      ensures sendSeq == old(sendSeq) + 1
      ensures out == Stamped(mac, key, frame, sendSeq)
    {
      sendSeq := sendSeq + 1;
      out := Without(frame, "mac");
      out := Put(out, "seq", Int(sendSeq));
      out := Put(out, "mac", Str(MacOf(mac, key, out)));
    }

    /** Advances the expected number only on success. */
    method Verify(frame: Frame) returns (ok: bool)
      modifies this`recvExpected
      ensures ok <==> Verifies(mac, key, old(recvExpected), frame)
      ensures recvExpected == if ok then old(recvExpected) + 1 else old(recvExpected)
    {
      var n := Get(frame, "seq");
      if n.None? || !n.value.Int? || n.value.n != recvExpected {
        return false;
      }
      var m := Get(frame, "mac");
      if m.None? || !m.value.Str? || m.value.s != MacOf(mac, key, frame) {
        return false;
      }
      recvExpected := recvExpected + 1;
      return true;
    }
  }

  /** The agent's end: what it expects next on a protected connection. Frames come
      from its decoder. */
  class AgentInbound {
    const mac: Mac
    const key: string
    var recvExpected: nat

    constructor (mac: Mac, key: string)
      ensures this.mac == mac && this.key == key && recvExpected == 1
    {
      this.mac, this.key, recvExpected := mac, key, 1;
    }

    method VerifyInbound(frame: Frame) returns (ok: bool)
      modifies this`recvExpected
      ensures ok <==> AgentVerifies(mac, key, old(recvExpected), frame)
      ensures recvExpected == if ok then old(recvExpected) + 1 else old(recvExpected)
    {
      var n := Get(frame, "seq");
      if n.None? || AgentNumber(n.value) != Some(recvExpected) {
        return false;
      }
      var m := Get(frame, "mac");
      if m.None? || !m.value.Str? || m.value.s != MacOf(mac, key, frame) {
        return false;
      }
      recvExpected := recvExpected + 1;
      return true;
    }
  }

  /** A stamped frame carries its number and a matching code. */
  lemma StampedVerifies(mac: Mac, key: string, frame: Frame, n: nat)
    requires WellFormed(Obj(frame))
    ensures var out := Stamped(mac, key, frame, n);
            WellFormed(Obj(out)) && Verifies(mac, key, n, out)
            && CanonicalText(out) == CanonicalText(Numbered(frame, n))
  {
    var bare := Without(frame, "mac");
    WithoutWellFormed(frame, "mac");
    PutKeeps(bare, "seq", Int(n));
    var numbered := Numbered(frame, n);
    var code := Str(MacOf(mac, key, numbered));
    PutKeeps(numbered, "mac", code);
    GetWithout(frame, "mac", "mac");
    PutThenWithout(numbered, "mac", code);
  }

  /** Adding a key and leaving it out again. */
  lemma PutThenWithout(frame: Frame, key: string, v: Value)
    requires Get(frame, key).None?
    ensures Without(Put(frame, key, v), key) == frame
    ensures Without(frame, key) == frame
  {
    WithoutAppended(frame, key, v);
  }

  lemma {:induction false} WithoutAppended(frame: Frame, key: string, v: Value)
    requires IndexOf(frame, key) == |frame|
    ensures Without(frame + [(key, v)], key) == frame && Without(frame, key) == frame
  {
    if frame == [] {
      assert Without([(key, v)][1..], key) == [];
    } else {
      assert frame[0].0 != key;
      assert (frame + [(key, v)])[1..] == frame[1..] + [(key, v)];
      WithoutAppended(frame[1..], key, v);
    }
  }

  // ---- The channel --------------------------------------------------------

  /** What can happen: a frame is stamped and written; a frame takes a number but
      cannot be encoded, so nothing is written; the channel delivers some frame. */
  datatype Event = Send(frame: Frame) | SendFails | Deliver(frame: Frame)

  datatype Channel = Channel(stamped: nat, sent: seq<Frame>, numbers: seq<nat>, open: bool, accepted: seq<Frame>)

  const FRESH := Channel(0, [], [], true, [])

  /** A frame whose code matches, as it is read, carries a code that the sender wrote. */
  ghost predicate NotForged(mac: Mac, key: string, sent: seq<Frame>, read: Frame) {
    MacMatches(mac, key, read) ==> exists i :: 0 <= i < |sent| && Get(sent[i], "mac") == Get(read, "mac")
  }

  /** The channel may drop, repeat, reorder and alter, but not forge. */
  ghost predicate Possible(receiver: Receiver, mac: Mac, key: string, c: Channel, e: Event) {
    match e
    case Send(frame) => WellFormed(Obj(frame))
    case SendFails => true
    case Deliver(frame) =>
      && WellFormed(Obj(frame))
      && (AsRead(receiver, frame).Some? ==> NotForged(mac, key, c.sent, AsRead(receiver, frame).value))
  }

  function After(receiver: Receiver, mac: Mac, key: string, c: Channel, e: Event): Channel {
    match e
    case Send(frame) =>
      c.(stamped := c.stamped + 1, sent := c.sent + [Stamped(mac, key, frame, c.stamped + 1)],
         numbers := c.numbers + [c.stamped + 1])
    case SendFails => c.(stamped := c.stamped + 1)
    case Deliver(frame) =>
      if c.open && Accepts(receiver, mac, key, |c.accepted| + 1, frame) then c.(accepted := c.accepted + [AsRead(receiver, frame).value])
      else c.(open := false)
  }

  function Run(receiver: Receiver, mac: Mac, key: string, events: seq<Event>): Channel {
    if events == [] then FRESH else After(receiver, mac, key, Run(receiver, mac, key, events[..|events| - 1]), events[|events| - 1])
  }

  ghost predicate PossibleRun(receiver: Receiver, mac: Mac, key: string, events: seq<Event>) {
    events == [] ||
    var n := |events| - 1;
    PossibleRun(receiver, mac, key, events[..n]) && Possible(receiver, mac, key, Run(receiver, mac, key, events[..n]), events[n])
  }

  /** The sender's side of the invariant. */
  ghost predicate Numbering(mac: Mac, key: string, c: Channel) {
    && |c.numbers| == |c.sent|
    && (forall i :: 0 <= i < |c.sent| ==>
          WellFormed(Obj(c.sent[i])) && Verifies(mac, key, c.numbers[i], c.sent[i])
          && i + 1 <= c.numbers[i] <= c.stamped)
    && (forall i, j :: 0 <= i < j < |c.sent| ==> c.numbers[i] < c.numbers[j])
  }

  /** The receiver's side: what was accepted is a prefix of what was sent, and the
      agent accepts no number that float64 cannot hold. */
  ghost predicate AcceptedPrefix(receiver: Receiver, c: Channel)
    requires |c.numbers| == |c.sent|
  {
    && |c.accepted| <= |c.sent|
    && (receiver.Agent? ==> |c.accepted| <= TWO_TO_53)
    && forall i :: 0 <= i < |c.accepted| ==> c.numbers[i] == i + 1 && Same(Obj(c.accepted[i]), Obj(c.sent[i]))
  }

  /** A frame whose code was written by the sender is the frame it was written for. */
  lemma CodeIdentifies(mac: Mac, key: string, f: Frame, g: Frame)
    requires Injective(mac, key)
    requires WellFormed(Obj(f)) && WellFormed(Obj(g))
    requires MacMatches(mac, key, f) && MacMatches(mac, key, g) && Get(f, "mac") == Get(g, "mac")
    ensures Same(Obj(f), Obj(g))
  {
    assert CanonicalText(f) == CanonicalText(g);
    FramesWithEqualText(f, g);
    SameWithMac(f, g);
  }

  lemma SameWithMac(f: Frame, g: Frame)
    requires WellFormed(Obj(f)) && WellFormed(Obj(g))
    requires Same(Obj(Without(f, "mac")), Obj(Without(g, "mac")))
    requires Get(f, "mac") == Get(g, "mac") && Get(f, "mac").Some? && Get(f, "mac").value.Str?
    ensures Same(Obj(f), Obj(g))
  {
    WithoutMembers(f, "mac");
    WithoutMembers(g, "mac");
    SameIffLookups(Without(f, "mac"), Without(g, "mac"));
    forall k
      ensures SameAt(f, g, k)
    {
      GetWithout(f, "mac", k);
      GetWithout(g, "mac", k);
      assert SameAt(Without(f, "mac"), Without(g, "mac"), k);
    }
    SameIffLookups(f, g);
  }

  /** The two frames agree on key `k`. */
  predicate SameAt(f: Frame, g: Frame, k: string) {
    var i, j := IndexOf(f, k), IndexOf(g, k);
    (i < |f| <==> j < |g|) && (i < |f| ==> SameField(f[i], g[j]))
  }

  lemma {:induction false} SameFieldAt(f: Frame, g: Frame, i: nat)
    requires SameFields(f, g) && i < |f|
    ensures var j := IndexOf(g, f[i].0); j < |g| && SameField(f[i], g[j])
  {
    if i > 0 {
      SameFieldAt(f[1..], g, i - 1);
    }
  }

  lemma {:induction false} KeyWithin(f: Frame, g: Frame, i: nat)
    requires KeysWithin(f, g) && i < |f|
    ensures IndexOf(g, f[i].0) < |g|
  {
    if i > 0 {
      KeyWithin(f[1..], g, i - 1);
    }
  }

  lemma SameLooksUp(f: Frame, g: Frame, k: string)
    requires Same(Obj(f), Obj(g))
    ensures SameAt(f, g, k)
  {
    var i, j := IndexOf(f, k), IndexOf(g, k);
    if i < |f| {
      SameFieldAt(f, g, i);
    }
    if j < |g| {
      KeyWithin(g, f, j);
    }
  }

  lemma {:induction false} LookupsAlike(g: Frame, h: Frame)
    requires forall i :: 0 <= i < |h| ==> var j := IndexOf(g, h[i].0); j < |g| && SameField(h[i], g[j])
    ensures SameFields(h, g)
  {
    if h != [] {
      assert var j := IndexOf(g, h[0].0); j < |g| && SameField(h[0], g[j]);
      forall i | 0 <= i < |h[1..]|
        ensures var j := IndexOf(g, h[1..][i].0); j < |g| && SameField(h[1..][i], g[j])
      {
        assert h[1..][i] == h[i + 1];
      }
      LookupsAlike(g, h[1..]);
    }
  }

  lemma {:induction false} KeysFound(f: Frame, g: Frame)
    requires forall i :: 0 <= i < |f| ==> IndexOf(g, f[i].0) < |g|
    ensures KeysWithin(f, g)
  {
    if f != [] {
      forall i | 0 <= i < |f[1..]|
        ensures IndexOf(g, f[1..][i].0) < |g|
      {
        assert f[1..][i] == f[i + 1];
      }
      KeysFound(f[1..], g);
    }
  }

  /** Frames are the same exactly when they agree on every key. */
  lemma SameIffLookups(f: Frame, g: Frame)
    requires DistinctKeys(f) && DistinctKeys(g)
    ensures Same(Obj(f), Obj(g)) <==> forall k :: SameAt(f, g, k)
  {
    if Same(Obj(f), Obj(g)) {
      forall k ensures SameAt(f, g, k) {
        SameLooksUp(f, g, k);
      }
    }
    if forall k :: SameAt(f, g, k) {
      forall i | 0 <= i < |f|
        ensures var j := IndexOf(g, f[i].0); j < |g| && SameField(f[i], g[j])
      {
        IndexOfUnique(f, f[i].0, i);
        assert SameAt(f, g, f[i].0);
      }
      forall j | 0 <= j < |g|
        ensures IndexOf(f, g[j].0) < |f|
      {
        IndexOfUnique(g, g[j].0, j);
        assert SameAt(f, g, g[j].0);
      }
      LookupsAlike(g, f);
      KeysFound(g, f);
    }
  }

  lemma SendKeeps(receiver: Receiver, mac: Mac, key: string, c: Channel, frame: Frame)
    requires Numbering(mac, key, c) && AcceptedPrefix(receiver, c)
    requires WellFormed(Obj(frame))
    ensures var d := After(receiver, mac, key, c, Send(frame)); Numbering(mac, key, d) && AcceptedPrefix(receiver, d)
  {
    hide Stamped, Verifies, Same, WellFormed;
    StampedVerifies(mac, key, frame, c.stamped + 1);
    var d := After(receiver, mac, key, c, Send(frame));
    assert forall i :: 0 <= i < |c.sent| ==> d.sent[i] == c.sent[i] && d.numbers[i] == c.numbers[i];
    assert |c.sent| == 0 || c.numbers[|c.sent| - 1] >= |c.sent|;
  }

  /** What passes the check for number `n + 1`, when the first `n` frames sent have
      the numbers up to `n`, is the next frame that was sent. */
  lemma CheckedIsNext(receiver: Receiver, mac: Mac, key: string, c: Channel, n: nat, read: Frame)
    requires Injective(mac, key) && Numbering(mac, key, c)
    requires n <= |c.sent| && forall i :: 0 <= i < n ==> c.numbers[i] == i + 1
    requires WellFormed(Obj(read)) && NotForged(mac, key, c.sent, read)
    requires Checks(receiver, mac, key, n + 1, read)
    ensures n < |c.sent| && c.numbers[n] == n + 1 && Same(Obj(read), Obj(c.sent[n]))
  {
    hide Same, WellFormed, Get, MacMatches;
    var i :| 0 <= i < |c.sent| && Get(c.sent[i], "mac") == Get(read, "mac");
    CodeIdentifies(mac, key, read, c.sent[i]);
    SameSeq(receiver, mac, key, read, c.sent[i], n + 1, c.numbers[i]);
    assert i == n;
  }

  lemma SameSeq(receiver: Receiver, mac: Mac, key: string, f: Frame, g: Frame, m: nat, n: nat)
    requires WellFormed(Obj(f)) && WellFormed(Obj(g))
    requires Same(Obj(f), Obj(g))
    requires Checks(receiver, mac, key, m, f) && Get(g, "seq") == Some(Int(n))
    ensures m == n
    ensures receiver.Agent? ==> Get(f, "seq") == Some(Whole(n))
  {
    SameLooksUp(f, g, "seq");
    assert SameField(f[IndexOf(f, "seq")], g[IndexOf(g, "seq")]);
    assert Same(Get(f, "seq").value, Int(n));
  }

  /** Whatever is accepted is the next frame that was sent. */
  lemma DeliverKeeps(receiver: Receiver, mac: Mac, key: string, c: Channel, frame: Frame)
    requires Injective(mac, key)
    requires Numbering(mac, key, c) && AcceptedPrefix(receiver, c)
    requires Possible(receiver, mac, key, c, Deliver(frame))
    ensures var d := After(receiver, mac, key, c, Deliver(frame)); Numbering(mac, key, d) && AcceptedPrefix(receiver, d)
  {
    hide Same, WellFormed, Get, MacMatches, AsRead, NotForged, Checks;
    var n := |c.accepted|;
    if c.open && Accepts(receiver, mac, key, n + 1, frame) {
      var read := AsRead(receiver, frame).value;
      AsReadWellFormed(receiver, frame);
      CheckedIsNext(receiver, mac, key, c, n, read);
      if receiver.Agent? {
        AcceptedNumberIsFloat(mac, key, n + 1, frame, c.sent[n]);
      }
    }
  }

  lemma AcceptedNumberIsFloat(mac: Mac, key: string, n: nat, frame: Frame, sent: Frame)
    requires WellFormed(Obj(frame)) && WellFormed(Obj(sent)) && Get(sent, "seq") == Some(Int(n))
    requires AsRead(Agent, frame).Some? && Same(Obj(AsRead(Agent, frame).value), Obj(sent))
    requires Checks(Agent, mac, key, n, AsRead(Agent, frame).value)
    ensures n != TWO_TO_53 + 1
  {
    hide Same, WellFormed, MacMatches, FloatedFields, InRange, Float64;
    AsReadWellFormed(Agent, frame);
    SameSeq(Agent, mac, key, AsRead(Agent, frame).value, sent, n, n);
    FloatedGet(frame, "seq");
    var v := Get(frame, "seq").value;
    if v.Int? || v.Whole? {
      Float64Misses(if v.n < 0 then -v.n else v.n);
    }
  }

  lemma {:induction false} RunKeeps(receiver: Receiver, mac: Mac, key: string, events: seq<Event>)
    requires Injective(mac, key) && PossibleRun(receiver, mac, key, events)
    ensures var c := Run(receiver, mac, key, events); Numbering(mac, key, c) && AcceptedPrefix(receiver, c)
  {
    if events != [] {
      var n := |events| - 1;
      var before := events[..n];
      RunKeeps(receiver, mac, key, before);
      var c := Run(receiver, mac, key, before);
      match events[n]
      case Send(frame) => SendKeeps(receiver, mac, key, c, frame);
      case SendFails =>
      case Deliver(frame) => DeliverKeeps(receiver, mac, key, c, frame);
    }
  }

  /** Over a channel that drops, repeats, reorders and alters frames but cannot
      forge a code, the accepted frames are a prefix of the sent ones, in order
      and unaltered. */
  lemma AcceptedIsPrefixOfSent(receiver: Receiver, mac: Mac, key: string, events: seq<Event>)
    requires Injective(mac, key) && PossibleRun(receiver, mac, key, events)
    ensures var c := Run(receiver, mac, key, events);
            |c.accepted| <= |c.sent| && forall i :: 0 <= i < |c.accepted| ==> Same(Obj(c.accepted[i]), Obj(c.sent[i]))
  {
    RunKeeps(receiver, mac, key, events);
  }

  /** The agent accepts no frame numbered beyond 2^53, whatever the channel delivers. */
  lemma AgentNeverPasses(mac: Mac, key: string, events: seq<Event>)
    requires Injective(mac, key) && PossibleRun(Agent, mac, key, events)
    ensures |Run(Agent, mac, key, events).accepted| <= TWO_TO_53
  {
    RunKeeps(Agent, mac, key, events);
  }

  /** A number the hub took for a frame it could not encode is never made good:
      nothing sent afterwards is accepted. */
  lemma NothingAcceptedAfterAGap(receiver: Receiver, mac: Mac, key: string, events: seq<Event>, k: nat)
    requires Injective(mac, key) && PossibleRun(receiver, mac, key, events)
    requires k < |events| && events[k].SendFails?
    ensures |Run(receiver, mac, key, events).accepted| <= |Run(receiver, mac, key, events[..k]).sent|
  {
    RunKeeps(receiver, mac, key, events);
    var c := Run(receiver, mac, key, events);
    var m := |Run(receiver, mac, key, events[..k]).sent|;
    if |c.accepted| > m {
      assert c.numbers[m] == m + 1;
      GapAfter(receiver, mac, key, events, k);
      assert false;
    }
  }

  lemma {:induction false} SentGrows(receiver: Receiver, mac: Mac, key: string, events: seq<Event>)
    ensures var c := Run(receiver, mac, key, events); |c.sent| == |c.numbers| && |c.sent| <= c.stamped
  {
    if events != [] {
      SentGrows(receiver, mac, key, events[..|events| - 1]);
    }
  }

  lemma {:induction false} GapAfter(receiver: Receiver, mac: Mac, key: string, events: seq<Event>, k: nat)
    requires k < |events| && events[k].SendFails?
    ensures var c, b := Run(receiver, mac, key, events), Run(receiver, mac, key, events[..k]);
            && |b.sent| <= |c.sent| == |c.numbers|
            && c.stamped > |c.sent|
            && forall i :: |b.sent| <= i < |c.numbers| ==> c.numbers[i] > i + 1
  {
    hide Stamped, Verifies;
    var n := |events| - 1;
    if k == n {
      assert events[..k] == events[..n];
      SentGrows(receiver, mac, key, events[..n]);
    } else {
      GapAfter(receiver, mac, key, events[..n], k);
      assert events[..n][..k] == events[..k];
    }
  }

  // ---- When a stamped frame is accepted -----------------------------------

  /** Every number in the frame, but for what stamping replaces, is a float64. */
  predicate Carries(frame: Frame) {
    forall i :: 0 <= i < |frame| ==> frame[i].0 == "mac" || frame[i].0 == "seq" || KeptField(frame[i])
  }

  /** The agent's decoder leaves the frame and its number as they are. */
  predicate Fits(receiver: Receiver, frame: Frame, n: nat) {
    receiver.Agent? ==> Carries(frame) && Kept(Int(n))
  }

  lemma PutMembers(frame: Frame, key: string, v: Value)
    requires DistinctKeys(frame)
    ensures DistinctKeys(Put(frame, key, v))
    ensures forall f :: f in Put(frame, key, v) <==> f == (key, v) || (f in frame && f.0 != key)
  {
    var r, at := Put(frame, key, v), IndexOf(frame, key);
    assert r[at] == (key, v);
    forall f | f in frame && f.0 != key
      ensures f in r
    {
      var i :| 0 <= i < |frame| && frame[i] == f;
      assert r[i] == f;
    }
    forall f | f in r
      ensures f == (key, v) || (f in frame && f.0 != key)
    {
      var i :| 0 <= i < |r| && r[i] == f;
      if i != at {
        assert r[i] == frame[i];
      }
    }
  }

  lemma StampedMembers(mac: Mac, key: string, frame: Frame, n: nat)
    requires DistinctKeys(frame)
    ensures var code := Str(MacOf(mac, key, Numbered(frame, n)));
            forall f :: f in Stamped(mac, key, frame, n) <==>
              f == ("mac", code) || f == ("seq", Int(n)) || (f in frame && f.0 != "mac" && f.0 != "seq")
  {
    WithoutMembers(frame, "mac");
    PutMembers(Without(frame, "mac"), "seq", Int(n));
    PutMembers(Numbered(frame, n), "mac", Str(MacOf(mac, key, Numbered(frame, n))));
  }

  lemma StampedKeptIff(mac: Mac, key: string, frame: Frame, n: nat)
    requires DistinctKeys(frame)
    ensures Kept(Obj(Stamped(mac, key, frame, n))) <==> Carries(frame) && Kept(Int(n))
  {
    hide Stamped, MacOf, Numbered;
    var out := Stamped(mac, key, frame, n);
    StampedMembers(mac, key, frame, n);
    KeptIffMembers(out);
    if Kept(Obj(out)) {
      assert ("seq", Int(n)) in out && KeptField(("seq", Int(n)));
      forall i | 0 <= i < |frame| && frame[i].0 != "mac" && frame[i].0 != "seq"
        ensures KeptField(frame[i])
      {
        assert frame[i] in out;
      }
    }
    if Carries(frame) && Kept(Int(n)) {
      forall f | f in out
        ensures KeptField(f)
      {
        if f in frame && f.0 != "mac" && f.0 != "seq" {
          var i :| 0 <= i < |frame| && frame[i] == f;
        }
      }
    }
  }

  lemma KeptIffMembers(fields: Frame)
    ensures Kept(Obj(fields)) <==> forall f :: f in fields ==> KeptField(f)
  {
    hide KeptField;
    if forall f :: f in fields ==> KeptField(f) {
      forall i | 0 <= i < |fields|
        ensures KeptField(fields[i])
      {
        assert fields[i] in fields;
      }
    }
  }

  /** A stamped frame is accepted under its own number exactly when the receiver's
      decoder leaves it as it is. */
  lemma StampedIsAcceptedIff(receiver: Receiver, mac: Mac, key: string, frame: Frame, n: nat)
    requires Injective(mac, key) && WellFormed(Obj(frame))
    ensures Accepts(receiver, mac, key, n, Stamped(mac, key, frame, n)) <==> Fits(receiver, frame, n)
  {
    hide Stamped, WellFormed, Injective, Kept, Carries, Verifies, AgentVerifies, InRange, FloatedFields;
    assert WellFormed(Obj(frame));
    Distinct(frame);
    StampedVerifies(mac, key, frame, n);
    if receiver.Agent? {
      StampedKeptIff(mac, key, frame, n);
      DecodedIsAcceptedIff(mac, key, Stamped(mac, key, frame, n), n);
      assert Fits(receiver, frame, n) <==> Carries(frame) && Kept(Int(n));
    } else {
      assert AsRead(receiver, Stamped(mac, key, frame, n)) == Some(Stamped(mac, key, frame, n));
      assert Checks(receiver, mac, key, n, Stamped(mac, key, frame, n));
    }
  }

  lemma DecodedIsAcceptedIff(mac: Mac, key: string, out: Frame, n: nat)
    requires Injective(mac, key) && WellFormed(Obj(out)) && Verifies(mac, key, n, out)
    ensures Accepts(Agent, mac, key, n, out) <==> Kept(Obj(out))
  {
    hide InRange, Kept, Floated, FloatedFields, WellFormed, Same, CanonicalText, Normal, FitsFloat, FloatOf;
    if InRange(Obj(out)) {
      var read := FloatedFields(out);
      FloatedObj(out);
      FloatedWellFormed(Obj(out));
      FloatedSameIff(Obj(out));
      NormalIffSame(Obj(read), Obj(out));
      FloatedGet(out, "seq");
      FloatedGet(out, "mac");
      FloatedStr(Get(out, "mac").value.s);
      FloatedInt(n);
      MacsAlikeIff(mac, key, read, out);
      if Same(Obj(read), Obj(out)) {
        SameSeqIs(read, out, n);
      }
    } else if Kept(Obj(out)) {
      KeptInRange(Obj(out));
      assert false;
    }
  }

  lemma FloatedObj(fields: Frame)
    ensures Floated(Obj(fields)) == Obj(FloatedFields(fields))
  {
  }

  lemma FloatedStr(s: string)
    ensures Floated(Str(s)) == Str(s)
  {
  }

  lemma FloatedInt(n: nat)
    ensures Floated(Int(n)) == Whole(FloatOf(n)) && FloatOf(n) >= 0
  {
  }

  lemma KeptInRange(v: Value)
    requires WellFormed(v) && Kept(v)
    ensures InRange(v)
  {
    FloatedSameIff(v);
  }

  /** With one code on both, that code matches both frames exactly when they are
      the same. */
  lemma MacsAlikeIff(mac: Mac, key: string, f: Frame, g: Frame)
    requires Injective(mac, key) && WellFormed(Obj(f)) && WellFormed(Obj(g))
    requires Get(f, "mac") == Get(g, "mac") && MacMatches(mac, key, g)
    ensures MacMatches(mac, key, f) <==> Same(Obj(f), Obj(g))
  {
    hide Same, WellFormed, CanonicalText;
    if MacMatches(mac, key, f) {
      CodeIdentifies(mac, key, f, g);
    }
    if Same(Obj(f), Obj(g)) {
      SameWithoutMac(f, g);
      FramesWithEqualText(f, g);
    }
  }

  lemma SameWithoutMac(f: Frame, g: Frame)
    requires WellFormed(Obj(f)) && WellFormed(Obj(g)) && Same(Obj(f), Obj(g))
    ensures Same(Obj(Without(f, "mac")), Obj(Without(g, "mac")))
  {
    hide Same, WellFormed;
    WithoutWellFormed(f, "mac");
    WithoutWellFormed(g, "mac");
    Distinct(f);
    Distinct(g);
    Distinct(Without(f, "mac"));
    Distinct(Without(g, "mac"));
    SameIffLookups(f, g);
    forall k
      ensures SameAt(Without(f, "mac"), Without(g, "mac"), k)
    {
      GetWithout(f, "mac", k);
      GetWithout(g, "mac", k);
      assert SameAt(f, g, k);
    }
    SameIffLookups(Without(f, "mac"), Without(g, "mac"));
  }

  lemma Distinct(frame: Frame)
    requires WellFormed(Obj(frame))
    ensures DistinctKeys(frame)
  {
  }

  lemma SameSeqIs(f: Frame, g: Frame, n: nat)
    requires Same(Obj(f), Obj(g)) && Get(g, "seq") == Some(Int(n))
    requires Get(f, "seq") == Some(Whole(FloatOf(n)))
    ensures FloatOf(n) == n
  {
    SameLooksUp(f, g, "seq");
    assert SameField(f[IndexOf(f, "seq")], g[IndexOf(g, "seq")]);
    assert Same(Get(f, "seq").value, Int(n));
  }

  /** A stamped frame is refused under any other number. */
  lemma NotTakenForAnother(receiver: Receiver, mac: Mac, key: string, frame: Frame, m: nat, n: nat)
    requires Injective(mac, key) && WellFormed(Obj(frame)) && m != n
    ensures !Accepts(receiver, mac, key, m, Stamped(mac, key, frame, n))
  {
    hide Stamped, WellFormed, Same, AsRead, Get;
    StampedVerifies(mac, key, frame, n);
    var out := Stamped(mac, key, frame, n);
    if Accepts(receiver, mac, key, m, out) {
      var read := AsRead(receiver, out).value;
      AsReadWellFormed(receiver, out);
      CodeStays(receiver, out);
      MacsAlikeIff(mac, key, read, out);
      SameSeq(receiver, mac, key, read, out, m, n);
      assert false;
    }
  }

  lemma CodeStays(receiver: Receiver, frame: Frame)
    requires AsRead(receiver, frame).Some? && Get(frame, "mac").Some? && Get(frame, "mac").value.Str?
    ensures Get(AsRead(receiver, frame).value, "mac") == Get(frame, "mac")
  {
    FloatedGet(frame, "mac");
  }

  // ---- Faithful channels --------------------------------------------------

  /** The receiver has accepted all that was sent, as it reads it, and is still
      listening; every number that was taken has been sent. */
  predicate InStep(receiver: Receiver, c: Channel) {
    && c.open && |c.accepted| == |c.sent| == c.stamped
    && forall i :: 0 <= i < |c.sent| ==> AsRead(receiver, c.sent[i]) == Some(c.accepted[i])
  }

  /** What the sender is given to send: a frame, or one that cannot be encoded. */
  type Turn = Option<Frame>

  function Frames(frames: seq<Frame>): (turns: seq<Turn>)
    ensures |turns| == |frames| && forall i :: 0 <= i < |frames| ==> turns[i] == Some(frames[i])
  {
    seq(|frames|, i requires 0 <= i < |frames| => Some(frames[i]))
  }

  /** Each frame is sent and then delivered as it is. */
  function AfterTurn(receiver: Receiver, mac: Mac, key: string, c: Channel, turn: Turn): Channel {
    match turn
    case None => After(receiver, mac, key, c, SendFails)
    case Some(frame) =>
      var d := After(receiver, mac, key, c, Send(frame));
      After(receiver, mac, key, d, Deliver(d.sent[|d.sent| - 1]))
  }

  function Faithful(receiver: Receiver, mac: Mac, key: string, c: Channel, turns: seq<Turn>): Channel
    decreases |turns|
  {
    if turns == [] then c else Faithful(receiver, mac, key, AfterTurn(receiver, mac, key, c, turns[0]), turns[1..])
  }

  predicate WellFormedTurns(turns: seq<Turn>) {
    forall i :: 0 <= i < |turns| && turns[i].Some? ==> WellFormed(Obj(turns[i].value))
  }

  /** A frame that cannot be encoded is followed by no other that can. */
  predicate NoneSentAfterAFailure(turns: seq<Turn>) {
    forall i, j :: 0 <= i < j < |turns| && turns[i].None? ==> turns[j].None?
  }

  /** Each frame fits under the number it takes when none before it has failed. */
  predicate AllFit(receiver: Receiver, turns: seq<Turn>, from: nat) {
    forall i :: 0 <= i < |turns| && turns[i].Some? ==> Fits(receiver, turns[i].value, from + i + 1)
  }

  lemma TurnInStep(receiver: Receiver, mac: Mac, key: string, c: Channel, frame: Frame)
    requires Injective(mac, key) && InStep(receiver, c) && WellFormed(Obj(frame))
    ensures var d := AfterTurn(receiver, mac, key, c, Some(frame));
            if Fits(receiver, frame, c.stamped + 1) then InStep(receiver, d) && d.stamped == c.stamped + 1
            else !d.open && |d.accepted| < |d.sent|
  {
    hide Stamped, Checks, WellFormed, Fits, AsRead;
    StampedIsAcceptedIff(receiver, mac, key, frame, c.stamped + 1);
  }

  /** Once one frame has been refused, what is accepted stays behind what is sent. */
  lemma {:induction false} BehindForGood(receiver: Receiver, mac: Mac, key: string, c: Channel, turns: seq<Turn>)
    requires !c.open && |c.accepted| < |c.sent|
    ensures var d := Faithful(receiver, mac, key, c, turns); !d.open && |d.accepted| < |d.sent|
    decreases |turns|
  {
    hide Stamped, Accepts, AsRead;
    if turns != [] {
      BehindForGood(receiver, mac, key, AfterTurn(receiver, mac, key, c, turns[0]), turns[1..]);
    }
  }

  /** The next frame after a number was lost is refused. */
  lemma RefusedAfterAGap(receiver: Receiver, mac: Mac, key: string, c: Channel, frame: Frame)
    requires Injective(mac, key)
    requires |c.accepted| == |c.sent| < c.stamped && WellFormed(Obj(frame))
    ensures var d := AfterTurn(receiver, mac, key, c, Some(frame));
            !d.open && d.accepted == c.accepted && |d.sent| == |c.sent| + 1
  {
    hide Stamped, WellFormed, Accepts, AsRead;
    NotTakenForAnother(receiver, mac, key, frame, |c.sent| + 1, c.stamped + 1);
  }

  lemma {:induction false} AcceptedAfterAGapIff(receiver: Receiver, mac: Mac, key: string, c: Channel, turns: seq<Turn>)
    requires Injective(mac, key)
    requires |c.accepted| == |c.sent| < c.stamped && WellFormedTurns(turns)
    ensures var d := Faithful(receiver, mac, key, c, turns);
            |d.accepted| == |d.sent| <==> forall i :: 0 <= i < |turns| ==> turns[i].None?
    decreases |turns|
  {
    hide Stamped, Accepts, WellFormed, AsRead, Injective;
    if turns != [] {
      var d := AfterTurn(receiver, mac, key, c, turns[0]);
      if turns[0].None? {
        assert forall i :: 0 < i < |turns| ==> turns[i] == turns[1..][i - 1];
        AcceptedAfterAGapIff(receiver, mac, key, d, turns[1..]);
      } else {
        RefusedAfterAGap(receiver, mac, key, c, turns[0].value);
        BehindForGood(receiver, mac, key, d, turns[1..]);
      }
    }
  }

  /** With no frame lost or altered, everything sent is accepted exactly when no
      frame is sent after one that could not be encoded, and the receiver's decoder
      leaves each frame and its number as they are. */
  lemma {:induction false} FaithfulAcceptsAllIff(receiver: Receiver, mac: Mac, key: string, c: Channel, turns: seq<Turn>)
    requires Injective(mac, key)
    requires InStep(receiver, c) && WellFormedTurns(turns)
    ensures var d := Faithful(receiver, mac, key, c, turns);
            |d.accepted| == |d.sent| <==> NoneSentAfterAFailure(turns) && AllFit(receiver, turns, c.stamped)
    decreases |turns|
  {
    hide Stamped, Accepts, WellFormed, AfterTurn, Fits, AsRead, Injective;
    if turns != [] {
      var d := AfterTurn(receiver, mac, key, c, turns[0]);
      TailOfTurns(turns);
      TailFits(receiver, turns, c.stamped);
      match turns[0]
      case None =>
        FailedTurn(receiver, mac, key, c);
        AcceptedAfterAGapIff(receiver, mac, key, d, turns[1..]);
      case Some(frame) =>
        TurnInStep(receiver, mac, key, c, frame);
        if Fits(receiver, frame, c.stamped + 1) {
          FaithfulAcceptsAllIff(receiver, mac, key, d, turns[1..]);
        } else {
          BehindForGood(receiver, mac, key, d, turns[1..]);
        }
    }
  }

  lemma TailFits(receiver: Receiver, turns: seq<Turn>, from: nat)
    requires turns != []
    ensures turns[0].Some? ==>
              (AllFit(receiver, turns, from) <==> Fits(receiver, turns[0].value, from + 1) && AllFit(receiver, turns[1..], from + 1))
    ensures (forall i :: 0 <= i < |turns[1..]| ==> turns[1..][i].None?) && turns[0].None? ==> AllFit(receiver, turns, from)
  {
    hide Fits;
    var rest := turns[1..];
    assert forall i :: 0 < i < |turns| ==> turns[i] == rest[i - 1];
    if AllFit(receiver, turns, from) {
      forall i | 0 <= i < |rest| && rest[i].Some?
        ensures Fits(receiver, rest[i].value, from + 1 + i + 1)
      {
        assert turns[i + 1] == rest[i];
      }
    }
    if turns[0].Some? && Fits(receiver, turns[0].value, from + 1) && AllFit(receiver, rest, from + 1) {
      forall i | 0 <= i < |turns| && turns[i].Some?
        ensures Fits(receiver, turns[i].value, from + i + 1)
      {
        assert i > 0 ==> turns[i] == rest[i - 1];
      }
    }
  }

  lemma FailedTurn(receiver: Receiver, mac: Mac, key: string, c: Channel)
    ensures AfterTurn(receiver, mac, key, c, None) == c.(stamped := c.stamped + 1)
  {
  }

  lemma OneTurn(receiver: Receiver, mac: Mac, key: string, c: Channel, turn: Turn)
    ensures Faithful(receiver, mac, key, c, [turn]) == AfterTurn(receiver, mac, key, c, turn)
  {
    assert [turn][1..] == [];
  }

  lemma TailOfTurns(turns: seq<Turn>)
    requires turns != []
    ensures NoneSentAfterAFailure(turns) <==>
            if turns[0].None? then forall i :: 0 <= i < |turns[1..]| ==> turns[1..][i].None?
            else NoneSentAfterAFailure(turns[1..])
  {
    var rest := turns[1..];
    assert forall i :: 0 < i < |turns| ==> turns[i] == rest[i - 1];
    if turns[0].None? && NoneSentAfterAFailure(turns) {
      assert forall i :: 0 <= i < |rest| ==> rest[i] == turns[i + 1];
    }
    if NoneSentAfterAFailure(turns) {
      forall i, j | 0 <= i < j < |rest| && rest[i].None?
        ensures rest[j].None?
      {
        assert turns[i + 1].None? && turns[j + 1] == rest[j];
      }
    }
  }

  /** A frame sent after one that could not be encoded is not accepted. */
  lemma FrameAfterAFailureIsLost(receiver: Receiver, mac: Mac, key: string, frame: Frame)
    requires Injective(mac, key) && WellFormed(Obj(frame))
    ensures var d := Faithful(receiver, mac, key, FRESH, [None, Some(frame)]);
            |d.sent| == 1 && d.accepted == [] && !d.open
  {
    hide Stamped, WellFormed, Injective;
    FailedTurn(receiver, mac, key, FRESH);
    var c := FRESH.(stamped := 1);
    RefusedAfterAGap(receiver, mac, key, c, frame);
    hide AfterTurn, Accepts;
    assert AfterTurn(receiver, mac, key, FRESH, None) == c;
    OneTurn(receiver, mac, key, c, Some(frame));
    assert [None, Some(frame)][1..] == [Some(frame)];
  }

  lemma SmallNumberKept(n: nat)
    requires n <= TWO_TO_53
    ensures Kept(Int(n))
  {
    Float64Exact(n);
    assert Halvings(n) <= 1;
  }

  /** The agent accepts all that a faithful hub sends exactly when no frame holds a
      number that float64 would alter, and there are at most 2^53 frames. */
  lemma AgentStaysInStepIff(mac: Mac, key: string, frames: seq<Frame>)
    requires Injective(mac, key)
    requires forall i :: 0 <= i < |frames| ==> WellFormed(Obj(frames[i]))
    ensures var d := Faithful(Agent, mac, key, FRESH, Frames(frames));
            |d.accepted| == |d.sent| <==> |frames| <= TWO_TO_53 && forall i :: 0 <= i < |frames| ==> Carries(frames[i])
  {
    hide Stamped, WellFormed, Accepts, Faithful, Carries, Kept, Injective;
    FaithfulAcceptsAllIff(Agent, mac, key, FRESH, Frames(frames));
    assert NoneSentAfterAFailure(Frames(frames));
    if AllFit(Agent, Frames(frames), 0) {
      forall i | 0 <= i < |frames|
        ensures Carries(frames[i]) && Kept(Int(i + 1))
      {
        assert Frames(frames)[i] == Some(frames[i]);
      }
      if |frames| > TWO_TO_53 {
        assert Carries(frames[TWO_TO_53]) && Kept(Int(TWO_TO_53 + 1));
        FirstNotKept();
        assert false;
      }
    }
    if |frames| <= TWO_TO_53 && forall i :: 0 <= i < |frames| ==> Carries(frames[i]) {
      forall i | 0 <= i < |frames|
        ensures Fits(Agent, frames[i], i + 1)
      {
        SmallNumberKept(i + 1);
      }
    }
  }

  lemma FirstNotKept()
    ensures !Kept(Int(TWO_TO_53 + 1))
  {
    Float64Misses(TWO_TO_53 + 1);
  }

  // ---- What stamping does to a frame, and what float64 keeps --------------

  /** Stamping replaces the number and the code, which is taken over all the rest,
      and leaves every other key as it was. */
  lemma StampFields(mac: Mac, key: string, frame: Frame, n: nat, k: string)
    requires WellFormed(Obj(frame))
    ensures var out := Stamped(mac, key, frame, n);
            Get(out, k) ==
            if k == "mac" then Some(Str(mac(key, Canon(Obj(Without(out, "mac"))))))
            else if k == "seq" then Some(Int(n))
            else Get(frame, k)
  {
    hide Canon;
    StampedVerifies(mac, key, frame, n);
    var bare, numbered := Without(frame, "mac"), Numbered(frame, n);
    WithoutWellFormed(frame, "mac");
    PutKeeps(bare, "seq", Int(n));
    PutKeeps(numbered, "mac", Str(MacOf(mac, key, numbered)));
    GetWithout(frame, "mac", k);
  }

  function Pow2(k: nat): nat {
    if k == 0 then 1 else 2 * Pow2(k - 1)
  }

  lemma {:induction false} UlpIsPower(n: nat)
    ensures Ulp(n) == Pow2(Halvings(n))
  {
    if n >= TWO_TO_53 {
      UlpIsPower(n / 2);
    }
  }

  lemma HalveTwice(n: nat, u: nat)
    requires u > 0
    ensures n / (2 * u) == (n / 2) / u
  {
    var q := (n / 2) / u;
    var r := (n / 2) % u;
    assert n / 2 == q * u + r;
    assert n == q * (2 * u) + (2 * r + n % 2);
    QuotientIs(n, 2 * u, q, 2 * r + n % 2);
  }

  lemma MoreTimes(a: nat, b: nat, d: nat)
    requires a < b
    ensures a * d + d <= b * d
  {
    assert b * d == (b - a - 1) * d + a * d + d;
  }

  lemma QuotientIs(n: nat, d: nat, q: nat, r: nat)
    requires d > 0 && n == q * d + r && r < d
    ensures n / d == q && n % d == r
  {
    if n / d < q {
      MoreTimes(n / d, q, d);
    } else if n / d > q {
      MoreTimes(q, n / d, d);
    }
  }

  lemma {:induction false} FewUlps(n: nat)
    ensures n / Ulp(n) < TWO_TO_53
  {
    if n >= TWO_TO_53 {
      FewUlps(n / 2);
      HalveTwice(n, Ulp(n / 2));
    }
  }

  lemma {:induction false} FewHalvings(q: nat, k: nat)
    requires q < TWO_TO_53
    ensures Halvings(q * Pow2(k)) <= k
  {
    if k > 0 {
      FewHalvings(q, k - 1);
      assert q * Pow2(k) == 2 * (q * Pow2(k - 1));
    }
  }

  lemma {:induction false} PowersDivide(q: nat, k: nat, h: nat)
    requires h <= k
    ensures Pow2(h) > 0 && q * Pow2(k) % Pow2(h) == 0
    decreases k - h
  {
    PowerPositive(h);
    if h == k {
      QuotientIs(q * Pow2(k), Pow2(h), q, 0);
    } else {
      PowersDivide(2 * q, k - 1, h);
      assert q * Pow2(k) == 2 * q * Pow2(k - 1);
    }
  }

  lemma {:induction false} PowerPositive(k: nat)
    ensures Pow2(k) > 0
  {
    if k > 0 {
      PowerPositive(k - 1);
    }
  }

  /** The numbers of float64: up to 53 bits, followed by up to 971 zeros. */
  ghost predicate IsFloat64(m: nat) {
    exists q: nat, k: nat :: MadeOf(m, q, k)
  }

  predicate MadeOf(m: nat, q: nat, k: nat) {
    q < TWO_TO_53 && k <= 971 && m == q * Pow2(k)
  }

  /** A number survives decoding exactly when it is one of them. */
  lemma KeptNumberIff(n: int)
    ensures Kept(Int(n)) <==> IsFloat64(if n < 0 then -n else n)
    ensures Kept(Whole(n)) <==> Kept(Int(n))
  {
    var m: nat := if n < 0 then -n else n;
    UlpIsPower(m);
    FewUlps(m);
    if Kept(Int(n)) {
      RoundedDown(m);
      assert MadeOf(m, m / Ulp(m), Halvings(m));
    }
    if IsFloat64(m) {
      var q: nat, k: nat :| MadeOf(m, q, k);
      FewHalvings(q, k);
      PowersDivide(q, k, Halvings(m));
      ExactMultiple(m);
    }
  }

  lemma RoundedDown(m: nat)
    requires Float64(m) == m
    ensures m == (m / Ulp(m)) * Ulp(m)
  {
    hide Ulp;
    var u := Ulp(m);
    assert m == (m / u) * u + m % u;
    MoreTimes(m / u, m / u + 1, u);
  }

  lemma ExactMultiple(m: nat)
    requires m % Ulp(m) == 0
    ensures Float64(m) == m
  {
    hide Ulp;
    var u := Ulp(m);
    assert m == (m / u) * u + m % u;
  }

  lemma RunNext(receiver: Receiver, mac: Mac, key: string, events: seq<Event>, e: Event)
    requires PossibleRun(receiver, mac, key, events) && Possible(receiver, mac, key, Run(receiver, mac, key, events), e)
    ensures PossibleRun(receiver, mac, key, events + [e])
    ensures Run(receiver, mac, key, events + [e]) == After(receiver, mac, key, Run(receiver, mac, key, events), e)
  {
    hide Possible, After;
    assert (events + [e])[..|events|] == events;
  }

  /** A frame that fits is sent and accepted, after any run that is in step. */
  lemma FrameIsCarried(receiver: Receiver, mac: Mac, key: string, events: seq<Event>, frame: Frame)
    requires Injective(mac, key) && PossibleRun(receiver, mac, key, events)
    requires InStep(receiver, Run(receiver, mac, key, events)) && WellFormed(Obj(frame))
    requires Fits(receiver, frame, Run(receiver, mac, key, events).stamped + 1)
    ensures var n := Run(receiver, mac, key, events).stamped + 1;
            var more := events + [Send(frame)] + [Deliver(Stamped(mac, key, frame, n))];
            && PossibleRun(receiver, mac, key, more)
            && InStep(receiver, Run(receiver, mac, key, more)) && Run(receiver, mac, key, more).stamped == n
  {
    hide Possible, PossibleRun, Run, Stamped, Accepts, Fits, WellFormed, AsRead;
    var c := Run(receiver, mac, key, events);
    var out := Stamped(mac, key, frame, c.stamped + 1);
    var d := After(receiver, mac, key, c, Send(frame));
    SendAndDeliverPossible(receiver, mac, key, c, frame);
    RunNext(receiver, mac, key, events, Send(frame));
    assert d.sent[|d.sent| - 1] == out;
    RunNext(receiver, mac, key, events + [Send(frame)], Deliver(out));
    TurnInStep(receiver, mac, key, c, frame);
  }

  lemma SendAndDeliverPossible(receiver: Receiver, mac: Mac, key: string, c: Channel, frame: Frame)
    requires WellFormed(Obj(frame))
    ensures Possible(receiver, mac, key, c, Send(frame))
    ensures var d := After(receiver, mac, key, c, Send(frame));
            Possible(receiver, mac, key, d, Deliver(Stamped(mac, key, frame, c.stamped + 1)))
  {
    hide Stamped, MacMatches, WellFormed;
    var out := Stamped(mac, key, frame, c.stamped + 1);
    StampedVerifies(mac, key, frame, c.stamped + 1);
    MatchesHasCode(mac, key, out);
    var d := After(receiver, mac, key, c, Send(frame));
    assert d.sent[|c.sent|] == out;
    if AsRead(receiver, out).Some? {
      CodeStays(receiver, out);
    }
  }

  lemma MatchesHasCode(mac: Mac, key: string, frame: Frame)
    requires MacMatches(mac, key, frame)
    ensures Get(frame, "mac").Some? && Get(frame, "mac").value.Str?
  {
  }
}
