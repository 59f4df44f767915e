/** The first-run claim: one row, updated by conditional statements, from many
    requests at once, across restarts, while tokens come and go. */
module Claim {
  import opened Wrappers

  type Prefix = string
  type RequestId = nat

  /** The claim row. `code` is the pending code its hash was made from; a row put in
      place for an externally bootstrapped instance has none. */
  datatype Row = Row(code: Option<string>, claimed: bool, minted: Option<Prefix>)

  // ---- The statements, each atomic ----------------------------------------

  function Installed(code: string): Option<Row> {
    Some(Row(Some(code), false, None))
  }

  predicate Claimable(row: Option<Row>) {
    row.Some? && !row.value.claimed
  }

  function Latched(row: Option<Row>): Option<Row> {
    if Claimable(row) then Some(row.value.(claimed := true)) else row
  }

  function Released(row: Option<Row>): Option<Row> {
    if row.Some? && row.value.minted.None? then Some(row.value.(claimed := false)) else row
  }

  function LatchedExternally(row: Option<Row>): Option<Row> {
    Latched(if row.None? then Some(Row(None, false, None)) else row)
  }

  function Recorded(row: Option<Row>, prefix: Prefix): Option<Row> {
    if row.Some? then Some(row.value.(minted := Some(prefix))) else row
  }

  predicate RowClaimed(row: Option<Row>) {
    row.Some? && row.value.claimed
  }

  predicate CodeMatches(row: Option<Row>, presented: string) {
    row.Some? && row.value.code == Some(presented)
  }

  class ClaimRepository {
    var row: Option<Row>
    /** The admin-capable tokens in the database. */
    var admins: set<Prefix>

    constructor ()
      ensures row == None && admins == {}
    {
      row, admins := None, {};
    }

    method InstallCode(code: string)
      modifies this`row
      ensures row == Installed(code)
    {
      row := Some(Row(Some(code), false, None));
    }

    method TakeClaim() returns (won: bool)
      modifies this`row
      ensures row == Latched(old(row)) && (won <==> Claimable(old(row)))
    {
      if row.Some? && !row.value.claimed {
        row := Some(row.value.(claimed := true));
        return true;
      }
      return false;
    }

    method Release()
      modifies this`row
      ensures row == Released(old(row))
    {
      if row.Some? && row.value.minted == None {
        row := Some(row.value.(claimed := false));
      }
    }

    method LatchClaimedExternally() returns (closed: bool)
      modifies this`row
      ensures row == LatchedExternally(old(row)) && RowClaimed(row)
      ensures closed <==> !RowClaimed(old(row))
    {
      if row.None? {
        row := Some(Row(None, false, None));
      }
      closed := TakeClaim();
    }

    method RecordMintedToken(prefix: Prefix)
      modifies this`row
      ensures row == Recorded(old(row), prefix)
    {
      if row.Some? {
        row := Some(row.value.(minted := Some(prefix)));
      }
    }

    method IsClaimed() returns (claimed: bool)
      ensures claimed <==> admins != {} || RowClaimed(row)
    {
      var adminExists := admins != {};
      claimed := adminExists || (row.Some? && row.value.claimed);
    }

    /** What a boot does. `file` is the operator's copy of the code, empty when it
        cannot be read; writing or removing it may fail, which is only logged. */
    method EnsureClaimCode(file: string, newCode: string, writable: bool) returns (code: Option<string>, file': string)
      modifies this`row
      ensures code.None? <==> admins != {} || RowClaimed(old(row))
      ensures code.None? ==> RowClaimed(row) && file' == if writable then "" else file
      ensures code.Some? ==> Claimable(row) && CodeMatches(row, code.value)
      ensures code.Some? ==> file' == code.value || (!writable && file' == file)
      ensures RowClaimed(old(row)) ==> row == old(row)
      ensures admins == {} && Claimable(old(row)) && file != "" && CodeMatches(old(row), file) ==>
                row == old(row) && code == Some(file) && file' == file
      ensures code.Some? && !(file != "" && CodeMatches(old(row), file)) ==> row == Installed(newCode)
    {
      if admins != {} {
        var closed := LatchClaimedExternally();
        return None, if writable then "" else file;
      }
      if row.Some? && row.value.claimed {
        return None, if writable then "" else file;
      }
      if row.Some? && file != "" && CodeMatches(row, file) {
        return Some(file), file;
      }
      InstallCode(newCode);
      return Some(newCode), if writable then newCode else file;
    }
  }

  // ---- Every interleaving -------------------------------------------------

  /** How far a claim request has got. `Failing`: an exception after the latch;
      `Sealed`: the minted token is recorded, and the local one may be stored. */
  datatype Progress =
    | Arrived | RowRead(claimed: bool) | Unclaimed | Cleared
    | Holding | Minted(prefix: Prefix) | Sealed | Failing

  datatype Request = Request(local: bool, presented: string, at: Progress)

  /** What the process is doing: a boot runs before any request is served. */
  datatype Process = Down | Booting | SawAdmin | NoAdmin | NeedsCode | Serving

  /** `granted` are the requests that returned a token; `observed` says that some
      boot has latched the claim on seeing an admin credential. */
  datatype State = State(
    row: Option<Row>,
    admins: set<Prefix>,
    process: Process,
    requests: map<RequestId, Request>,
    granted: seq<Request>,
    observed: bool)

  datatype Event =
    | Starts | SeesTokens | LatchesExternally | ReadsRow(fileMatches: bool) | Installs(code: string) | Stops
    | Arrives(r: RequestId, local: bool, presented: string)
    | RequestReadsRow(r: RequestId)
    | RequestSeesTokens(r: RequestId)
    | Clears(r: RequestId)
    | Refused(r: RequestId)
    | TriesLatch(r: RequestId)
    | Mints(r: RequestId, prefix: Prefix)
    | Records(r: RequestId)
    | Fails(r: RequestId, tokenStored: Option<Prefix>)
    | ReleasesLatch(r: RequestId)
    | Returns(r: RequestId, localCli: Option<Prefix>)
    | Vanishes(r: RequestId)
    | TokenMinted(prefix: Prefix)
    | TokenDeleted(prefix: Prefix)

  const START := State(None, {}, Down, map[], [], false)

  predicate IsAt(s: State, r: RequestId, at: Progress) {
    s.process.Serving? && r in s.requests && s.requests[r].at == at
  }

  /** After the latch was won and before the token was recorded. */
  predicate Holds(at: Progress) {
    at.Holding? || at.Minted?
  }

  predicate Possible(s: State, e: Event) {
    match e
    case Starts => s.process.Down?
    case SeesTokens => s.process.Booting?
    case LatchesExternally => s.process.SawAdmin?
    case ReadsRow(_) => s.process.NoAdmin?
    case Installs(_) => s.process.NeedsCode?
    case Arrives(r, _, _) => s.process.Serving? && r !in s.requests
    case RequestReadsRow(r) => IsAt(s, r, Arrived)
    case RequestSeesTokens(r) => s.process.Serving? && r in s.requests && s.requests[r].at.RowRead?
    case Clears(r) =>
      IsAt(s, r, Unclaimed) && Earned(s.row, s.requests[r])
    case Refused(r) => IsAt(s, r, Unclaimed) || IsAt(s, r, Cleared)
    case TriesLatch(r) => IsAt(s, r, Cleared)
    case Mints(r, _) => IsAt(s, r, Holding)
    case Records(r) => s.process.Serving? && r in s.requests && s.requests[r].at.Minted?
    case Fails(r, _) => s.process.Serving? && r in s.requests && (Holds(s.requests[r].at) || s.requests[r].at.Sealed?)
    case ReleasesLatch(r) => IsAt(s, r, Failing)
    case Returns(r, _) => IsAt(s, r, Sealed)
    case _ => true
  }

  function Moved(s: State, r: RequestId, at: Progress): State {
    if r in s.requests then s.(requests := s.requests[r := s.requests[r].(at := at)]) else s
  }

  function Gone(s: State, r: RequestId): State {
    s.(requests := s.requests - {r})
  }

  function WithToken(s: State, prefix: Option<Prefix>): State {
    if prefix.Some? then s.(admins := s.admins + {prefix.value}) else s
  }

  function After(s: State, e: Event): State
    requires Possible(s, e)
  {
    match e
    case Starts => s.(process := Booting)
    case SeesTokens => s.(process := if s.admins != {} then SawAdmin else NoAdmin)
    case LatchesExternally => s.(row := LatchedExternally(s.row), observed := true, process := Serving)
    case ReadsRow(fileMatches) =>
      s.(process := if RowClaimed(s.row) || (s.row.Some? && fileMatches) then Serving else NeedsCode)
    case Installs(code) => s.(row := Installed(code), process := Serving)
    case Stops => s.(process := Down, requests := map[])
    case Arrives(r, local, presented) => s.(requests := s.requests[r := Request(local, presented, Arrived)])
    case RequestReadsRow(r) => Moved(s, r, RowRead(RowClaimed(s.row)))
    case RequestSeesTokens(r) =>
      if s.admins != {} || s.requests[r].at.claimed then Gone(s, r) else Moved(s, r, Unclaimed)
    case Clears(r) => Moved(s, r, Cleared)
    case Refused(r) => Gone(s, r)
    case TriesLatch(r) =>
      if Claimable(s.row) then Moved(s.(row := Latched(s.row)), r, Holding) else Gone(s, r)
    case Mints(r, prefix) => Moved(WithToken(s, Some(prefix)), r, Minted(prefix))
    case Records(r) => Moved(s.(row := Recorded(s.row, s.requests[r].at.prefix)), r, Sealed)
    case Fails(r, tokenStored) => Moved(WithToken(s, tokenStored), r, Failing)
    case ReleasesLatch(r) => Gone(s.(row := Released(s.row)), r)
    case Returns(r, localCli) =>
      Gone(WithToken(s.(granted := s.granted + [s.requests[r]]), localCli), r)
    case Vanishes(r) => Gone(s, r)
    case TokenMinted(prefix) => s.(admins := s.admins + {prefix})
    case TokenDeleted(prefix) => s.(admins := s.admins - {prefix})
  }

  predicate IsClaimed(s: State) {
    s.admins != {} || RowClaimed(s.row)
  }

  /** The latch has been won and not yet given back. */
  predicate PastTheLatch(at: Progress) {
    Holds(at) || at.Sealed? || at.Failing?
  }

  /** The request presented the pending code, or none from the local network. */
  predicate Earned(row: Option<Row>, q: Request) {
    if q.presented != "" then CodeMatches(row, q.presented) else q.local
  }

  ghost predicate Inv(s: State) {
    && (!s.process.Serving? ==> s.requests == map[])
    && (s.process.NeedsCode? ==> !RowClaimed(s.row))
    && (forall a, b :: a in s.requests && b in s.requests && PastTheLatch(s.requests[a].at) && PastTheLatch(s.requests[b].at) ==> a == b)
    && (forall r :: r in s.requests ==> RequestFits(s, s.requests[r]))
    && |s.granted| <= 1
    && (s.granted != [] ==> RowClaimed(s.row) && s.row.value.minted.Some?)
    && (s.observed ==> RowClaimed(s.row))
    && (Claimable(s.row) ==> s.row.value.minted.None?)
    && (forall i :: 0 <= i < |s.granted| ==> Earned(s.row, s.granted[i]))
  }

  /** What a request that is past the latch knows of the row. */
  predicate RequestFits(s: State, q: Request) {
    && (PastTheLatch(q.at) ==> RowClaimed(s.row) && s.granted == [] && !s.observed)
    && (Holds(q.at) ==> s.row.value.minted.None?)
    && (q.at.Sealed? ==> s.row.value.minted.Some?)
    && (PastTheLatch(q.at) || q.at.Cleared? ==> Earned(s.row, q))
  }

  /** An event that is not possible where it stands changes nothing. */
  function Next(s: State, e: Event): State {
    if Possible(s, e) then After(s, e) else s
  }

  function Run(events: seq<Event>): State {
    if events == [] then START else Next(Run(events[..|events| - 1]), events[|events| - 1])
  }

  lemma ProcessKeeps(s: State, e: Event)
    requires Inv(s) && Possible(s, e)
    requires e.Starts? || e.SeesTokens? || e.LatchesExternally? || e.ReadsRow? || e.Installs? || e.Stops?
    ensures Inv(After(s, e))
  {
  }

  lemma TokensKeep(s: State, e: Event)
    requires Inv(s) && (e.TokenMinted? || e.TokenDeleted?)
    ensures Inv(After(s, e))
  {
    assert forall r :: r in s.requests ==> RequestFits(s, s.requests[r]);
  }

  /** Requests that are not past the latch come and go without touching the row. */
  lemma EarlyStepKeeps(s: State, e: Event)
    requires Inv(s) && Possible(s, e)
    requires e.Arrives? || e.RequestReadsRow? || e.RequestSeesTokens? || e.Clears? || e.Refused? || e.Vanishes?
    ensures Inv(After(s, e))
  {
    var t := After(s, e);
    forall r | r in t.requests
      ensures RequestFits(t, t.requests[r])
    {
      assert r in s.requests ==> RequestFits(s, s.requests[r]);
    }
  }

  lemma LatchKeeps(s: State, e: Event)
    requires Inv(s) && Possible(s, e) && e.TriesLatch?
    ensures Inv(After(s, e))
  {
    var t := After(s, e);
    forall r | r in s.requests
      ensures RequestFits(s, s.requests[r])
    {
    }
    if Claimable(s.row) {
      assert forall r :: r in s.requests ==> !PastTheLatch(s.requests[r].at);
    }
  }

  /** The request that holds the latch moves on. */
  lemma HolderKeeps(s: State, e: Event)
    requires Inv(s) && Possible(s, e)
    requires e.Mints? || e.Records? || e.Fails? || e.ReleasesLatch? || e.Returns?
    ensures Inv(After(s, e))
  {
    assert RequestFits(s, s.requests[e.r]);
    assert PastTheLatch(s.requests[e.r].at);
    var t := After(s, e);
    forall r | r in t.requests
      ensures RequestFits(t, t.requests[r])
    {
      assert RequestFits(s, s.requests[r]);
      assert r != e.r ==> !PastTheLatch(s.requests[r].at);
    }
  }

  lemma StepKeeps(s: State, e: Event)
    requires Inv(s)
    ensures Inv(Next(s, e))
  {
    hide Inv, After;
    if Possible(s, e) {
      match e
      case Arrives(_, _, _) => EarlyStepKeeps(s, e);
      case RequestReadsRow(_) => EarlyStepKeeps(s, e);
      case RequestSeesTokens(_) => EarlyStepKeeps(s, e);
      case Clears(_) => EarlyStepKeeps(s, e);
      case Refused(_) => EarlyStepKeeps(s, e);
      case Vanishes(_) => EarlyStepKeeps(s, e);
      case TriesLatch(_) => LatchKeeps(s, e);
      case Mints(_, _) => HolderKeeps(s, e);
      case Records(_) => HolderKeeps(s, e);
      case Fails(_, _) => HolderKeeps(s, e);
      case ReleasesLatch(_) => HolderKeeps(s, e);
      case Returns(_, _) => HolderKeeps(s, e);
      case TokenMinted(_) => TokensKeep(s, e);
      case TokenDeleted(_) => TokensKeep(s, e);
      case _ => ProcessKeeps(s, e);
    }
  }

  lemma {:induction false} RunKeeps(events: seq<Event>)
    ensures Inv(Run(events))
  {
    if events != [] {
      hide Inv, Next;
      RunKeeps(events[..|events| - 1]);
      StepKeeps(Run(events[..|events| - 1]), events[|events| - 1]);
    }
  }

  /** At most one POST /claim ever returns a token, to a request that presented the
      code or came from the local network; and the claim is closed from then on. */
  lemma AtMostOneTokenIsGranted(events: seq<Event>)
    ensures var s := Run(events);
            && |s.granted| <= 1
            && (s.granted != [] ==> IsClaimed(s))
            && (forall q :: q in s.granted ==>
                  || (q.presented == "" && q.local)
                  || (q.presented != "" && s.row.Some? && s.row.value.code == Some(q.presented)))
  {
    hide Run;
    RunKeeps(events);
    var s := Run(events);
    forall q | q in s.granted
      ensures Earned(s.row, q)
    {
      var i :| 0 <= i < |s.granted| && s.granted[i] == q;
    }
  }

  /** Which requests get past the check of their credential: one from the local
      network without a code, and one with the pending code; a remote request
      without a code, and any with another code, are refused. */
  lemma ClearsIff(s: State, r: RequestId)
    requires IsAt(s, r, Unclaimed)
    ensures var q := s.requests[r];
            Possible(s, Clears(r)) <==>
            || (q.presented == "" && q.local)
            || (q.presented != "" && s.row.Some? && s.row.value.code == Some(q.presented))
    ensures Possible(s, Clears(r)) ==> After(s, Clears(r)).requests == s.requests[r := s.requests[r].(at := Cleared)]
  {
  }

  /** Which of them win the latch: the first that finds an unclaimed row. The others
      are turned away, and change nothing. */
  lemma WinsLatchIff(s: State, r: RequestId)
    requires IsAt(s, r, Cleared)
    ensures var t := After(s, TriesLatch(r));
            && (s.row.Some? && !s.row.value.claimed <==> r in t.requests)
            && (r in t.requests ==>
                  t == s.(row := Some(Row(s.row.value.code, true, s.row.value.minted)),
                          requests := s.requests[r := s.requests[r].(at := Holding)]))
            && (r !in t.requests ==> t == s.(requests := s.requests - {r}))
  {
  }

  /** Which requests are turned away at the door: those that find the claim closed,
      by the row as they read it or by an admin credential. */
  lemma ClosedToIff(s: State, r: RequestId)
    requires s.process.Serving? && r in s.requests && s.requests[r].at.RowRead?
    ensures r in After(s, RequestSeesTokens(r)).requests <==> s.admins == {} && !s.requests[r].at.claimed
  {
  }

  /** The statements, in the fields of the row. */
  lemma StatementsMean(row: Option<Row>, code: string, prefix: Prefix)
    ensures Installed(code) == Some(Row(Some(code), false, None))
    ensures Latched(row) == (if row.Some? then Some(Row(row.value.code, true, row.value.minted)) else None)
    ensures LatchedExternally(row) == Some(if row.None? then Row(None, true, None) else Row(row.value.code, true, row.value.minted))
    ensures Released(row) ==
            (if row.Some? && row.value.minted.None? then Some(Row(row.value.code, false, None)) else row)
    ensures Recorded(row, prefix) == (if row.Some? then Some(Row(row.value.code, row.value.claimed, Some(prefix))) else None)
  {
  }

  /** Once a token was granted, or a boot has latched the claim on seeing an admin
      credential, the claim is closed in every later state, whatever tokens are deleted. */
  lemma {:induction false} ClosedForGood(events: seq<Event>, n: nat)
    requires n <= |events|
    requires Run(events[..n]).granted != [] || Run(events[..n]).observed
    ensures IsClaimed(Run(events)) && RowClaimed(Run(events).row)
    ensures Run(events).granted != [] || Run(events).observed
    decreases |events|
  {
    hide Next, Inv;
    RunKeeps(events);
    if n == |events| {
      assert events[..n] == events;
      HistoryCloses(Run(events));
    } else {
      var m := |events| - 1;
      assert events[..m][..n] == events[..n];
      ClosedForGood(events[..m], n);
      HistoryStays(Run(events[..m]), events[m]);
      HistoryCloses(Run(events));
    }
  }

  lemma HistoryCloses(s: State)
    requires Inv(s) && (s.granted != [] || s.observed)
    ensures RowClaimed(s.row)
  {
  }

  lemma HistoryStays(s: State, e: Event)
    requires s.granted != [] || s.observed
    ensures Next(s, e).granted != [] || Next(s, e).observed
  {
  }

  /** What a failure after the latch leaves behind, whichever step raised: the row
      stays claimed exactly when the minted token had been recorded, and the claim
      reopens exactly when no admin token is left at all. */
  lemma FailedClaimIff(events: seq<Event>, r: RequestId, tokenStored: Option<Prefix>)
    requires Possible(Run(events), Fails(r, tokenStored))
    ensures var s := Run(events);
            var t := Next(Next(s, Fails(r, tokenStored)), ReleasesLatch(r));
            && (RowClaimed(t.row) <==> s.requests[r].at.Sealed?)
            && (IsClaimed(t) <==> s.requests[r].at.Sealed? || s.admins != {} || tokenStored.Some?)
            && t.granted == []
  {
    hide Run;
    RunKeeps(events);
    assert RequestFits(Run(events), Run(events).requests[r]);
  }

  /** A request that fails between storing its token and recording it gives the
      latch back with an admin token left behind: only that token keeps the claim
      closed, and deleting it opens the claim again. */
  lemma FailedMintIsHeldByItsTokenAlone(events: seq<Event>, r: RequestId, prefix: Prefix)
    requires var s := Run(events);
             IsAt(s, r, Minted(prefix)) && s.admins == {prefix}
    ensures var t := Next(Next(Run(events), Fails(r, None)), ReleasesLatch(r));
            && IsClaimed(t) && !RowClaimed(t.row) && t.granted == []
            && !IsClaimed(Next(t, TokenDeleted(prefix)))
  {
    hide Run;
    FailedClaimIff(events, r, None);
  }

  lemma RunTwoMore(events: seq<Event>, a: Event, b: Event)
    ensures Run(events + [a, b]) == Next(Next(Run(events), a), b)
  {
    hide Next;
    assert (events + [a, b])[..|events| + 1] == events + [a];
    assert (events + [a])[..|events|] == events;
  }

  /** The first boot of a fresh instance, and a request from the local network that
      gets as far as a minted token. */
  const FIRST_BOOT: seq<Event> := [] + [Starts, SeesTokens] + [ReadsRow(false), Installs("code")]
  const FIRST_MINT: seq<Event> :=
    FIRST_BOOT + [Arrives(0, true, ""), RequestReadsRow(0)] + [RequestSeesTokens(0), Clears(0)] + [TriesLatch(0), Mints(0, "p")]

  lemma FirstBootServes()
    ensures Run(FIRST_BOOT) == START.(row := Installed("code"), process := Serving)
  {
    RunTwoMore([], Starts, SeesTokens);
    RunTwoMore([] + [Starts, SeesTokens], ReadsRow(false), Installs("code"));
  }

  /** The served state with the request at `at`. */
  function Claiming(at: Progress): State {
    START.(row := Installed("code"), process := Serving, requests := map[0 := Request(true, "", at)])
  }

  lemma RequestArrives()
    ensures var s := START.(row := Installed("code"), process := Serving);
            Next(Next(s, Arrives(0, true, "")), RequestReadsRow(0)) == Claiming(RowRead(false))
  {
  }

  lemma RequestClears()
    ensures Next(Next(Claiming(RowRead(false)), RequestSeesTokens(0)), Clears(0)) == Claiming(Cleared)
  {
  }

  lemma RequestMints()
    ensures var s := Next(Next(Claiming(Cleared), TriesLatch(0)), Mints(0, "p"));
            IsAt(s, 0, Minted("p")) && s.admins == {"p"}
  {
  }

  lemma FirstMintHappens()
    ensures var s := Run(FIRST_MINT);
            IsAt(s, 0, Minted("p")) && s.admins == {"p"}
  {
    var a := FIRST_BOOT + [Arrives(0, true, ""), RequestReadsRow(0)];
    var b := a + [RequestSeesTokens(0), Clears(0)];
    hide Run, Next, Claiming;
    FirstBootServes();
    RunTwoMore(FIRST_BOOT, Arrives(0, true, ""), RequestReadsRow(0));
    RequestArrives();
    RunTwoMore(a, RequestSeesTokens(0), Clears(0));
    RequestClears();
    RunTwoMore(b, TriesLatch(0), Mints(0, "p"));
    RequestMints();
  }

  /** Such a request exists, and when it fails there, nothing but its token keeps
      the claim closed. */
  lemma FailedMintHappens()
    ensures var t := Run(FIRST_MINT + [Fails(0, None), ReleasesLatch(0)]);
            && t.admins == {"p"} && t.granted == [] && IsClaimed(t) && !RowClaimed(t.row)
            && !IsClaimed(Next(t, TokenDeleted("p")))
  {
    FirstMintHappens();
    hide Run;
    FailedMintIsHeldByItsTokenAlone(FIRST_MINT, 0, "p");
    RunTwoMore(FIRST_MINT, Fails(0, None), ReleasesLatch(0));
  }

  /** The served state with a request of either kind at `at`. */
  function ClaimingBy(local: bool, presented: string, at: Progress): State {
    Start1().(requests := map[0 := Request(local, presented, at)])
  }

  function Start1(): State {
    START.(row := Installed("code"), process := Serving)
  }

  function GrantRun(local: bool, presented: string): seq<Event> {
    FIRST_BOOT + [Arrives(0, local, presented), RequestReadsRow(0)] + [RequestSeesTokens(0), Clears(0)]
    + [TriesLatch(0), Mints(0, "p")] + [Records(0), Returns(0, None)]
  }

  /** From first boot, a request that is local and brings no code, or that brings the
      code from anywhere, is granted a token, and the claim is closed. */
  lemma GrantHappens(local: bool, presented: string)
    requires (presented == "" && local) || presented == "code"
    ensures var s := Run(GrantRun(local, presented));
            && |s.granted| == 1 && s.granted[0].local == local && s.granted[0].presented == presented
            && s.admins == {"p"} && s.requests == map[]
            && s.row == Some(Row(Some("code"), true, Some("p"))) && IsClaimed(s)
  {
    var a := FIRST_BOOT + [Arrives(0, local, presented), RequestReadsRow(0)];
    var b := a + [RequestSeesTokens(0), Clears(0)];
    var c := b + [TriesLatch(0), Mints(0, "p")];
    hide Run, Next, ClaimingBy, Start1;
    FirstBootIs();
    RunTwoMore(FIRST_BOOT, Arrives(0, local, presented), RequestReadsRow(0));
    ArrivesBy(local, presented);
    RunTwoMore(a, RequestSeesTokens(0), Clears(0));
    ClearsBy(local, presented);
    RunTwoMore(b, TriesLatch(0), Mints(0, "p"));
    MintsBy(local, presented);
    RunTwoMore(c, Records(0), Returns(0, None));
    ReturnsBy(local, presented);
  }

  lemma FirstBootIs()
    ensures Run(FIRST_BOOT) == Start1()
  {
    FirstBootServes();
  }

  lemma ArrivesBy(local: bool, presented: string)
    ensures Next(Next(Start1(), Arrives(0, local, presented)), RequestReadsRow(0)) == ClaimingBy(local, presented, RowRead(false))
  {
  }

  lemma ClearsBy(local: bool, presented: string)
    requires (presented == "" && local) || presented == "code"
    ensures Next(Next(ClaimingBy(local, presented, RowRead(false)), RequestSeesTokens(0)), Clears(0))
         == ClaimingBy(local, presented, Cleared)
  {
  }

  function MintedBy(local: bool, presented: string): State {
    ClaimingBy(local, presented, Minted("p")).(row := Some(Row(Some("code"), true, None)), admins := {"p"})
  }

  lemma MintsBy(local: bool, presented: string)
    ensures Next(Next(ClaimingBy(local, presented, Cleared), TriesLatch(0)), Mints(0, "p")) == MintedBy(local, presented)
  {
  }

  lemma ReturnsBy(local: bool, presented: string)
    ensures var s := Next(Next(MintedBy(local, presented), Records(0)), Returns(0, None));
            && |s.granted| == 1 && s.granted[0].local == local && s.granted[0].presented == presented
            && s.admins == {"p"} && s.requests == map[]
            && s.row == Some(Row(Some("code"), true, Some("p"))) && IsClaimed(s)
  {
  }
}
