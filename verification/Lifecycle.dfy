/** The artifact status machine: what each lifecycle operation does to the store,
    stated over the reference graph rather than over the traversals that walk it. */
module Lifecycle {
  import opened Wrappers
  import opened ArtifactText
  import opened ArtifactStore

  type Id = string

  datatype Kind =
    | AnsiblePlaybook | ProxmoxApiSequence | HttpSequence | Composite
    | ShellScript | HostProvision | GuestNetwork | KbNote

  datatype Status = Proposed | Approved | Rejected | Applied | Failed | Superseded | Revoked

  datatype Idempotence = ViaPrecheck | DeclaredNatural | ReplayOnly

  /** Who decided, in what role, and why; the last two may be empty. */
  datatype Decision = Decision(user: string, role: string, reason: string)

  datatype Frontmatter = Frontmatter(
    kind: Kind,
    idempotence: Option<Idempotence>,
    status: Status,
    hash: Hash,
    approvedBy: Option<Decision>,
    rejectedBy: Option<Decision>,
    revokedBy: Option<Decision>,
    failureReason: Option<string>,
    supersededBy: Option<Id>)

  datatype Artifact = Artifact(fm: Frontmatter, body: string)

  type Store = map<Id, Artifact>

  /** The step list of a composite body; None when the spec cannot be read. */
  type StepParser = string -> Option<seq<Id>>

  predicate Contains(text: string, part: string) {
    part <= text || (text != "" && Contains(text[1..], part))
  }

  function ValidTargets(current: Status): set<Status> {
    match current
    case Proposed => {Approved, Rejected, Proposed}
    case Approved => {Applied, Failed, Revoked}
    case Failed => {Approved, Revoked}
    case Applied => {Superseded, Revoked}
    case Rejected => {}
    case Superseded => {}
    case Revoked => {}
  }

  predicate Editable(status: Status) {
    status in {Proposed, Approved, Failed}
  }

  // ---- Single-artifact updates --------------------------------------------

  function Stored(fm: Frontmatter, body: string): Artifact {
    Artifact(fm, Reread(body))
  }

  /** A new artifact as it is proposed; a kb-note is applied at once. */
  function Proposal(kind: Kind, idempotence: Option<Idempotence>, body: string): Artifact {
    Stored(Frontmatter(kind, if kind.KbNote? then None else idempotence, if kind.KbNote? then Applied else Proposed,
                       BodyHash(body), None, None, None, None, None), body)
  }

  function WithApproval(a: Artifact, approval: Decision): Artifact {
    Stored(a.fm.(status := Approved, approvedBy := Some(approval)), a.body)
  }

  function Demote(a: Artifact): Artifact {
    Stored(a.fm.(status := Proposed, approvedBy := None), a.body)
  }

  function CascadeReason(reason: string, via: Id): string {
    if reason != "" then reason + " (cascaded from composite " + via + ")"
    else "cascaded from composite " + via
  }

  function WithLog(body: string, log: string): string {
    RStripBreaks(body) + "\n\n## Execution log\n\n" + log + "\n"
  }

  function WithEdit(a: Artifact, body: string): Artifact {
    var fm := a.fm.(hash := BodyHash(body));
    Stored(if a.fm.status in {Approved, Failed} then fm.(status := Proposed, approvedBy := None) else fm, body)
  }

  // ---- The reference graph ------------------------------------------------

  /** `x` is a composite whose readable spec names `y` as a step. */
  ghost predicate Names(parse: StepParser, s: Store, x: Id, y: Id) {
    x in s && s[x].fm.kind.Composite? && parse(s[x].body).Some? && y != "" && y in parse(s[x].body).value
  }

  /** `x` names `y`, but not in the characters of its id. */
  ghost predicate NamesUnwritten(parse: StepParser, s: Store, x: Id, y: Id) {
    Names(parse, s, x, y) && !Contains(s[x].body, y)
  }

  predicate IsProposed(s: Store, x: Id) {
    x in s && s[x].fm.status.Proposed?
  }

  ghost predicate CarryPath(parse: StepParser, s: Store, path: seq<Id>) {
    && |path| >= 2
    && (forall i :: 0 <= i < |path| - 1 ==> Names(parse, s, path[i], path[i + 1]))
    && (forall i :: 1 <= i < |path| - 1 ==> IsProposed(s, path[i]))
  }

  /** `x` is named by the root, or by a proposed artifact so reached. */
  ghost predicate Reached(parse: StepParser, s: Store, root: Id, x: Id) {
    exists path :: CarryPath(parse, s, path) && path[0] == root && path[|path| - 1] == x
  }

  /** Reasons for which an artifact reached by the cascade refuses it. */
  ghost predicate Refuses(parse: StepParser, s: Store, x: Id) {
    || x !in s
    || s[x].fm.status !in {Approved, Proposed}
    || (s[x].fm.status.Proposed? &&
        (BodyHash(s[x].body) != s[x].fm.hash || (s[x].fm.kind.Composite? && parse(s[x].body).None?)))
  }

  ghost predicate CascadeOk(parse: StepParser, s: Store, root: Id)
    requires root in s
  {
    && (s[root].fm.kind.Composite? ==> parse(s[root].body).Some?)
    && forall x | x != root && Reached(parse, s, root, x) :: !Refuses(parse, s, x)
  }

  ghost predicate Carried(parse: StepParser, s: Store, root: Id, x: Id) {
    x != root && IsProposed(s, x) && Reached(parse, s, root, x)
  }

  // ---- The mention graph --------------------------------------------------

  predicate IsApprovedComposite(s: Store, x: Id) {
    x in s && s[x].fm.kind.Composite? && s[x].fm.status.Approved?
  }

  predicate Mentions(s: Store, x: Id, y: Id) {
    IsApprovedComposite(s, x) && Contains(s[x].body, y)
  }

  ghost predicate MentionPath(s: Store, path: seq<Id>) {
    |path| >= 2 && forall i :: 0 <= i < |path| - 1 ==> Mentions(s, path[i], path[i + 1])
  }

  /** `x` reaches `edited` through mentions by approved composites. */
  ghost predicate Depends(s: Store, x: Id, edited: Id) {
    exists path :: MentionPath(s, path) && path[0] == x && path[|path| - 1] == edited
  }

  ghost predicate Demoted(s: Store, edited: Id, x: Id) {
    x != edited && Depends(s, x, edited)
  }

  // ---- The operations -----------------------------------------------------

  datatype Op =
    | Propose(id: Id, kind: Kind, idempotence: Option<Idempotence>, body: string)
    | Approve(id: Id, user: string, role: string, reason: string)
    | Reject(id: Id, user: string, role: string, reason: string)
    | Edit(id: Id, text: string)
    | MarkApplied(id: Id, log: string)
    | MarkFailed(id: Id, reason: string, log: string)
    | Supersede(id: Id, newId: Id)
    | Revoke(id: Id, user: string, reason: string)

  // ---- The ids accepted at propose ----------------------------------------

  predicate IsDigit(c: char) {
    '0' <= c <= '9'
  }

  predicate IsSlugChar(c: char) {
    'a' <= c <= 'z' || IsDigit(c) || c == '-'
  }

  predicate IsHexChar(c: char) {
    'a' <= c <= 'f' || IsDigit(c)
  }

  /** A date and a hyphen. */
  predicate DatePrefix(id: string) {
    && |id| >= 11 && id[4] == id[7] == id[10] == '-'
    && forall i :: 0 <= i < 10 && i != 4 && i != 7 ==> IsDigit(id[i])
  }

  /** Up to 60 characters, and six hexadecimal digits after another hyphen. */
  predicate IsSlug(slug: string) {
    && slug != "" && (forall i :: 0 <= i < |slug| ==> IsSlugChar(slug[i]))
    && (|slug| <= 60
        || (|slug| <= 67 && slug[|slug| - 7] == '-' && forall i :: |slug| - 6 <= i < |slug| ==> IsHexChar(slug[i])))
  }

  /** A line break at the end passes unnoticed. */
  predicate ValidId(id: Id) {
    var text := if id != "" && id[|id| - 1] == '\n' then id[..|id| - 1] else id;
    DatePrefix(text) && IsSlug(text[11..])
  }

  predicate CanMove(s: Store, id: Id, target: Status) {
    id in s && target in ValidTargets(s[id].fm.status)
  }

  predicate CanPropose(parse: StepParser, s: Store, id: Id, kind: Kind, idempotence: Option<Idempotence>, body: string) {
    && ValidId(id) && id !in s
    && body != ""
    && (!kind.KbNote? ==> idempotence.Some?)
    && (kind.Composite? ==> parse(body).Some? && parse(body).value != [] && "" !in parse(body).value)
  }

  ghost predicate CanApprove(parse: StepParser, s: Store, id: Id) {
    CanMove(s, id, Approved) && BodyHash(s[id].body) == s[id].fm.hash && CascadeOk(parse, s, id)
  }

  function AfterPropose(parse: StepParser, s: Store, id: Id, kind: Kind, idempotence: Option<Idempotence>, body: string): Store {
    if CanPropose(parse, s, id, kind, idempotence, body) then s[id := Proposal(kind, idempotence, body)] else s
  }

  ghost function AfterApprove(parse: StepParser, s: Store, id: Id, user: string, role: string, reason: string): Store {
    if CanApprove(parse, s, id) then
      map x | x in s ::
        if x == id then WithApproval(s[x], Decision(user, role, reason))
        else if Carried(parse, s, id, x) then WithApproval(s[x], Decision(user, role, CascadeReason(reason, id)))
        else s[x]
    else s
  }

  function AfterReject(s: Store, id: Id, user: string, role: string, reason: string): Store {
    if CanMove(s, id, Rejected) then
      s[id := Stored(s[id].fm.(status := Rejected, rejectedBy := Some(Decision(user, role, reason))), s[id].body)]
    else s
  }

  function AfterRevoke(s: Store, id: Id, user: string, reason: string): Store {
    if CanMove(s, id, Revoked) then
      s[id := Stored(s[id].fm.(status := Revoked, revokedBy := Some(Decision(user, "", reason))), s[id].body)]
    else s
  }

  ghost function Invalidated(s: Store, edited: Id): Store {
    map x | x in s :: if Demoted(s, edited, x) then Demote(s[x]) else s[x]
  }

  /** The operator's editor leaves `text` in the artifact's file. */
  function Saved(s: Store, id: Id, text: string): Store
    requires id in s
  {
    s[id := s[id].(body := Reread(text))]
  }

  /** The operator's edit command: the text is saved, whatever the status, and
      recorded where the status allows it. */
  ghost function AfterEdit(s: Store, id: Id, text: string): Store {
    if id in s then RecordedEdit(Saved(s, id, text), id) else s
  }

  ghost function RecordedEdit(s: Store, id: Id): Store
    requires id in s
  {
    if !Editable(s[id].fm.status) || BodyHash(s[id].body) == s[id].fm.hash then s
    else Invalidated(s[id := WithEdit(s[id], s[id].body)], id)
  }

  function AfterApply(s: Store, id: Id, log: string): Store {
    if CanMove(s, id, Applied) then
      var body := WithLog(s[id].body, log);
      s[id := Stored(s[id].fm.(status := Applied, hash := BodyHash(body)), body)]
    else s
  }

  function AfterFail(s: Store, id: Id, reason: string, log: string): Store {
    if CanMove(s, id, Failed) then
      var body := if log != "" then WithLog(s[id].body, log) else s[id].body;
      s[id := Stored(s[id].fm.(status := Failed, failureReason := Some(reason), hash := BodyHash(body)), body)]
    else s
  }

  function AfterSupersede(s: Store, id: Id, newId: Id): Store {
    if CanMove(s, id, Superseded) then
      s[id := Stored(s[id].fm.(status := Superseded, supersededBy := Some(newId)), s[id].body)]
    else s
  }

  ghost function After(parse: StepParser, s: Store, op: Op): Store {
    match op
    case Propose(id, kind, idempotence, body) => AfterPropose(parse, s, id, kind, idempotence, body)
    case Approve(id, user, role, reason) => AfterApprove(parse, s, id, user, role, reason)
    case Reject(id, user, role, reason) => AfterReject(s, id, user, role, reason)
    case Edit(id, text) => AfterEdit(s, id, text)
    case MarkApplied(id, log) => AfterApply(s, id, log)
    case MarkFailed(id, reason, log) => AfterFail(s, id, reason, log)
    case Supersede(id, newId) => AfterSupersede(s, id, newId)
    case Revoke(id, user, reason) => AfterRevoke(s, id, user, reason)
  }

  /** Bodies are held as a reader sees them. */
  ghost predicate Settled(s: Store) {
    forall x :: x in s ==> Reread(s[x].body) == s[x].body
  }

  // ---- Facts about the two graphs -----------------------------------------

  lemma ReachedNext(parse: StepParser, s: Store, root: Id, x: Id, y: Id)
    requires x == root || (Reached(parse, s, root, x) && IsProposed(s, x))
    requires Names(parse, s, x, y)
    ensures Reached(parse, s, root, y)
  {
    if x == root {
      assert CarryPath(parse, s, [root, y]);
    } else {
      var path :| CarryPath(parse, s, path) && path[0] == root && path[|path| - 1] == x;
      var longer := path + [y];
      forall i | 0 <= i < |longer| - 1
        ensures Names(parse, s, longer[i], longer[i + 1])
      {
        if i < |path| - 1 {
          assert Names(parse, s, path[i], path[i + 1]);
        }
      }
      assert CarryPath(parse, s, longer);
    }
  }

  /** A set that holds everything its proposed members and the root name, holds
      everything reached from the root. */
  lemma ClosureCoversReached(parse: StepParser, s: Store, root: Id, v: set<Id>)
    requires forall y, z :: (y == root || (y in v && IsProposed(s, y))) && Names(parse, s, y, z) ==> z in v
    ensures forall x :: Reached(parse, s, root, x) ==> x in v
  {
    forall x | Reached(parse, s, root, x)
      ensures x in v
    {
      var path :| CarryPath(parse, s, path) && path[0] == root && path[|path| - 1] == x;
      PathInside(parse, s, root, v, path, |path| - 1);
    }
  }

  lemma {:induction false} PathInside(parse: StepParser, s: Store, root: Id, v: set<Id>, path: seq<Id>, k: nat)
    requires forall y, z :: (y == root || (y in v && IsProposed(s, y))) && Names(parse, s, y, z) ==> z in v
    requires CarryPath(parse, s, path) && path[0] == root
    requires 1 <= k < |path|
    ensures path[k] in v
  {
    if k > 1 {
      PathInside(parse, s, root, v, path, k - 1);
    }
    assert Names(parse, s, path[k - 1], path[k]);
  }

  lemma DependsNext(s: Store, x: Id, y: Id, edited: Id)
    requires Mentions(s, x, y)
    requires y == edited || Depends(s, y, edited)
    ensures Depends(s, x, edited)
  {
    if y == edited {
      assert MentionPath(s, [x, edited]);
    } else {
      var path :| MentionPath(s, path) && path[0] == y && path[|path| - 1] == edited;
      var longer := [x] + path;
      forall i | 0 <= i < |longer| - 1
        ensures Mentions(s, longer[i], longer[i + 1])
      {
        if i > 0 {
          assert Mentions(s, path[i - 1], path[i]);
        }
      }
      assert MentionPath(s, longer);
    }
  }

  /** A set that holds the edited id and every approved composite mentioning one
      of its members holds every approved composite that depends on the edit. */
  lemma ClosureCoversDependents(s: Store, edited: Id, v: set<Id>)
    requires edited in v
    requires forall x, y :: y in v && Mentions(s, x, y) ==> x in v
    ensures forall x :: Depends(s, x, edited) ==> x in v
  {
    forall x | Depends(s, x, edited)
      ensures x in v
    {
      var path :| MentionPath(s, path) && path[0] == x && path[|path| - 1] == edited;
      ChainInside(s, edited, v, path, 0);
    }
  }

  lemma {:induction false} ChainInside(s: Store, edited: Id, v: set<Id>, path: seq<Id>, k: nat)
    requires edited in v
    requires forall x, y :: y in v && Mentions(s, x, y) ==> x in v
    requires MentionPath(s, path) && path[|path| - 1] == edited
    requires k < |path|
    ensures path[k] in v
    decreases |path| - k
  {
    if k < |path| - 1 {
      ChainInside(s, edited, v, path, k + 1);
      assert Mentions(s, path[k], path[k + 1]);
    }
  }
}
