/** Properties of every run of the artifact lifecycle. */
module LifecycleRuns {
  import opened Wrappers
  import opened ArtifactText
  import opened ArtifactStore
  import opened Lifecycle

  /** The store after a sequence of operations on an empty one. */
  ghost function Run(parse: StepParser, ops: seq<Op>): Store {
    if ops == [] then map[] else After(parse, Run(parse, ops[..|ops| - 1]), ops[|ops| - 1])
  }

  /** The stores a run goes through: before the first operation, and after each. */
  ghost function History(parse: StepParser, ops: seq<Op>): (h: seq<Store>)
    ensures |h| == |ops| + 1
    ensures h[|ops|] == Run(parse, ops)
  {
    if ops == [] then [Run(parse, ops)] else History(parse, ops[..|ops| - 1]) + [Run(parse, ops)]
  }

  lemma {:induction false} HistoryAt(parse: StepParser, ops: seq<Op>, k: nat)
    requires k <= |ops|
    ensures History(parse, ops)[k] == Run(parse, ops[..k])
  {
    if k < |ops| {
      HistoryAt(parse, ops[..|ops| - 1], k);
      assert ops[..|ops| - 1][..k] == ops[..k];
    } else {
      assert ops[..k] == ops;
    }
  }

  // ---- What every run keeps, whatever the specs say -----------------------

  ghost predicate ApprovedHashesMatch(s: Store) {
    forall x :: x in s && s[x].fm.status.Approved? ==> BodyHash(s[x].body) == s[x].fm.hash
  }

  /** An approval is on record while it can still be acted on, and cleared with it. */
  ghost predicate ApprovalsRecorded(s: Store) {
    forall x :: x in s ==>
      && (s[x].fm.status in {Approved, Failed} ==> s[x].fm.approvedBy.Some?)
      && (s[x].fm.status in {Proposed, Rejected} ==> s[x].fm.approvedBy.None?)
  }

  ghost predicate InOrder(s: Store) {
    Settled(s) && ApprovedHashesMatch(s) && ApprovalsRecorded(s)
  }

  lemma ApproveStaysInOrder(parse: StepParser, s: Store, id: Id, user: string, role: string, reason: string)
    requires InOrder(s)
    ensures InOrder(AfterApprove(parse, s, id, user, role, reason))
  {
    hide Normalized, Reread, WithLog;
    if CanApprove(parse, s, id) {
      forall x | x in s && Carried(parse, s, id, x)
        ensures BodyHash(s[x].body) == s[x].fm.hash
      {
        assert !Refuses(parse, s, x);
      }
    }
  }

  lemma EditStaysInOrder(s: Store, id: Id, text: string)
    requires InOrder(s)
    ensures InOrder(AfterEdit(s, id, text))
  {
    hide Normalized, Reread, WithLog;
    RereadIdempotent(text);
  }

  lemma StepStaysInOrder(parse: StepParser, s: Store, op: Op)
    requires InOrder(s)
    ensures InOrder(After(parse, s, op))
  {
    match op
    case Approve(id, user, role, reason) => ApproveStaysInOrder(parse, s, id, user, role, reason);
    case Edit(id, text) => EditStaysInOrder(s, id, text);
    case _ => SimpleStepStaysInOrder(parse, s, op);
  }

  lemma SimpleStepStaysInOrder(parse: StepParser, s: Store, op: Op)
    requires InOrder(s) && !op.Approve? && !op.Edit?
    ensures InOrder(After(parse, s, op))
  {
    hide Normalized, Reread, WithLog;
    if After(parse, s, op) != s {
      RereadIdempotent(if op.Propose? then op.body
                       else if op.MarkApplied? || op.MarkFailed? then WithLog(s[op.id].body, op.log)
                       else "");
    }
  }

  /** In every run what is approved has a hash that matches its body, and an
      approval is on record as long as it can be acted on. */
  lemma {:induction false} RunIsInOrder(parse: StepParser, ops: seq<Op>)
    ensures InOrder(Run(parse, ops))
  {
    if ops != [] {
      RunIsInOrder(parse, ops[..|ops| - 1]);
      StepStaysInOrder(parse, Run(parse, ops[..|ops| - 1]), ops[|ops| - 1]);
    }
  }

  // ---- Approved composites have runnable steps ----------------------------

  /** The spec can be read, and names no artifact that is proposed, rejected or missing. */
  ghost predicate StepsUp(parse: StepParser, s: Store, body: string) {
    && parse(body).Some?
    && forall y | y in parse(body).value && y != "" :: y in s && s[y].fm.status !in {Proposed, Rejected}
  }

  ghost predicate StepsStand(parse: StepParser, s: Store) {
    forall x :: IsApprovedComposite(s, x) ==> StepsUp(parse, s, s[x].body)
  }

  ghost predicate Sound(parse: StepParser, s: Store) {
    InOrder(s) && StepsStand(parse, s)
  }

  /** After an approval, every step named by the root, or by an artifact the
      approval carried, is approved. */
  lemma ApprovalReachesEveryStep(parse: StepParser, s: Store, id: Id, user: string, role: string, reason: string, x: Id, y: Id)
    requires Settled(s) && CanApprove(parse, s, id)
    requires x == id || Carried(parse, s, id, x)
    requires Names(parse, s, x, y)
    ensures var t := AfterApprove(parse, s, id, user, role, reason);
            y in t && t[y].fm.status == Approved
  {
    ReachedNext(parse, s, id, x, y);
    if y != id {
      assert !Refuses(parse, s, y);
    }
  }

  lemma ApproveKeeps(parse: StepParser, s: Store, id: Id, user: string, role: string, reason: string)
    requires Sound(parse, s)
    ensures Sound(parse, AfterApprove(parse, s, id, user, role, reason))
  {
    hide Normalized, Reread, WithLog;
    ApproveStaysInOrder(parse, s, id, user, role, reason);
    var t := AfterApprove(parse, s, id, user, role, reason);
    if CanApprove(parse, s, id) {
      forall x | IsApprovedComposite(t, x)
        ensures StepsUp(parse, t, t[x].body)
      {
        assert t[x].body == s[x].body;
        if Carried(parse, s, id, x) {
          assert !Refuses(parse, s, x);
        }
        forall y | y in parse(t[x].body).value && y != ""
          ensures y in t && t[y].fm.status !in {Proposed, Rejected}
        {
          if x == id || Carried(parse, s, id, x) {
            assert Names(parse, s, x, y);
            ApprovalReachesEveryStep(parse, s, id, user, role, reason, x, y);
          }
        }
      }
    }
  }

  /** After an invalidation no approved composite mentions the edited artifact
      or a demoted one. */
  lemma InvalidationLeavesNoMention(s: Store, edited: Id, x: Id, y: Id)
    requires Settled(s)
    requires x != edited && IsApprovedComposite(Invalidated(s, edited), x)
    requires y == edited || Demoted(s, edited, y)
    ensures !Contains(Invalidated(s, edited)[x].body, y)
  {
    if Contains(Invalidated(s, edited)[x].body, y) {
      assert Mentions(s, x, y);
      DependsNext(s, x, y, edited);
      assert false;
    }
  }

  /** The store in which the saved body of `id` is recorded as edited. */
  function Recorded(s: Store, id: Id, text: string): Store
    requires id in s
  {
    Saved(s, id, text)[id := WithEdit(Saved(s, id, text)[id], Reread(text))]
  }

  /** Whoever names the edited artifact or a demoted one in other characters than
      those of its id is demoted for some other mention. */
  ghost predicate FoundOtherwise(parse: StepParser, edited: Store, id: Id) {
    forall x, y :: IsApprovedComposite(edited, x) && NamesUnwritten(parse, edited, x, y) && (y == id || Demoted(edited, id, y)) ==>
      Demoted(edited, id, x)
  }

  /** What a save must meet: with an unchanged hash, an approved composite still
      reads, and names nothing that is not up; with a changed one, no step is
      named only in characters that the invalidation does not look for. */
  ghost predicate EditSafe(parse: StepParser, s: Store, id: Id, text: string)
    requires id in s
  {
    if !Editable(s[id].fm.status) then true
    else if BodyHash(Reread(text)) == s[id].fm.hash then IsApprovedComposite(s, id) ==> StepsUp(parse, s, Reread(text))
    else FoundOtherwise(parse, Recorded(s, id, text), id)
  }

  /** A composite that names what is demoted, but is not demoted itself, is left
      approved over a step that is proposed. */
  lemma UnwrittenStepBreaks(parse: StepParser, edited: Store, id: Id, x: Id, y: Id)
    requires Settled(edited) && id in edited && edited[id].fm.status.Proposed?
    requires IsApprovedComposite(edited, x) && !Demoted(edited, id, x)
    requires Names(parse, edited, x, y) && (y == id || Demoted(edited, id, y))
    ensures !StepsStand(parse, Invalidated(edited, id))
  {
    var u := Invalidated(edited, id);
    assert IsApprovedComposite(u, x) && u[x] == edited[x];
    assert y in u ==> u[y].fm.status.Proposed?;
  }

  lemma InvalidationKeepsIff(parse: StepParser, s: Store, edited: Store, id: Id)
    requires StepsStand(parse, s) && Settled(edited)
    requires edited.Keys == s.Keys && id in s && edited[id].fm.status.Proposed?
    requires forall x :: x in s && x != id ==> edited[x] == s[x]
    ensures StepsStand(parse, Invalidated(edited, id)) <==> FoundOtherwise(parse, edited, id)
  {
    hide Normalized, Reread, WithLog;
    var u := Invalidated(edited, id);
    if FoundOtherwise(parse, edited, id) {
      forall x | IsApprovedComposite(u, x)
        ensures StepsUp(parse, u, u[x].body)
      {
        assert u[x] == s[x] && IsApprovedComposite(s, x);
        forall y | y in parse(u[x].body).value && y != ""
          ensures y in u && u[y].fm.status !in {Proposed, Rejected}
        {
          if y == id || Demoted(edited, id, y) {
            assert !NamesUnwritten(parse, edited, x, y);
            InvalidationLeavesNoMention(edited, id, x, y);
            assert false;
          }
        }
      }
    }
    if !FoundOtherwise(parse, edited, id) {
      var x, y :| IsApprovedComposite(edited, x) && NamesUnwritten(parse, edited, x, y)
                  && (y == id || Demoted(edited, id, y)) && !Demoted(edited, id, x);
      UnwrittenStepBreaks(parse, edited, id, x, y);
    }
  }

  /** An edit keeps the store sound exactly when it is safe. */
  lemma EditKeepsIff(parse: StepParser, s: Store, id: Id, text: string)
    requires Sound(parse, s) && id in s
    ensures Sound(parse, AfterEdit(s, id, text)) <==> EditSafe(parse, s, id, text)
  {
    hide Normalized, Reread, WithLog;
    EditStaysInOrder(s, id, text);
    RereadIdempotent(text);
    var t := AfterEdit(s, id, text);
    if Editable(s[id].fm.status) && BodyHash(Reread(text)) != s[id].fm.hash {
      assert t == Invalidated(Recorded(s, id, text), id);
      InvalidationKeepsIff(parse, s, Recorded(s, id, text), id);
    } else {
      SavingKeepsIff(parse, s, id, text);
    }
  }

  lemma SavingKeepsIff(parse: StepParser, s: Store, id: Id, text: string)
    requires StepsStand(parse, s) && id in s
    ensures StepsStand(parse, Saved(s, id, text)) <==>
            (IsApprovedComposite(s, id) ==> StepsUp(parse, s, Reread(text)))
  {
    hide Reread;
    var t := Saved(s, id, text);
    forall body: string
      ensures StepsUp(parse, t, body) == StepsUp(parse, s, body)
    {
    }
    forall x
      ensures IsApprovedComposite(t, x) == IsApprovedComposite(s, x)
    {
    }
    if StepsStand(parse, t) && IsApprovedComposite(s, id) {
      assert IsApprovedComposite(t, id);
    }
  }

  /** Rewriting one artifact into a state that is neither approved, proposed nor
      rejected (rejection only of what was proposed). */
  lemma ReplaceKeeps(parse: StepParser, s: Store, id: Id, a: Artifact)
    requires StepsStand(parse, s)
    requires !a.fm.status.Approved?
    requires a.fm.status in {Proposed, Rejected} ==> id !in s || s[id].fm.status.Proposed?
    ensures StepsStand(parse, s[id := a])
  {
    var t := s[id := a];
    forall x | IsApprovedComposite(t, x)
      ensures StepsUp(parse, t, t[x].body)
    {
      assert IsApprovedComposite(s, x) && StepsUp(parse, s, s[x].body);
    }
  }

  lemma SimpleStepKeeps(parse: StepParser, s: Store, op: Op)
    requires Sound(parse, s) && !op.Approve? && !op.Edit?
    ensures Sound(parse, After(parse, s, op))
  {
    hide Normalized, Reread, WithLog;
    StepStaysInOrder(parse, s, op);
    var t := After(parse, s, op);
    if t != s {
      assert t == s[op.id := t[op.id]];
      ReplaceKeeps(parse, s, op.id, t[op.id]);
    }
  }

  ghost predicate StepSafe(parse: StepParser, s: Store, op: Op) {
    op.Edit? && op.id in s ==> EditSafe(parse, s, op.id, op.text)
  }

  /** Of all operations only an unsafe edit breaks it. */
  lemma StepKeepsIff(parse: StepParser, s: Store, op: Op)
    requires Sound(parse, s)
    ensures Sound(parse, After(parse, s, op)) <==> StepSafe(parse, s, op)
  {
    match op
    case Approve(id, user, role, reason) => ApproveKeeps(parse, s, id, user, role, reason);
    case Edit(id, text) =>
      if id in s {
        EditKeepsIff(parse, s, id, text);
      }
    case _ => SimpleStepKeeps(parse, s, op);
  }

  ghost predicate EditsSafe(parse: StepParser, ops: seq<Op>) {
    ops == [] ||
    var n := |ops| - 1;
    EditsSafe(parse, ops[..n]) && StepSafe(parse, Run(parse, ops[..n]), ops[n])
  }

  /** All through a run no approved composite names a step artifact that is
      proposed, rejected or missing, exactly when every edit in it is safe. */
  lemma {:induction false} EveryRunIsSoundIff(parse: StepParser, ops: seq<Op>)
    ensures (forall s :: s in History(parse, ops) ==> Sound(parse, s)) <==> EditsSafe(parse, ops)
  {
    if ops != [] {
      hide Sound, StepSafe, After;
      var n := |ops| - 1;
      EveryRunIsSoundIff(parse, ops[..n]);
      var before := History(parse, ops[..n]);
      assert before[n] in before;
      assert forall s :: s in History(parse, ops) <==> s in before || s == Run(parse, ops);
      if Sound(parse, Run(parse, ops[..n])) {
        StepKeepsIff(parse, Run(parse, ops[..n]), ops[n]);
      }
    } else {
      assert forall s :: s in History(parse, ops) ==> s == map[];
    }
  }

  /** Approved composites write each id they name literally, and a text saved with
      an unchanged hash names the steps it named before. */
  ghost predicate PlainlyWritten(parse: StepParser, s: Store, op: Op) {
    op.Edit? && op.id in s ==>
      && (forall x, y :: IsApprovedComposite(s, x) ==> !NamesUnwritten(parse, s, x, y))
      && (IsApprovedComposite(s, op.id) && BodyHash(Reread(op.text)) == BodyHash(s[op.id].body) ==>
            parse(Reread(op.text)) == parse(s[op.id].body))
  }

  ghost predicate PlainlyWrittenRun(parse: StepParser, ops: seq<Op>) {
    ops == [] ||
    var n := |ops| - 1;
    PlainlyWrittenRun(parse, ops[..n]) && PlainlyWritten(parse, Run(parse, ops[..n]), ops[n])
  }

  lemma PlainlyWrittenIsSafe(parse: StepParser, s: Store, op: Op)
    requires Sound(parse, s) && PlainlyWritten(parse, s, op)
    ensures StepSafe(parse, s, op)
  {
    hide Normalized, Reread, WithLog;
    if op.Edit? && op.id in s && Editable(s[op.id].fm.status) {
      if BodyHash(Reread(op.text)) == s[op.id].fm.hash {
        if IsApprovedComposite(s, op.id) {
          assert StepsUp(parse, s, s[op.id].body);
        }
      } else {
        var edited := Recorded(s, op.id, op.text);
        forall x, y | IsApprovedComposite(edited, x)
          ensures !NamesUnwritten(parse, edited, x, y)
        {
          assert edited[x] == s[x] && IsApprovedComposite(s, x);
          assert !NamesUnwritten(parse, s, x, y);
        }
      }
    }
  }

  /** So does every run whose specs are plainly written: no approved composite
      names a step artifact that is proposed, rejected or missing. */
  lemma {:induction false} EveryRunIsSound(parse: StepParser, ops: seq<Op>)
    requires PlainlyWrittenRun(parse, ops)
    ensures Sound(parse, Run(parse, ops))
  {
    if ops != [] {
      var n := |ops| - 1;
      EveryRunIsSound(parse, ops[..n]);
      PlainlyWrittenIsSafe(parse, Run(parse, ops[..n]), ops[n]);
      StepKeepsIff(parse, Run(parse, ops[..n]), ops[n]);
    }
  }

  // ---- How one operation moves one artifact -------------------------------

  predicate Edits(op: Op, id: Id) {
    op.Edit? && op.id == id
  }

  /** The ways in which `op` can turn artifact `a`, stored as `id`, into `b`. */
  predicate Evolves(op: Op, id: Id, a: Artifact, b: Artifact) {
    && b.fm.kind == a.fm.kind
    && (Edits(op, id) ==> b.body == Reread(op.text))
    && (LeftAlone(op, id, a, b) || NewlyApproved(op, a, b) || EditedInPlace(op, id, a, b)
        || DemotedByEdit(op, id, a, b) || MovedOn(op, id, a, b))
  }

  /** Unchanged, but for the text an edit that is not recorded leaves behind. */
  predicate LeftAlone(op: Op, id: Id, a: Artifact, b: Artifact) {
    && b.fm == a.fm
    && (!Edits(op, id) ==> b.body == a.body)
    && (Edits(op, id) && Editable(a.fm.status) ==> BodyHash(b.body) == a.fm.hash)
  }

  predicate NewlyApproved(op: Op, a: Artifact, b: Artifact) {
    && op.Approve? && a.fm.status in {Proposed, Failed} && b.fm.status.Approved?
    && BodyHash(a.body) == a.fm.hash && b.fm.hash == a.fm.hash && b.body == a.body
  }

  predicate EditedInPlace(op: Op, id: Id, a: Artifact, b: Artifact) {
    && Edits(op, id) && Editable(a.fm.status) && b.fm.status.Proposed?
    && BodyHash(b.body) == b.fm.hash != a.fm.hash
  }

  predicate DemotedByEdit(op: Op, id: Id, a: Artifact, b: Artifact) {
    && op.Edit? && op.id != id && a.fm.status.Approved?
    && b == a.(fm := a.fm.(status := Proposed, approvedBy := None))
  }

  predicate MovedOn(op: Op, id: Id, a: Artifact, b: Artifact) {
    && op.id == id && !op.Edit? && b.fm.status in ValidTargets(a.fm.status) - {Approved, Proposed}
    && (b.fm.status.Applied? ==>
          op.MarkApplied? && b.body == Reread(WithLog(a.body, op.log)) && b.fm.hash == BodyHash(WithLog(a.body, op.log)))
  }

  ghost predicate EvolvesIn(s: Store, op: Op, id: Id, t: Store) {
    if id in s then id in t && Evolves(op, id, s[id], t[id])
    else id in t ==> t[id].fm.status.Proposed? || (t[id].fm.kind.KbNote? && t[id].fm.status.Applied?)
  }

  lemma ApproveMoves(parse: StepParser, s: Store, op: Op, id: Id)
    requires Settled(s) && op.Approve?
    ensures EvolvesIn(s, op, id, AfterApprove(parse, s, op.id, op.user, op.role, op.reason))
  {
    hide Normalized, Reread, WithLog;
    if Carried(parse, s, op.id, id) && CanApprove(parse, s, op.id) {
      assert !Refuses(parse, s, id);
    }
  }

  lemma OnlyApprovedDemoted(s: Store, edited: Id, x: Id)
    requires Demoted(s, edited, x)
    ensures IsApprovedComposite(s, x)
  {
    var path :| MentionPath(s, path) && path[0] == x && path[|path| - 1] == edited;
    assert Mentions(s, path[0], path[1]);
  }

  lemma InvalidationMoves(s: Store, op: Op, id: Id)
    requires Settled(s) && op.Edit? && id != op.id
    ensures EvolvesIn(s, op, id, Invalidated(s, op.id))
  {
    if Demoted(s, op.id, id) {
      OnlyApprovedDemoted(s, op.id, id);
    }
  }

  lemma EditMoves(s: Store, op: Op, id: Id)
    requires Settled(s) && op.Edit?
    ensures EvolvesIn(s, op, id, AfterEdit(s, op.id, op.text))
  {
    hide Normalized, Reread, WithLog;
    if op.id in s {
      RereadIdempotent(op.text);
      if Editable(s[op.id].fm.status) && BodyHash(Reread(op.text)) != s[op.id].fm.hash {
        if id != op.id {
          InvalidationMoves(Recorded(s, op.id, op.text), op, id);
        }
      }
    }
  }

  lemma SimpleMoves(parse: StepParser, s: Store, op: Op, id: Id)
    requires Settled(s) && !op.Approve? && !op.Edit?
    ensures EvolvesIn(s, op, id, After(parse, s, op))
  {
    hide Normalized, Reread, WithLog;
    if id == op.id {
      match op
      case Propose(_, _, _, _) =>
      case Reject(_, _, _, _) =>
      case MarkApplied(_, _) =>
      case MarkFailed(_, _, _) =>
      case Supersede(_, _) =>
      case Revoke(_, _, _) =>
    } else {
      ElsewhereUntouched(parse, s, op, id);
    }
  }

  lemma ElsewhereUntouched(parse: StepParser, s: Store, op: Op, id: Id)
    requires !op.Approve? && !op.Edit? && id != op.id
    ensures var t := After(parse, s, op); if id in s then id in t && t[id] == s[id] else id !in t
  {
  }

  lemma StepMoves(parse: StepParser, s: Store, op: Op, id: Id)
    requires Settled(s)
    ensures EvolvesIn(s, op, id, After(parse, s, op))
  {
    if op.Approve? {
      ApproveMoves(parse, s, op, id);
    } else if op.Edit? {
      EditMoves(s, op, id);
    } else {
      SimpleMoves(parse, s, op, id);
    }
  }

  // ---- What is applied is what was approved -------------------------------

  ghost predicate Tracked(h: seq<Store>, ops: seq<Op>, id: Id) {
    && |h| == |ops| + 1
    && id !in h[0]
    && forall i :: 0 <= i < |ops| ==> EvolvesIn(h[i], ops[i], id, h[i + 1])
  }

  lemma {:induction false} RunIsTracked(parse: StepParser, ops: seq<Op>, id: Id)
    ensures Tracked(History(parse, ops), ops, id)
  {
    if ops != [] {
      var n := |ops| - 1;
      RunIsTracked(parse, ops[..n], id);
      RunIsInOrder(parse, ops[..n]);
      StepMoves(parse, Run(parse, ops[..n]), ops[n], id);
      TrackedNext(History(parse, ops[..n]), ops[..n], id, ops[n], Run(parse, ops));
      assert ops[..n] + [ops[n]] == ops;
    }
  }

  lemma TrackedNext(h: seq<Store>, ops: seq<Op>, id: Id, op: Op, t: Store)
    requires Tracked(h, ops, id) && EvolvesIn(h[|ops|], op, id, t)
    ensures Tracked(h + [t], ops + [op], id)
  {
  }

  /** A body after operations `from` to `n`, as far as the operator's editor is
      concerned: the text last saved, or else the body before them. */
  function LastSaved(ops: seq<Op>, id: Id, from: nat, n: nat, body: string): string
    requires n <= |ops|
  {
    if n <= from then body
    else if Edits(ops[n - 1], id) then Reread(ops[n - 1].text)
    else LastSaved(ops, id, from, n - 1, body)
  }

  /** The last edit, if there was one, put the body back as it was. */
  predicate LastEditRestores(ops: seq<Op>, id: Id, from: nat, n: nat, body: string)
    requires n <= |ops|
  {
    forall j | from <= j < n && Edits(ops[j], id) && (forall i | j < i < n :: !Edits(ops[i], id)) ::
      Reread(ops[j].text) == body
  }

  lemma {:induction false} LastSavedIff(ops: seq<Op>, id: Id, from: nat, n: nat, body: string)
    requires n <= |ops|
    ensures LastSaved(ops, id, from, n, body) == body <==> LastEditRestores(ops, id, from, n, body)
  {
    hide Reread;
    if n > from && !Edits(ops[n - 1], id) {
      LastSavedIff(ops, id, from, n - 1, body);
      if LastEditRestores(ops, id, from, n, body) {
        forall j | from <= j < n - 1 && Edits(ops[j], id) && (forall i | j < i < n - 1 :: !Edits(ops[i], id))
          ensures Reread(ops[j].text) == body
        {
          assert forall i | j < i < n :: !Edits(ops[i], id);
        }
      }
    }
  }

  /** Operation `k` approved `id`, and up to the `n`th store the approval stood:
      the body hashes as it did then, and is the text the operator last saved
      since, or the approved one. */
  ghost predicate ApprovalStands(h: seq<Store>, ops: seq<Op>, id: Id, k: nat, n: nat)
    requires |h| == |ops| + 1 && n <= |ops|
  {
    && k < n && ops[k].Approve?
    && id in h[k] && h[k][id].fm.status in {Proposed, Failed} && BodyHash(h[k][id].body) == h[k][id].fm.hash
    && (forall j :: k < j <= n ==> StillApproved(h[k], h[j], id))
    && h[n][id].body == LastSaved(ops, id, k + 1, n, h[k][id].body)
  }

  ghost predicate StillApproved(past: Store, now: Store, id: Id) {
    && id in past && id in now
    && now[id].fm.status.Approved?
    && now[id].fm.kind == past[id].fm.kind
    && now[id].fm.hash == past[id].fm.hash == BodyHash(now[id].body)
  }

  /** Operation `m` applied `id` under an approval that stood, writing its body and
      the log; in the `n`th store only the operator's editor has touched it since. */
  ghost predicate AppliedUnder(h: seq<Store>, ops: seq<Op>, id: Id, k: nat, m: nat, n: nat)
    requires |h| == |ops| + 1 && n <= |ops|
  {
    && m < n && ops[m].MarkApplied? && ops[m].id == id
    && ApprovalStands(h, ops, id, k, m)
    && id in h[m] && id in h[n] && h[n][id].fm.status.Applied?
    && var text := WithLog(h[m][id].body, ops[m].log);
       h[n][id].body == LastSaved(ops, id, m + 1, n, Reread(text)) && h[n][id].fm.hash == BodyHash(text)
  }

  lemma EvolvesToApproved(op: Op, id: Id, a: Artifact, b: Artifact)
    requires Evolves(op, id, a, b) && b.fm.status.Approved?
    ensures b.fm.kind == a.fm.kind && b.fm.hash == a.fm.hash
    ensures a.fm.status.Approved? ==>
              b.body == (if Edits(op, id) then Reread(op.text) else a.body)
              && (Edits(op, id) ==> BodyHash(b.body) == a.fm.hash)
    ensures !a.fm.status.Approved? ==> NewlyApproved(op, a, b)
  {
  }

  lemma {:induction false} ApprovalStandsSomewhere(h: seq<Store>, ops: seq<Op>, id: Id, n: nat) returns (k: nat)
    requires Tracked(h, ops, id) && n <= |ops|
    requires id in h[n] && h[n][id].fm.status.Approved?
    ensures ApprovalStands(h, ops, id, k, n)
  {
    hide Normalized, Evolves, Reread;
    var p := n - 1;
    assert EvolvesIn(h[p], ops[p], id, h[n]);
    EvolvesToApproved(ops[p], id, h[p][id], h[n][id]);
    if h[p][id].fm.status.Approved? {
      k := ApprovalStandsSomewhere(h, ops, id, p);
      assert StillApproved(h[k], h[p], id);
    } else {
      k := p;
    }
  }

  lemma {:induction false} AppliedUnderSome(h: seq<Store>, ops: seq<Op>, id: Id, n: nat) returns (k: nat, m: nat)
    requires Tracked(h, ops, id) && n <= |ops|
    requires id in h[n] && h[n][id].fm.status.Applied? && !h[n][id].fm.kind.KbNote?
    ensures AppliedUnder(h, ops, id, k, m, n)
  {
    hide Normalized, Reread;
    var p := n - 1;
    assert EvolvesIn(h[p], ops[p], id, h[n]);
    if h[p][id].fm.status.Applied? {
      k, m := AppliedUnderSome(h, ops, id, p);
    } else {
      m := p;
      k := ApprovalStandsSomewhere(h, ops, id, p);
    }
  }

  /** What is applied is what was approved, or has been saved under the same hash
      since: an applied artifact that is not a kb-note was written with the body
      that stood approved, less its trailing line breaks, followed by the log. Its
      text is the approved one exactly when the last edit in between, if any, put
      it back. */
  lemma AppliedIsWhatWasApproved(parse: StepParser, ops: seq<Op>, id: Id) returns (k: nat, m: nat)
    requires id in Run(parse, ops) && Run(parse, ops)[id].fm.status.Applied? && !Run(parse, ops)[id].fm.kind.KbNote?
    ensures AppliedUnder(History(parse, ops), ops, id, k, m, |ops|)
    ensures var h := History(parse, ops);
            h[m][id].body == h[k][id].body <==> LastEditRestores(ops, id, k + 1, m, h[k][id].body)
  {
    hide Run, History, Tracked, Reread, WithLog, LastSaved, LastEditRestores, StillApproved, BodyHash;
    RunIsTracked(parse, ops, id);
    k, m := AppliedUnderSome(History(parse, ops), ops, id, |ops|);
    LastSavedIff(ops, id, k + 1, m, History(parse, ops)[k][id].body);
  }

  lemma {:induction false} TerminalStays(h: seq<Store>, ops: seq<Op>, id: Id, k: nat, n: nat)
    requires Tracked(h, ops, id) && k <= n <= |ops|
    requires id in h[k] && h[k][id].fm.status in {Rejected, Superseded, Revoked}
    ensures id in h[n] && h[n][id].fm == h[k][id].fm
    ensures h[n][id].body == LastSaved(ops, id, k, n, h[k][id].body)
  {
    hide Normalized, Reread;
    if k < n {
      TerminalStays(h, ops, id, k, n - 1);
      assert EvolvesIn(h[n - 1], ops[n - 1], id, h[n]);
    }
  }

  /** Rejected, superseded and revoked artifacts are never left: their frontmatter
      stays, and their body but for what the operator's editor puts there. */
  lemma TerminalIsForever(parse: StepParser, ops: seq<Op>, k: nat, id: Id)
    requires k <= |ops|
    requires var s := History(parse, ops)[k]; id in s && s[id].fm.status in {Rejected, Superseded, Revoked}
    ensures id in Run(parse, ops) && Run(parse, ops)[id].fm == History(parse, ops)[k][id].fm
    ensures Run(parse, ops)[id].body == LastSaved(ops, id, k, |ops|, History(parse, ops)[k][id].body)
  {
    RunIsTracked(parse, ops, id);
    TerminalStays(History(parse, ops), ops, id, k, |ops|);
  }

  // ---- When a stored hash still matches its body --------------------------

  /** A log written under a settled body is read back with a matching hash
      exactly when that body is not empty and the log holds no bare carriage
      return before its last non-blank character. */
  lemma LoggedHashMatchesIff(body: string, log: string)
    requires Reread(body) == body
    ensures BodyHash(Reread(WithLog(body, log))) == BodyHash(WithLog(body, log)) <==>
            body != "" && BareReturnsOnlyInTail(log + "\n")
  {
    RereadUnchangedIff(body);
    RStripBreaksPrefix(body);
    var head := RStripBreaks(body) + "\n\n## Execution log\n\n";
    assert WithLog(body, log) == head + (log + "\n");
    assert !IsSpace(head[|RStripBreaks(body)| + 2]);
    PlainHeadSurvivesIff(head, log + "\n");
  }

  lemma RStripBreaksPrefix(s: string)
    ensures RStripBreaks(s) <= s
    ensures s != "" && s[0] != '\n' ==> RStripBreaks(s) != ""
  {
  }

  /** A failed artifact can be approved again, as far as its own hash goes,
      exactly under that condition on its body and partial log. */
  lemma ReapprovalAfterFailureIff(s: Store, id: Id, reason: string, log: string)
    requires Settled(s) && CanMove(s, id, Failed)
    ensures var t := AfterFail(s, id, reason, log);
            CanMove(t, id, Approved) &&
            (BodyHash(t[id].body) == t[id].fm.hash <==>
             log == "" || (s[id].body != "" && BareReturnsOnlyInTail(log + "\n")))
  {
    hide Normalized, Reread, WithLog, BareReturnsOnlyInTail;
    LoggedHashMatchesIff(s[id].body, log);
  }

  /** An artifact nobody touched passes its own hash check at approval exactly
      when the proposed body survives being written and read. */
  lemma UntouchedProposalIff(parse: StepParser, s: Store, id: Id, kind: Kind, idempotence: Option<Idempotence>, body: string)
    requires CanPropose(parse, s, id, kind, idempotence, body)
    ensures var t := AfterPropose(parse, s, id, kind, idempotence, body);
            BodyHash(t[id].body) == t[id].fm.hash <==> Blank(body) || SurvivesReading(body)
  {
    HashSurvivesIff(body);
  }

  /** Recording an edit makes the artifact's hash that of its body again, so that
      it can be approved; and it keeps no approval of a body that hashed otherwise. */
  lemma EditedMatchesItsHash(parse: StepParser, s: Store, id: Id, text: string)
    requires Settled(s) && id in s && Editable(s[id].fm.status)
    ensures var t := AfterEdit(s, id, text);
            && id in t && t[id].body == Reread(text) && BodyHash(t[id].body) == t[id].fm.hash
            && (t[id].fm.status == s[id].fm.status || t[id].fm.status.Proposed?)
            && (BodyHash(Reread(text)) != s[id].fm.hash ==> t[id].fm.status.Proposed?)
            && (!t[id].fm.kind.Composite? && !t[id].fm.status.Approved? ==> CanApprove(parse, t, id))
  {
    hide Normalized, Reread;
    RereadIdempotent(text);
    var t := AfterEdit(s, id, text);
    assert !Demoted(s[id := WithEdit(s[id].(body := Reread(text)), Reread(text))], id, id);
    if !t[id].fm.kind.Composite? {
      assert forall y :: !Names(parse, t, id, y);
      ClosureCoversReached(parse, t, id, {});
    }
  }
}
