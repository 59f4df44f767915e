/** Runs of the artifact lifecycle in which the program does something else than
    its documentation says. */
module Departures {
  import opened Wrappers
  import opened ArtifactText
  import opened ArtifactStore
  import opened Lifecycle
  import opened LifecycleRuns

  const NATURAL: Option<Idempotence> := Some(DeclaredNatural)

  lemma RunNext(parse: StepParser, ops: seq<Op>, op: Op)
    ensures Run(parse, ops + [op]) == After(parse, Run(parse, ops), op)
  {
    assert (ops + [op])[..|ops|] == ops;
  }

  /** What a reader and the hash make of a text that needs no change. */
  lemma PlainText(text: string)
    requires '\r' !in text && (text != "" ==> text[0] != '\n')
    ensures Reread(text) == text
  {
    RereadUnchangedIff(text);
  }

  /** A single-step store: approving something that names no step. */
  lemma ApprovesAlone(parse: StepParser, s: Store, id: Id)
    requires CanMove(s, id, Approved) && BodyHash(s[id].body) == s[id].fm.hash && !s[id].fm.kind.Composite?
    ensures CanApprove(parse, s, id)
    ensures forall x :: !Carried(parse, s, id, x)
  {
    assert forall y :: !Names(parse, s, id, y);
    ClosureCoversReached(parse, s, id, {});
  }

  /** A composite that names one proposed artifact, itself no composite. */
  lemma ApprovesWithStep(parse: StepParser, s: Store, id: Id, step: Id)
    requires id != step && step != "" && IsProposed(s, id) && s[id].fm.kind.Composite? && parse(s[id].body) == Some([step])
    requires IsProposed(s, step) && !s[step].fm.kind.Composite?
    requires BodyHash(s[id].body) == s[id].fm.hash && BodyHash(s[step].body) == s[step].fm.hash
    ensures CanApprove(parse, s, id)
    ensures forall x :: Carried(parse, s, id, x) <==> x == step
  {
    ClosureCoversReached(parse, s, id, {step});
    assert Names(parse, s, id, step);
    assert CarryPath(parse, s, [id, step]);
  }

  // ---- A step that is not written as its id -------------------------------

  const STEP := "2026-01-01-q"
  const PLAN := "2026-01-01-plan"

  /** The spec names the step with its last character escaped. */
  const OPENING := "```yaml " + "composite-spec" + "\nsteps:\n"
  const ESCAPED := OPENING + "- {id: a, artifact: " + "\"2026-01-01-" + "\\x71\"}\n```\n"

  lemma {:induction false} ContainsChars(text: string, part: string, c: char)
    requires Contains(text, part) && c in part
    ensures c in text
  {
    if !(part <= text) {
      ContainsChars(text[1..], part, c);
    }
  }

  /** The two artifacts, proposed. */
  function StepAndComposite(step: Id, plan: Id, spec: string): Store {
    map[step := Proposal(ShellScript, NATURAL, "x"), plan := Proposal(Composite, NATURAL, spec)]
  }

  function ProposeBoth(step: Id, plan: Id, spec: string): seq<Op> {
    [Propose(step, ShellScript, NATURAL, "x"), Propose(plan, Composite, NATURAL, spec)]
  }

  /** Two ids that are accepted, and the text of a spec that names the first. */
  predicate Proposable(parse: StepParser, step: Id, plan: Id, spec: string) {
    && ValidId(step) && ValidId(plan) && step != plan && step != ""
    && '\r' !in spec && spec != "" && spec[0] != '\n' && parse(spec) == Some([step])
  }

  lemma ProposesBoth(parse: StepParser, step: Id, plan: Id, spec: string)
    requires Proposable(parse, step, plan, spec)
    ensures Run(parse, ProposeBoth(step, plan, spec)) == StepAndComposite(step, plan, spec)
  {
    hide Proposal, ValidId;
    var a, b := Propose(step, ShellScript, NATURAL, "x"), Propose(plan, Composite, NATURAL, spec);
    RunNext(parse, [], a);
    RunNext(parse, [a], b);
    assert [] + [a] == [a] && [a] + [b] == ProposeBoth(step, plan, spec);
  }

  function BothApproved(step: Id, plan: Id, spec: string): Store
    requires step != plan
  {
    var s := StepAndComposite(step, plan, spec);
    map[plan := WithApproval(s[plan], Decision("u", "", "")),
        step := WithApproval(s[step], Decision("u", "", CascadeReason("", plan)))]
  }

  lemma ApprovesBoth(parse: StepParser, step: Id, plan: Id, spec: string)
    requires Proposable(parse, step, plan, spec)
    ensures Run(parse, ProposeBoth(step, plan, spec) + [Approve(plan, "u", "", "")]) == BothApproved(step, plan, spec)
    ensures var s := BothApproved(step, plan, spec);
            && s.Keys == {plan, step} && IsApprovedComposite(s, plan) && s[plan].body == spec
            && s[step].fm.status.Approved? && s[step].fm.kind.ShellScript? && s[step].fm.hash == BodyHash("x")
            && Settled(s)
  {
    RunIsInOrder(parse, ProposeBoth(step, plan, spec) + [Approve(plan, "u", "", "")]);
    hide Reread, Normalized, ValidId;
    PlainText(spec);
    PlainText("x");
    ProposesBoth(parse, step, plan, spec);
    RunNext(parse, ProposeBoth(step, plan, spec), Approve(plan, "u", "", ""));
    ApprovesWithStep(parse, StepAndComposite(step, plan, spec), plan, step);
  }

  lemma EscapedIsPlain()
    ensures '\r' !in ESCAPED && 'q' !in ESCAPED && ESCAPED != "" && ESCAPED[0] == '`'
  {
    OpeningIsPlain();
    assert '\r' !in "- {id: a, artifact: " && 'q' !in "- {id: a, artifact: ";
    assert '\r' !in "\"2026-01-01-" && 'q' !in "\"2026-01-01-";
    assert '\r' !in "\\x71\"}\n```\n" && 'q' !in "\\x71\"}\n```\n";
  }

  lemma OpeningIsPlain()
    ensures '\r' !in OPENING && 'q' !in OPENING && OPENING != "" && OPENING[0] == '`'
  {
    var a, b, c := "```yaml ", "composite-spec", "\nsteps:\n";
    assert '\r' !in a && 'q' !in a && a[0] == '`';
    assert '\r' !in b && 'q' !in b;
    assert '\r' !in c && 'q' !in c;
  }

  lemma StepIsValid()
    ensures ValidId(STEP) && 'q' in STEP && |STEP| == 12
  {
    var id := "2026-01-01-q";
    assert id[11..] == "q" && id[11] == 'q';
  }

  lemma PlanIsValid()
    ensures ValidId(PLAN) && |PLAN| == 15
  {
    var id := "2026-01-01-plan";
    assert id[11..] == "plan";
  }

  /** An escaped step id escapes the invalidation: after an edit of the step its
      composite is still approved over a step that is proposed. */
  lemma EscapedStepIsMissed(parse: StepParser) returns (ops: seq<Op>)
    requires parse(ESCAPED) == Some([STEP])
    ensures var s := Run(parse, ops);
            && IsApprovedComposite(s, PLAN) && Names(parse, s, PLAN, STEP) && IsProposed(s, STEP)
            && !StepsStand(parse, s)
  {
    hide ValidId, Contains, Run, StepsStand, IsApprovedComposite, Names;
    var step, plan, spec := STEP, PLAN, ESCAPED;
    StepIsValid();
    PlanIsValid();
    EscapedIsPlain();
    if Contains(spec, step) {
      ContainsChars(spec, step, 'q');
      assert false;
    }
    ops := UnwrittenStepIsMissed(parse, step, plan, spec);
  }

  lemma UnwrittenStepIsMissed(parse: StepParser, step: Id, plan: Id, spec: string) returns (ops: seq<Op>)
    requires Proposable(parse, step, plan, spec) && !Contains(spec, step)
    ensures var s := Run(parse, ops);
            && IsApprovedComposite(s, plan) && Names(parse, s, plan, step) && IsProposed(s, step)
            && !StepsStand(parse, s)
  {
    assert step != plan && parse(spec) == Some([step]) && step != "";
    hide *;
    var before := ProposeBoth(step, plan, spec) + [Approve(plan, "u", "", "")];
    ops := before + [Edit(step, "y")];
    ApprovesBoth(parse, step, plan, spec);
    RunNext(parse, before, Edit(step, "y"));
    AfterIsEdit(parse, BothApproved(step, plan, spec), step, "y");
    EditMissesUnwritten(parse, BothApproved(step, plan, spec), step, plan);
  }

  lemma AfterIsEdit(parse: StepParser, s: Store, id: Id, text: string)
    ensures After(parse, s, Edit(id, text)) == AfterEdit(s, id, text)
  {
  }

  lemma EditMissesUnwritten(parse: StepParser, s: Store, step: Id, plan: Id)
    requires Settled(s) && step != plan && step != "" && s.Keys == {plan, step}
    requires IsApprovedComposite(s, plan) && parse(s[plan].body) == Some([step]) && !Contains(s[plan].body, step)
    requires s[step].fm.status.Approved? && s[step].fm.kind.ShellScript? && s[step].fm.hash == BodyHash("x")
    ensures var t := AfterEdit(s, step, "y");
            IsApprovedComposite(t, plan) && Names(parse, t, plan, step) && IsProposed(t, step) && !StepsStand(parse, t)
  {
    hide Normalized, Reread, Contains;
    PlainText("y");
    XAndYDiffer();
    var edited := Recorded(s, step, "y");
    NothingDemoted(edited, step);
    assert AfterEdit(s, step, "y") == Invalidated(edited, step);
    UnwrittenStepBreaks(parse, edited, step, plan, step);
  }

  lemma XAndYDiffer()
    ensures BodyHash("x") != BodyHash("y")
  {
    assert LineAt("x", 0) == "x" && LineAt("y", 0) == "y";
    HashesAlikeIff("x", "y");
  }

  lemma DependsMentions(s: Store, x: Id, id: Id)
    requires Depends(s, x, id)
    ensures exists z :: Mentions(s, z, id)
  {
    var path :| MentionPath(s, path) && path[0] == x && path[|path| - 1] == id;
    assert Mentions(s, path[|path| - 2], path[|path| - 1]);
  }

  lemma NothingDemoted(s: Store, id: Id)
    requires forall x :: !Mentions(s, x, id)
    ensures forall x :: !Demoted(s, id, x)
  {
    forall x
      ensures !Depends(s, x, id)
    {
      if Depends(s, x, id) {
        DependsMentions(s, x, id);
        assert false;
      }
    }
  }

  // ---- A save that leaves the hash as it was ------------------------------

  const FORMFEED: char := '\U{0c}'

  /** A form feed at the end of a line of the spec leaves the hash as it was, so
      the approval stands, over a spec that YAML refuses. */
  lemma FormFeedUnreadsSpec(parse: StepParser, step: Id, plan: Id, a: string, b: string) returns (ops: seq<Op>)
    requires Proposable(parse, step, plan, a + b) && a != "" && b != "" && b[0] == '\n'
    requires parse(a + [FORMFEED] + b).None?
    ensures var s := Run(parse, ops);
            IsApprovedComposite(s, plan) && parse(s[plan].body).None? && !StepsStand(parse, s)
  {
    var spec, text := a + b, a + [FORMFEED] + b;
    TrailingSpaceKeepsHash(a, FORMFEED, b);
    assert spec[0] == a[0] && '\r' !in a && '\r' !in b;
    PlainText(text);
    var before := ProposeBoth(step, plan, spec) + [Approve(plan, "u", "", "")];
    ops := before + [Edit(plan, text)];
    hide *;
    ApprovesBoth(parse, step, plan, spec);
    RunIsInOrder(parse, before);
    RunNext(parse, before, Edit(plan, text));
    AfterIsEdit(parse, BothApproved(step, plan, spec), plan, text);
    SavedUnderHash(parse, BothApproved(step, plan, spec), plan, text);
  }

  lemma SavedUnderHash(parse: StepParser, s: Store, id: Id, text: string)
    requires IsApprovedComposite(s, id) && InOrder(s) && Reread(text) == text
    requires BodyHash(text) == BodyHash(s[id].body) && parse(text).None?
    ensures var t := AfterEdit(s, id, text);
            IsApprovedComposite(t, id) && parse(t[id].body).None? && !StepsStand(parse, t)
  {
    hide Normalized, Reread;
    var t := AfterEdit(s, id, text);
    assert IsApprovedComposite(t, id) && t[id].body == text;
  }

  // ---- One artifact without steps -----------------------------------------

  function ProposeAndApprove(id: Id, idempotence: Idempotence, body: string): seq<Op> {
    [Propose(id, ShellScript, Some(idempotence), body), Approve(id, "u", "", "")]
  }

  function OneApproved(id: Id, idempotence: Idempotence, body: string): Store {
    map[id := WithApproval(Proposal(ShellScript, Some(idempotence), body), Decision("u", "", ""))]
  }

  lemma ApprovesOne(parse: StepParser, id: Id, idempotence: Idempotence, body: string)
    requires ValidId(id) && '\r' !in body && body != "" && body[0] != '\n'
    ensures var h := History(parse, ProposeAndApprove(id, idempotence, body));
            && h[1] == map[id := Proposal(ShellScript, Some(idempotence), body)]
            && h[2] == Run(parse, ProposeAndApprove(id, idempotence, body)) == OneApproved(id, idempotence, body)
    ensures Proposal(ShellScript, Some(idempotence), body).body == body
    ensures var a := OneApproved(id, idempotence, body)[id];
            a.body == body && a.fm.status.Approved? && a.fm.kind.ShellScript? && a.fm.hash == BodyHash(body)
            && a.fm.idempotence == Some(idempotence) && Settled(OneApproved(id, idempotence, body))
  {
    var ops := ProposeAndApprove(id, idempotence, body);
    assert |ops| == 2 && ops[..1] == [Propose(id, ShellScript, Some(idempotence), body)] && ops[..2] == ops;
    hide Normalized, Reread, History, Run, Proposal, OneApproved, ProposeAndApprove;
    HistoryAt(parse, ops, 1);
    HistoryAt(parse, ops, 2);
    RunIsInOrder(parse, ops);
    ProposesAndApproves(parse, id, idempotence, body);
  }

  lemma ProposesAndApproves(parse: StepParser, id: Id, idempotence: Idempotence, body: string)
    requires ValidId(id) && '\r' !in body && body != "" && body[0] != '\n'
    ensures Run(parse, [Propose(id, ShellScript, Some(idempotence), body)]) == map[id := Proposal(ShellScript, Some(idempotence), body)]
    ensures Run(parse, ProposeAndApprove(id, idempotence, body)) == OneApproved(id, idempotence, body)
    ensures Proposal(ShellScript, Some(idempotence), body).body == body
    ensures var a := OneApproved(id, idempotence, body)[id];
            a.body == body && a.fm.status.Approved? && a.fm.kind.ShellScript? && a.fm.hash == BodyHash(body)
            && a.fm.idempotence == Some(idempotence)
  {
    var propose, approve := Propose(id, ShellScript, Some(idempotence), body), Approve(id, "u", "", "");
    hide Normalized, Reread;
    assert [propose] == [] + [propose] && ProposeAndApprove(id, idempotence, body) == [propose] + [approve];
    PlainText(body);
    RunNext(parse, [], propose);
    RunNext(parse, [propose], approve);
    ApprovesAlone(parse, map[id := Proposal(ShellScript, Some(idempotence), body)], id);
  }

  lemma RunTwoMore(parse: StepParser, ops: seq<Op>, a: Op, b: Op)
    ensures Run(parse, ops + [a, b]) == After(parse, After(parse, Run(parse, ops), a), b)
  {
    hide Run, After;
    RunNext(parse, ops, a);
    RunNext(parse, ops + [a], b);
    assert ops + [a] + [b] == ops + [a, b];
  }

  lemma HistoryStays(parse: StepParser, ops: seq<Op>, more: seq<Op>, i: nat)
    requires i <= |ops|
    ensures History(parse, ops + more)[i] == History(parse, ops)[i]
  {
    HistoryAt(parse, ops + more, i);
    HistoryAt(parse, ops, i);
    assert (ops + more)[..i] == ops[..i];
  }

  /** What is applied need not be the text that was approved: a space saved at the
      end of a line after the approval is applied with the rest. */
  lemma UnapprovedSpaceIsApplied(parse: StepParser, id: Id) returns (ops: seq<Op>)
    requires ValidId(id)
    ensures |ops| == 4 && ops[1].Approve? && ops[1].id == id
    ensures id in History(parse, ops)[1] && History(parse, ops)[1][id].body == "x"
    ensures var s := Run(parse, ops);
            id in s && s[id].fm.status.Applied? && s[id].body == "x " + "\n\n## Execution log\n\n" + "ok" + "\n"
  {
    hide *;
    var before, saved := ProposeAndApprove(id, DeclaredNatural, "x"), OneApproved(id, DeclaredNatural, "x");
    ops := before + [Edit(id, "x "), MarkApplied(id, "ok")];
    ProposeAndApproveIs(id, DeclaredNatural, "x");
    ApprovesOne(parse, id, DeclaredNatural, "x");
    RunTwoMore(parse, before, Edit(id, "x "), MarkApplied(id, "ok"));
    HistoryStays(parse, before, [Edit(id, "x "), MarkApplied(id, "ok")], 1);
    SpaceIsApplied(parse, saved, id);
  }

  lemma ProposeAndApproveIs(id: Id, idempotence: Idempotence, body: string)
    ensures var ops := ProposeAndApprove(id, idempotence, body);
            |ops| == 2 && ops[1] == Approve(id, "u", "", "")
    ensures id in OneApproved(id, idempotence, body)
  {
  }

  lemma SpaceIsApplied(parse: StepParser, s: Store, id: Id)
    requires id in s && s[id].fm.status.Approved? && s[id].fm.hash == BodyHash("x")
    ensures var t := After(parse, After(parse, s, Edit(id, "x ")), MarkApplied(id, "ok"));
            id in t && t[id].fm.status.Applied? && t[id].body == "x " + "\n\n## Execution log\n\n" + "ok" + "\n"
  {
    hide Normalized, Reread, WithLog;
    TrailingSpaceKeepsHash("x", ' ', "");
    assert "x" + [' '] + "" == "x " && "x" + "" == "x";
    PlainText("x ");
    LogAfterSpace();
    assert AfterEdit(s, id, "x ") == Saved(s, id, "x ");
  }

  lemma LogAfterSpace()
    ensures Reread(WithLog("x ", "ok")) == "x " + "\n\n## Execution log\n\n" + "ok" + "\n"
  {
    assert RStripBreaks("x ") == "x ";
    NoReturnInHeading();
    PlainText(WithLog("x ", "ok"));
  }

  lemma NoReturnInHeading()
    ensures '\r' !in "\n\n## Execution log\n\n"
  {
  }

  // ---- Untouched artifacts that fail their own hash check -----------------

  /** A proposed body with a line break in front. */
  lemma LeadingBreakFailsItsHash(parse: StepParser, id: Id)
    requires ValidId(id)
    ensures var s := Run(parse, [Propose(id, ShellScript, NATURAL, "\nx")]);
            && id in s && s[id].fm.status.Proposed? && BodyHash(s[id].body) != s[id].fm.hash
            && !CanApprove(parse, s, id)
  {
    var propose := Propose(id, ShellScript, NATURAL, "\nx");
    RunNext(parse, [], propose);
    assert [] + [propose] == [propose];
    hide Reread, Normalized;
    LeadingBreakIsLost();
  }

  lemma LeadingBreakIsLost()
    ensures BodyHash(Reread("\nx")) != BodyHash("\nx")
  {
    var body := "\nx";
    assert body[1] == 'x' && !IsSpace('x');
    hide *;
    assert !Blank(body) by {
      NotBlank(body, 1);
    }
    PlainHeadSurvivesIff(body, "");
    assert body + "" == body;
  }

  lemma NotBlank(s: string, i: nat)
    requires i < |s| && !IsSpace(s[i])
    ensures !Blank(s)
  {
  }

  /** A partial log with a bare carriage return: the failed artifact cannot be
      approved again. */
  lemma ReturnInLogFailsItsHash(parse: StepParser, id: Id)
    requires ValidId(id)
    ensures var s := Run(parse, ProposeAndApprove(id, DeclaredNatural, "x") + [MarkFailed(id, "why", "a\rb")]);
            id in s && s[id].fm.status.Failed? && !CanApprove(parse, s, id)
  {
    hide Normalized, Reread, WithLog, Run, ProposeAndApprove, OneApproved, BareReturnsOnlyInTail;
    var before, s := ProposeAndApprove(id, DeclaredNatural, "x"), OneApproved(id, DeclaredNatural, "x");
    ApprovesOne(parse, id, DeclaredNatural, "x");
    ProposeAndApproveIs(id, DeclaredNatural, "x");
    RunNext(parse, before, MarkFailed(id, "why", "a\rb"));
    ReapprovalAfterFailureIff(s, id, "why", "a\rb");
    ReturnIsNotInTail();
  }

  lemma ReturnIsNotInTail()
    ensures !BareReturnsOnlyInTail("a\rb" + "\n")
  {
    var log := "a\rb" + "\n";
    assert log[1] == '\r' && log[2] == 'b' && log[1..][1] == 'b' && !IsSpace('b');
    NotBlank(log[1..], 1);
    assert !ReturnOk(log, 1);
  }

  // ---- What is not refused, and what is demoted ---------------------------

  /** An artifact declared good for one run only is approved again after it failed. */
  lemma ReplayOnlyIsApprovedAgain(parse: StepParser, id: Id)
    requires ValidId(id)
    ensures var s := Run(parse, ProposeAndApprove(id, ReplayOnly, "x") + [MarkFailed(id, "why", "")]);
            && id in s && s[id].fm.status.Failed? && s[id].fm.idempotence == Some(ReplayOnly)
            && CanApprove(parse, s, id)
  {
    hide Normalized, Reread, WithLog, Run, ProposeAndApprove, OneApproved;
    var before, s := ProposeAndApprove(id, ReplayOnly, "x"), OneApproved(id, ReplayOnly, "x");
    ApprovesOne(parse, id, ReplayOnly, "x");
    ProposeAndApproveIs(id, ReplayOnly, "x");
    RunNext(parse, before, MarkFailed(id, "why", ""));
    ApprovesAlone(parse, AfterFail(s, id, "why", ""), id);
  }

  /** Two composites that name each other are both proposed, and approved at once. */
  lemma CycleIsApproved(parse: StepParser, a: Id, b: Id, x: string, y: string)
    requires NameEachOther(parse, a, b, x, y)
    ensures var s := Run(parse, ProposeCycle(a, b, x, y) + [Approve(a, "u", "", "")]);
            IsApprovedComposite(s, a) && IsApprovedComposite(s, b) && Names(parse, s, a, b) && Names(parse, s, b, a)
  {
    hide Normalized, Reread, Run, Names, ValidId;
    ProposesCycle(parse, a, b, x, y);
    RunNext(parse, ProposeCycle(a, b, x, y), Approve(a, "u", "", ""));
    PlainText(x);
    PlainText(y);
    ApprovesCycle(parse, Cycle(a, b, x, y), a, b);
  }

  /** Two accepted ids, and the texts of specs that name the other each. */
  predicate NameEachOther(parse: StepParser, a: Id, b: Id, x: string, y: string) {
    && ValidId(a) && ValidId(b) && a != b && a != "" && b != ""
    && '\r' !in x && x != "" && x[0] != '\n' && parse(x) == Some([b])
    && '\r' !in y && y != "" && y[0] != '\n' && parse(y) == Some([a])
  }

  function ProposeCycle(a: Id, b: Id, x: string, y: string): seq<Op> {
    [Propose(a, Composite, NATURAL, x), Propose(b, Composite, NATURAL, y)]
  }

  function Cycle(a: Id, b: Id, x: string, y: string): Store {
    map[a := Proposal(Composite, NATURAL, x), b := Proposal(Composite, NATURAL, y)]
  }

  lemma ProposesCycle(parse: StepParser, a: Id, b: Id, x: string, y: string)
    requires NameEachOther(parse, a, b, x, y)
    ensures Run(parse, ProposeCycle(a, b, x, y)) == Cycle(a, b, x, y)
  {
    hide Proposal, ValidId;
    var p, q := Propose(a, Composite, NATURAL, x), Propose(b, Composite, NATURAL, y);
    RunNext(parse, [], p);
    RunNext(parse, [p], q);
    assert [] + [p] == [p] && [p] + [q] == ProposeCycle(a, b, x, y);
  }

  lemma ApprovesCycle(parse: StepParser, s: Store, a: Id, b: Id)
    requires a != b && a != "" && b != "" && s.Keys == {a, b} && IsProposed(s, a) && IsProposed(s, b)
    requires s[a].fm.kind.Composite? && s[b].fm.kind.Composite?
    requires parse(s[a].body) == Some([b]) && parse(s[b].body) == Some([a])
    requires Reread(s[a].body) == s[a].body && Reread(s[b].body) == s[b].body
    requires BodyHash(s[a].body) == s[a].fm.hash && BodyHash(s[b].body) == s[b].fm.hash
    ensures var t := AfterApprove(parse, s, a, "u", "", "");
            IsApprovedComposite(t, a) && IsApprovedComposite(t, b) && Names(parse, t, a, b) && Names(parse, t, b, a)
  {
    hide Normalized, Reread;
    ClosureCoversReached(parse, s, a, {a, b});
    assert CarryPath(parse, s, [a, b]);
    assert Carried(parse, s, a, b);
    assert CanApprove(parse, s, a);
  }

  /** A composite is demoted for mentioning an artifact that is no step of it. */
  lemma MentionAloneDemotes(parse: StepParser, s: Store, id: Id, x: Id, text: string)
    requires id in s && Editable(s[id].fm.status) && BodyHash(Reread(text)) != s[id].fm.hash
    requires x != id && IsApprovedComposite(s, x) && Contains(s[x].body, id) && !Names(parse, s, x, id)
    ensures AfterEdit(s, id, text)[x].fm.status.Proposed?
  {
    hide Normalized, Reread;
    RereadIdempotent(text);
    var edited := Recorded(s, id, text);
    assert Mentions(edited, x, id);
    DependsNext(edited, x, id, id);
    assert AfterEdit(s, id, text) == Invalidated(edited, id);
  }
}
