/** What each lifecycle operation leaves in every artifact, field by field, and the
    two graphs by the sets that are closed under them. */
module LifecycleFields {
  import opened Wrappers
  import opened ArtifactText
  import opened ArtifactStore
  import opened Lifecycle
  import opened LifecycleRuns

  // ---- The table of transitions -------------------------------------------

  lemma TransitionTable(a: Status, b: Status)
    ensures b in ValidTargets(a) <==>
            || (a == Proposed && (b == Proposed || b == Approved || b == Rejected))
            || (a == Approved && (b == Applied || b == Failed || b == Revoked))
            || (a == Failed && (b == Approved || b == Revoked))
            || (a == Applied && (b == Superseded || b == Revoked))
    ensures Editable(a) <==> a == Proposed || a == Approved || a == Failed
  {
  }

  // ---- The two graphs -----------------------------------------------------

  lemma {:induction false} ContainsIff(text: string, part: string)
    ensures Contains(text, part) <==> exists i :: 0 <= i <= |text| && part <= text[i..]
  {
    assert text[0..] == text;
    if text != "" {
      ContainsIff(text[1..], part);
      if exists i :: 0 <= i <= |text| && part <= text[i..] {
        var i :| 0 <= i <= |text| && part <= text[i..];
        if i > 0 {
          assert text[1..][i - 1..] == text[i..];
        }
      }
      if Contains(text[1..], part) {
        var i :| 0 <= i <= |text[1..]| && part <= text[1..][i..];
        assert text[1..][i..] == text[i + 1..];
      }
    }
  }

  /** The steps an artifact names: those of a composite that can be read. */
  function StepsOf(parse: StepParser, a: Artifact): set<Id> {
    if a.fm.kind == Composite && parse(a.body).Some? then set z | z in parse(a.body).value && z != "" else {}
  }

  /** Holds every step named by the root, and by each proposed artifact it holds. */
  ghost predicate StepsClosed(parse: StepParser, s: Store, root: Id, v: iset<Id>) {
    forall y, z | y in s && z in StepsOf(parse, s[y]) && (y == root || (y in v && s[y].fm.status == Proposed)) :: z in v
  }

  /** What an approval reaches is the least set closed under steps. */
  lemma ReachedIff(parse: StepParser, s: Store, root: Id, x: Id)
    ensures Reached(parse, s, root, x) <==> forall v :: StepsClosed(parse, s, root, v) ==> x in v
  {
    if Reached(parse, s, root, x) {
      forall v | StepsClosed(parse, s, root, v)
        ensures x in v
      {
        var path :| CarryPath(parse, s, path) && path[0] == root && path[|path| - 1] == x;
        ClosedAlong(parse, s, root, v, path, |path| - 1);
      }
    } else {
      var v := iset y | Reached(parse, s, root, y);
      forall y, z | y in s && z in StepsOf(parse, s[y]) && (y == root || (y in v && s[y].fm.status == Proposed))
        ensures z in v
      {
        assert Names(parse, s, y, z);
        ReachedNext(parse, s, root, y, z);
      }
      assert StepsClosed(parse, s, root, v) && x !in v;
    }
  }

  lemma {:induction false} ClosedAlong(parse: StepParser, s: Store, root: Id, v: iset<Id>, path: seq<Id>, k: nat)
    requires StepsClosed(parse, s, root, v)
    requires CarryPath(parse, s, path) && path[0] == root && 1 <= k < |path|
    ensures path[k] in v
  {
    if k > 1 {
      ClosedAlong(parse, s, root, v, path, k - 1);
    }
    assert Names(parse, s, path[k - 1], path[k]);
    assert path[k] in StepsOf(parse, s[path[k - 1]]);
  }

  /** Holds the edited id, and every approved composite whose body holds one of its
      members. */
  ghost predicate MentionsClosed(s: Store, edited: Id, v: iset<Id>) {
    && edited in v
    && forall x, y | x in s && s[x].fm.kind == Composite && s[x].fm.status == Approved && y in v && Contains(s[x].body, y) :: x in v
  }

  /** What an edit demotes is, but for the edited artifact, the least set closed
      under mentions. */
  lemma DemotedIff(s: Store, edited: Id, x: Id)
    ensures Demoted(s, edited, x) <==> x != edited && forall v :: MentionsClosed(s, edited, v) ==> x in v
  {
    if Demoted(s, edited, x) {
      forall v | MentionsClosed(s, edited, v)
        ensures x in v
      {
        var path :| MentionPath(s, path) && path[0] == x && path[|path| - 1] == edited;
        MentionedAlong(s, edited, v, path, 0);
      }
    } else if x != edited {
      var v := iset y | y == edited || Depends(s, y, edited);
      forall a, y | y in v && a in s && s[a].fm.kind == Composite && s[a].fm.status == Approved && Contains(s[a].body, y)
        ensures a in v
      {
        assert Mentions(s, a, y);
        DependsNext(s, a, y, edited);
      }
      assert MentionsClosed(s, edited, v) && x !in v;
    }
  }

  lemma {:induction false} MentionedAlong(s: Store, edited: Id, v: iset<Id>, path: seq<Id>, k: nat)
    requires MentionsClosed(s, edited, v)
    requires MentionPath(s, path) && path[|path| - 1] == edited && k < |path|
    ensures path[k] in v
    decreases |path| - k
  {
    if k < |path| - 1 {
      MentionedAlong(s, edited, v, path, k + 1);
      assert Mentions(s, path[k], path[k + 1]);
    }
  }

  // ---- Ids ----------------------------------------------------------------

  predicate IsDate(date: string) {
    && |date| == 10 && date[4] == '-' && date[7] == '-'
    && forall i :: 0 <= i < 10 && i != 4 && i != 7 ==> '0' <= date[i] <= '9'
  }

  predicate IsName(name: string) {
    1 <= |name| <= 60 && forall i :: 0 <= i < |name| ==> 'a' <= name[i] <= 'z' || '0' <= name[i] <= '9' || name[i] == '-'
  }

  predicate IsSuffix(suffix: string) {
    suffix == "" ||
    (|suffix| == 7 && suffix[0] == '-' && forall i :: 1 <= i < 7 ==> 'a' <= suffix[i] <= 'f' || '0' <= suffix[i] <= '9')
  }

  ghost predicate MadeOf(id: Id, date: string, name: string, suffix: string, end: string) {
    id == date + "-" + name + suffix + end && IsDate(date) && IsName(name) && IsSuffix(suffix) && (end == "" || end == "\n")
  }

  /** The ids accepted at propose are a date, a name of up to 60 characters, and
      possibly six hexadecimal digits and a line break. */
  lemma ValidIdIff(id: Id)
    ensures ValidId(id) <==> exists date, name, suffix, end :: MadeOf(id, date, name, suffix, end)
  {
    hide ValidId, MadeOf;
    if ValidId(id) {
      var date, name, suffix, end := ValidIsMade(id);
    }
    if exists date, name, suffix, end :: MadeOf(id, date, name, suffix, end) {
      var date, name, suffix, end :| MadeOf(id, date, name, suffix, end);
      MadeIsValid(id, date, name, suffix, end);
    }
  }

  lemma SlugIsMade(slug: string) returns (name: string, suffix: string)
    requires IsSlug(slug)
    ensures slug == name + suffix && IsName(name) && IsSuffix(suffix)
  {
    name := if |slug| <= 60 then slug else slug[..|slug| - 7];
    suffix := slug[|name|..];
    if |slug| > 60 {
      assert forall i :: 1 <= i < 7 ==> suffix[i] == slug[|slug| - 7 + i];
    }
  }

  lemma DateIsMade(text: string)
    requires DatePrefix(text)
    ensures IsDate(text[..10]) && text == text[..10] + "-" + text[11..]
  {
    assert text == text[..10] + [text[10]] + text[11..];
  }

  lemma ValidIsMade(id: Id) returns (date: string, name: string, suffix: string, end: string)
    requires ValidId(id)
    ensures MadeOf(id, date, name, suffix, end)
  {
    hide IsSlug, DatePrefix, IsDate, IsName, IsSuffix;
    var breaks := id != "" && id[|id| - 1] == '\n';
    var text := if breaks then id[..|id| - 1] else id;
    end := if breaks then "\n" else "";
    assert id == text + end;
    DateIsMade(text);
    date := text[..10];
    name, suffix := SlugIsMade(text[11..]);
    assert date + "-" + (name + suffix) == date + "-" + name + suffix;
  }

  lemma MadeIsValid(id: Id, date: string, name: string, suffix: string, end: string)
    requires MadeOf(id, date, name, suffix, end)
    ensures ValidId(id)
  {
    var text, slug := date + "-" + name + suffix, name + suffix;
    assert text[|text| - 1] == slug[|slug| - 1] && slug[|slug| - 1] != '\n';
    assert id == text + end;
    assert id[..|text|] == text;
    assert text[11..] == slug;
    forall i | 0 <= i < |slug|
      ensures IsSlugChar(slug[i])
    {
      assert slug[i] == if i < |name| then name[i] else suffix[i - |name|];
    }
  }

  // ---- The operations -----------------------------------------------------

  lemma ProposeFields(parse: StepParser, s: Store, id: Id, kind: Kind, idempotence: Option<Idempotence>, body: string)
    ensures var t := AfterPropose(parse, s, id, kind, idempotence, body);
            if ValidId(id) && id !in s && body != "" && (kind == KbNote || idempotence.Some?)
               && (kind == Composite ==> parse(body).Some? && parse(body).value != [] && "" !in parse(body).value)
            then t == s[id := Artifact(
                            Frontmatter(kind, if kind == KbNote then None else idempotence,
                                        if kind == KbNote then Applied else Proposed, BodyHash(body),
                                        None, None, None, None, None),
                            Reread(body))]
            else t == s
  {
  }

  lemma CanApproveIff(parse: StepParser, s: Store, id: Id)
    ensures CanApprove(parse, s, id) <==>
            && id in s && (s[id].fm.status == Proposed || s[id].fm.status == Failed)
            && BodyHash(s[id].body) == s[id].fm.hash
            && (s[id].fm.kind == Composite ==> parse(s[id].body).Some?)
            && forall x | x != id && Reached(parse, s, id, x) ::
                 x in s && (s[x].fm.status == Approved
                            || (s[x].fm.status == Proposed && BodyHash(s[x].body) == s[x].fm.hash
                                && (s[x].fm.kind == Composite ==> parse(s[x].body).Some?)))
  {
    hide Normalized, Reached;
    if id in s {
      forall x
        ensures !Refuses(parse, s, x) <==>
                x in s && (s[x].fm.status == Approved
                           || (s[x].fm.status == Proposed && BodyHash(s[x].body) == s[x].fm.hash
                               && (s[x].fm.kind == Composite ==> parse(s[x].body).Some?)))
      {
      }
    }
  }

  /** An approval touches the root and the proposed artifacts it reaches, and of
      those the status and the record of who approved and why. */
  lemma ApproveFields(parse: StepParser, s: Store, id: Id, user: string, role: string, reason: string)
    requires Settled(s)
    ensures var t := AfterApprove(parse, s, id, user, role, reason);
            if !CanApprove(parse, s, id) then t == s
            else
              && t.Keys == s.Keys
              && forall x :: x in s ==>
                   && t[x].body == s[x].body
                   && t[x].fm ==
                      if x == id then s[x].fm.(status := Approved, approvedBy := Some(Decision(user, role, reason)))
                      else if s[x].fm.status == Proposed && Reached(parse, s, id, x) then
                        s[x].fm.(status := Approved, approvedBy := Some(Decision(user, role,
                          if reason != "" then reason + " (cascaded from composite " + id + ")"
                          else "cascaded from composite " + id)))
                      else s[x].fm
  {
    hide Normalized, Reread, Reached;
  }

  lemma RejectFields(s: Store, id: Id, user: string, role: string, reason: string)
    requires Settled(s)
    ensures AfterReject(s, id, user, role, reason) ==
            if id in s && s[id].fm.status == Proposed
            then s[id := s[id].(fm := s[id].fm.(status := Rejected, rejectedBy := Some(Decision(user, role, reason))))]
            else s
  {
    hide Reread;
  }

  lemma RevokeFields(s: Store, id: Id, user: string, reason: string)
    requires Settled(s)
    ensures AfterRevoke(s, id, user, reason) ==
            if id in s && (s[id].fm.status == Approved || s[id].fm.status == Failed || s[id].fm.status == Applied)
            then s[id := s[id].(fm := s[id].fm.(status := Revoked, revokedBy := Some(Decision(user, "", reason))))]
            else s
  {
    hide Reread;
  }

  lemma SupersedeFields(s: Store, id: Id, newId: Id)
    requires Settled(s)
    ensures AfterSupersede(s, id, newId) ==
            if id in s && s[id].fm.status == Applied
            then s[id := s[id].(fm := s[id].fm.(status := Superseded, supersededBy := Some(newId)))]
            else s
  {
    hide Reread;
  }

  /** The text of a body without its trailing line breaks. */
  predicate IsStem(body: string, stem: string) {
    && stem <= body && (forall i :: |stem| <= i < |body| ==> body[i] == '\n')
    && (stem != "" ==> stem[|stem| - 1] != '\n')
  }

  lemma {:induction false} StemIs(body: string, stem: string)
    requires IsStem(body, stem)
    ensures RStripBreaks(body) == stem
  {
    if body != "" && body[|body| - 1] == '\n' {
      StemIs(body[..|body| - 1], stem);
    }
  }

  lemma ApplyFields(s: Store, id: Id, log: string, stem: string)
    requires id in s && IsStem(s[id].body, stem)
    ensures var text := stem + "\n\n## Execution log\n\n" + log + "\n";
            AfterApply(s, id, log) ==
            if s[id].fm.status == Approved
            then s[id := Artifact(s[id].fm.(status := Applied, hash := BodyHash(text)), Reread(text))]
            else s
  {
    hide Reread, Normalized;
    StemIs(s[id].body, stem);
  }

  lemma FailFields(s: Store, id: Id, reason: string, log: string, stem: string)
    requires id in s && IsStem(s[id].body, stem)
    ensures var text := if log == "" then s[id].body else stem + "\n\n## Execution log\n\n" + log + "\n";
            AfterFail(s, id, reason, log) ==
            if s[id].fm.status == Approved
            then s[id := Artifact(s[id].fm.(status := Failed, failureReason := Some(reason), hash := BodyHash(text)), Reread(text))]
            else s
  {
    hide Reread, Normalized;
    StemIs(s[id].body, stem);
  }

  lemma MissingIsRefused(s: Store, id: Id, log: string, reason: string)
    requires id !in s
    ensures AfterApply(s, id, log) == s && AfterFail(s, id, reason, log) == s
  {
  }

  /** What the edit command leaves in the edited artifact. */
  lemma EditFields(s: Store, id: Id, text: string)
    ensures var t := AfterEdit(s, id, text);
            if id !in s then t == s
            else
              && t.Keys == s.Keys && t[id].body == Reread(text)
              && t[id].fm ==
                 if BodyHash(Reread(text)) == s[id].fm.hash || s[id].fm.status !in {Proposed, Approved, Failed} then s[id].fm
                 else if s[id].fm.status == Proposed then s[id].fm.(hash := BodyHash(Reread(text)))
                 else s[id].fm.(hash := BodyHash(Reread(text)), status := Proposed, approvedBy := None)
  {
    hide Normalized, Reread;
    if id in s {
      RereadIdempotent(text);
    }
  }

  /** What it leaves in every other artifact: all but the status and the approval of
      the dependent approved composites, and all of the rest. */
  lemma DemotedKeepsTheRest(s: Store, id: Id, text: string, x: Id)
    requires Settled(s) && id in s && x in s && x != id
    ensures var t := AfterEdit(s, id, text);
            && x in t && t[x].body == s[x].body
            && t[x].fm ==
               (if s[id].fm.status in {Proposed, Approved, Failed} && BodyHash(Reread(text)) != s[id].fm.hash
                   && Demoted(s[id := t[id]], id, x)
                then s[x].fm.(status := Proposed, approvedBy := None) else s[x].fm)
    ensures AfterEdit(s, id, text)[x] != s[x] ==> s[x].fm.kind == Composite && s[x].fm.status == Approved
  {
    hide Normalized, Reread;
    RereadIdempotent(text);
    if Editable(s[id].fm.status) && BodyHash(Reread(text)) != s[id].fm.hash {
      assert s[id := AfterEdit(s, id, text)[id]] == Recorded(s, id, text);
      if Demoted(Recorded(s, id, text), id, x) {
        OnlyApprovedDemoted(Recorded(s, id, text), id, x);
      }
    }
  }

  /** In every run a composite that an edit demotes still matches its own hash, and
      keeps every other field. */
  lemma DemotedMatchesItsHash(parse: StepParser, ops: seq<Op>, k: nat, x: Id)
    requires k < |ops| && ops[k].Edit? && ops[k].id != x
    requires var s := History(parse, ops)[k]; x in s && s[x].fm.status == Approved
    requires x in History(parse, ops)[k + 1] && History(parse, ops)[k + 1][x].fm.status == Proposed
    ensures var s, t := History(parse, ops)[k], History(parse, ops)[k + 1];
            && t[x] == s[x].(fm := s[x].fm.(status := Proposed, approvedBy := None))
            && BodyHash(t[x].body) == t[x].fm.hash
  {
    hide Normalized, Reread;
    HistoryAt(parse, ops, k);
    HistoryAt(parse, ops, k + 1);
    assert ops[..k + 1][..k] == ops[..k];
    RunIsInOrder(parse, ops[..k]);
    var s := History(parse, ops)[k];
    if ops[k].id in s {
      DemotedKeepsTheRest(s, ops[k].id, ops[k].text, x);
    }
  }

  /** Which of them each operation of a run is. */
  lemma OperationsAre(parse: StepParser, s: Store, id: Id, a: string, b: string, c: string, kind: Kind, i: Option<Idempotence>)
    ensures After(parse, s, Propose(id, kind, i, a)) == AfterPropose(parse, s, id, kind, i, a)
    ensures After(parse, s, Approve(id, a, b, c)) == AfterApprove(parse, s, id, a, b, c)
    ensures After(parse, s, Reject(id, a, b, c)) == AfterReject(s, id, a, b, c)
    ensures After(parse, s, Edit(id, a)) == AfterEdit(s, id, a)
    ensures After(parse, s, MarkApplied(id, a)) == AfterApply(s, id, a)
    ensures After(parse, s, MarkFailed(id, a, b)) == AfterFail(s, id, a, b)
    ensures After(parse, s, Supersede(id, a)) == AfterSupersede(s, id, a)
    ensures After(parse, s, Revoke(id, a, b)) == AfterRevoke(s, id, a, b)
  {
  }
}
