/** The transition manager: read, check and rewrite of stored artifacts, with the
    two depth-first cascades over a visited set. */
module Transitions {
  import opened Wrappers
  import opened ArtifactText
  import opened ArtifactStore
  import opened Lifecycle
  import opened Cascade
  import opened ArtifactFiles

  datatype LifecycleError = NotFound | Conflict | HashMismatch | CascadeRefused | TerminalState | AlreadyExists | BadSpec

  type Outcome = Result<(), LifecycleError>

  /** The store after the root and the first of the carried artifacts were written. */
  ghost function PartlyApproved(s: Store, id: Id, approval: Decision, done: seq<Id>): Store {
    map x | x in s ::
      if x == id then WithApproval(s[x], approval)
      else if x in done then WithApproval(s[x], approval.(reason := CascadeReason(approval.reason, id)))
      else s[x]
  }

  lemma PartlyApprovedNext(s: Store, id: Id, approval: Decision, done: seq<Id>, sub: Id)
    requires IsProposed(s, sub) && sub != id && sub !in done
    ensures var now := PartlyApproved(s, id, approval, done);
            && now.Keys == s.Keys && now[sub] == s[sub]
            && now[sub := WithApproval(s[sub], approval.(reason := CascadeReason(approval.reason, id)))]
               == PartlyApproved(s, id, approval, done + [sub])
  {
  }

  lemma AllApproved(parse: StepParser, s: Store, id: Id, user: string, role: string, reason: string, cascade: seq<Id>)
    requires CanApprove(parse, s, id)
    requires forall x :: x in cascade <==> Carried(parse, s, id, x)
    ensures PartlyApproved(s, id, Decision(user, role, reason), cascade) == AfterApprove(parse, s, id, user, role, reason)
  {
  }

  lemma CarriedOnly(parse: StepParser, s: Store, id: Id, cascade: seq<Id>)
    requires forall x :: x in cascade <==> Carried(parse, s, id, x)
    ensures forall x :: x in cascade ==> IsProposed(s, x) && x != id
  {
  }

  /** Of the artifacts outside `rest`, exactly the approved composites are listed. */
  ghost predicate Listed(s: Store, rest: set<Id>, listing: seq<(Id, Frontmatter)>) {
    && (forall x :: IsApprovedComposite(s, x) ==> x in rest || (x, s[x].fm) in listing)
    && (forall c :: c in listing ==> IsApprovedComposite(s, c.0) && c.1 == s[c.0].fm)
  }

  lemma NothingListed(s: Store)
    ensures Listed(s, s.Keys, [])
  {
  }

  lemma ListedNext(s: Store, rest: set<Id>, listing: seq<(Id, Frontmatter)>, x: Id)
    requires Listed(s, rest, listing) && x in s
    ensures Listed(s, rest - {x}, if IsApprovedComposite(s, x) then listing + [(x, s[x].fm)] else listing)
  {
  }

  lemma AllListed(s: Store, listing: seq<(Id, Frontmatter)>)
    requires Listed(s, {}, listing)
    ensures forall x :: IsApprovedComposite(s, x) ==> (x, s[x].fm) in listing
    ensures forall c :: c in listing ==> IsApprovedComposite(s, c.0) && c.1 == s[c.0].fm
  {
  }

  class ArtifactTransitionManager {
    const parse: StepParser
    const yaml: Yaml
    /** The text of each artifact's file. */
    var disk: map<Id, string>
    /** The artifacts those files hold. */
    ghost var store: Store

    ghost predicate Valid()
      reads this
    {
      RoundTrips(yaml) && OnDisk(yaml, disk, store) && Settled(store)
    }

    constructor (parse: StepParser, yaml: Yaml)
      requires RoundTrips(yaml)
      ensures Valid() && this.parse == parse && this.yaml == yaml && store == map[]
    {
      this.parse, this.yaml := parse, yaml;
      disk, store := map[], map[];
    }

    method Write(id: Id, fm: Frontmatter, body: string)
      requires Valid()
      modifies this
      ensures Valid() && store == old(store)[id := Stored(fm, body)]
      ensures disk == old(disk)[id := Compose(yaml.dump(fm), body)]
    {
      WriteStaysOnDisk(yaml, disk, store, id, fm, body);
      disk := disk[id := Compose(yaml.dump(fm), body)];
      store := store[id := Stored(fm, body)];
      OnDiskIsSettled(yaml, disk, store);
    }

    method Read(id: Id) returns (r: Option<Artifact>)
      requires Valid()
      ensures r == if id in store then Some(store[id]) else None
    {
      if id !in disk {
        return None;
      }
      var parsed := ParseFile(yaml, disk[id]);
      return Some(parsed.value);
    }

    method Propose(id: Id, kind: Kind, idempotence: Option<Idempotence>, body: string) returns (r: Outcome)
      requires Valid()
      modifies this
      ensures Valid() && store == AfterPropose(parse, old(store), id, kind, idempotence, body)
      ensures r.Success? <==> CanPropose(parse, old(store), id, kind, idempotence, body)
      ensures r == Failure(AlreadyExists) <==> ValidId(id) && id in old(store)
    {
      hide OnDisk, RoundTrips, Settled;
      if !ValidId(id) {
        return Failure(BadSpec);
      }
      var existing := Read(id);
      if existing.Some? {
        return Failure(AlreadyExists);
      }
      if body == "" {
        return Failure(BadSpec);
      }
      if kind != KbNote && idempotence.None? {
        return Failure(BadSpec);
      }
      if kind.Composite? {
        var steps := parse(body);
        if steps.None? || steps.value == [] || "" in steps.value {
          return Failure(BadSpec);
        }
      }
      var fm := Frontmatter(kind, None, Proposed, BodyHash(body), None, None, None, None, None);
      if kind == KbNote {
        fm := fm.(status := Applied);
      } else {
        fm := fm.(idempotence := idempotence);
      }
      Write(id, fm, body);
      return Success(());
    }

    /** Every proposed artifact the approval of `root` must carry, found by walking
        the steps of `id`. `visited` grows through the whole walk. */
    method CompositeCascade(id: Id, fm: Frontmatter, body: string, ghost root: Id, visited: set<Id>)
      returns (r: Result<seq<Id>, LifecycleError>, seen: set<Id>)
      requires Valid() && id in store && store[id] == Artifact(fm, body) && root in store
      requires id == root || (root in visited && id in visited && IsProposed(store, id) && Reached(parse, store, root, id))
      ensures r.Success? ==> Walked(parse, store, root, id, visited, r.value, seen)
      ensures r.Failure? ==> r.error == CascadeRefused && !CascadeOk(parse, store, root)
      decreases store.Keys - visited
    {
      hide OnDisk, RoundTrips, Settled;
      if fm.kind != Composite {
        return Success([]), visited;
      }
      seen := visited + {id};
      var steps := parse(body);
      if steps.None? {
        return Failure(CascadeRefused), seen;
      }
      var out: seq<Id> := [];
      for i := 0 to |steps.value|
        invariant visited + {id} <= seen
        invariant forall j :: 0 <= j < i ==> steps.value[j] == "" || steps.value[j] in seen
        invariant Found(parse, store, root, visited + {id}, out, seen)
      {
        var sub := steps.value[i];
        if sub == "" || sub in seen {
          continue;
        }
        assert Names(parse, store, id, sub);
        ReachedNext(parse, store, root, id, sub);
        ghost var before := seen;
        seen := seen + {sub};
        var read := Read(sub);
        if read.None? {
          return Failure(CascadeRefused), seen;
        }
        var Artifact(subFm, subBody) := read.value;
        if subFm.status == Approved {
          FoundApproved(parse, store, root, visited + {id}, out, before, sub);
          continue;
        }
        if subFm.status != Proposed {
          return Failure(CascadeRefused), seen;
        }
        if BodyHash(subBody) != subFm.hash {
          return Failure(CascadeRefused), seen;
        }
        assert sub in store.Keys - visited;
        var inner, after := CompositeCascade(sub, subFm, subBody, root, seen);
        if inner.Failure? {
          return inner, after;
        }
        FoundCarried(parse, store, root, visited + {id}, out, before, sub, inner.value, after);
        out := out + [sub] + inner.value;
        seen := after;
      }
      r := Success(out);
    }

    method ApproveCascaded(sub: Id, user: string, role: string, reason: string, via: Id)
      requires Valid() && sub in store
      modifies this
      ensures Valid()
      ensures store == if IsProposed(old(store), sub)
                then old(store)[sub := WithApproval(old(store)[sub], Decision(user, role, CascadeReason(reason, via)))]
                else old(store)
    {
      hide OnDisk, RoundTrips, Settled;
      var read := Read(sub);
      var Artifact(fm, body) := read.value;
      if fm.status != Proposed {
        return;
      }
      fm := fm.(status := Approved, approvedBy := Some(Decision(user, role, CascadeReason(reason, via))));
      Write(sub, fm, body);
    }

    method Approve(id: Id, user: string, role: string, reason: string) returns (r: Outcome)
      requires Valid()
      modifies this
      ensures Valid() && store == AfterApprove(parse, old(store), id, user, role, reason)
      ensures r == if id !in old(store) then Failure(NotFound)
                   else if Approved !in ValidTargets(old(store)[id].fm.status) then Failure(Conflict)
                   else if BodyHash(old(store)[id].body) != old(store)[id].fm.hash then Failure(HashMismatch)
                   else if !CascadeOk(parse, old(store), id) then Failure(CascadeRefused)
                   else Success(())
      ensures r.Success? <==> CanApprove(parse, old(store), id)
    {
      hide OnDisk, RoundTrips, Settled;
      var read := Read(id);
      if read.None? {
        return Failure(NotFound);
      }
      var Artifact(fm, body) := read.value;
      if Approved !in ValidTargets(fm.status) {
        return Failure(Conflict);
      }
      if BodyHash(body) != fm.hash {
        return Failure(HashMismatch);
      }
      var cascade, seen := CompositeCascade(id, fm, body, id, {});
      if cascade.Failure? {
        return Failure(cascade.error);
      }
      WalkIsComplete(parse, store, id, cascade.value, seen);
      CarriedOnly(parse, store, id, cascade.value);
      AllApproved(parse, store, id, user, role, reason, cascade.value);
      ghost var before := store;
      fm := fm.(status := Approved, approvedBy := Some(Decision(user, role, reason)));
      Write(id, fm, body);
      ApproveAll(cascade.value, user, role, reason, id, before);
      return Success(());
    }

    method ApproveAll(cascade: seq<Id>, user: string, role: string, reason: string, via: Id, ghost before: Store)
      requires Valid()
      requires Distinct(cascade) && forall x :: x in cascade ==> IsProposed(before, x) && x != via
      requires via in before
      requires store == before[via := WithApproval(before[via], Decision(user, role, reason))]
      modifies this
      ensures Valid()
      ensures store == PartlyApproved(before, via, Decision(user, role, reason), cascade)
    {
      hide OnDisk, RoundTrips, Settled;
      for i := 0 to |cascade|
        invariant Valid()
        invariant store == PartlyApproved(before, via, Decision(user, role, reason), cascade[..i])
      {
        var sub := cascade[i];
        assert sub in cascade && sub !in cascade[..i];
        PartlyApprovedNext(before, via, Decision(user, role, reason), cascade[..i], sub);
        ApproveCascaded(sub, user, role, reason, via);
        assert cascade[..i + 1] == cascade[..i] + [sub];
      }
      assert cascade[..|cascade|] == cascade;
    }

    method Reject(id: Id, user: string, role: string, reason: string) returns (r: Outcome)
      requires Valid()
      modifies this
      ensures Valid() && store == AfterReject(old(store), id, user, role, reason)
      ensures r == if id !in old(store) then Failure(NotFound)
                   else if Rejected !in ValidTargets(old(store)[id].fm.status) then Failure(Conflict)
                   else Success(())
    {
      hide OnDisk, RoundTrips, Settled;
      var read := Read(id);
      if read.None? {
        return Failure(NotFound);
      }
      var Artifact(fm, body) := read.value;
      if Rejected !in ValidTargets(fm.status) {
        return Failure(Conflict);
      }
      Write(id, fm.(status := Rejected, rejectedBy := Some(Decision(user, role, reason))), body);
      return Success(());
    }

    method Revoke(id: Id, user: string, reason: string) returns (r: Outcome)
      requires Valid()
      modifies this
      ensures Valid() && store == AfterRevoke(old(store), id, user, reason)
      ensures r == if id !in old(store) then Failure(NotFound)
                   else if Revoked !in ValidTargets(old(store)[id].fm.status) then Failure(Conflict)
                   else Success(())
    {
      hide OnDisk, RoundTrips, Settled;
      var read := Read(id);
      if read.None? {
        return Failure(NotFound);
      }
      var Artifact(fm, body) := read.value;
      if Revoked !in ValidTargets(fm.status) {
        return Failure(Conflict);
      }
      Write(id, fm.(status := Revoked, revokedBy := Some(Decision(user, "", reason))), body);
      return Success(());
    }

    /** The operator's editor: replaces the body in an artifact's file. */
    method Save(id: Id, text: string)
      requires Valid() && id in store
      modifies this
      ensures Valid() && store == Saved(old(store), id, text)
    {
      hide OnDisk, RoundTrips, Settled;
      var read := Read(id);
      Write(id, read.value.fm, text);
    }

    method Edit(id: Id) returns (r: Outcome)
      requires Valid()
      modifies this
      ensures Valid()
      ensures r == if id !in old(store) then Failure(NotFound)
                   else if old(store)[id].fm.status !in {Proposed, Approved, Failed} then Failure(TerminalState)
                   else Success(())
      ensures store == if id in old(store) then RecordedEdit(old(store), id) else old(store)
    {
      hide OnDisk, RoundTrips, Invalidated;
      var read := Read(id);
      if read.None? {
        return Failure(NotFound);
      }
      var Artifact(fm, body) := read.value;
      if fm.status in {Applied, Superseded, Revoked, Rejected} {
        return Failure(TerminalState);
      }
      assert Editable(fm.status) by {
        match fm.status {
          case Proposed =>
          case Approved =>
          case Failed =>
          case Rejected =>
          case Applied =>
          case Superseded =>
          case Revoked =>
        }
      }
      var newHash := BodyHash(body);
      if newHash == fm.hash {
        return Success(());
      }
      var status := fm.status;
      fm := fm.(hash := newHash);
      if status == Approved || status == Failed {
        fm := fm.(status := Proposed, approvedBy := None);
      }
      Write(id, fm, body);
      ghost var edited := store;
      assert Partway(edited, id, {id}, store);
      assert {} + {id} == {id};
      var seen := CascadeInvalidate(id, {}, edited, id);
      assert seen - {} == seen;
      InvalidationIsComplete(edited, id, seen, store);
      return Success(());
    }

    /** The operator's edit command: the editor, then the record of the edit, whose
        refusal leaves the text in place. */
    method EditWith(id: Id, text: string)
      requires Valid()
      modifies this
      ensures Valid() && store == AfterEdit(old(store), id, text)
    {
      hide OnDisk, RoundTrips, Settled;
      var read := Read(id);
      if read.Some? {
        Save(id, text);
        var r := Edit(id);
      }
    }

    method MarkApplied(id: Id, log: string) returns (r: Outcome)
      requires Valid()
      modifies this
      ensures Valid() && store == AfterApply(old(store), id, log)
      ensures r == if id !in old(store) then Failure(NotFound)
                   else if Applied !in ValidTargets(old(store)[id].fm.status) then Failure(Conflict)
                   else Success(())
    {
      hide OnDisk, RoundTrips, Settled;
      var read := Read(id);
      if read.None? {
        return Failure(NotFound);
      }
      var Artifact(fm, body) := read.value;
      if Applied !in ValidTargets(fm.status) {
        return Failure(Conflict);
      }
      body := WithLog(body, log);
      Write(id, fm.(status := Applied, hash := BodyHash(body)), body);
      return Success(());
    }

    method MarkFailed(id: Id, reason: string, partialLog: string) returns (r: Outcome)
      requires Valid()
      modifies this
      ensures Valid() && store == AfterFail(old(store), id, reason, partialLog)
      ensures r == if id !in old(store) then Failure(NotFound)
                   else if Failed !in ValidTargets(old(store)[id].fm.status) then Failure(Conflict)
                   else Success(())
    {
      hide OnDisk, RoundTrips, Settled;
      var read := Read(id);
      if read.None? {
        return Failure(NotFound);
      }
      var Artifact(fm, body) := read.value;
      if Failed !in ValidTargets(fm.status) {
        return Failure(Conflict);
      }
      if partialLog != "" {
        body := WithLog(body, partialLog);
      }
      Write(id, fm.(status := Failed, failureReason := Some(reason), hash := BodyHash(body)), body);
      return Success(());
    }

    method Supersede(id: Id, newId: Id) returns (r: Outcome)
      requires Valid()
      modifies this
      ensures Valid() && store == AfterSupersede(old(store), id, newId)
      ensures r == if id !in old(store) then Failure(NotFound)
                   else if Superseded !in ValidTargets(old(store)[id].fm.status) then Failure(Conflict)
                   else Success(())
    {
      hide OnDisk, RoundTrips, Settled;
      var read := Read(id);
      if read.None? {
        return Failure(NotFound);
      }
      var Artifact(fm, body) := read.value;
      if Superseded !in ValidTargets(fm.status) {
        return Failure(Conflict);
      }
      Write(id, fm.(status := Superseded, supersededBy := Some(newId)), body);
      return Success(());
    }

    /** Listing of the approved composites, each with the frontmatter it had then. */
    method ListApprovedComposites() returns (listing: seq<(Id, Frontmatter)>)
      requires Valid()
      ensures forall x :: IsApprovedComposite(store, x) ==> (x, store[x].fm) in listing
      ensures forall c :: c in listing ==> IsApprovedComposite(store, c.0) && c.1 == store[c.0].fm
    {
      assert disk.Keys == store.Keys;
      hide OnDisk, RoundTrips, Settled, Listed;
      listing := [];
      var rest := disk.Keys;
      NothingListed(store);
      while rest != {}
        invariant rest <= disk.Keys
        invariant Listed(store, rest, listing)
      {
        var x :| x in rest;
        ListedNext(store, rest, listing, x);
        rest := rest - {x};
        var read := Read(x);
        var fm := read.value.fm;
        if fm.status == Approved && fm.kind == Composite {
          listing := listing + [(x, fm)];
        }
      }
      AllListed(store, listing);
    }

    /** Demotes every approved composite that mentions `editedId`, and theirs in
        turn. Each call works from the listing it made on entry. */
    method CascadeInvalidate(editedId: Id, visited: set<Id>, ghost start: Store, ghost origin: Id)
      returns (seen: set<Id>)
      requires Valid()
      requires Settled(start) && editedId in start && visited <= start.Keys
      requires editedId == origin || Demoted(start, origin, editedId)
      requires editedId != origin ==> origin in visited
      requires Partway(start, origin, if editedId in visited then visited else visited + {editedId}, store)
      modifies this
      ensures Valid()
      ensures visited + {editedId} <= seen <= start.Keys
      ensures Partway(start, origin, seen, store)
      ensures Followed(start, seen - visited, seen)
      decreases start.Keys - visited
    {
      hide OnDisk, RoundTrips;
      seen := visited;
      if editedId in seen {
        return;
      }
      seen := seen + {editedId};
      ghost var entry := store;
      var all := ListApprovedComposites();
      for i := 0 to |all|
        invariant Valid()
        invariant visited + {editedId} <= seen <= start.Keys
        invariant Partway(start, origin, seen, store)
        invariant Followed(start, seen - (visited + {editedId}), seen)
        invariant Handled(start, all, i, editedId, seen)
      {
        var (cid, snapshot) := all[i];
        assert all[i] in all;
        ghost var before := seen;
        if cid != editedId && cid !in seen {
          var read := Read(cid);
          var body := read.value.body;
          if Contains(body, editedId) {
            PartwayNext(start, origin, seen, store, editedId, cid);
            var cfm := snapshot.(status := Proposed, approvedBy := None);
            Write(cid, cfm, body);
            seen := CascadeInvalidate(cid, seen, start, origin);
            FollowedJoin(start, visited + {editedId}, before, seen);
          }
        }
        HandledNext(start, all, i, editedId, before, seen);
      }
      ListingCovers(start, origin, visited + {editedId}, entry, all, editedId, seen);
      FollowedUnion(start, {editedId}, seen - (visited + {editedId}), seen);
      assert seen - visited == {editedId} + (seen - (visited + {editedId}));
    }
  }
}
