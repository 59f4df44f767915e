/** What the two depth-first walks have established at any point, and why a
    finished walk has found exactly the artifacts the reference graph asks for. */
module Cascade {
  import opened Wrappers
  import opened ArtifactText
  import opened ArtifactStore
  import opened Lifecycle

  ghost predicate Distinct(ids: seq<Id>) {
    forall i, j :: 0 <= i < j < |ids| ==> ids[i] != ids[j]
  }

  // ---- The approval cascade -----------------------------------------------

  ghost predicate NamesOnly(parse: StepParser, s: Store, x: Id, seen: set<Id>) {
    forall y :: Names(parse, s, x, y) ==> y in seen
  }

  /** The walk has gone from `base` to `seen`, and `out` lists the proposed
      artifacts met on the way, each of them fully expanded. */
  ghost predicate Found(parse: StepParser, s: Store, root: Id, base: set<Id>, out: seq<Id>, seen: set<Id>) {
    && base <= seen
    && (forall y :: y in seen - base ==> y != root && Reached(parse, s, root, y) && !Refuses(parse, s, y))
    && (forall y :: y in seen - base && IsProposed(s, y) ==> y in out && NamesOnly(parse, s, y, seen))
    && (forall y :: y in out ==> y in seen - base && IsProposed(s, y))
    && Distinct(out)
  }

  ghost predicate Walked(parse: StepParser, s: Store, root: Id, id: Id, visited: set<Id>, out: seq<Id>, seen: set<Id>)
    requires id in s
  {
    && Found(parse, s, root, if s[id].fm.kind.Composite? then visited + {id} else visited, out, seen)
    && NamesOnly(parse, s, id, seen)
    && (s[id].fm.kind.Composite? ==> parse(s[id].body).Some?)
  }

  lemma FoundApproved(parse: StepParser, s: Store, root: Id, base: set<Id>, out: seq<Id>, seen: set<Id>, sub: Id)
    requires Found(parse, s, root, base, out, seen)
    requires sub !in seen && sub != root && Reached(parse, s, root, sub)
    requires sub in s && s[sub].fm.status.Approved?
    ensures Found(parse, s, root, base, out, seen + {sub})
  {
  }

  lemma FoundCarried(parse: StepParser, s: Store, root: Id, base: set<Id>, out: seq<Id>, seen: set<Id>,
                     sub: Id, inner: seq<Id>, after: set<Id>)
    requires Found(parse, s, root, base, out, seen)
    requires sub !in seen && sub != root && Reached(parse, s, root, sub)
    requires IsProposed(s, sub) && BodyHash(s[sub].body) == s[sub].fm.hash
    requires Walked(parse, s, root, sub, seen + {sub}, inner, after)
    ensures Found(parse, s, root, base, out + [sub] + inner, after)
  {
    assert seen + {sub} + {sub} == seen + {sub};
    forall y | y in after - base
      ensures y != root && Reached(parse, s, root, y) && !Refuses(parse, s, y)
      ensures IsProposed(s, y) ==> y in out + [sub] + inner && NamesOnly(parse, s, y, after)
    {
      if y in seen {
        assert y in seen - base;
      } else if y != sub {
        assert y in after - (seen + {sub});
      }
    }
    forall y | y in out + [sub] + inner
      ensures y in after - base && IsProposed(s, y)
    {
      if y in inner {
        assert y in after - (seen + {sub});
      }
    }
    DistinctConcat(out, sub, inner);
  }

  lemma DistinctConcat(a: seq<Id>, x: Id, b: seq<Id>)
    requires Distinct(a) && Distinct(b)
    requires x !in a && x !in b
    requires forall y :: y in a ==> y !in b
    ensures Distinct(a + [x] + b)
  {
    DistinctJoin(a, [x]);
    DistinctJoin(a + [x], b);
  }

  lemma DistinctJoin(a: seq<Id>, b: seq<Id>)
    requires Distinct(a) && Distinct(b)
    requires forall y :: y in a ==> y !in b
    ensures Distinct(a + b)
  {
    forall i, j | 0 <= i < j < |a + b|
      ensures (a + b)[i] != (a + b)[j]
    {
      if i < |a| <= j {
        assert a[i] in a && b[j - |a|] in b;
      }
    }
  }

  /** A finished walk from the root lists, once each, exactly the artifacts the
      approval carries, and nothing it reached refuses. */
  lemma WalkIsComplete(parse: StepParser, s: Store, root: Id, out: seq<Id>, seen: set<Id>)
    requires root in s
    requires Walked(parse, s, root, root, {}, out, seen)
    ensures CascadeOk(parse, s, root)
    ensures forall x :: x in out <==> Carried(parse, s, root, x)
    ensures Distinct(out)
  {
    if s[root].fm.kind.Composite? {
      assert {} + {root} == {root};
      forall y, z | (y == root || (y in seen && IsProposed(s, y))) && Names(parse, s, y, z)
        ensures z in seen
      {
        if y != root {
          assert y in seen - {root};
        }
      }
      ClosureCoversReached(parse, s, root, seen);
      forall x | x != root && Reached(parse, s, root, x)
        ensures !Refuses(parse, s, x)
      {
        assert x in seen - {root};
      }
      forall x | Carried(parse, s, root, x)
        ensures x in out
      {
        assert x in seen - {root};
      }
    } else {
      assert forall y :: !Names(parse, s, root, y);
      ClosureCoversReached(parse, s, root, {});
    }
  }

  // ---- The invalidation cascade -------------------------------------------

  /** The store partway through an invalidation: what has been visited, other
      than the edited artifact itself, has been demoted, and nothing else. */
  ghost predicate Partway(s: Store, edited: Id, visited: set<Id>, now: Store) {
    && now.Keys == s.Keys
    && (forall x :: x in visited && x != edited ==> Demoted(s, edited, x))
    && (forall x :: x in s ==> now[x] == if x in visited && x != edited then Demote(s[x]) else s[x])
  }

  /** Every approved composite mentioning a member of `ys` has been visited. */
  ghost predicate Followed(s: Store, ys: set<Id>, visited: set<Id>) {
    forall x, y :: y in ys && Mentions(s, x, y) ==> x in visited
  }

  lemma FollowedJoin(s: Store, base: set<Id>, seen: set<Id>, after: set<Id>)
    requires Followed(s, seen - base, seen) && Followed(s, after - seen, after) && seen <= after
    ensures Followed(s, after - base, after)
  {
    forall x, y | y in after - base && Mentions(s, x, y)
      ensures x in after
    {
      assert y in seen - base || y in after - seen;
    }
  }

  lemma FollowedUnion(s: Store, a: set<Id>, b: set<Id>, visited: set<Id>)
    requires Followed(s, a, visited) && Followed(s, b, visited)
    ensures Followed(s, a + b, visited)
  {
  }

  /** Of the first `n` listed composites, those mentioning `y` have been visited. */
  ghost predicate Handled(s: Store, listing: seq<(Id, Frontmatter)>, n: nat, y: Id, visited: set<Id>)
    requires n <= |listing|
  {
    forall j :: 0 <= j < n && Mentions(s, listing[j].0, y) ==> listing[j].0 in visited
  }

  lemma HandledNext(s: Store, listing: seq<(Id, Frontmatter)>, n: nat, y: Id, visited: set<Id>, after: set<Id>)
    requires n < |listing| && Handled(s, listing, n, y, visited) && visited <= after
    requires Mentions(s, listing[n].0, y) ==> listing[n].0 in after
    ensures Handled(s, listing, n + 1, y, after)
  {
  }

  /** One more approved composite demoted. */
  lemma PartwayNext(s: Store, edited: Id, visited: set<Id>, now: Store, y: Id, x: Id)
    requires Partway(s, edited, visited, now)
    requires edited in visited && y in visited && x !in visited
    requires Mentions(s, x, y)
    ensures Demoted(s, edited, x)
    ensures Partway(s, edited, visited + {x}, now[x := Demote(s[x])])
  {
    DependsNext(s, x, y, edited);
  }

  lemma ListingCovers(s: Store, edited: Id, atEntry: set<Id>, entry: Store, listing: seq<(Id, Frontmatter)>,
                      y: Id, visited: set<Id>)
    requires Partway(s, edited, atEntry, entry) && edited in atEntry && atEntry <= visited
    requires forall x :: IsApprovedComposite(entry, x) ==> (x, entry[x].fm) in listing
    requires Handled(s, listing, |listing|, y, visited)
    ensures Followed(s, {y}, visited)
  {
    forall x | Mentions(s, x, y)
      ensures x in visited
    {
      if x !in atEntry {
        assert IsApprovedComposite(entry, x);
        var j :| 0 <= j < |listing| && listing[j] == (x, entry[x].fm);
      }
    }
  }

  lemma InvalidationIsComplete(s: Store, edited: Id, visited: set<Id>, now: Store)
    requires Partway(s, edited, visited, now)
    requires edited in visited
    requires Followed(s, visited, visited)
    ensures now == Invalidated(s, edited)
  {
    ClosureCoversDependents(s, edited, visited);
    forall x | x in s
      ensures now[x] == Invalidated(s, edited)[x]
    {
      if Demoted(s, edited, x) {
        assert x in visited;
      }
    }
  }
}
