/** What one synchronization run leaves on each side, as a function of what both
    sides held before. */
module Merge {
  import opened Base
  import opened Tables
  import opened Changes
  import opened Lifecycle
  import opened Diff
  import opened Comparison

  predicate Does(v: View, ref: Ref, kind: ActionKind) {
    v.VerdictAt(ref).Act? && v.VerdictAt(ref).kind == kind
  }

  predicate TakesRemote(v: View, ref: Ref) {
    Does(v, ref, UpsertLocal) || Does(v, ref, SyncChangeLocal)
  }

  predicate TakesLocal(v: View, ref: Ref) {
    Does(v, ref, UpsertRemote) || Does(v, ref, SyncChangeRemote)
  }

  function Pulled(v: View): Rows {
    map r | r in v.remote && TakesRemote(v, r) :: v.remote[r]
  }

  function Pushed(v: View): Rows {
    map r | r in v.local && TakesLocal(v, r) :: v.local[r]
  }

  function DroppedLocal(v: View): set<Ref> {
    set r | r in v.local && Does(v, r, DeleteLocal)
  }

  function DroppedRemote(v: View): set<Ref> {
    set r | r in v.remote && Does(v, r, DeleteRemote)
  }

  function LocalAfter(v: View): Rows {
    (v.local + Pulled(v)) - DroppedLocal(v)
  }

  function RemoteAfter(v: View): Rows {
    (v.remote + Pushed(v)) - DroppedRemote(v)
  }

  /** How a verdict constrains the rows it is about. */
  lemma VerdictShape(v: View, ref: Ref)
    requires ref in v.Keys()
    ensures TakesRemote(v, ref) ==> ref in v.remote
    ensures TakesLocal(v, ref) ==> ref in v.local
    ensures Does(v, ref, DeleteLocal) ==> ref in v.local && ref !in v.remote && DeletesPhysically(ref.table)
    ensures Does(v, ref, DeleteRemote) ==> ref in v.remote && ref !in v.local && DeletesPhysically(ref.table)
    ensures v.VerdictAt(ref).Settled? ==>
              ref in v.local && (if ref in v.remote then v.local[ref] == v.remote[ref]
                                 else ref.table.Workspaces? && WorkspaceEmpty(v.local, ref.key))
    ensures !v.VerdictAt(ref).Clash? ==>
              v.VerdictAt(ref).Settled? || TakesRemote(v, ref) || TakesLocal(v, ref) ||
              Does(v, ref, DeleteLocal) || Does(v, ref, DeleteRemote)
  {
  }

  /** Key by key, where a conflict-free run ends: on both sides, or on neither,
      unused local workspaces aside. */
  lemma OutcomeAt(v: View, ref: Ref)
    requires ref in v.Keys() && !v.VerdictAt(ref).Clash?
    ensures ref in RemoteAfter(v) ==> Lookup(LocalAfter(v), ref) == Some(RemoteAfter(v)[ref])
    ensures ref in LocalAfter(v) && ref !in RemoteAfter(v) ==>
              ref in v.local && ref !in v.remote && ref.table.Workspaces? && WorkspaceEmpty(v.local, ref.key)
    ensures Does(v, ref, DeleteLocal) || Does(v, ref, DeleteRemote) <==>
              ref !in LocalAfter(v) && ref !in RemoteAfter(v)
  {
    VerdictShape(v, ref);
  }

  lemma UnusedStaysUnused(v: View, workspaceId: string)
    requires PullSparesUnused(v) && WorkspaceEmpty(v.local, workspaceId)
    requires Ref(Workspaces, workspaceId) in v.local && Ref(Workspaces, workspaceId) !in v.remote
    ensures WorkspaceEmpty(LocalAfter(v), workspaceId)
  {
    var after := LocalAfter(v);
    forall r | r in after && !after[r].Workspace?
      ensures after[r].Owner() != workspaceId
    {
      assert (r in Pulled(v) && after[r] == Pulled(v)[r]) || (r in v.local && after[r] == v.local[r]);
    }
  }

  lemma AfterAgrees(v: View)
    requires PullSparesUnused(v) && forall ref <- v.Keys() :: !v.VerdictAt(ref).Clash?
    ensures Agree(LocalAfter(v), RemoteAfter(v))
  {
    forall ref | ref in LocalAfter(v) || ref in RemoteAfter(v)
      ensures ref in RemoteAfter(v) ==> Lookup(LocalAfter(v), ref) == Some(RemoteAfter(v)[ref])
      ensures ref in LocalAfter(v) && ref !in RemoteAfter(v) ==>
                ref.table.Workspaces? && WorkspaceEmpty(LocalAfter(v), ref.key)
    {
      OutcomeAt(v, ref);
      if ref in LocalAfter(v) && ref !in RemoteAfter(v) {
        UnusedStaysUnused(v, ref.key);
      }
    }
  }

  /** No pulled row belongs to an unused workspace that stays local. */
  ghost predicate PullSparesUnused(v: View) {
    forall ref <- v.local, r <- Pulled(v) |
      ref !in v.remote && ref.table.Workspaces? && WorkspaceEmpty(v.local, ref.key) ::
      Pulled(v)[r].Workspace? || Pulled(v)[r].Owner() != ref.key
  }

  lemma ResolvedPullSparesUnused(v: View)
    requires WorkspacesResolve(v.remote)
    ensures PullSparesUnused(v)
  {
  }

  /** Convergence: from a conflict-free start, the comparison of what the two
      sides hold afterwards is silent, exactly if nothing was pulled into an
      unused local workspace; so always when remote workspaces resolve. */
  lemma Convergence(L: Rows, R: Rows)
    requires Keyed(L) && Keyed(R) && ConflictFree(L, R)
    ensures Quiet(LocalAfter(ViewOf(L, R)), RemoteAfter(ViewOf(L, R))) <==> PullSparesUnused(ViewOf(L, R))
    ensures WorkspacesResolve(R) ==> Quiet(LocalAfter(ViewOf(L, R)), RemoteAfter(ViewOf(L, R)))
  {
    var v := ViewOf(L, R);
    AfterIsKeyed(L, R);
    QuietIffAgree(LocalAfter(v), RemoteAfter(v));
    if PullSparesUnused(v) {
      AfterAgrees(v);
    } else {
      TouchedWorkspaceDisagrees(v);
    }
    if WorkspacesResolve(R) {
      ResolvedPullSparesUnused(v);
    }
  }

  lemma TouchedWorkspaceDisagrees(v: View)
    requires !PullSparesUnused(v) && Keyed(v.local)
    ensures !Agree(LocalAfter(v), RemoteAfter(v))
  {
    var ref, r :| ref in v.local && r in Pulled(v) &&
                  ref !in v.remote && ref.table.Workspaces? && WorkspaceEmpty(v.local, ref.key) &&
                  !Pulled(v)[r].Workspace? && Pulled(v)[r].Owner() == ref.key;
    assert ref in LocalAfter(v) && ref !in RemoteAfter(v);
    assert r in LocalAfter(v) && LocalAfter(v)[r] == Pulled(v)[r];
  }

  lemma AfterIsKeyed(L: Rows, R: Rows)
    requires Keyed(L) && Keyed(R)
    ensures Keyed(LocalAfter(ViewOf(L, R))) && Keyed(RemoteAfter(ViewOf(L, R)))
  {
  }

  ghost predicate DeletedIn(log: set<Change>, e: Entity) {
    Newest(log, e).Some? && Newest(log, e).value.IsTombstone()
  }

  lemma TombstoneMeansDeleted(s: Rows, e: Entity)
    requires Keyed(s)
    ensures TombstoneChange(Index(Log(s)), e).Some? <==> DeletedIn(Log(s), e)
  {
    ChangeIdsAreDistinct(s);
    IndexIsNewest(Log(s), e);
  }

  /** The row's entity was deleted by the side that lacks the row. */
  predicate DeletedByAbsentSide(v: View, ref: Ref) {
    && DeletesPhysically(ref.table)
    && ((ref in v.local && ref !in v.remote && TombstoneChange(v.rc, v.local[ref].Subject()).Some?) ||
        (ref in v.remote && ref !in v.local && TombstoneChange(v.lc, v.remote[ref].Subject()).Some?))
  }

  lemma DeletionShape(v: View, ref: Ref)
    requires ref in v.Keys()
    ensures Does(v, ref, DeleteLocal) || Does(v, ref, DeleteRemote) <==> DeletedByAbsentSide(v, ref)
  {
  }

  /** Conservation: a key held by either side is held by both afterwards, with a
      row one of them had, unless it is an unused local workspace, or it names a
      field, a note tag or a note link that one side lacks and whose newest
      change on that side is a tombstone: then neither side has it. */
  lemma Conservation(L: Rows, R: Rows, ref: Ref)
    requires Keyed(L) && Keyed(R) && ConflictFree(L, R) && ref in ViewOf(L, R).Keys()
    ensures var v := ViewOf(L, R);
            var A, B := LocalAfter(v), RemoteAfter(v);
            && (ref !in A && ref !in B <==>
                DeletesPhysically(ref.table) && if ref in L then ref !in R && DeletedIn(Log(R), L[ref].Subject())
                                                else DeletedIn(Log(L), R[ref].Subject()))
            && (ref in A && ref !in B <==> ref in L && ref !in R && ref.table.Workspaces? && WorkspaceEmpty(L, ref.key))
            && (ref in B ==>
                Lookup(A, ref) == Some(B[ref]) && (Lookup(L, ref) == Some(B[ref]) || Lookup(R, ref) == Some(B[ref])))
  {
    var v := ViewOf(L, R);
    OutcomeAt(v, ref);
    VerdictShape(v, ref);
    DeletionShape(v, ref);
    if ref in L { TombstoneMeansDeleted(R, L[ref].Subject()); }
    if ref in R { TombstoneMeansDeleted(L, R[ref].Subject()); }
  }

  lemma FactsAgree(L: Rows, R: Rows)
    requires Keyed(L) && Keyed(R) && ConflictFree(L, R)
    ensures DistinctIds(Log(L) + Log(R))
  {
    forall c, d | c in Log(L) + Log(R) && d in Log(L) + Log(R) && c.id == d.id
      ensures c == d
    {
      var ref := Ref(SyncChanges, c.id);
      assert c in Log(L) ==> Lookup(L, ref) == Some(ChangeRow(c));
      assert c in Log(R) ==> Lookup(R, ref) == Some(ChangeRow(c));
      assert d in Log(L) ==> Lookup(L, ref) == Some(ChangeRow(d));
      assert d in Log(R) ==> Lookup(R, ref) == Some(ChangeRow(d));
      assert ref in ViewOf(L, R).Keys() && !ViewOf(L, R).VerdictAt(ref).Clash?;
    }
  }

  /** Without conflicts the action list does not depend on any iteration order. */
  lemma ConflictFreeListsAgree(L: Rows, R: Rows, a: seq<Action>, b: seq<Action>)
    requires Sound(L) && Sound(R) && ConflictFree(L, R) && OneKeyPerSubject(L, R)
    requires Listing(ViewOf(L, R), a) && Listing(ViewOf(L, R), b)
    ensures a == b
  {
    FactsAgree(L, R);
    forall id
      ensures !CopiedBothWays(ViewOf(L, R), id)
    {
      SharedIdsAreNotCopiedBothWays(L, R, id);
    }
    OrderIndependence(ViewOf(L, R));
  }

  lemma FactsAreKept(v: View, ref: Ref)
    requires ref.table.SyncChanges? && ref in v.Keys() && !v.VerdictAt(ref).Clash?
    ensures var row := if ref in v.local then v.local[ref] else v.remote[ref];
            Lookup(LocalAfter(v), ref) == Some(row) && Lookup(RemoteAfter(v), ref) == Some(row)
  {
  }

  lemma LogOfUnion(s: Rows, a: Rows, b: Rows)
    requires Keyed(s) && Keyed(a) && Keyed(b)
    requires forall ref: Ref :: ref.table.SyncChanges? ==>
               Lookup(s, ref) == if ref in a then Some(a[ref]) else Lookup(b, ref)
    requires forall ref <- b :: ref.table.SyncChanges? && ref in a ==> a[ref] == b[ref]
    ensures Log(s) == Log(a) + Log(b)
  {
    forall c
      ensures c in Log(s) <==> Lookup(s, Ref(SyncChanges, c.id)) == Some(ChangeRow(c))
      ensures c in Log(a) <==> Lookup(a, Ref(SyncChanges, c.id)) == Some(ChangeRow(c))
      ensures c in Log(b) <==> Lookup(b, Ref(SyncChanges, c.id)) == Some(ChangeRow(c))
    {
      LogMember(s, c);
      LogMember(a, c);
      LogMember(b, c);
    }
  }

  lemma LogMember(s: Rows, c: Change)
    requires Keyed(s)
    ensures c in Log(s) <==> Lookup(s, Ref(SyncChanges, c.id)) == Some(ChangeRow(c))
  {
    if c in Log(s) {
      var r :| r in s && s[r].ChangeRow? && s[r].change == c;
      assert s[r].PrimaryKey() == r;
    }
  }

  /** Both logs become the union of the two logs, so the newest change about
      every entity becomes the newer of the two newest ones. */
  lemma LogUnion(L: Rows, R: Rows)
    requires Keyed(L) && Keyed(R) && ConflictFree(L, R)
    ensures DistinctIds(Log(L) + Log(R))
    ensures Log(LocalAfter(ViewOf(L, R))) == Log(L) + Log(R)
    ensures Log(RemoteAfter(ViewOf(L, R))) == Log(L) + Log(R)
    ensures forall e ::
              Lookup(Index(Log(L) + Log(R)), e) == MaxChange(Lookup(Index(Log(L)), e), Lookup(Index(Log(R)), e))
  {
    var v := ViewOf(L, R);
    FactsAgree(L, R);
    AfterIsKeyed(L, R);
    forall ref: Ref | ref.table.SyncChanges?
      ensures Lookup(LocalAfter(v), ref) == if ref in L then Some(L[ref]) else Lookup(R, ref)
      ensures Lookup(RemoteAfter(v), ref) == if ref in L then Some(L[ref]) else Lookup(R, ref)
      ensures ref in R && ref in L ==> L[ref] == R[ref]
    {
      if ref in v.Keys() {
        FactsAreKept(v, ref);
      }
      if ref in R && ref in L {
        SharedFact(L, R, ref.key);
      }
    }
    LogOfUnion(LocalAfter(v), L, R);
    LogOfUnion(RemoteAfter(v), L, R);
    forall e
      ensures Lookup(Index(Log(L) + Log(R)), e) == MaxChange(Lookup(Index(Log(L)), e), Lookup(Index(Log(R)), e))
    {
      IndexOfUnion(Log(L), Log(R), e);
    }
  }
}
