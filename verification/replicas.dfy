/** Several devices against one remote side: after device A, device B and device
    A again have synchronized, everybody holds the same rows. */
module Replicas {
  import opened Base
  import opened Tables
  import opened Changes
  import opened Lifecycle
  import opened Comparison
  import opened Merge
  import opened Resume

  /** The device holds the remote row, or a row of its own that is no more than
      an unused workspace. */
  predicate AgreesAt(w: View, q: View, ref: Ref) {
    if ref in w.remote then Lookup(q.local, ref) == Some(w.remote[ref])
    else ref in q.local ==> ref.table.Workspaces? && WorkspaceEmpty(q.local, ref.key)
  }

  /** `q` compares a device that agrees with what the remote side was before
      another device's run `w` with what that run made of it. */
  ghost predicate Revisits(w: View, q: View) {
    && (forall ref: Ref {:trigger AgreesAt(w, q, ref)} :: AgreesAt(w, q, ref))
    && (forall ref: Ref {:trigger RemoteOutcome(w, ref)} ::
          Lookup(q.remote, ref) == if ref in w.Keys() then RemoteOutcome(w, ref) else None)
    && q.lc == w.rc
    && (forall e: Entity {:trigger Newest2(w, e)} :: Lookup(q.rc, e) == Newest2(w, e))
  }

  lemma RowsRevisited(w: View, q: View, ref: Ref)
    requires Revisits(w, q)
    ensures AgreesAt(w, q, ref)
    ensures Lookup(q.remote, ref) == if ref in w.Keys() then RemoteOutcome(w, ref) else None
  {
    assert RemoteOutcome(w, ref) == RemoteOutcome(w, ref);
  }

  /** A workspace nothing uses on this device, which the other one sent with another
      row although its log says nothing newer about it than the remote one did. */
  ghost predicate UnclearWorkspace(w: View, here: Rows, ref: Ref) {
    && ref.table.Workspaces? && ref in here && ref !in w.remote
    && ref in w.local && !WorkspaceEmpty(w.local, ref.key) && here[ref] != w.local[ref]
    && NewerTarget(w.local[ref].Subject(), w.lc, w.rc) != Some(UpsertRemote)
  }

  /** What the other device wrote is taken, never overwritten; only about such a
      workspace the two rows do not tell which one is newer. */
  lemma TakesWhatTheOtherWrote(w: View, q: View, ref: Ref)
    requires Sound(w.local) && Sound(w.remote) && TombstonesLast(w) && Revisits(w, q)
    requires ref in w.Keys() && TakesLocal(w, ref) && ref in q.Keys()
    ensures if UnclearWorkspace(w, q.local, ref) then q.VerdictAt(ref).Clash?
            else q.VerdictAt(ref).Settled? || TakesRemote(q, ref)
  {
    VerdictShape(w, ref);
    RowsRevisited(w, q, ref);
    if ref !in q.local {
      TakesNewRow(w, q, ref);
    } else if ref in w.remote {
      if q.local[ref] != w.local[ref] {
        SameKeySameSubject(w.local[ref], w.remote[ref]);
        RevisitedDifference(w, q, ref.table, w.local[ref], w.remote[ref]);
      }
    } else {
      RevisitedWorkspace(w, q, ref);
    }
  }

  lemma TakesNewRow(w: View, q: View, ref: Ref)
    requires ref in w.local && ref !in w.remote && TakesLocal(w, ref) && q.lc == w.rc
    requires ref !in q.local && ref in q.remote && q.remote[ref] == w.local[ref]
    ensures TakesRemote(q, ref)
  {
  }

  lemma RevisitedDifference(w: View, q: View, t: Table, l: Row, r: Row)
    requires TombstonesLast(w) && Revisits(w, q) && l.Subject() == r.Subject()
    requires OnDifference(t, l, r, w.lc, w.rc).Act? && OnDifference(t, l, r, w.lc, w.rc).kind == UpsertRemote
    ensures OnDifference(t, r, l, q.lc, q.rc).Act? && OnDifference(t, r, l, q.lc, q.rc).kind == UpsertLocal
  {
    var e := r.Subject();
    assert Lookup(q.rc, e) == Newest2(w, e);
    if r.Note? && r.fieldId.Some? {
      var f := Entity(FieldEntity, r.fieldId.value);
      assert Lookup(q.rc, f) == Newest2(w, f);
    }
  }

  lemma RevisitedWorkspace(w: View, q: View, ref: Ref)
    requires Revisits(w, q) && ref in q.local && ref in q.remote && ref.table.Workspaces?
    requires ref in w.local && ref !in w.remote && TakesLocal(w, ref) && q.remote[ref] == w.local[ref]
    ensures if UnclearWorkspace(w, q.local, ref) then q.VerdictAt(ref).Clash?
            else q.VerdictAt(ref).Settled? || TakesRemote(q, ref)
  {
    var e := q.remote[ref].Subject();
    assert Lookup(q.rc, e) == Newest2(w, e);
  }

  /** What the other device deleted is deleted here too. */
  lemma DropsWhatTheOtherDeleted(w: View, q: View, ref: Ref)
    requires Sound(w.local) && Sound(w.remote) && TombstonesLast(w) && Revisits(w, q)
    requires ref in w.Keys() && Does(w, ref, DeleteRemote) && ref in q.Keys()
    ensures Does(q, ref, DeleteLocal)
  {
    VerdictShape(w, ref);
    RowsRevisited(w, q, ref);
    var e := w.remote[ref].Subject();
    assert w.remote[ref].PrimaryKey() == ref;
    assert Lookup(q.rc, e) == Newest2(w, e);
  }

  lemma KeepsUnused(q: View, ref: Ref)
    requires ref in q.local ==> ref.table.Workspaces? && WorkspaceEmpty(q.local, ref.key)
    requires ref in q.Keys() && ref !in q.remote
    ensures q.VerdictAt(ref).Settled?
  {
  }

  lemma RevisitAt(w: View, q: View, ref: Ref)
    requires Sound(w.local) && Sound(w.remote) && TombstonesLast(w) && Revisits(w, q)
    requires ref in q.Keys() && (ref in w.Keys() ==> !w.VerdictAt(ref).Clash?)
    ensures !TakesLocal(q, ref) && !Does(q, ref, DeleteRemote)
    ensures q.VerdictAt(ref).Clash? <==> UnclearWorkspace(w, q.local, ref)
  {
    RowsRevisited(w, q, ref);
    if ref !in w.Keys() {
      KeepsUnused(q, ref);
    } else {
      VerdictShape(w, ref);
      if TakesLocal(w, ref) {
        TakesWhatTheOtherWrote(w, q, ref);
      } else if Does(w, ref, DeleteRemote) {
        DropsWhatTheOtherDeleted(w, q, ref);
      } else if ref in w.remote {
        EqualRowsSettle(q, ref, w.remote[ref]);
      } else {
        KeepsUnused(q, ref);
      }
    }
  }

  /** A device that agreed with the remote side before another device's run
      finds nothing to write there after it, and no conflict but about workspaces. */
  lemma RevisitWritesNothing(w: View, q: View)
    requires Sound(w.local) && Sound(w.remote) && TombstonesLast(w) && Revisits(w, q)
    requires forall ref <- w.Keys() :: !w.VerdictAt(ref).Clash?
    ensures RemoteAfter(q) == q.remote
    ensures (forall ref <- q.Keys() :: !q.VerdictAt(ref).Clash?) <==>
            forall ref <- q.local :: !UnclearWorkspace(w, q.local, ref)
  {
    forall ref
      ensures Lookup(RemoteAfter(q), ref) == Lookup(q.remote, ref)
      ensures ref in q.Keys() ==> (q.VerdictAt(ref).Clash? <==> UnclearWorkspace(w, q.local, ref))
    {
      AfterAt(q, ref);
      if ref in q.Keys() {
        RevisitAt(w, q, ref);
      }
    }
    MapsEqual(RemoteAfter(q), q.remote);
  }

  lemma WorkspacesStay(v: View, w: Ref)
    requires w in v.Keys() && w.table.Workspaces? && !v.VerdictAt(w).Clash?
    ensures w in v.remote ==> w in RemoteAfter(v)
    ensures w in v.local && !WorkspaceEmpty(v.local, w.key) ==> w in RemoteAfter(v)
  {
    VerdictShape(v, w);
    AfterAt(v, w);
  }

  lemma RemoteRowsCome(v: View, r: Ref)
    requires r in RemoteAfter(v)
    ensures Lookup(v.local, r) == Some(RemoteAfter(v)[r]) || Lookup(v.remote, r) == Some(RemoteAfter(v)[r])
  {
  }

  /** A row held by a side that holds its workspace has its workspace remotely afterwards. */
  lemma RowKeepsWorkspace(v: View, r: Ref, row: Row)
    requires row.PrimaryKey() == r && (Lookup(v.local, r) == Some(row) || Lookup(v.remote, r) == Some(row))
    requires var w := Ref(Workspaces, row.Owner());
             && (Lookup(v.local, r) == Some(row) ==> w in v.local) &&
                (Lookup(v.remote, r) == Some(row) ==> w in v.remote)
             && w in v.Keys() && !v.VerdictAt(w).Clash?
    requires row.Workspace? ==> r in RemoteAfter(v)
    ensures Ref(Workspaces, row.Owner()) in RemoteAfter(v)
  {
    var w := Ref(Workspaces, row.Owner());
    if !row.Workspace? {
      if w !in v.remote {
        assert v.local[r] == row && row.Owner() == w.key;
        assert !WorkspaceEmpty(v.local, w.key);
      }
      WorkspacesStay(v, w);
    }
  }

  /** The outbound rows bring their workspaces along: emptiness looks at every
      table a workspace can own rows in. */
  lemma PushKeepsWorkspaces(v: View)
    requires Keyed(v.local) && Keyed(v.remote) && WorkspacesResolve(v.local) && WorkspacesResolve(v.remote)
    requires forall ref <- v.Keys() :: !v.VerdictAt(ref).Clash?
    ensures WorkspacesResolve(RemoteAfter(v))
  {
    forall r | r in RemoteAfter(v)
      ensures Ref(Workspaces, RemoteAfter(v)[r].Owner()) in RemoteAfter(v)
    {
      RemoteRowsCome(v, r);
      RowKeepsWorkspace(v, r, RemoteAfter(v)[r]);
    }
  }

  /** A deletion of a field, note tag or note link is the last the log says about it. */
  ghost predicate TombstonesEnd(log: set<Change>) {
    forall c <- log :: c.IsTombstone() && DeletableKind(c.entityType) ==> DeletedIn(log, c.Subject())
  }

  lemma TombstonesEndInUnion(L: Rows, R: Rows)
    requires Keyed(L) && Keyed(R) && ConflictFree(L, R) && TombstonesEnd(Log(L) + Log(R))
    ensures TombstonesLast(ViewOf(L, R))
  {
    var v := ViewOf(L, R);
    LogUnion(L, R);
    forall e: Entity | DeletableKind(e.kind) && (TombstoneChange(v.lc, e).Some? || TombstoneChange(v.rc, e).Some?)
      ensures Newest2(v, e).Some? && Newest2(v, e).value.IsTombstone()
    {
      NamedFact(L, e);
      NamedFact(R, e);
      assert DeletedIn(Log(L) + Log(R), e);
      IndexIsNewest(Log(L) + Log(R), e);
      assert Lookup(Index(Log(L) + Log(R)), e) == Newest2(v, e);
    }
  }

  lemma RunsRevisit(A0: Rows, B0: Rows, R0: Rows)
    requires Keyed(A0) && Keyed(B0) && Keyed(R0) && ConflictFree(A0, R0) && WorkspacesResolve(R0)
    requires ConflictFree(B0, RemoteAfter(ViewOf(A0, R0)))
    ensures var first := ViewOf(A0, R0);
            var second := ViewOf(B0, RemoteAfter(first));
            Revisits(second, ViewOf(LocalAfter(first), RemoteAfter(second)))
  {
    var first := ViewOf(A0, R0);
    var A1, R1 := LocalAfter(first), RemoteAfter(first);
    var second := ViewOf(B0, R1);
    AfterIsKeyed(A0, R0);
    LogUnion(A0, R0);
    LogUnion(B0, R1);
    ResolvedPullSparesUnused(first);
    AfterAgrees(first);
    var q := ViewOf(A1, RemoteAfter(second));
    forall ref
      ensures AgreesAt(second, q, ref)
      ensures Lookup(q.remote, ref) == if ref in second.Keys() then RemoteOutcome(second, ref) else None
    {
      AfterAt(second, ref);
    }
    assert q.lc == second.rc;
  }

  lemma RunsAreSound(L: Rows, R: Rows)
    requires Sound(L) && Sound(R)
    ensures Sound(LocalAfter(ViewOf(L, R))) && Sound(RemoteAfter(ViewOf(L, R)))
  {
  }

  /** What one run guarantees about the next one. */
  lemma OneRun(L: Rows, R: Rows)
    requires Sound(L) && Sound(R) && ConflictFree(L, R) && WorkspacesResolve(R)
    ensures var v := ViewOf(L, R);
            && Sound(LocalAfter(v)) && Sound(RemoteAfter(v)) && Agree(LocalAfter(v), RemoteAfter(v))
            && (WorkspacesResolve(L) ==> WorkspacesResolve(RemoteAfter(v)))
  {
    RunsAreSound(L, R);
    ResolvedPullSparesUnused(ViewOf(L, R));
    AfterAgrees(ViewOf(L, R));
    if WorkspacesResolve(L) {
      PushKeepsWorkspaces(ViewOf(L, R));
    }
  }

  lemma SecondUnion(A0: Rows, B0: Rows, R0: Rows)
    requires Keyed(A0) && Keyed(R0) && ConflictFree(A0, R0)
    ensures Log(B0) + Log(RemoteAfter(ViewOf(A0, R0))) == Log(A0) + Log(B0) + Log(R0)
  {
    LogUnion(A0, R0);
  }

  lemma ThirdRunWritesNothing(A0: Rows, B0: Rows, R0: Rows)
    requires Sound(A0) && Sound(B0) && Sound(R0) && WorkspacesResolve(R0)
    requires TombstonesEnd(Log(A0) + Log(B0) + Log(R0)) && ConflictFree(A0, R0)
    requires ConflictFree(B0, RemoteAfter(ViewOf(A0, R0)))
    ensures var first := ViewOf(A0, R0);
            var second := ViewOf(B0, RemoteAfter(first));
            && RemoteAfter(ViewOf(LocalAfter(first), RemoteAfter(second))) == RemoteAfter(second)
            && (ConflictFree(LocalAfter(first), RemoteAfter(second)) <==>
                forall ref <- LocalAfter(first) :: !UnclearWorkspace(second, LocalAfter(first), ref))
  {
    var R1 := RemoteAfter(ViewOf(A0, R0));
    RunsAreSound(A0, R0);
    SecondUnion(A0, B0, R0);
    TombstonesEndInUnion(B0, R1);
    RunsRevisit(A0, B0, R0);
    RevisitWritesNothing(ViewOf(B0, R1), ViewOf(LocalAfter(ViewOf(A0, R0)), RemoteAfter(ViewOf(B0, R1))));
  }

  /** Device A, device B, device A again: the third run is free of conflicts exactly if
      no workspace unused on A was sent by B with another row and no newer change;
      then the remote side is where B left it and both devices agree with it. */
  lemma ThreeRuns(A0: Rows, B0: Rows, R0: Rows)
    requires Sound(A0) && Sound(B0) && Sound(R0)
    requires WorkspacesResolve(A0) && WorkspacesResolve(B0) && WorkspacesResolve(R0)
    requires TombstonesEnd(Log(A0) + Log(B0) + Log(R0)) && ConflictFree(A0, R0)
    requires ConflictFree(B0, RemoteAfter(ViewOf(A0, R0)))
    ensures var first := ViewOf(A0, R0);
            var second := ViewOf(B0, RemoteAfter(first));
            var third := ViewOf(LocalAfter(first), RemoteAfter(second));
            && (ConflictFree(LocalAfter(first), RemoteAfter(second)) <==>
                forall ref <- LocalAfter(first) :: !UnclearWorkspace(second, LocalAfter(first), ref))
            && RemoteAfter(third) == RemoteAfter(second)
            && Agree(LocalAfter(second), RemoteAfter(third))
            && (ConflictFree(LocalAfter(first), RemoteAfter(second)) ==> Agree(LocalAfter(third), RemoteAfter(third)))
  {
    var A1, R1 := LocalAfter(ViewOf(A0, R0)), RemoteAfter(ViewOf(A0, R0));
    var R2 := RemoteAfter(ViewOf(B0, R1));
    ThirdRunWritesNothing(A0, B0, R0);
    OneRun(A0, R0);
    OneRun(B0, R1);
    if ConflictFree(A1, R2) {
      OneRun(A1, R2);
    }
  }

  /** Device A has workspace `w` and nothing in it; device B has another row for it,
      uses it for device `d`, and no log says anything. */
  ghost predicate TwoRowsForOneWorkspace(A0: Rows, B0: Rows, w: Row, x: Row, d: Row) {
    && w.Workspace? && x.Workspace? && w.id == x.id && w != x && d.Device? && d.workspaceId == x.id
    && A0 == map[Ref(Workspaces, w.id) := w]
    && B0 == map[Ref(Workspaces, x.id) := x, Ref(Devices, d.id) := d]
  }

  lemma FirstRunSendsNothing(A0: Rows, B0: Rows, w: Row, x: Row, d: Row)
    requires TwoRowsForOneWorkspace(A0, B0, w, x, d)
    ensures ConflictFree(A0, map[])
    ensures LocalAfter(ViewOf(A0, map[])) == A0 && RemoteAfter(ViewOf(A0, map[])) == map[]
  {
    var v := ViewOf(A0, map[]);
    assert v.Keys() == {Ref(Workspaces, w.id)};
    assert v.VerdictAt(Ref(Workspaces, w.id)) == Settled;
  }

  lemma SecondRunSendsAll(A0: Rows, B0: Rows, w: Row, x: Row, d: Row)
    requires TwoRowsForOneWorkspace(A0, B0, w, x, d)
    ensures ConflictFree(B0, map[]) && RemoteAfter(ViewOf(B0, map[])) == B0
    ensures UnclearWorkspace(ViewOf(B0, map[]), A0, Ref(Workspaces, w.id))
  {
    var v := ViewOf(B0, map[]);
    assert Log(B0) == {};
    assert B0[Ref(Devices, d.id)] == d && !WorkspaceEmpty(B0, x.id);
    forall r
      ensures r in v.Keys() ==> !v.VerdictAt(r).Clash?
      ensures Lookup(RemoteAfter(v), r) == Lookup(B0, r)
    {
      AfterAt(v, r);
    }
    MapsEqual(RemoteAfter(v), B0);
  }

  /** Such a third run is stopped by a conflict, though the first two were not. */
  lemma ThirdRunCanClash(A0: Rows, B0: Rows, w: Row, x: Row, d: Row)
    requires Sound(A0) && Sound(B0) && TwoRowsForOneWorkspace(A0, B0, w, x, d)
    ensures var first := ViewOf(A0, map[]);
            var second := ViewOf(B0, RemoteAfter(first));
            && ConflictFree(A0, map[]) && ConflictFree(B0, RemoteAfter(first))
            && !ConflictFree(LocalAfter(first), RemoteAfter(second))
  {
    FirstRunSendsNothing(A0, B0, w, x, d);
    SecondRunSendsAll(A0, B0, w, x, d);
    assert Log(A0) == {} && Log(B0) == {};
    ThirdRunWritesNothing(A0, B0, map[]);
  }
}
