/** Interrupted synchronization: from every state a run, a push or a pull can
    stop in, the next run ends where the uninterrupted run would have ended. */
module Resume {
  import opened Base
  import opened Tables
  import opened Changes
  import opened Lifecycle
  import opened Comparison
  import opened Merge

  /** How far a run, a push or a pull came. The local write is one transaction;
      the remote side accepts one table after the other, changes last, and
      deletes row by row once it accepted every table; the local deletion is one
      transaction after the local write. */
  datatype Progress = Progress(pulled: bool, cleaned: bool, tables: nat, erased: set<Ref>)

  ghost predicate Possible(v: View, g: Progress) {
    && g.tables <= 9 && g.erased <= DroppedRemote(v)
    && (g.cleaned ==> g.pulled)
    && (g.erased != {} ==> g.tables == 9)
  }

  ghost function LocalAt(v: View, g: Progress): Rows {
    if g.cleaned then LocalAfter(v) else if g.pulled then v.local + Pulled(v) else v.local
  }

  /** No workspace still to be sent lost its last row: workspaces are sent first, so
      this matters only when nothing was sent. */
  ghost predicate Orderly(v: View, g: Progress) {
    g.tables == 0 ==>
      forall ref <- v.local :: ref.table.Workspaces? && ref !in v.remote && !WorkspaceEmpty(v.local, ref.key) ==>
        !WorkspaceEmpty(LocalAt(v, g), ref.key)
  }

  ghost function PushedTables(v: View, n: nat): Rows {
    map r | r in Pushed(v) && WriteOrder(r.table) < n :: Pushed(v)[r]
  }

  ghost function RemoteAt(v: View, g: Progress): Rows {
    (v.remote + PushedTables(v, g.tables)) - g.erased
  }

  ghost function Newest2(v: View, e: Entity): Option<Change> {
    MaxChange(Lookup(v.lc, e), Lookup(v.rc, e))
  }

  /** For fields, note tags and note links: a deletion either side knows last is
      not followed by anything the other side knows. */
  ghost predicate TombstonesLast(v: View) {
    forall e: Entity {:trigger Newest2(v, e)} |
      DeletableKind(e.kind) && (TombstoneChange(v.lc, e).Some? || TombstoneChange(v.rc, e).Some?) ::
      Newest2(v, e).Some? && Newest2(v, e).value.IsTombstone()
  }

  ghost function LocalFactAt(v: View, g: Progress, e: Entity): Option<Change> {
    if g.pulled then Newest2(v, e) else Lookup(v.lc, e)
  }

  ghost function RemoteFactAt(v: View, g: Progress, e: Entity): Option<Change> {
    if g.tables == 9 then Newest2(v, e) else Lookup(v.rc, e)
  }

  /** `p` is what both sides and their logs look like at that point. */
  ghost predicate Reached(v: View, g: Progress, p: View) {
    && Possible(v, g) && p.Keys() <= v.Keys()
    && (forall ref: Ref {:trigger LocalRowAt(v, g, ref)} | ref in v.Keys() ::
          Lookup(p.local, ref) == LocalRowAt(v, g, ref))
    && (forall ref: Ref {:trigger RemoteRowAt(v, g, ref)} | ref in v.Keys() ::
          Lookup(p.remote, ref) == RemoteRowAt(v, g, ref))
    && (forall e: Entity {:trigger LocalFactAt(v, g, e)} :: Lookup(p.lc, e) == LocalFactAt(v, g, e))
    && (forall e: Entity {:trigger RemoteFactAt(v, g, e)} :: Lookup(p.rc, e) == RemoteFactAt(v, g, e))
  }

  /** The row of a key at that point. */
  ghost function LocalRowAt(v: View, g: Progress, ref: Ref): Option<Row> {
    if g.cleaned && Does(v, ref, DeleteLocal) then None
    else if g.pulled && TakesRemote(v, ref) then Lookup(v.remote, ref)
    else Lookup(v.local, ref)
  }

  ghost function RemoteRowAt(v: View, g: Progress, ref: Ref): Option<Row> {
    if ref in g.erased then None
    else if TakesLocal(v, ref) && WriteOrder(ref.table) < g.tables then Lookup(v.local, ref)
    else Lookup(v.remote, ref)
  }

  lemma RowsAt(v: View, g: Progress, ref: Ref)
    requires Possible(v, g) && ref in v.Keys()
    ensures Lookup(LocalAt(v, g), ref) == LocalRowAt(v, g, ref)
    ensures Lookup(RemoteAt(v, g), ref) == RemoteRowAt(v, g, ref)
  {
    VerdictShape(v, ref);
  }

  lemma FreshnessPersists(v: View, p: View, e: Entity)
    requires Lookup(p.lc, e) == Lookup(v.lc, e) || Lookup(p.lc, e) == Newest2(v, e)
    requires Lookup(p.rc, e) == Lookup(v.rc, e) || Lookup(p.rc, e) == Newest2(v, e)
    ensures NewerTarget(e, v.lc, v.rc) == Some(UpsertRemote) && p.rc == v.rc ==>
              NewerTarget(e, p.lc, p.rc) == Some(UpsertRemote)
    ensures NewerTarget(e, v.lc, v.rc) == Some(UpsertLocal) && p.lc == v.lc ==>
              NewerTarget(e, p.lc, p.rc) == Some(UpsertLocal)
  {
  }

  lemma TombstonePersists(v: View, g: Progress, p: View, e: Entity)
    requires TombstonesLast(v) && Reached(v, g, p) && DeletableKind(e.kind)
    ensures TombstoneChange(v.lc, e).Some? ==> TombstoneChange(p.lc, e).Some?
    ensures TombstoneChange(v.rc, e).Some? ==> TombstoneChange(p.rc, e).Some?
  {
    assert Lookup(p.lc, e) == LocalFactAt(v, g, e) && Lookup(p.rc, e) == RemoteFactAt(v, g, e);
  }

  /** A difference still to be resolved is resolved the same way. */
  lemma DifferencePersists(v: View, g: Progress, p: View, t: Table, l: Row, r: Row)
    requires TombstonesLast(v) && Reached(v, g, p) && OnDifference(t, l, r, v.lc, v.rc).Act?
    requires var kind := OnDifference(t, l, r, v.lc, v.rc).kind;
             (kind == UpsertRemote && p.rc == v.rc) || (kind == UpsertLocal && p.lc == v.lc)
    ensures OnDifference(t, l, r, p.lc, p.rc).Act?
    ensures OnDifference(t, l, r, p.lc, p.rc).kind == OnDifference(t, l, r, v.lc, v.rc).kind
  {
    var e := r.Subject();
    assert Lookup(p.lc, e) == LocalFactAt(v, g, e) && Lookup(p.rc, e) == RemoteFactAt(v, g, e);
    FreshnessPersists(v, p, e);
    if l.Note? && r.Note? {
      if l.fieldId.Some? { TombstonePersists(v, g, p, Entity(FieldEntity, l.fieldId.value)); }
      if r.fieldId.Some? { TombstonePersists(v, g, p, Entity(FieldEntity, r.fieldId.value)); }
    }
  }

  /** No row moves between workspaces. */
  ghost predicate OwnersAgree(v: View) {
    forall ref <- v.local :: ref in v.remote ==> v.local[ref].Owner() == v.remote[ref].Owner()
  }

  /** The start of a run the resume theorem is about. */
  ghost predicate Resumable(v: View) {
    && Keyed(v.local) && Keyed(v.remote)
    && (forall ref <- v.Keys() :: !v.VerdictAt(ref).Clash?)
    && TombstonesLast(v)
  }

  /** Rows pulled so far leave unused workspaces unused. */
  ghost predicate Tidy(v: View, g: Progress) {
    g.pulled ==> PullSparesUnused(v)
  }

  /** Where one key ends up on each side. */
  function LocalOutcome(v: View, ref: Ref): Option<Row> {
    if Does(v, ref, DeleteLocal) then None
    else if TakesRemote(v, ref) then Lookup(v.remote, ref)
    else Lookup(v.local, ref)
  }

  function RemoteOutcome(v: View, ref: Ref): Option<Row> {
    if Does(v, ref, DeleteRemote) then None
    else if TakesLocal(v, ref) then Lookup(v.local, ref)
    else Lookup(v.remote, ref)
  }

  lemma AfterAt(v: View, ref: Ref)
    ensures Lookup(LocalAfter(v), ref) == if ref in v.Keys() then LocalOutcome(v, ref) else None
    ensures Lookup(RemoteAfter(v), ref) == if ref in v.Keys() then RemoteOutcome(v, ref) else None
  {
    if ref in v.Keys() {
      VerdictShape(v, ref);
    }
  }

  lemma RowsReached(v: View, g: Progress, p: View, ref: Ref)
    requires Reached(v, g, p) && ref in v.Keys()
    ensures Lookup(p.local, ref) == LocalRowAt(v, g, ref) && Lookup(p.remote, ref) == RemoteRowAt(v, g, ref)
  {
  }

  lemma ResumeUnused(v: View, g: Progress, p: View, ref: Ref)
    requires Resumable(v) && Tidy(v, g) && Reached(v, g, p)
    requires ref in v.local && ref !in v.remote && v.VerdictAt(ref).Settled?
    ensures ref in p.local && ref !in p.remote && p.VerdictAt(ref).Settled?
  {
    VerdictShape(v, ref);
    RowsReached(v, g, p, ref);
    forall r | r in p.local && !p.local[r].Workspace?
      ensures p.local[r].Owner() != ref.key
    {
      RowsReached(v, g, p, r);
      assert TakesRemote(v, r) && g.pulled ==> r in Pulled(v);
    }
  }

  lemma ResumeDropLocal(v: View, g: Progress, p: View, ref: Ref)
    requires Resumable(v) && Reached(v, g, p) && ref in v.Keys() && Does(v, ref, DeleteLocal)
    ensures if g.cleaned then ref !in p.Keys() else ref in p.Keys() && Does(p, ref, DeleteLocal)
  {
    VerdictShape(v, ref);
    RowsReached(v, g, p, ref);
    assert v.local[ref].PrimaryKey() == ref;
    TombstonePersists(v, g, p, v.local[ref].Subject());
  }

  lemma ResumeDropRemote(v: View, g: Progress, p: View, ref: Ref)
    requires Resumable(v) && Reached(v, g, p) && ref in v.Keys() && Does(v, ref, DeleteRemote)
    ensures if ref in g.erased then ref !in p.Keys() else ref in p.Keys() && Does(p, ref, DeleteRemote)
  {
    VerdictShape(v, ref);
    RowsReached(v, g, p, ref);
    assert v.remote[ref].PrimaryKey() == ref;
    TombstonePersists(v, g, p, v.remote[ref].Subject());
  }

  lemma SameFacts(v: View, g: Progress, p: View)
    requires Reached(v, g, p)
    ensures !g.pulled ==> p.lc == v.lc
    ensures g.tables != 9 ==> p.rc == v.rc
  {
    forall e
      ensures Lookup(p.lc, e) == LocalFactAt(v, g, e) && Lookup(p.rc, e) == RemoteFactAt(v, g, e)
    {
    }
    if !g.pulled {
      MapsEqual(p.lc, v.lc);
    }
    if g.tables != 9 {
      MapsEqual(p.rc, v.rc);
    }
  }

  lemma EqualRowsSettle(p: View, ref: Ref, row: Row)
    requires Lookup(p.local, ref) == Some(row) == Lookup(p.remote, ref)
    ensures ref in p.Keys() && p.VerdictAt(ref) == Settled
  {
  }

  lemma MissingLocalPersists(v: View, p: View, ref: Ref)
    requires ref !in v.local && ref in v.remote && p.lc == v.lc
    requires ref !in p.local && ref in p.remote && p.remote[ref] == v.remote[ref]
    ensures p.VerdictAt(ref) == v.VerdictAt(ref)
  {
  }

  lemma MissingRemotePersists(v: View, p: View, ref: Ref)
    requires ref in v.local && ref !in v.remote && p.rc == v.rc
    requires ref in p.local && ref !in p.remote && p.local[ref] == v.local[ref]
    requires ref.table.Workspaces? ==> !WorkspaceEmpty(v.local, ref.key) && !WorkspaceEmpty(p.local, ref.key)
    ensures p.VerdictAt(ref) == v.VerdictAt(ref)
  {
  }

  lemma PendingDifference(v: View, g: Progress, p: View, ref: Ref)
    requires TombstonesLast(v) && Reached(v, g, p) && ref in v.local && ref in v.remote
    requires ref in p.local && ref in p.remote && p.local[ref] == v.local[ref] && p.remote[ref] == v.remote[ref]
    requires (TakesRemote(v, ref) && p.lc == v.lc) || (TakesLocal(v, ref) && p.rc == v.rc)
    ensures p.VerdictAt(ref).Act? && p.VerdictAt(ref).kind == v.VerdictAt(ref).kind
  {
    DifferencePersists(v, g, p, ref.table, v.local[ref], v.remote[ref]);
  }

  lemma ResumePull(v: View, g: Progress, p: View, ref: Ref)
    requires Resumable(v) && Reached(v, g, p) && ref in v.Keys() && TakesRemote(v, ref)
    ensures ref in p.Keys() && if g.pulled then p.VerdictAt(ref).Settled? else TakesRemote(p, ref)
  {
    VerdictShape(v, ref);
    RowsReached(v, g, p, ref);
    if g.pulled {
      EqualRowsSettle(p, ref, v.remote[ref]);
    } else {
      SameFacts(v, g, p);
      if ref in v.local {
        PendingDifference(v, g, p, ref);
      } else {
        MissingLocalPersists(v, p, ref);
      }
    }
  }

  lemma StillUsed(v: View, g: Progress, p: View, ref: Ref)
    requires Reached(v, g, p) && Orderly(v, g) && g.tables == 0
    requires ref in v.local && ref !in v.remote && ref.table.Workspaces? && !WorkspaceEmpty(v.local, ref.key)
    ensures !WorkspaceEmpty(p.local, ref.key)
  {
    var s := LocalAt(v, g);
    var r :| r in s && !s[r].Workspace? && s[r].Owner() == ref.key;
    assert r in v.Keys();
    RowsReached(v, g, p, r);
    RowsAt(v, g, r);
    assert r in p.local && p.local[r] == s[r];
  }

  /** A run whose rows stay in their workspaces is orderly until it deletes. */
  lemma OwnersAgreeIsOrderly(v: View, g: Progress)
    requires Keyed(v.local) && Keyed(v.remote) && OwnersAgree(v) && !g.cleaned
    ensures Orderly(v, g)
  {
    forall ref | ref in v.local && !WorkspaceEmpty(v.local, ref.key)
      ensures !WorkspaceEmpty(LocalAt(v, g), ref.key)
    {
      var r :| r in v.local && !v.local[r].Workspace? && v.local[r].Owner() == ref.key;
      var s := LocalAt(v, g);
      assert r in s && (s[r] == v.local[r] || (r in v.remote && s[r] == v.remote[r]));
      assert v.local[r].PrimaryKey() == r && (r in v.remote ==> v.remote[r].PrimaryKey() == r);
    }
  }

  lemma ResumePush(v: View, g: Progress, p: View, ref: Ref)
    requires Resumable(v) && Reached(v, g, p) && Orderly(v, g) && ref in v.Keys() && TakesLocal(v, ref)
    ensures ref in p.Keys() && if WriteOrder(ref.table) < g.tables then p.VerdictAt(ref).Settled?
            else TakesLocal(p, ref)
  {
    VerdictShape(v, ref);
    RowsReached(v, g, p, ref);
    if WriteOrder(ref.table) < g.tables {
      EqualRowsSettle(p, ref, v.local[ref]);
    } else {
      SameFacts(v, g, p);
      if ref in v.remote {
        PendingDifference(v, g, p, ref);
      } else {
        if ref.table.Workspaces? {
          StillUsed(v, g, p, ref);
        }
        MissingRemotePersists(v, p, ref);
      }
    }
  }

  lemma ResumeVerdict(v: View, g: Progress, p: View, ref: Ref)
    requires Resumable(v) && Tidy(v, g) && Reached(v, g, p) && Orderly(v, g) && ref in v.Keys()
    ensures v.VerdictAt(ref).Settled? ==> ref in p.Keys() && p.VerdictAt(ref).Settled?
    ensures TakesRemote(v, ref) ==>
              ref in p.Keys() && if g.pulled then p.VerdictAt(ref).Settled? else TakesRemote(p, ref)
    ensures TakesLocal(v, ref) ==>
              && ref in p.Keys()
              && if WriteOrder(ref.table) < g.tables then p.VerdictAt(ref).Settled? else TakesLocal(p, ref)
    ensures Does(v, ref, DeleteLocal) ==>
              if g.cleaned then ref !in p.Keys() else ref in p.Keys() && Does(p, ref, DeleteLocal)
    ensures Does(v, ref, DeleteRemote) ==>
              if ref in g.erased then ref !in p.Keys() else ref in p.Keys() && Does(p, ref, DeleteRemote)
  {
    VerdictShape(v, ref);
    RowsReached(v, g, p, ref);
    if TakesRemote(v, ref) {
      ResumePull(v, g, p, ref);
    } else if TakesLocal(v, ref) {
      ResumePush(v, g, p, ref);
    } else if Does(v, ref, DeleteLocal) {
      ResumeDropLocal(v, g, p, ref);
    } else if Does(v, ref, DeleteRemote) {
      ResumeDropRemote(v, g, p, ref);
    } else if ref in v.remote {
      EqualRowsSettle(p, ref, v.remote[ref]);
    } else {
      ResumeUnused(v, g, p, ref);
    }
  }

  lemma ResumeOutcome(v: View, g: Progress, p: View, ref: Ref)
    requires Resumable(v) && Tidy(v, g) && Reached(v, g, p) && Orderly(v, g) && ref in v.Keys()
    ensures ref in p.Keys() ==> !p.VerdictAt(ref).Clash?
    ensures LocalOutcome(v, ref) == if ref in p.Keys() then LocalOutcome(p, ref) else None
    ensures RemoteOutcome(v, ref) == if ref in p.Keys() then RemoteOutcome(p, ref) else None
  {
    VerdictShape(v, ref);
    RowsReached(v, g, p, ref);
    ResumeVerdict(v, g, p, ref);
  }

  /** The sides an interrupted run leaves behind. */
  ghost function StateAt(L: Rows, R: Rows, g: Progress): View {
    ViewOf(LocalAt(ViewOf(L, R), g), RemoteAt(ViewOf(L, R), g))
  }

  lemma FactsAt(v: View, g: Progress, ref: Ref)
    requires Possible(v, g) && ref.table.SyncChanges? && ref in v.Keys() && !v.VerdictAt(ref).Clash?
    ensures LocalRowAt(v, g, ref) == if ref in v.local || !g.pulled then Lookup(v.local, ref) else Lookup(v.remote, ref)
    ensures RemoteRowAt(v, g, ref) == if ref in v.remote || g.tables != 9 then Lookup(v.remote, ref)
            else Lookup(v.local, ref)
  {
    VerdictShape(v, ref);
  }

  lemma LocalLogAt(v: View, g: Progress)
    requires Keyed(v.local) && Keyed(v.remote) && Possible(v, g)
    requires forall ref <- v.Keys() :: !v.VerdictAt(ref).Clash?
    requires forall ref <- v.local :: ref.table.SyncChanges? && ref in v.remote ==> v.local[ref] == v.remote[ref]
    ensures Log(LocalAt(v, g)) == if g.pulled then Log(v.local) + Log(v.remote) else Log(v.local)
  {
    forall ref: Ref | ref.table.SyncChanges?
      ensures Lookup(LocalAt(v, g), ref) == if ref in v.local then Some(v.local[ref])
                                            else if g.pulled then Lookup(v.remote, ref) else None
    {
      if ref in v.Keys() {
        RowsAt(v, g, ref);
        FactsAt(v, g, ref);
      }
    }
    LogOfUnion(LocalAt(v, g), v.local, if g.pulled then v.remote else map[]);
  }

  lemma RemoteLogAt(v: View, g: Progress)
    requires Keyed(v.local) && Keyed(v.remote) && Possible(v, g)
    requires forall ref <- v.Keys() :: !v.VerdictAt(ref).Clash?
    requires forall ref <- v.local :: ref.table.SyncChanges? && ref in v.remote ==> v.local[ref] == v.remote[ref]
    ensures Log(RemoteAt(v, g)) == if g.tables == 9 then Log(v.local) + Log(v.remote) else Log(v.remote)
  {
    forall ref: Ref | ref.table.SyncChanges?
      ensures Lookup(RemoteAt(v, g), ref) == if ref in v.remote then Some(v.remote[ref])
                                             else if g.tables == 9 then Lookup(v.local, ref) else None
    {
      if ref in v.Keys() {
        RowsAt(v, g, ref);
        FactsAt(v, g, ref);
      }
    }
    LogOfUnion(RemoteAt(v, g), v.remote, if g.tables == 9 then v.local else map[]);
  }

  lemma StateIsReached(L: Rows, R: Rows, g: Progress)
    requires Keyed(L) && Keyed(R) && ConflictFree(L, R) && Possible(ViewOf(L, R), g)
    ensures Reached(ViewOf(L, R), g, StateAt(L, R, g))
  {
    var v := ViewOf(L, R);
    forall ref: Ref | ref in L && ref.table.SyncChanges? && ref in R
      ensures L[ref] == R[ref]
    {
      FactsAgree(L, R);
      SharedFact(L, R, ref.key);
    }
    LocalLogAt(v, g);
    RemoteLogAt(v, g);
    LogUnion(L, R);
    assert Log(R) + Log(L) == Log(L) + Log(R);
    ReachedFrom(v, g, StateAt(L, R, g));
  }

  lemma ReachedFrom(v: View, g: Progress, p: View)
    requires Possible(v, g) && p.local == LocalAt(v, g) && p.remote == RemoteAt(v, g)
    requires forall e {:trigger LocalFactAt(v, g, e)} :: Lookup(p.lc, e) == LocalFactAt(v, g, e)
    requires forall e {:trigger RemoteFactAt(v, g, e)} :: Lookup(p.rc, e) == RemoteFactAt(v, g, e)
    ensures Reached(v, g, p)
  {
    forall ref | ref in v.Keys()
      ensures Lookup(p.local, ref) == LocalRowAt(v, g, ref) && Lookup(p.remote, ref) == RemoteRowAt(v, g, ref)
    {
      RowsAt(v, g, ref);
    }
  }

  /** The next comparison is conflict-free and leads to the same two sides. */
  ghost predicate Resumes(L: Rows, R: Rows, g: Progress) {
    var v, p := ViewOf(L, R), StateAt(L, R, g);
    ConflictFree(p.local, p.remote) && LocalAfter(p) == LocalAfter(v) && RemoteAfter(p) == RemoteAfter(v)
  }

  lemma UsedIsSent(v: View, ref: Ref)
    requires ref in v.local && ref !in v.remote && ref.table.Workspaces? && !WorkspaceEmpty(v.local, ref.key)
    ensures TakesLocal(v, ref) && ref in RemoteAfter(v)
  {
    AfterAt(v, ref);
  }

  lemma UnusedIsNotSent(p: View, ref: Ref)
    requires ref in p.local && ref !in p.remote && ref.table.Workspaces? && WorkspaceEmpty(p.local, ref.key)
    ensures ref !in RemoteAfter(p)
  {
    AfterAt(p, ref);
  }

  lemma EmptiedIsNotSent(L: Rows, R: Rows, g: Progress)
    requires Keyed(L) && Keyed(R) && ConflictFree(L, R) && Possible(ViewOf(L, R), g) && !Orderly(ViewOf(L, R), g)
    ensures !Resumes(L, R, g)
  {
    var v, p := ViewOf(L, R), StateAt(L, R, g);
    var ref :| ref in L && ref.table.Workspaces? && ref !in R && !WorkspaceEmpty(L, ref.key) &&
               WorkspaceEmpty(LocalAt(v, g), ref.key);
    StateIsReached(L, R, g);
    RowsReached(v, g, p, ref);
    UsedIsSent(v, ref);
    UnusedIsNotSent(p, ref);
  }

  /** A workspace nothing used is sent once a pulled row uses it. */
  lemma TouchedIsSent(L: Rows, R: Rows, g: Progress)
    requires Keyed(L) && Keyed(R) && ConflictFree(L, R) && Possible(ViewOf(L, R), g) && !Tidy(ViewOf(L, R), g)
    ensures !Resumes(L, R, g)
  {
    var v, p := ViewOf(L, R), StateAt(L, R, g);
    var ref, r :| ref in L && r in Pulled(v) && ref !in R && ref.table.Workspaces? && WorkspaceEmpty(L, ref.key) &&
                  !Pulled(v)[r].Workspace? && Pulled(v)[r].Owner() == ref.key;
    StateIsReached(L, R, g);
    RowsReached(v, g, p, ref);
    RowsReached(v, g, p, r);
    UnusedIsNotSent(v, ref);
    assert p.local[r] == Pulled(v)[r];
    UsedIsSent(p, ref);
  }

  /** Resumption: whatever point an earlier run, push or pull stopped at, the next
      run ends where the uninterrupted one would have, exactly if no workspace still
      to be sent lost its last row before anything was sent, and no row was pulled
      into a workspace nothing used. */
  lemma Resumption(L: Rows, R: Rows, g: Progress)
    requires Resumable(ViewOf(L, R)) && Possible(ViewOf(L, R), g)
    ensures Resumes(L, R, g) <==> Orderly(ViewOf(L, R), g) && (g.pulled ==> PullSparesUnused(ViewOf(L, R)))
  {
    if !Orderly(ViewOf(L, R), g) {
      EmptiedIsNotSent(L, R, g);
    } else if !Tidy(ViewOf(L, R), g) {
      TouchedIsSent(L, R, g);
    } else {
      OrderlyResumes(L, R, g);
    }
  }

  lemma OrderlyResumes(L: Rows, R: Rows, g: Progress)
    requires Resumable(ViewOf(L, R)) && Possible(ViewOf(L, R), g)
    requires Orderly(ViewOf(L, R), g) && Tidy(ViewOf(L, R), g)
    ensures Resumes(L, R, g)
  {
    var v, p := ViewOf(L, R), StateAt(L, R, g);
    StateIsReached(L, R, g);
    forall ref
      ensures ref in p.Keys() ==> !p.VerdictAt(ref).Clash?
      ensures Lookup(LocalAfter(p), ref) == Lookup(LocalAfter(v), ref)
      ensures Lookup(RemoteAfter(p), ref) == Lookup(RemoteAfter(v), ref)
    {
      AfterAt(v, ref);
      AfterAt(p, ref);
      if ref in v.Keys() {
        ResumeOutcome(v, g, p, ref);
      }
    }
    MapsEqual(LocalAfter(p), LocalAfter(v));
    MapsEqual(RemoteAfter(p), RemoteAfter(v));
  }
}
