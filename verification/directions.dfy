/** The one-way operations: when a push or a pull passes the check of its own
    direction, and that the two together amount to one bidirectional run. */
module Directions {
  import opened Base
  import opened Tables
  import opened Changes
  import opened Lifecycle
  import opened Comparison
  import opened Merge
  import opened Resume

  predicate TargetsRemote(kind: ActionKind) {
    kind.UpsertRemote? || kind.DeleteRemote? || kind.SyncChangeRemote?
  }

  predicate TargetsLocal(kind: ActionKind) {
    !TargetsRemote(kind)
  }

  /** Nothing unclear, and nothing left to do on the remote side. */
  ghost predicate PushConverged(L: Rows, R: Rows) {
    && ViewOf(L, R).AllConflicts() == multiset{}
    && forall a :: a in ViewOf(L, R).AllActions() ==> !TargetsRemote(a.kind)
  }

  ghost function AfterPush(v: View): Progress {
    Progress(false, false, 9, DroppedRemote(v))
  }

  /** A pending local deletion is still a deletion once the remote log is the
      union of both logs; and so is the deletion of a field a note follows,
      unless the remote note is newer anyway. */
  ghost predicate DeletionsSurviveUnion(v: View, ref: Ref) {
    && (Does(v, ref, DeleteLocal) ==>
          Newest2(v, v.local[ref].Subject()).Some? && Newest2(v, v.local[ref].Subject()).value.IsTombstone())
    && (v.VerdictAt(ref) == Act(UpsertLocal, NoteFollowsFieldTombstone) ==>
          ref in v.local && v.local[ref].Note? && v.local[ref].fieldId.Some? &&
          var field := Entity(FieldEntity, v.local[ref].fieldId.value);
          || (Newest2(v, field).Some? && Newest2(v, field).value.IsTombstone())
          || NewerTarget(v.remote[ref].Subject(), v.lc, v.rc) == Some(UpsertLocal))
  }

  ghost predicate PushSafe(v: View) {
    forall ref <- v.Keys() :: DeletionsSurviveUnion(v, ref)
  }

  lemma RemoteActionShape(v: View, ref: Ref, a: Action)
    requires ref in v.Keys() && a in v.ActionsAt(ref) && TargetsRemote(a.kind)
    requires forall e <- v.lc :: e in v.rc
    ensures TakesLocal(v, ref) || Does(v, ref, DeleteRemote)
  {
  }

  lemma VerdictActionIsListed(v: View, ref: Ref)
    requires ref in v.Keys() && v.VerdictAt(ref).Act?
    ensures Action(v.VerdictAt(ref).kind, ref.table, ref.key, v.VerdictAt(ref).reason) in v.AllActions()
  {
    var a := Action(v.VerdictAt(ref).kind, ref.table, ref.key, v.VerdictAt(ref).reason);
    assert a in v.ActionsAt(ref);
    ActionMember(v, a);
  }

  /** A conflict, or something to be done on the remote side. */
  predicate Outbound(p: View, ref: Ref) {
    p.VerdictAt(ref).Clash? || TakesLocal(p, ref) || Does(p, ref, DeleteRemote)
  }

  /** Nothing is left to do on the remote side. */
  ghost predicate NothingOutbound(p: View) {
    forall ref <- p.Keys() :: !Outbound(p, ref)
  }

  /** What the push leaves to be done about one key, with or without the
      hypothesis on deletions. */
  lemma PushVerdict(v: View, p: View, ref: Ref)
    requires Keyed(v.local) && Keyed(v.remote)
    requires Reached(v, AfterPush(v), p) && ref in p.Keys() && !v.VerdictAt(ref).Clash?
    ensures DeletionsSurviveUnion(v, ref) <==> !Outbound(p, ref)
  {
    VerdictShape(v, ref);
    RowsReached(v, AfterPush(v), p, ref);
    if TakesLocal(v, ref) {
      EqualRowsSettle(p, ref, v.local[ref]);
    } else if ref in v.local && ref in v.remote {
      if v.VerdictAt(ref).Settled? {
        EqualRowsSettle(p, ref, v.remote[ref]);
      } else {
        PushDifference(v, p, ref);
      }
    } else if Does(v, ref, DeleteLocal) {
      PendingLocalDeletion(v, p, ref);
    } else if ref in v.local {
      PushKeepsUnused(v, p, ref);
    } else {
      RemoteOnlyStays(v, p, ref);
    }
  }

  lemma RemoteOnlyStays(v: View, p: View, ref: Ref)
    requires Reached(v, AfterPush(v), p) && ref !in v.local && ref in p.remote && TakesRemote(v, ref)
    requires p.remote[ref] == v.remote[ref] && ref !in p.local && ref in v.remote
    ensures DeletionsSurviveUnion(v, ref) && !Outbound(p, ref)
  {
    SameFacts(v, AfterPush(v), p);
    MissingLocalPersists(v, p, ref);
  }

  lemma PendingLocalDeletion(v: View, p: View, ref: Ref)
    requires Reached(v, AfterPush(v), p) && Does(v, ref, DeleteLocal) && ref in v.Keys()
    ensures DeletionsSurviveUnion(v, ref) <==> !Outbound(p, ref)
  {
    VerdictShape(v, ref);
    RowsReached(v, AfterPush(v), p, ref);
    FactPushed(v, p, v.local[ref].Subject());
  }

  lemma PushKeepsUnused(v: View, p: View, ref: Ref)
    requires Reached(v, AfterPush(v), p) && ref in v.local && ref !in v.remote && v.VerdictAt(ref).Settled?
    ensures DeletionsSurviveUnion(v, ref) && !Outbound(p, ref)
  {
    VerdictShape(v, ref);
    RowsReached(v, AfterPush(v), p, ref);
    forall r | r in p.local
      ensures Lookup(v.local, r) == Some(p.local[r])
    {
      RowsReached(v, AfterPush(v), p, r);
    }
  }

  lemma PushDifference(v: View, p: View, ref: Ref)
    requires Keyed(v.local) && Keyed(v.remote)
    requires Reached(v, AfterPush(v), p) && ref in v.local && ref in v.remote && TakesRemote(v, ref)
    ensures DeletionsSurviveUnion(v, ref) <==> !Outbound(p, ref)
  {
    var l, r := v.local[ref], v.remote[ref];
    UpsertOfDifference(v, ref);
    RowsReached(v, AfterPush(v), p, ref);
    SameFacts(v, AfterPush(v), p);
    FactPushed(v, p, r.Subject());
    if l.Note? && l.fieldId.Some? {
      FactPushed(v, p, Entity(FieldEntity, l.fieldId.value));
    }
    DifferenceAfterPush(v, p, ref.table, l, r);
  }

  /** A difference is only ever settled by an upsert. */
  lemma UpsertOfDifference(v: View, ref: Ref)
    requires ref in v.local && ref in v.remote
    ensures TakesRemote(v, ref) ==> Does(v, ref, UpsertLocal) && v.local[ref] != v.remote[ref]
    ensures TakesLocal(v, ref) ==> Does(v, ref, UpsertRemote) && v.local[ref] != v.remote[ref]
  {
  }

  lemma FactPushed(v: View, p: View, e: Entity)
    requires Reached(v, AfterPush(v), p)
    ensures Lookup(p.rc, e) == Newest2(v, e)
  {
    assert Lookup(p.rc, e) == RemoteFactAt(v, AfterPush(v), e);
  }

  /** The direction of a difference towards the local side, once the remote log is
      the union of both logs. */
  lemma DifferenceAfterPush(v: View, p: View, t: Table, l: Row, r: Row)
    requires p.lc == v.lc && Lookup(p.rc, r.Subject()) == Newest2(v, r.Subject())
    requires l.Note? && l.fieldId.Some? ==>
               var f := Entity(FieldEntity, l.fieldId.value); Lookup(p.rc, f) == Newest2(v, f)
    requires OnDifference(t, l, r, v.lc, v.rc).Act? && OnDifference(t, l, r, v.lc, v.rc).kind == UpsertLocal
    ensures var next := OnDifference(t, l, r, p.lc, p.rc);
            if OnDifference(t, l, r, v.lc, v.rc) == Act(UpsertLocal, NoteFollowsFieldTombstone) then
              && l.Note? && l.fieldId.Some?
              && var f := Newest2(v, Entity(FieldEntity, l.fieldId.value));
                 if (f.Some? && f.value.IsTombstone()) || NewerTarget(r.Subject(), v.lc, v.rc) == Some(UpsertLocal)
                 then next.Act? && next.kind == UpsertLocal else next.Clash? || next.kind == UpsertRemote
            else next.Act? && next.kind == UpsertLocal
  {
    FreshnessPersists(v, p, r.Subject());
  }

  lemma OutboundActionAt(p: View, a: Action)
    requires forall e <- p.lc :: e in p.rc
    requires a in p.AllActions() && TargetsRemote(a.kind)
    ensures exists ref :: ref in p.Keys() && (TakesLocal(p, ref) || Does(p, ref, DeleteRemote))
  {
    ActionMember(p, a);
    var ref :| ref in p.Keys() && a in p.ActionsAt(ref);
    RemoteActionShape(p, ref, a);
  }

  lemma OutboundVerdictIsListed(p: View, ref: Ref)
    requires ref in p.Keys() && (TakesLocal(p, ref) || Does(p, ref, DeleteRemote))
    ensures exists a :: a in p.AllActions() && TargetsRemote(a.kind)
  {
    VerdictActionIsListed(p, ref);
  }

  /** A remote side that knows every entity the local log mentions passes the check
      exactly if no key asks for a row or a deletion there. */
  lemma NothingOutboundPasses(L: Rows, B: Rows)
    requires forall e <- ViewOf(L, B).lc :: e in ViewOf(L, B).rc
    ensures PushConverged(L, B) <==> NothingOutbound(ViewOf(L, B))
  {
    var p := ViewOf(L, B);
    NoConflictsMeansNoClash(L, B);
    if a :| a in p.AllActions() && TargetsRemote(a.kind) {
      OutboundActionAt(p, a);
    } else if ref :| ref in p.Keys() && (TakesLocal(p, ref) || Does(p, ref, DeleteRemote)) {
      OutboundVerdictIsListed(p, ref);
    }
  }

  lemma UnsafeIsLocal(v: View, ref: Ref)
    requires !DeletionsSurviveUnion(v, ref) && ref in v.Keys()
    ensures ref in v.local
  {
    VerdictShape(v, ref);
  }

  lemma StaysLocal(v: View, p: View, ref: Ref)
    requires Reached(v, AfterPush(v), p) && ref in v.local
    ensures ref in p.local
  {
    RowsReached(v, AfterPush(v), p, ref);
  }

  lemma PushedState(v: View)
    ensures RemoteAt(v, AfterPush(v)) == RemoteAfter(v) && LocalAt(v, AfterPush(v)) == v.local
  {
    assert PushedTables(v, 9) == Pushed(v);
  }

  lemma PushReaches(L: Rows, R: Rows)
    requires Keyed(L) && Keyed(R) && ConflictFree(L, R)
    ensures var v := ViewOf(L, R);
            StateAt(L, R, AfterPush(v)) == ViewOf(L, RemoteAfter(v)) &&
                Reached(v, AfterPush(v), ViewOf(L, RemoteAfter(v)))
  {
    PushedState(ViewOf(L, R));
    StateIsReached(L, R, AfterPush(ViewOf(L, R)));
  }

  /** After a push the direction check passes exactly if every deletion still
      to be applied locally survives the union of the logs. */
  lemma PushDirection(L: Rows, R: Rows)
    requires Keyed(L) && Keyed(R) && ConflictFree(L, R)
    ensures PushConverged(L, RemoteAfter(ViewOf(L, R))) <==> PushSafe(ViewOf(L, R))
  {
    var v := ViewOf(L, R);
    PushReaches(L, R);
    RemoteKnowsAll(v, ViewOf(L, RemoteAfter(v)));
    NothingOutboundPasses(L, RemoteAfter(v));
    PushLeaves(v, ViewOf(L, RemoteAfter(v)));
  }

  lemma PushLeaves(v: View, p: View)
    requires Keyed(v.local) && Keyed(v.remote) && Reached(v, AfterPush(v), p)
    requires forall ref <- v.Keys() :: !v.VerdictAt(ref).Clash?
    ensures NothingOutbound(p) <==> PushSafe(v)
  {
    forall ref | ref in p.Keys()
      ensures DeletionsSurviveUnion(v, ref) <==> !Outbound(p, ref)
    {
      PushVerdict(v, p, ref);
    }
    if ref :| ref in v.Keys() && !DeletionsSurviveUnion(v, ref) {
      UnsafeIsLocal(v, ref);
      StaysLocal(v, p, ref);
    }
  }

  lemma RemoteKnowsAll(v: View, p: View)
    requires Reached(v, AfterPush(v), p)
    ensures forall e <- p.lc :: e in p.rc
  {
    forall e | e in p.lc
      ensures e in p.rc
    {
      assert Lookup(p.lc, e) == LocalFactAt(v, AfterPush(v), e);
      assert Lookup(p.rc, e) == RemoteFactAt(v, AfterPush(v), e);
    }
  }

  lemma TombstonesLastMakePushSafe(v: View)
    requires TombstonesLast(v) && Keyed(v.local) && Keyed(v.remote)
    ensures PushSafe(v)
  {
    forall ref | ref in v.Keys()
      ensures DeletionsSurviveUnion(v, ref)
    {
      VerdictShape(v, ref);
      if Does(v, ref, DeleteLocal) {
        assert v.local[ref].PrimaryKey() == ref;
        assert Newest2(v, v.local[ref].Subject()).Some?;
      }
      if v.VerdictAt(ref) == Act(UpsertLocal, NoteFollowsFieldTombstone) {
        assert Newest2(v, Entity(FieldEntity, v.local[ref].fieldId.value)).Some?;
      }
    }
  }

  /** Decomposition: a push passes its check, and a pull after it ends where one
      bidirectional run would have ended. */
  lemma PushThenPull(L: Rows, R: Rows)
    requires Resumable(ViewOf(L, R))
    ensures var v := ViewOf(L, R);
            var p := ViewOf(L, RemoteAfter(v));
            PushConverged(p.local, p.remote) && ConflictFree(p.local, p.remote) &&
            LocalAfter(p) == LocalAfter(v) && RemoteAfter(p) == RemoteAfter(v)
  {
    TombstonesLastMakePushSafe(ViewOf(L, R));
    PushDirection(L, R);
    PushReaches(L, R);
    Resumption(L, R, AfterPush(ViewOf(L, R)));
  }

  // The direction check after a pull

  ghost predicate PullConverged(L: Rows, R: Rows) {
    && ViewOf(L, R).AllConflicts() == multiset{}
    && forall a :: a in ViewOf(L, R).AllActions() ==> !TargetsLocal(a.kind)
  }

  ghost function AfterPull(): Progress {
    Progress(true, true, 0, {})
  }

  /** The same for a pending remote deletion once the local log is the union. */
  ghost predicate DeletionsSurvivePull(v: View, ref: Ref) {
    && (Does(v, ref, DeleteRemote) ==>
          Newest2(v, v.remote[ref].Subject()).Some? && Newest2(v, v.remote[ref].Subject()).value.IsTombstone())
    && (v.VerdictAt(ref) == Act(UpsertRemote, NoteFollowsFieldTombstone) ==>
          ref in v.remote && v.remote[ref].Note? && v.remote[ref].fieldId.Some? &&
          var field := Entity(FieldEntity, v.remote[ref].fieldId.value);
          || (Newest2(v, field).Some? && Newest2(v, field).value.IsTombstone())
          || NewerTarget(v.remote[ref].Subject(), v.lc, v.rc) == Some(UpsertRemote))
  }

  ghost predicate PullSafe(v: View) {
    forall ref <- v.Keys() :: DeletionsSurvivePull(v, ref)
  }

  lemma LocalActionShape(v: View, ref: Ref, a: Action)
    requires ref in v.Keys() && a in v.ActionsAt(ref) && TargetsLocal(a.kind)
    requires forall e <- v.rc :: e in v.lc
    ensures TakesRemote(v, ref) || Does(v, ref, DeleteLocal)
  {
  }

  lemma LocalKnowsAll(v: View, p: View)
    requires Reached(v, AfterPull(), p)
    ensures forall e <- p.rc :: e in p.lc
  {
    forall e | e in p.rc
      ensures e in p.lc
    {
      assert Lookup(p.lc, e) == LocalFactAt(v, AfterPull(), e);
      assert Lookup(p.rc, e) == RemoteFactAt(v, AfterPull(), e);
    }
  }

  /** What the pull leaves to be done about one key. */
  lemma PullVerdict(v: View, p: View, ref: Ref)
    requires Keyed(v.local) && Keyed(v.remote)
    requires Reached(v, AfterPull(), p) && ref in p.Keys() && !v.VerdictAt(ref).Clash?
    ensures DeletionsSurvivePull(v, ref) <==> !Inbound(p, ref)
  {
    var g := AfterPull();
    VerdictShape(v, ref);
    RowsReached(v, g, p, ref);
    SameFacts(v, g, p);
    if TakesRemote(v, ref) {
      EqualRowsSettle(p, ref, v.remote[ref]);
    } else if ref in v.local && ref in v.remote {
      if v.VerdictAt(ref).Settled? {
        EqualRowsSettle(p, ref, v.remote[ref]);
      } else {
        PullDifference(v, p, ref);
      }
    } else if Does(v, ref, DeleteRemote) {
      PendingRemoteDeletion(v, p, ref);
    } else {
      LocalOnlyStays(v, p, ref);
    }
  }

  lemma PendingRemoteDeletion(v: View, p: View, ref: Ref)
    requires Reached(v, AfterPull(), p) && Does(v, ref, DeleteRemote) && ref in v.Keys()
    ensures DeletionsSurvivePull(v, ref) <==> !Inbound(p, ref)
  {
    VerdictShape(v, ref);
    RowsReached(v, AfterPull(), p, ref);
    FactPulled(v, p, v.remote[ref].Subject());
  }

  lemma LocalOnlyStays(v: View, p: View, ref: Ref)
    requires ref in v.local && ref !in v.remote && p.rc == v.rc
    requires ref in p.local && ref !in p.remote && p.local[ref] == v.local[ref]
    requires !v.VerdictAt(ref).Clash? && !Does(v, ref, DeleteLocal)
    ensures DeletionsSurvivePull(v, ref)
    ensures !p.VerdictAt(ref).Clash? && !TakesRemote(p, ref) && !Does(p, ref, DeleteLocal)
  {
  }

  lemma PullDifference(v: View, p: View, ref: Ref)
    requires Keyed(v.local) && Keyed(v.remote)
    requires Reached(v, AfterPull(), p) && ref in v.local && ref in v.remote && TakesLocal(v, ref)
    ensures if DeletionsSurvivePull(v, ref) then TakesLocal(p, ref) else p.VerdictAt(ref).Clash? || TakesRemote(p, ref)
  {
    var l, r := v.local[ref], v.remote[ref];
    UpsertOfDifference(v, ref);
    RowsReached(v, AfterPull(), p, ref);
    SameFacts(v, AfterPull(), p);
    FactPulled(v, p, r.Subject());
    if r.Note? && r.fieldId.Some? {
      FactPulled(v, p, Entity(FieldEntity, r.fieldId.value));
    }
    DifferenceAfterPull(v, p, ref.table, l, r);
  }

  lemma FactPulled(v: View, p: View, e: Entity)
    requires Reached(v, AfterPull(), p)
    ensures Lookup(p.lc, e) == Newest2(v, e)
  {
    assert Lookup(p.lc, e) == LocalFactAt(v, AfterPull(), e);
  }

  lemma DifferenceAfterPull(v: View, p: View, t: Table, l: Row, r: Row)
    requires p.rc == v.rc && Lookup(p.lc, r.Subject()) == Newest2(v, r.Subject())
    requires r.Note? && r.fieldId.Some? ==>
               var f := Entity(FieldEntity, r.fieldId.value); Lookup(p.lc, f) == Newest2(v, f)
    requires OnDifference(t, l, r, v.lc, v.rc).Act? && OnDifference(t, l, r, v.lc, v.rc).kind == UpsertRemote
    ensures var next := OnDifference(t, l, r, p.lc, p.rc);
            if OnDifference(t, l, r, v.lc, v.rc) == Act(UpsertRemote, NoteFollowsFieldTombstone) then
              && r.Note? && r.fieldId.Some?
              && var f := Newest2(v, Entity(FieldEntity, r.fieldId.value));
                 if (f.Some? && f.value.IsTombstone()) || NewerTarget(r.Subject(), v.lc, v.rc) == Some(UpsertRemote)
                 then next.Act? && next.kind == UpsertRemote else next.Clash? || next.kind == UpsertLocal
            else next.Act? && next.kind == UpsertRemote
  {
    FreshnessPersists(v, p, r.Subject());
  }

  /** A conflict, or something to be done on the local side. */
  predicate Inbound(p: View, ref: Ref) {
    p.VerdictAt(ref).Clash? || TakesRemote(p, ref) || Does(p, ref, DeleteLocal)
  }

  /** Nothing is left to do on the local side. */
  ghost predicate NothingInbound(p: View) {
    forall ref <- p.Keys() :: !Inbound(p, ref)
  }

  lemma InboundActionAt(p: View, a: Action)
    requires forall e <- p.rc :: e in p.lc
    requires a in p.AllActions() && TargetsLocal(a.kind)
    ensures exists ref :: ref in p.Keys() && (TakesRemote(p, ref) || Does(p, ref, DeleteLocal))
  {
    ActionMember(p, a);
    var ref :| ref in p.Keys() && a in p.ActionsAt(ref);
    LocalActionShape(p, ref, a);
  }

  lemma InboundVerdictIsListed(p: View, ref: Ref)
    requires ref in p.Keys() && (TakesRemote(p, ref) || Does(p, ref, DeleteLocal))
    ensures exists a :: a in p.AllActions() && TargetsLocal(a.kind)
  {
    VerdictActionIsListed(p, ref);
  }

  /** A local side that knows every entity the remote log mentions passes the check
      exactly if no key asks for a row or a deletion here. */
  lemma NothingInboundPasses(A: Rows, R: Rows)
    requires forall e <- ViewOf(A, R).rc :: e in ViewOf(A, R).lc
    ensures PullConverged(A, R) <==> NothingInbound(ViewOf(A, R))
  {
    var p := ViewOf(A, R);
    NoConflictsMeansNoClash(A, R);
    if a :| a in p.AllActions() && TargetsLocal(a.kind) {
      InboundActionAt(p, a);
    } else if ref :| ref in p.Keys() && (TakesRemote(p, ref) || Does(p, ref, DeleteLocal)) {
      InboundVerdictIsListed(p, ref);
    }
  }

  lemma UnsafeIsRemote(v: View, ref: Ref)
    requires !DeletionsSurvivePull(v, ref) && ref in v.Keys()
    ensures ref in v.remote
  {
    VerdictShape(v, ref);
  }

  lemma StaysRemote(v: View, p: View, ref: Ref)
    requires Reached(v, AfterPull(), p) && ref in v.remote
    ensures ref in p.remote
  {
    RowsReached(v, AfterPull(), p, ref);
  }

  lemma PullReaches(L: Rows, R: Rows)
    requires Keyed(L) && Keyed(R) && ConflictFree(L, R)
    ensures var v := ViewOf(L, R);
            StateAt(L, R, AfterPull()) == ViewOf(LocalAfter(v), R) && Reached(v, AfterPull(), ViewOf(LocalAfter(v), R))
  {
    var v := ViewOf(L, R);
    assert PushedTables(v, 0) == map[];
    assert RemoteAt(v, AfterPull()) == R;
    StateIsReached(L, R, AfterPull());
  }

  /** After a pull the direction check passes exactly if every deletion still
      to be applied remotely survives the union of the logs. */
  lemma PullDirection(L: Rows, R: Rows)
    requires Keyed(L) && Keyed(R) && ConflictFree(L, R)
    ensures PullConverged(LocalAfter(ViewOf(L, R)), R) <==> PullSafe(ViewOf(L, R))
  {
    var v := ViewOf(L, R);
    PullReaches(L, R);
    LocalKnowsAll(v, ViewOf(LocalAfter(v), R));
    NothingInboundPasses(LocalAfter(v), R);
    PullLeaves(v, ViewOf(LocalAfter(v), R));
  }

  lemma PullLeaves(v: View, p: View)
    requires Keyed(v.local) && Keyed(v.remote) && Reached(v, AfterPull(), p)
    requires forall ref <- v.Keys() :: !v.VerdictAt(ref).Clash?
    ensures NothingInbound(p) <==> PullSafe(v)
  {
    forall ref | ref in p.Keys()
      ensures DeletionsSurvivePull(v, ref) <==> !Inbound(p, ref)
    {
      PullVerdict(v, p, ref);
    }
    if ref :| ref in v.Keys() && !DeletionsSurvivePull(v, ref) {
      UnsafeIsRemote(v, ref);
      StaysRemote(v, p, ref);
    }
  }

  lemma TombstonesLastMakePullSafe(v: View)
    requires TombstonesLast(v) && Keyed(v.local) && Keyed(v.remote)
    ensures PullSafe(v)
  {
    forall ref | ref in v.Keys()
      ensures DeletionsSurvivePull(v, ref)
    {
      VerdictShape(v, ref);
      if Does(v, ref, DeleteRemote) {
        assert v.remote[ref].PrimaryKey() == ref;
        assert Newest2(v, v.remote[ref].Subject()).Some?;
      }
      if v.VerdictAt(ref) == Act(UpsertRemote, NoteFollowsFieldTombstone) {
        assert Newest2(v, Entity(FieldEntity, v.remote[ref].fieldId.value)).Some?;
      }
    }
  }

  /** A pull passes its check too, and a push after it ends where one run would
      have ended, exactly if the pull neither emptied a workspace still to be sent
      nor brought a row into an unused one. */
  lemma PullThenPush(L: Rows, R: Rows)
    requires Resumable(ViewOf(L, R))
    ensures var v := ViewOf(L, R);
            var p := ViewOf(LocalAfter(v), R);
            && PullConverged(p.local, p.remote)
            && ((ConflictFree(p.local, p.remote) && LocalAfter(p) == LocalAfter(v) && RemoteAfter(p) == RemoteAfter(v))
                <==> (PullSparesUnused(v) && Orderly(v, AfterPull())))
  {
    TombstonesLastMakePullSafe(ViewOf(L, R));
    PullDirection(L, R);
    PullReaches(L, R);
    Resumption(L, R, AfterPull());
  }

  lemma ReattachedTagIsUnsafe(v: View, relation: Row)
    requires relation.NoteTag? && Lookup(v.local, relation.PrimaryKey()) == Some(relation) &&
             relation.PrimaryKey() !in v.remote
    requires var e := relation.Subject();
             && e in v.rc && v.rc[e].operation.Detach?
             && e in v.lc && v.lc[e].operation.Attach? && v.lc[e].createdAt > v.rc[e].createdAt
    ensures Does(v, relation.PrimaryKey(), DeleteLocal) && !DeletionsSurviveUnion(v, relation.PrimaryKey())
  {
    var e := relation.Subject();
    assert relation.PrimaryKey().table == NoteTags;
    assert TombstoneChange(v.rc, e) == Some(v.rc[e]);
    assert Newest2(v, e) == Some(v.lc[e]);
  }

  /** Why the last tombstone must stay the last word: a tag detached on the remote
      side and attached again locally, later, is still taken off locally, and a push
      beforehand leaves the remote side asking for it back. */
  lemma ReattachedTagBlocksPush(L: Rows, R: Rows, relation: Row)
    requires Keyed(L) && Keyed(R) && ConflictFree(L, R) && relation.NoteTag?
    requires Lookup(L, relation.PrimaryKey()) == Some(relation) && relation.PrimaryKey() !in R
    requires var v, e := ViewOf(L, R), relation.Subject();
             && e in v.rc && v.rc[e].operation.Detach?
             && e in v.lc && v.lc[e].operation.Attach? && v.lc[e].createdAt > v.rc[e].createdAt
    ensures Does(ViewOf(L, R), relation.PrimaryKey(), DeleteLocal)
    ensures !PushConverged(L, RemoteAfter(ViewOf(L, R)))
  {
    var v := ViewOf(L, R);
    ReattachedTagIsUnsafe(v, relation);
    assert relation.PrimaryKey() in v.Keys();
    PushDirection(L, R);
  }

  /** Relation `rel` is only local; the remote log has it detached, the local log
      attached again later. Both sides hold the same note, tag, device and workspace. */
  ghost predicate Reattached(L: Rows, R: Rows, shared: Rows, rel: Row, attach: Change, detach: Change) {
    && rel.NoteTag? && attach.Subject() == detach.Subject() == rel.Subject() && attach.id != detach.id
    && attach.operation.Attach? && detach.operation.Detach? && attach.createdAt > detach.createdAt
    && shared.Keys == {Ref(Workspaces, rel.workspaceId), Ref(Devices, attach.deviceId), Ref(Tags, rel.tagId),
                       Ref(Notes, rel.noteId)}
    && Keyed(shared)
    && L == shared[rel.PrimaryKey() := rel][Ref(SyncChanges, attach.id) := ChangeRow(attach)]
    && R == shared[Ref(SyncChanges, detach.id) := ChangeRow(detach)]
  }

  lemma OneChangeLog(s: Rows, t: Rows, c: Change, e: Entity)
    requires Keyed(t) && (forall r <- t :: !r.table.SyncChanges?) && s == t[Ref(SyncChanges, c.id) := ChangeRow(c)]
    ensures Keyed(s) && Lookup(Index(Log(s)), e) == if c.Subject() == e then Some(c) else None
  {
    assert s[Ref(SyncChanges, c.id)] == ChangeRow(c);
    assert forall r <- t :: s[r] == t[r] && t[r].PrimaryKey() == r;
    assert Log(s) == {c};
    IndexOfOne(c, e);
  }

  lemma ReattachedTagInput(L: Rows, R: Rows, shared: Rows, rel: Row, attach: Change, detach: Change)
    requires Reattached(L, R, shared, rel, attach, detach)
    ensures Keyed(L) && Keyed(R)
    ensures Lookup(L, rel.PrimaryKey()) == Some(rel) && rel.PrimaryKey() !in R
    ensures Lookup(Index(Log(L)), rel.Subject()) == Some(attach)
    ensures Lookup(Index(Log(R)), rel.Subject()) == Some(detach)
  {
    OneChangeLog(L, shared[rel.PrimaryKey() := rel], attach, rel.Subject());
    OneChangeLog(R, shared, detach, rel.Subject());
  }

  /** Such a push is not refused, and fails its own check. */
  lemma ReattachedTagStopsPush(L: Rows, R: Rows, shared: Rows, rel: Row, attach: Change, detach: Change)
    requires Reattached(L, R, shared, rel, attach, detach)
    ensures ConflictFree(L, R)
    ensures !PushConverged(L, RemoteAfter(ViewOf(L, R)))
  {
    ReattachedTagInput(L, R, shared, rel, attach, detach);
    ReattachedTagIsNoClash(L, R, shared, rel, attach, detach);
    ReattachedTagBlocksPush(L, R, rel);
  }

  lemma EqualOrOneSided(v: View, ref: Ref)
    requires ref in v.Keys() && if ref in v.local && ref in v.remote then v.local[ref] == v.remote[ref]
                                else ref.table.NoteTags? || ref.table.SyncChanges?
    ensures !v.VerdictAt(ref).Clash?
  {
  }

  lemma ReattachedTagIsNoClash(L: Rows, R: Rows, shared: Rows, rel: Row, attach: Change, detach: Change)
    requires Reattached(L, R, shared, rel, attach, detach)
    ensures ConflictFree(L, R)
  {
    var relation, a, d := rel.PrimaryKey(), Ref(SyncChanges, attach.id), Ref(SyncChanges, detach.id);
    assert relation.table == NoteTags;
    forall ref | ref in L.Keys + R.Keys
      ensures !ViewOf(L, R).VerdictAt(ref).Clash?
    {
      assert ref in shared.Keys + {relation, a, d};
      assert ref in shared ==> L[ref] == shared[ref] == R[ref];
      EqualOrOneSided(ViewOf(L, R), ref);
    }
  }
}
