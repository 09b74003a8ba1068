/** The synchronization service: read both sides, compare, stop on conflicts,
    write both sides, read again and check. */
module Service {
  import opened Base
  import opened Tables
  import opened Lifecycle
  import opened Snapshots
  import opened Diff
  import opened Comparison
  import opened Merge
  import opened Resume
  import opened Directions
  import opened Stores
  import opened Requests
  import opened ForeignKeys
  import opened References
  import opened Clearing

  datatype SyncError =
    | Disabled
    | SchemaContractMismatch
    | Conflicting(count: nat)
    | Database(cause: StoreError)
    | Supabase(cause: StoreError)
    | NotConverged(localActions: nat, remoteActions: nat, conflicts: nat)

  /** Both sides as they were read, and what their comparison asks for. */
  datatype Plan = Plan(local: Snapshot, remote: Snapshot, actions: seq<Action>)

  datatype Summary = Summary(pushed: nat, pulled: nat)

  /** Which requests get through to the remote side during one run; those that get
      through are refused only if they leave a reference missing. */
  datatype Network = Network(acceptsTable: Table -> bool, acceptsDelete: Ref -> bool)
  {
    ghost predicate Reliable() {
      (forall t :: acceptsTable(t)) && (forall r :: acceptsDelete(r))
    }
  }

  /** Clearing a reference locally makes a note differ from its remote copy. */
  lemma UsedFieldsDiverge(v: View)
    requires Keyed(v.local) && Keyed(v.remote) && !FieldsFree(v)
    requires forall ref <- v.Keys() :: !v.VerdictAt(ref).Clash?
    ensures !Agree(Cleared(v.local + Pulled(v), DroppedLocal(v)), RemoteAfter(v))
  {
    var s, doomed := v.local + Pulled(v), DroppedLocal(v);
    var r :| r in s && RefersTo(s, doomed, s[r]);
    NotesEndEqual(v, r);
    assert r in Cleared(s, doomed) && Cleared(s, doomed)[r].fieldId == None;
    assert s[r].fieldId.Some?;
  }

  lemma NotesEndEqual(v: View, r: Ref)
    requires Keyed(v.local) && Keyed(v.remote) && r in v.local + Pulled(v) && (v.local + Pulled(v))[r].Note?
    requires r in v.Keys() ==> !v.VerdictAt(r).Clash?
    ensures r !in DroppedLocal(v) && Lookup(RemoteAfter(v), r) == Some((v.local + Pulled(v))[r])
  {
    assert (v.local + Pulled(v))[r].PrimaryKey() == r;
    VerdictShape(v, r);
    AfterAt(v, r);
  }

  /** Where a run, a push or a pull stopped. While no note refers to a field to be
      deleted locally, this is a state the next run resumes from. */
  ghost predicate StoppedAt(v: View, local: Rows, remote: Rows, g: Progress) {
    && Possible(v, g) && remote == RemoteAt(v, g)
    && local == (if g.cleaned then Cleared(v.local + Pulled(v), DroppedLocal(v)) else LocalAt(v, g))
    && (FieldsFree(v) ==> local == LocalAt(v, g))
  }

  /** What a run that was not refused does. */
  ghost predicate RunOutcome(v: View, net: Network, r: Result<Summary, SyncError>, local: Rows, remote: Rows,
                             g: Progress)
  {
    && (r.Success? ==>
          && FieldsFree(v) && PullSparesUnused(v)
          && local == LocalAfter(v) && remote == RemoteAfter(v) && Agree(local, remote)
          && r.value == Summary(|RemoteActions(v)|, |LocalActions(v)|))
    && (ClosedSides(v) ==> RunVerdict(v, net, r, g))
    && StoppedAt(v, local, remote, g) && (OwnersAgree(v) ==> Orderly(v, g))
  }

  /** From closed sides a run succeeds over a reliable network exactly if no note
      written to a side points at a field deleted there; a pulled note that does is
      refused before anything is written. */
  ghost predicate RunVerdict(v: View, net: Network, r: Result<Summary, SyncError>, g: Progress) {
    && (r.Success? ==> FieldsStay(v))
    && (net.Reliable() && FieldsStay(v) ==> r.Success?)
    && (!PulledFieldsStay(v) ==> r == Failure(Database(ReferenceMissing)) && g == Progress(false, false, 0, {}))
  }

  /** What a push that was not refused does. */
  ghost predicate PushOutcome(v: View, net: Network, r: Result<nat, SyncError>, remote: Rows, g: Progress) {
    && !g.pulled && StoppedAt(v, v.local, remote, g) && (OwnersAgree(v) ==> Orderly(v, g))
    && (r.Success? ==>
          remote == RemoteAfter(v) && PushConverged(v.local, remote) && PushSafe(v) && r.value == |RemoteActions(v)|)
    && (ClosedSides(v) && r.Success? ==> FieldsStay(v))
    && (ClosedSides(v) && net.Reliable() && FieldsStay(v) && PushSafe(v) ==> r.Success?)
  }

  /** What a pull that was not refused does. From closed sides it succeeds exactly if
      no pulled note points at a field deleted here, no visible note uses a field
      deleted remotely, and every pending remote deletion survives; that hidden notes
      lose a field does not matter. */
  ghost predicate PullOutcome(v: View, r: Result<nat, SyncError>, local: Rows, g: Progress) {
    && g == Progress(g.pulled, g.cleaned, 0, {}) && StoppedAt(v, local, v.remote, g)
    && (ClosedSides(v) ==> (g.pulled <==> PulledFieldsStay(v)))
    && (g.cleaned <==> g.pulled && NoVisibleUse(v.local + Pulled(v), DroppedLocal(v)))
    && (r.Success? <==> g.cleaned && PullConverged(local, v.remote))
    && (r.Success? ==> r.value == |LocalActions(v)|)
    && (g.pulled && FieldsFree(v) ==> local == LocalAfter(v) && (r.Success? <==> PullSafe(v)))
    && (ClosedSides(v) ==> (r.Success? <==>
          PulledFieldsStay(v) && NoVisibleUse(v.local + Pulled(v), DroppedLocal(v)) && PullSafe(v)))
  }

  // Where an operation stops

  lemma StoppedBeforeCleaning(v: View, local: Rows, remote: Rows, g: Progress)
    requires Keyed(v.local) && Keyed(v.remote) && Possible(v, g) && !g.cleaned
    requires local == LocalAt(v, g) && remote == RemoteAt(v, g)
    ensures StoppedAt(v, local, remote, g) && (OwnersAgree(v) ==> Orderly(v, g))
  {
    if OwnersAgree(v) {
      OwnersAgreeIsOrderly(v, g);
    }
  }

  lemma StoppedAfterCleaning(v: View, remote: Rows, g: Progress)
    requires Keyed(v.local) && Keyed(v.remote) && Possible(v, g) && g.cleaned
    requires remote == RemoteAt(v, g)
    ensures StoppedAt(v, Cleared(v.local + Pulled(v), DroppedLocal(v)), remote, g)
  {
    if FieldsFree(v) {
      FreeFieldsAreJustDropped(v);
    }
  }

  lemma NothingSentYet(v: View)
    ensures RemoteAt(v, Progress(false, false, 0, {})) == v.remote == RemoteAt(v, Progress(true, false, 0, {}))
    ensures RemoteAt(v, Progress(true, true, 0, {})) == v.remote
  {
    assert PushedTables(v, 0) == map[];
  }

  lemma SentSoFar(v: View, remote: Rows, g: Progress)
    requires Keyed(v.local) && Keyed(v.remote) && g.tables <= 9 && !g.cleaned && g.erased == {}
    requires remote == v.remote + PushedTables(v, g.tables)
    ensures StoppedAt(v, LocalAt(v, g), remote, g) && (OwnersAgree(v) ==> Orderly(v, g))
  {
    assert remote - {} == remote;
    StoppedBeforeCleaning(v, LocalAt(v, g), remote, g);
  }

  lemma EverythingSent(v: View)
    ensures PushedTables(v, 9) == Pushed(v)
  {
  }

  // The outcome of a run

  lemma RunStops(v: View, net: Network, error: SyncError, local: Rows, remote: Rows, g: Progress)
    requires StoppedAt(v, local, remote, g) && (OwnersAgree(v) ==> Orderly(v, g))
    requires ClosedSides(v) ==>
               (net.Reliable() ==> !FieldsStay(v)) &&
               (!PulledFieldsStay(v) ==> error == Database(ReferenceMissing) && g == Progress(false, false, 0, {}))
    ensures RunOutcome(v, net, Failure(error), local, remote, g)
  {
  }

  lemma RunRefused(v: View, net: Network)
    requires Keyed(v.local) && Keyed(v.remote) && (ClosedSides(v) ==> !PulledFieldsStay(v))
    ensures RunOutcome(v, net, Failure(Database(ReferenceMissing)), v.local, v.remote, Progress(false, false, 0, {}))
  {
    var g := Progress(false, false, 0, {});
    NothingSentYet(v);
    StoppedBeforeCleaning(v, v.local, v.remote, g);
    RunStops(v, net, Database(ReferenceMissing), v.local, v.remote, g);
  }

  lemma RunStopsSending(v: View, net: Network, remote: Rows, g: Progress)
    requires Keyed(v.local) && Keyed(v.remote) && g == Progress(true, false, g.tables, {}) && g.tables <= 9
    requires remote == v.remote + PushedTables(v, g.tables)
    requires ClosedSides(v) ==> PulledFieldsStay(v) && (net.Reliable() ==> !PushedFieldsStay(v))
    ensures RunOutcome(v, net, Failure(Supabase(Refused)), v.local + Pulled(v), remote, g)
  {
    SentSoFar(v, remote, g);
    RunStops(v, net, Supabase(Refused), v.local + Pulled(v), remote, g);
  }

  lemma VisibleUseMeansSent(v: View)
    requires Keyed(v.local) && Keyed(v.remote) && ClosedSides(v) && forall ref <- v.Keys() :: !v.VerdictAt(ref).Clash?
    requires !NoVisibleUse(v.local + Pulled(v), DroppedLocal(v))
    ensures !PushedFieldsStay(v)
  {
    if PushedFieldsStay(v) {
      StayingFieldsAreFree(v);
      FreeFieldsAreJustDropped(v);
    }
  }

  lemma EndsChecked(L: Rows, R: Rows, net: Network, r: Result<Summary, SyncError>, local: Rows, g: Progress)
    requires Keyed(L) && Keyed(R) && ConflictFree(L, R)
    requires var v := ViewOf(L, R);
             && g == Progress(true, true, 9, DroppedRemote(v))
             && local == Cleared(L + Pulled(v), DroppedLocal(v))
             && (ClosedSides(v) ==> FieldsStay(v))
             && (r.Success? <==> Agree(local, RemoteAfter(v)))
             && (r.Success? ==> r.value == Summary(|RemoteActions(v)|, |LocalActions(v)|))
    ensures RunOutcome(ViewOf(L, R), net, r, local, RemoteAfter(ViewOf(L, R)), g)
  {
    var v := ViewOf(L, R);
    RunIsChecked(L, R);
    EverythingSent(v);
    StoppedAfterCleaning(v, RemoteAfter(v), g);
    if FieldsFree(v) {
      FreeFieldsAreJustDropped(v);
    }
    if ClosedSides(v) {
      StayingFieldsAreFree(v);
      SparesUnused(v);
    }
  }

  // The outcome of a push

  lemma PushStops(v: View, net: Network, error: SyncError, remote: Rows, g: Progress)
    requires !g.pulled && StoppedAt(v, v.local, remote, g) && (OwnersAgree(v) ==> Orderly(v, g))
    requires ClosedSides(v) && net.Reliable() ==> !FieldsStay(v)
    ensures PushOutcome(v, net, Failure(error), remote, g)
  {
  }

  lemma PushStopsSending(v: View, net: Network, remote: Rows, g: Progress)
    requires Keyed(v.local) && Keyed(v.remote) && g == Progress(false, false, g.tables, {}) && g.tables <= 9
    requires remote == v.remote + PushedTables(v, g.tables)
    requires ClosedSides(v) && net.Reliable() ==> !PushedFieldsStay(v)
    ensures PushOutcome(v, net, Failure(Supabase(Refused)), remote, g)
  {
    SentSoFar(v, remote, g);
    PushStops(v, net, Supabase(Refused), remote, g);
  }

  lemma PushEnds(L: Rows, R: Rows, net: Network, r: Result<nat, SyncError>)
    requires Keyed(L) && Keyed(R) && ConflictFree(L, R)
    requires var v := ViewOf(L, R);
             && (ClosedSides(v) ==> FieldsStay(v))
             && (r.Success? <==> PushConverged(L, RemoteAfter(v)))
             && (r.Success? ==> r.value == |RemoteActions(v)|)
    ensures PushOutcome(ViewOf(L, R), net, r, RemoteAfter(ViewOf(L, R)), AfterPush(ViewOf(L, R)))
  {
    var v := ViewOf(L, R);
    EverythingSent(v);
    StoppedBeforeCleaning(v, L, RemoteAfter(v), AfterPush(v));
    PushDirection(L, R);
  }

  // The outcome of a pull

  lemma PullStops(v: View, error: SyncError, local: Rows, g: Progress)
    requires Keyed(v.local) && Keyed(v.remote) && forall ref <- v.Keys() :: !v.VerdictAt(ref).Clash?
    requires g == Progress(g.pulled, false, 0, {}) && StoppedAt(v, local, v.remote, g)
    requires ClosedSides(v) ==> (g.pulled <==> PulledFieldsStay(v))
    requires g.pulled ==> !NoVisibleUse(v.local + Pulled(v), DroppedLocal(v))
    ensures PullOutcome(v, Failure(error), local, g)
  {
    if FieldsFree(v) {
      FreeFieldsAreJustDropped(v);
    }
  }

  lemma PullStopsInUse(v: View, error: SyncError)
    requires Keyed(v.local) && Keyed(v.remote) && forall ref <- v.Keys() :: !v.VerdictAt(ref).Clash?
    requires ClosedSides(v) ==> PulledFieldsStay(v)
    requires !NoVisibleUse(v.local + Pulled(v), DroppedLocal(v))
    ensures PullOutcome(v, Failure(error), v.local + Pulled(v), Progress(true, false, 0, {}))
  {
    var g := Progress(true, false, 0, {});
    NothingSentYet(v);
    StoppedBeforeCleaning(v, v.local + Pulled(v), v.remote, g);
    PullStops(v, error, v.local + Pulled(v), g);
  }

  lemma PullEnds(L: Rows, R: Rows, r: Result<nat, SyncError>, local: Rows)
    requires Keyed(L) && Keyed(R) && ConflictFree(L, R)
    requires var v := ViewOf(L, R);
             && (ClosedSides(v) ==> PulledFieldsStay(v))
             && NoVisibleUse(L + Pulled(v), DroppedLocal(v)) && local == Cleared(L + Pulled(v), DroppedLocal(v))
             && (r.Success? <==> PullConverged(local, R)) && (r.Success? ==> r.value == |LocalActions(v)|)
    ensures PullOutcome(ViewOf(L, R), r, local, AfterPull())
  {
    var v := ViewOf(L, R);
    NothingSentYet(v);
    StoppedAfterCleaning(v, R, AfterPull());
    PullIsChecked(L, R);
    if ClosedSides(v) {
      ClearedPullDirection(L, R);
    }
  }

  lemma PullIsChecked(L: Rows, R: Rows)
    requires Keyed(L) && Keyed(R) && ConflictFree(L, R)
    ensures var v := ViewOf(L, R);
            && Keyed(Cleared(L + Pulled(v), DroppedLocal(v)))
            && (FieldsFree(v) ==>
                  && NoVisibleUse(L + Pulled(v), DroppedLocal(v))
                  && Cleared(L + Pulled(v), DroppedLocal(v)) == LocalAfter(v)
                  && (PullConverged(LocalAfter(v), R) <==> PullSafe(v)))
  {
    var v := ViewOf(L, R);
    ClearedIsKeyed(L + Pulled(v), DroppedLocal(v));
    if FieldsFree(v) {
      FreeFieldsAreJustDropped(v);
      PullDirection(L, R);
    }
  }

  /** The check at the end passes exactly if no field reference was cleared and
      no unused workspace was pulled into. */
  lemma RunIsChecked(L: Rows, R: Rows)
    requires Keyed(L) && Keyed(R) && ConflictFree(L, R)
    ensures var v := ViewOf(L, R);
            var cleaned := Cleared(L + Pulled(v), DroppedLocal(v));
            && Keyed(cleaned) && Keyed(RemoteAfter(v))
            && (Agree(cleaned, RemoteAfter(v)) <==> FieldsFree(v) && PullSparesUnused(v))
  {
    var v := ViewOf(L, R);
    AfterIsKeyed(L, R);
    if FieldsFree(v) {
      FreeFieldsAreJustDropped(v);
      Convergence(L, R);
      QuietIffAgree(LocalAfter(v), RemoteAfter(v));
    } else {
      UsedFieldsDiverge(v);
    }
    ClearedIsKeyed(L + Pulled(v), DroppedLocal(v));
  }

  lemma ClearedIsKeyed(s: Rows, doomed: set<Ref>)
    requires Keyed(s)
    ensures Keyed(Cleared(s, doomed))
  {
    forall r | r in Cleared(s, doomed)
      ensures Cleared(s, doomed)[r].PrimaryKey() == r
    {
      assert s[r].PrimaryKey() == r;
    }
  }

  lemma {:induction false} NothingCounted(actions: seq<Action>, kinds: set<ActionKind>)
    ensures CountKinds(actions, kinds) == 0 <==> forall a <- actions :: a.kind !in kinds
  {
    if actions != [] {
      var init, last := actions[..|actions| - 1], actions[|actions| - 1];
      assert actions == init + [last];
      NothingCounted(init, kinds);
    }
  }

  lemma NothingRemains(v: View, actions: seq<Action>, push: bool)
    requires multiset(actions) == v.AllActions()
    ensures CountKinds(actions, if push then TO_REMOTE + {DeleteRemote} else TO_LOCAL + {DeleteLocal}) == 0 <==>
            forall a :: a in v.AllActions() ==> !(if push then TargetsRemote(a.kind) else TargetsLocal(a.kind))
  {
    NothingCounted(actions, if push then TO_REMOTE + {DeleteRemote} else TO_LOCAL + {DeleteLocal});
    ListMembers(v, actions);
  }

  /** The actions fall in those on the local and those on the remote side, and the
      error tells how many there are of each, and how many conflicts. */
  ghost predicate TellsWhatRemains(v: View, error: SyncError) {
    && error.NotConverged? && error.conflicts == |v.AllConflicts()|
    && exists here, there: multiset<Action> ::
         && v.AllActions() == here + there && error.localActions == |here| && error.remoteActions == |there|
         && (forall a <- here :: a.kind.UpsertLocal? || a.kind.DeleteLocal? || a.kind.SyncChangeLocal?)
         && forall a <- there :: a.kind.UpsertRemote? || a.kind.DeleteRemote? || a.kind.SyncChangeRemote?
  }

  lemma {:induction false} ActionsSplit(actions: seq<Action>) returns (here: multiset<Action>, there: multiset<Action>)
    ensures multiset(actions) == here + there
    ensures CountKinds(actions, TO_LOCAL + {DeleteLocal}) == |here|
    ensures CountKinds(actions, TO_REMOTE + {DeleteRemote}) == |there|
    ensures forall a <- here :: a.kind.UpsertLocal? || a.kind.DeleteLocal? || a.kind.SyncChangeLocal?
    ensures forall a <- there :: a.kind.UpsertRemote? || a.kind.DeleteRemote? || a.kind.SyncChangeRemote?
  {
    if actions == [] {
      here, there := multiset{}, multiset{};
    } else {
      var init, last := actions[..|actions| - 1], actions[|actions| - 1];
      assert multiset(actions) == multiset(init) + multiset{last} by {
        assert actions == init + [last];
      }
      here, there := ActionsSplit(init);
      OneSide(last);
      if last.kind in TO_LOCAL + {DeleteLocal} {
        here := here + multiset{last};
      } else {
        there := there + multiset{last};
      }
    }
  }

  lemma OneSide(a: Action)
    ensures a.kind in TO_LOCAL + {DeleteLocal} <==>
            a.kind.UpsertLocal? || a.kind.DeleteLocal? || a.kind.SyncChangeLocal?
    ensures a.kind in TO_REMOTE + {DeleteRemote} <==>
            a.kind.UpsertRemote? || a.kind.DeleteRemote? || a.kind.SyncChangeRemote?
    ensures a.kind in TO_LOCAL + {DeleteLocal} <==> a.kind !in TO_REMOTE + {DeleteRemote}
  {
    match a.kind
    case UpsertLocal =>
    case UpsertRemote =>
    case DeleteLocal =>
    case DeleteRemote =>
    case SyncChangeLocal =>
    case SyncChangeRemote =>
  }

  lemma CountsTell(v: View, actions: seq<Action>, conflicts: nat)
    requires multiset(actions) == v.AllActions() && conflicts == |v.AllConflicts()|
    ensures TellsWhatRemains(v, NotConverged(CountKinds(actions, TO_LOCAL + {DeleteLocal}),
                                             CountKinds(actions, TO_REMOTE + {DeleteRemote}), conflicts))
  {
    var here, there := ActionsSplit(actions);
  }

  class SyncService {
    const local: LocalStore
    const remote: RemoteStore
    var enabled: bool

    constructor (local: LocalStore, remote: RemoteStore, enabled: bool)
      ensures this.local == local && this.remote == remote && this.enabled == enabled
    {
      this.local, this.remote, this.enabled := local, remote, enabled;
    }

    method ReadSnapshots() returns (l: Snapshot, r: Snapshot)
      requires Keyed(local.rows) && Keyed(remote.rows)
      ensures Reads(l, local.rows) && Reads(r, remote.rows)
    {
      l := ReadSnapshot(local.rows);
      r := ReadSnapshot(remote.rows);
    }

    /** Succeeds exactly when a fresh comparison finds nothing. */
    method VerifyConverged() returns (r: Result<(), SyncError>)
      requires Keyed(local.rows) && Keyed(remote.rows)
      ensures r.Success? <==> Agree(local.rows, remote.rows)
      ensures r.Failure? ==> TellsWhatRemains(ViewOf(local.rows, remote.rows), r.error)
    {
      var l, m := ReadSnapshots();
      var diff := DiffSnapshots(l, m, local.rows, remote.rows);
      QuietIffAgree(local.rows, remote.rows);
      CountsTell(ViewOf(local.rows, remote.rows), diff.actions, |diff.conflicts|);
      assert |multiset(diff.actions)| == |diff.actions| && |multiset(diff.conflicts)| == |diff.conflicts|;
      if diff.actions == [] && diff.conflicts == [] {
        r := Success(());
      } else {
        r := Failure(NotConverged(CountKinds(diff.actions, TO_LOCAL + {DeleteLocal}),
                                  CountKinds(diff.actions, TO_REMOTE + {DeleteRemote}), |diff.conflicts|));
      }
    }

    /** What the checks before any write let through. */
    ghost function Refusal(contractReady: bool): Option<SyncError>
      reads this, local, remote
    {
      if !enabled then Some(Disabled)
      else if !contractReady then Some(SchemaContractMismatch)
      else if !ConflictFree(local.rows, remote.rows) then
        Some(Conflicting(|ViewOf(local.rows, remote.rows).AllConflicts()|))
      else None
    }

    /** The checks and the comparison every operation starts with. */
    method Prepare(contractReady: bool) returns (r: Result<Plan, SyncError>)
      requires Keyed(local.rows) && Keyed(remote.rows)
      ensures Refusal(contractReady) == if r.Failure? then Some(r.error) else None
      ensures r.Success? ==>
                && Reads(r.value.local, local.rows) && Reads(r.value.remote, remote.rows)
                && Planned(local.rows, remote.rows, r.value.actions)
    {
      if !enabled {
        return Failure(Disabled);
      }
      if !contractReady {
        return Failure(SchemaContractMismatch);
      }
      var l, m := ReadSnapshots();
      var diff := DiffSnapshots(l, m, local.rows, remote.rows);
      NoConflictsMeansNoClash(local.rows, remote.rows);
      assert |multiset(diff.conflicts)| == |diff.conflicts|;
      r := if diff.conflicts == [] then Success(Plan(l, m, diff.actions)) else Failure(Conflicting(|diff.conflicts|));
    }

    /** Writes the inbound rows, or nothing if a reference would be missing. */
    method WriteLocal(m: Snapshot, actions: seq<Action>, ghost L: Rows, ghost R: Rows)
      returns (ok: bool, inbound: Snapshot)
      requires Planned(L, R, actions) && Reads(m, R) && local.rows == L
      modifies local
      ensures ClosedSides(ViewOf(L, R)) ==> (ok <==> PulledFieldsStay(ViewOf(L, R)))
      ensures local.rows == if ok then L + Pulled(ViewOf(L, R)) else L
      ensures inbound.RowCount() + CountKinds(actions, {DeleteLocal}) == |LocalActions(ViewOf(L, R))|
    {
      inbound := m.SubsetForActions(actions, TO_LOCAL);
      SubsetReads(m, R, actions, TO_LOCAL);
      UpsertsOfSnapshot(L, inbound, Chosen(R, actions, TO_LOCAL));
      InboundIsPulled(L, R, actions);
      PulledCountIsHonest(L, R, actions, inbound);
      ok := local.WriteTableSnapshot(inbound);
      if ClosedSides(ViewOf(L, R)) {
        LocalWriteAccepted(L, R, actions, inbound);
      }
    }

    method WriteRemote(l: Snapshot, actions: seq<Action>, net: Network, ghost L: Rows, ghost R: Rows)
      returns (outbound: Snapshot, tables: nat)
      requires Planned(L, R, actions) && Reads(l, L) && remote.rows == R
      modifies remote
      ensures tables <= 9 && remote.rows == R + PushedTables(ViewOf(L, R), tables)
      ensures ClosedSides(ViewOf(L, R)) && tables == 9 ==> PushedFieldsStay(ViewOf(L, R))
      ensures ClosedSides(ViewOf(L, R)) && PushedFieldsStay(ViewOf(L, R)) && net.Reliable() ==> tables == 9
      ensures outbound.RowCount() + CountKinds(actions, {DeleteRemote}) == |RemoteActions(ViewOf(L, R))|
    {
      outbound := l.SubsetForActions(actions, TO_REMOTE);
      SubsetReads(l, L, actions, TO_REMOTE);
      PushedCountIsHonest(L, R, actions, outbound);
      tables := remote.UpsertTableSnapshot(outbound, net.acceptsTable, Chosen(L, actions, TO_REMOTE));
      OutboundIsPushed(L, R, actions, tables);
      if ClosedSides(ViewOf(L, R)) {
        RemoteWriteAccepted(L, R, actions);
      }
    }

    method CleanLocal(l: Snapshot, actions: seq<Action>, ghost L: Rows, ghost R: Rows)
      returns (r: Result<(), SyncError>)
      requires Planned(L, R, actions) && Reads(l, L) && local.rows == L + Pulled(ViewOf(L, R))
      modifies local
      ensures r.Success? <==> NoVisibleUse(old(local.rows), DroppedLocal(ViewOf(L, R)))
      ensures local.rows ==
              if r.Success? then Cleared(old(local.rows), DroppedLocal(ViewOf(L, R))) else old(local.rows)
    {
      DoomedIsDropped(L, R, actions);
      DoomedRowsUntouched(ViewOf(L, R));
      var result := local.DeleteLocalActions(actions, l, L);
      r := if result.Success? then Success(()) else Failure(Database(result.error));
    }

    method EraseRemote(m: Snapshot, actions: seq<Action>, net: Network, ghost L: Rows, ghost R: Rows,
                       ghost before: Progress)
      returns (r: Result<(), SyncError>, ghost g: Progress)
      requires Planned(L, R, actions) && Reads(m, R) && remote.rows == R + PushedTables(ViewOf(L, R), 9)
      modifies remote
      ensures g == before.(erased := g.erased) && g.erased <= DroppedRemote(ViewOf(L, R))
      ensures remote.rows == R + PushedTables(ViewOf(L, R), 9) - g.erased
      ensures r.Success? ==> g.erased == DroppedRemote(ViewOf(L, R))
      ensures ClosedSides(ViewOf(L, R)) && PushedFieldsStay(ViewOf(L, R)) && r.Success? ==>
              PulledFieldsStay(ViewOf(L, R))
      ensures ClosedSides(ViewOf(L, R)) && FieldsStay(ViewOf(L, R)) && net.Reliable() ==> r.Success?
    {
      ErasurePlanned(L, R, actions);
      var result;
      ghost var erased;
      result, erased := remote.DeleteRemoteActions(actions, m, net.acceptsDelete, R);
      g := before.(erased := erased);
      r := if result.Success? then Success(()) else Failure(Supabase(result.error));
    }

    /** The second half of a run: the deletions on both sides, and the check. */
    method Settle(plan: Plan, summary: Summary, net: Network, ghost L: Rows, ghost R: Rows)
      returns (r: Result<Summary, SyncError>, ghost g: Progress)
      requires Planned(L, R, plan.actions) && Reads(plan.local, L) && Reads(plan.remote, R)
      requires local.rows == L + Pulled(ViewOf(L, R)) && remote.rows == R + PushedTables(ViewOf(L, R), 9)
      requires ClosedSides(ViewOf(L, R)) ==> FieldsStay(ViewOf(L, R))
      requires summary == Summary(|RemoteActions(ViewOf(L, R))|, |LocalActions(ViewOf(L, R))|)
      modifies local, remote
      ensures RunOutcome(ViewOf(L, R), net, r, local.rows, remote.rows, g)
    {
      ghost var v := ViewOf(L, R);
      g := Progress(true, false, 9, {});
      SentSoFar(v, remote.rows, g);
      var cleaned := CleanLocal(plan.local, plan.actions, L, R);
      if cleaned.Failure? {
        if ClosedSides(v) {
          VisibleUseMeansSent(v);
        }
        RunStops(v, net, cleaned.error, local.rows, remote.rows, g);
        return Failure(cleaned.error), g;
      }
      g := Progress(true, true, 9, {});
      var erased;
      erased, g := EraseRemote(plan.remote, plan.actions, net, L, R, g);
      if erased.Failure? {
        StoppedAfterCleaning(v, remote.rows, g);
        RunStops(v, net, erased.error, local.rows, remote.rows, g);
        return Failure(erased.error), g;
      }
      RunIsChecked(L, R);
      EverythingSent(v);
      var check := VerifyConverged();
      r := if check.Failure? then Failure(check.error) else Success(summary);
      EndsChecked(L, R, net, r, local.rows, g);
    }

    /** A run from the remote write on. */
    method SendAndSettle(plan: Plan, pulled: nat, net: Network, ghost L: Rows, ghost R: Rows)
      returns (r: Result<Summary, SyncError>, ghost g: Progress)
      requires Planned(L, R, plan.actions) && Reads(plan.local, L) && Reads(plan.remote, R)
      requires local.rows == L + Pulled(ViewOf(L, R)) && remote.rows == R && pulled == |LocalActions(ViewOf(L, R))|
      requires ClosedSides(ViewOf(L, R)) ==> PulledFieldsStay(ViewOf(L, R))
      modifies local, remote
      ensures RunOutcome(ViewOf(L, R), net, r, local.rows, remote.rows, g)
    {
      var outbound, tables := WriteRemote(plan.local, plan.actions, net, L, R);
      if tables != 9 {
        g := Progress(true, false, tables, {});
        RunStopsSending(ViewOf(L, R), net, remote.rows, g);
        return Failure(Supabase(Refused)), g;
      }
      var pushed := outbound.RowCount() + CountKinds(plan.actions, {DeleteRemote});
      r, g := Settle(plan, Summary(pushed, pulled), net, L, R);
    }

    /** Carries out what a comparison without conflicts asks for, on both sides. */
    method RunPlan(plan: Plan, net: Network, ghost L: Rows, ghost R: Rows)
      returns (r: Result<Summary, SyncError>, ghost g: Progress)
      requires Planned(L, R, plan.actions) && Reads(plan.local, L) && Reads(plan.remote, R)
      requires local.rows == L && remote.rows == R
      modifies local, remote
      ensures RunOutcome(ViewOf(L, R), net, r, local.rows, remote.rows, g)
    {
      var written, inbound := WriteLocal(plan.remote, plan.actions, L, R);
      if !written {
        RunRefused(ViewOf(L, R), net);
        return Failure(Database(ReferenceMissing)), Progress(false, false, 0, {});
      }
      r, g := SendAndSettle(plan, inbound.RowCount() + CountKinds(plan.actions, {DeleteLocal}), net, L, R);
    }

    /** One bidirectional run. A run that succeeds leaves both sides agreed. From
        sides that keep their references it succeeds exactly if nothing refuses it,
        the network carries every request, and no note written to either side points
        at a field deleted there. Wherever it stops, both sides are in a state the
        next run resumes from, unless a note lost its field to the local deletions. */
    method SyncTables(contractReady: bool, net: Network) returns (r: Result<Summary, SyncError>, ghost g: Progress)
      requires Keyed(local.rows) && Keyed(remote.rows)
      modifies local, remote
      ensures old(Refusal(contractReady)).Some? ==>
                && r == Failure(old(Refusal(contractReady)).value)
                && local.rows == old(local.rows) && remote.rows == old(remote.rows)
      ensures old(Refusal(contractReady)).None? ==>
                RunOutcome(ViewOf(old(local.rows), old(remote.rows)), net, r, local.rows, remote.rows, g)
    {
      var prepared := Prepare(contractReady);
      if prepared.Failure? {
        return Failure(prepared.error), Progress(false, false, 0, {});
      }
      r, g := RunPlan(prepared.value, net, local.rows, remote.rows);
    }

    /** Succeeds exactly when a fresh comparison is conflict-free and asks for
        nothing more in the direction just written. */
    method VerifyDirectionConverged(push: bool) returns (r: Result<(), SyncError>)
      requires Keyed(local.rows) && Keyed(remote.rows)
      ensures r.Success? <==>
              if push then PushConverged(local.rows, remote.rows) else PullConverged(local.rows, remote.rows)
      ensures r.Failure? ==> TellsWhatRemains(ViewOf(local.rows, remote.rows), r.error)
    {
      var l, m := ReadSnapshots();
      var diff := DiffSnapshots(l, m, local.rows, remote.rows);
      var v := ViewOf(local.rows, remote.rows);
      var remaining := CountKinds(diff.actions, if push then TO_REMOTE + {DeleteRemote} else TO_LOCAL + {DeleteLocal});
      NothingRemains(v, diff.actions, push);
      CountsTell(v, diff.actions, |diff.conflicts|);
      assert |multiset(diff.conflicts)| == |diff.conflicts|;
      if remaining == 0 && diff.conflicts == [] {
        r := Success(());
      } else {
        r := Failure(NotConverged(CountKinds(diff.actions, TO_LOCAL + {DeleteLocal}),
                                  CountKinds(diff.actions, TO_REMOTE + {DeleteRemote}), |diff.conflicts|));
      }
    }

    /** The count of a direction, if its check passes. */
    method CountIfConverged(push: bool, count: nat) returns (r: Result<nat, SyncError>)
      requires Keyed(local.rows) && Keyed(remote.rows)
      ensures r.Success? <==>
              if push then PushConverged(local.rows, remote.rows) else PullConverged(local.rows, remote.rows)
      ensures r.Success? ==> r.value == count
    {
      var check := VerifyDirectionConverged(push);
      r := if check.Failure? then Failure(check.error) else Success(count);
    }

    /** The second half of a push: the remote deletions, and the check. */
    method PushDeletions(plan: Plan, count: nat, net: Network, ghost L: Rows, ghost R: Rows)
      returns (r: Result<nat, SyncError>, ghost g: Progress)
      requires Planned(L, R, plan.actions) && Reads(plan.local, L) && Reads(plan.remote, R)
      requires local.rows == L && remote.rows == R + PushedTables(ViewOf(L, R), 9)
      requires ClosedSides(ViewOf(L, R)) ==> PushedFieldsStay(ViewOf(L, R))
      requires count == |RemoteActions(ViewOf(L, R))|
      modifies remote
      ensures PushOutcome(ViewOf(L, R), net, r, remote.rows, g)
    {
      ghost var v := ViewOf(L, R);
      g := Progress(false, false, 9, {});
      var erased;
      erased, g := EraseRemote(plan.remote, plan.actions, net, L, R, g);
      if erased.Failure? {
        StoppedBeforeCleaning(v, L, remote.rows, g);
        PushStops(v, net, erased.error, remote.rows, g);
        return Failure(erased.error), g;
      }
      EverythingSent(v);
      AfterIsKeyed(L, R);
      r := CountIfConverged(true, count);
      PushEnds(L, R, net, r);
    }

    method PushPlan(plan: Plan, net: Network, ghost L: Rows, ghost R: Rows)
      returns (r: Result<nat, SyncError>, ghost g: Progress)
      requires Planned(L, R, plan.actions) && Reads(plan.local, L) && Reads(plan.remote, R)
      requires local.rows == L && remote.rows == R
      modifies remote
      ensures PushOutcome(ViewOf(L, R), net, r, remote.rows, g)
    {
      var outbound, tables := WriteRemote(plan.local, plan.actions, net, L, R);
      if tables < 9 {
        g := Progress(false, false, tables, {});
        PushStopsSending(ViewOf(L, R), net, remote.rows, g);
        return Failure(Supabase(Refused)), g;
      }
      r, g := PushDeletions(plan, outbound.RowCount() + CountKinds(plan.actions, {DeleteRemote}), net, L, R);
    }

    /** Sends local rows and deletions to the remote side only. */
    method Push(contractReady: bool, net: Network) returns (r: Result<nat, SyncError>, ghost g: Progress)
      requires Keyed(local.rows) && Keyed(remote.rows)
      modifies remote
      ensures old(Refusal(contractReady)).Some? ==>
                r == Failure(old(Refusal(contractReady)).value) && remote.rows == old(remote.rows)
      ensures old(Refusal(contractReady)).None? ==>
                PushOutcome(ViewOf(local.rows, old(remote.rows)), net, r, remote.rows, g)
    {
      var prepared := Prepare(contractReady);
      if prepared.Failure? {
        return Failure(prepared.error), Progress(false, false, 0, {});
      }
      r, g := PushPlan(prepared.value, net, local.rows, remote.rows);
    }

    /** The second half of a pull: the local deletions, and the check. */
    method PullDeletions(plan: Plan, count: nat, ghost L: Rows, ghost R: Rows)
      returns (r: Result<nat, SyncError>, ghost g: Progress)
      requires Planned(L, R, plan.actions) && Reads(plan.local, L) && remote.rows == R
      requires local.rows == L + Pulled(ViewOf(L, R)) && count == |LocalActions(ViewOf(L, R))|
      requires ClosedSides(ViewOf(L, R)) ==> PulledFieldsStay(ViewOf(L, R))
      modifies local
      ensures PullOutcome(ViewOf(L, R), r, local.rows, g)
    {
      ghost var v := ViewOf(L, R);
      var cleaned := CleanLocal(plan.local, plan.actions, L, R);
      if cleaned.Failure? {
        PullStopsInUse(v, cleaned.error);
        return Failure(cleaned.error), Progress(true, false, 0, {});
      }
      g := AfterPull();
      ClearedIsKeyed(L + Pulled(v), DroppedLocal(v));
      r := CountIfConverged(false, count);
      PullEnds(L, R, r, local.rows);
    }

    method PullPlan(plan: Plan, ghost L: Rows, ghost R: Rows) returns (r: Result<nat, SyncError>, ghost g: Progress)
      requires Planned(L, R, plan.actions) && Reads(plan.local, L) && Reads(plan.remote, R)
      requires local.rows == L && remote.rows == R
      modifies local
      ensures PullOutcome(ViewOf(L, R), r, local.rows, g)
    {
      ghost var v := ViewOf(L, R);
      var written, inbound := WriteLocal(plan.remote, plan.actions, L, R);
      if !written {
        g := Progress(false, false, 0, {});
        NothingSentYet(v);
        StoppedBeforeCleaning(v, L, R, g);
        PullStops(v, Database(ReferenceMissing), L, g);
        return Failure(Database(ReferenceMissing)), g;
      }
      r, g := PullDeletions(plan, inbound.RowCount() + CountKinds(plan.actions, {DeleteLocal}), L, R);
    }

    /** Takes remote rows and deletions to the local side only. */
    method Pull(contractReady: bool) returns (r: Result<nat, SyncError>, ghost g: Progress)
      requires Keyed(local.rows) && Keyed(remote.rows)
      modifies local
      ensures old(Refusal(contractReady)).Some? ==>
                r == Failure(old(Refusal(contractReady)).value) && local.rows == old(local.rows)
      ensures old(Refusal(contractReady)).None? ==>
                PullOutcome(ViewOf(old(local.rows), remote.rows), r, local.rows, g)
    {
      var prepared := Prepare(contractReady);
      if prepared.Failure? {
        return Failure(prepared.error), Progress(false, false, 0, {});
      }
      r, g := PullPlan(prepared.value, local.rows, remote.rows);
    }

    /** Switching off refuses every operation; switching on refuses none for that
        reason, and lets sides through that are ready and free of conflicts. */
    method UpdateSettings(enabled: bool)
      modifies this`enabled
      ensures !enabled ==> forall ready :: Refusal(ready) == Some(Disabled)
      ensures enabled ==> forall ready :: Refusal(ready) != Some(Disabled)
      ensures enabled ==> (Refusal(true).None? <==> ConflictFree(local.rows, remote.rows))
    {
      this.enabled := enabled;
    }
  }

  lemma DoomedRowsUntouched(v: View)
    requires Keyed(v.local) && Keyed(v.remote)
    ensures Keyed(v.local + Pulled(v))
    ensures forall ref <- DroppedLocal(v) :: Lookup(v.local + Pulled(v), ref) == Lookup(v.local, ref)
  {
    forall ref | ref in DroppedLocal(v)
      ensures ref !in Pulled(v)
    {
      VerdictShape(v, ref);
    }
  }

  lemma QuietSidesStay(A: Rows, B: Rows)
    requires Keyed(A) && Keyed(B) && Quiet(A, B)
    ensures var w := ViewOf(A, B);
            && ConflictFree(A, B) && LocalAfter(w) == A && RemoteAfter(w) == B
            && LocalActions(w) == {} && RemoteActions(w) == {}
  {
    var w := ViewOf(A, B);
    NoConflictsMeansNoClash(A, B);
    forall ref | ref in w.Keys()
      ensures !w.VerdictAt(ref).Act?
    {
      if w.VerdictAt(ref).Act? {
        VerdictActionIsListed(w, ref);
      }
    }
    forall ref
      ensures Lookup(LocalAfter(w), ref) == Lookup(A, ref) && Lookup(RemoteAfter(w), ref) == Lookup(B, ref)
    {
      AfterAt(w, ref);
    }
    MapsEqual(LocalAfter(w), A);
    MapsEqual(RemoteAfter(w), B);
  }

  /** What the remote deletions start from. */
  lemma ErasurePlanned(L: Rows, R: Rows, actions: seq<Action>)
    requires Planned(L, R, actions)
    ensures var v := ViewOf(L, R);
            var sent := R + PushedTables(v, 9);
            && Keyed(sent) && Doomed(actions, DeleteRemote, R) == DroppedRemote(v)
            && (forall a <- actions :: a.kind.DeleteRemote? ==> SupportedDelete(a.table))
            && (ClosedSides(v) && PushedFieldsStay(v) ==>
                  Resolves(sent) && (PulledFieldsStay(v) <==> Resolves(sent - DroppedRemote(v))))
  {
    DoomedIsDropped(L, R, actions);
    if ClosedSides(ViewOf(L, R)) && PushedFieldsStay(ViewOf(L, R)) {
      ErasureResolves(ViewOf(L, R));
    }
  }

  /** After a run that succeeded the next one reports nothing and writes nothing. */
  lemma SecondRunWritesNothing(L: Rows, R: Rows)
    requires Keyed(L) && Keyed(R) && ConflictFree(L, R) && PullSparesUnused(ViewOf(L, R))
    ensures var A, B := LocalAfter(ViewOf(L, R)), RemoteAfter(ViewOf(L, R));
            var w := ViewOf(A, B);
            && ConflictFree(A, B) && LocalAfter(w) == A && RemoteAfter(w) == B
            && LocalActions(w) == {} && RemoteActions(w) == {}
  {
    AfterIsKeyed(L, R);
    Convergence(L, R);
    QuietSidesStay(LocalAfter(ViewOf(L, R)), RemoteAfter(ViewOf(L, R)));
  }
}
