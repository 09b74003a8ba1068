/** The snapshot comparison as the service runs it: rows are hashed by key, keys
    are visited table by table in an arbitrary order, actions are sorted last. */
module Diff {
  import opened Base
  import opened Tables
  import opened Changes
  import opened Lifecycle
  import opened Snapshots

  class SyncSnapshotDiff {
    var actions: seq<Action>
    var conflicts: seq<Conflict>

    constructor ()
      ensures actions == [] && conflicts == []
    {
      actions, conflicts := [], [];
    }

    method PushAction(kind: ActionKind, ref: Ref, reason: Reason)
      modifies this
      ensures actions == old(actions) + [Action(kind, ref.table, ref.key, reason)]
      ensures conflicts == old(conflicts)
    {
      actions := actions + [Action(kind, ref.table, ref.key, reason)];
    }

    method PushMissingChangeAction(kind: ActionKind, changeId: string)
      modifies this
      ensures actions == old(actions) + [CopyChange(kind, changeId)]
      ensures conflicts == old(conflicts)
    {
      PushAction(kind, Ref(SyncChanges, changeId), FactMissing);
    }

    method PushConflict(ref: Ref, reason: Reason)
      modifies this
      ensures conflicts == old(conflicts) + [Conflict(ref.table, ref.key, reason)]
      ensures actions == old(actions)
    {
      conflicts := conflicts + [Conflict(ref.table, ref.key, reason)];
    }

    method SyncMissingEntityChanges(e: Entity, lc: Latest, rc: Latest)
      modifies this
      ensures actions == old(actions) + MissingEntityChanges(e, lc, rc)
      ensures conflicts == old(conflicts)
    {
      if e in lc && e !in rc {
        PushMissingChangeAction(SyncChangeRemote, lc[e].id);
      } else if e !in lc && e in rc {
        PushMissingChangeAction(SyncChangeLocal, rc[e].id);
      }
    }

    /** Pushes the direction of a difference, or a conflict when it has none. */
    method PushNewer(ref: Ref, target: Option<ActionKind>)
      requires target.Some? ==> target.value == UpsertLocal || target.value == UpsertRemote
      modifies this
      ensures match target
              case Some(kind) =>
                && actions == old(actions) + [Action(kind, ref.table, ref.key, Freshness(target).reason)]
                && conflicts == old(conflicts)
              case None =>
                && actions == old(actions)
                && conflicts == old(conflicts) + [Conflict(ref.table, ref.key, FreshnessUnclear)]
    {
      if target == Some(UpsertRemote) {
        PushAction(UpsertRemote, ref, LocalFactNewer);
      } else if target == Some(UpsertLocal) {
        PushAction(UpsertLocal, ref, RemoteFactNewer);
      } else {
        PushConflict(ref, FreshnessUnclear);
      }
    }

    method CompareWorkspace(ref: Ref, v: View)
      requires ref.table.Workspaces? && ref in v.Keys()
      modifies this
      ensures actions == old(actions) + v.ActionsAt(ref) && conflicts == old(conflicts) + v.ConflictsAt(ref)
    {
      if ref !in v.remote {
        if !WorkspaceEmpty(v.local, ref.key) {
          PushAction(UpsertRemote, ref, RemoteMissing);
        }
      } else if ref !in v.local {
        PushAction(UpsertLocal, ref, LocalMissing);
      } else if v.local[ref] != v.remote[ref] {
        PushNewer(ref, NewerTarget(v.remote[ref].Subject(), v.lc, v.rc));
      }
    }

    method HandleMissingRemote(ref: Ref, e: Entity, v: View)
      requires ref in v.local && ref !in v.remote && e == v.local[ref].Subject()
      requires !ref.table.Workspaces? && !ref.table.SyncChanges?
      modifies this
      ensures actions == old(actions) + v.ActionsAt(ref) && conflicts == old(conflicts) + v.ConflictsAt(ref)
    {
      var tombstone := TombstoneChange(v.rc, e);
      if tombstone.Some? {
        match LifecycleOf(ref.table) {
          case PhysicalDelete | Relation =>
            PushAction(DeleteLocal, ref, RemoteTombstone);
            PushMissingChangeAction(SyncChangeLocal, tombstone.value.id);
          case Preserved | AppendOnlyProjection =>
            PushConflict(ref, DeleteUnsupported);
          case SoftDelete =>
            PushAction(UpsertRemote, ref, SoftDeleteAuthoritative);
        }
        return;
      }
      SyncMissingEntityChanges(e, v.lc, v.rc);
      PushAction(UpsertRemote, ref, RemoteMissing);
    }

    method HandleMissingLocal(ref: Ref, e: Entity, v: View)
      requires ref !in v.local && ref in v.remote && e == v.remote[ref].Subject()
      requires !ref.table.Workspaces? && !ref.table.SyncChanges?
      modifies this
      ensures actions == old(actions) + v.ActionsAt(ref) && conflicts == old(conflicts) + v.ConflictsAt(ref)
    {
      var tombstone := TombstoneChange(v.lc, e);
      if tombstone.Some? {
        match LifecycleOf(ref.table) {
          case PhysicalDelete | Relation =>
            PushAction(DeleteRemote, ref, LocalTombstone);
            PushMissingChangeAction(SyncChangeRemote, tombstone.value.id);
          case Preserved | AppendOnlyProjection =>
            PushConflict(ref, DeleteUnsupported);
          case SoftDelete =>
            PushAction(UpsertLocal, ref, SoftDeleteAuthoritative);
        }
        return;
      }
      SyncMissingEntityChanges(e, v.lc, v.rc);
      PushAction(UpsertLocal, ref, LocalMissing);
    }

    /** One row of a table that is neither workspaces nor changes. */
    method CompareRow(ref: Ref, v: View)
      requires !ref.table.Workspaces? && !ref.table.SyncChanges? && ref in v.Keys()
      modifies this
      ensures actions == old(actions) + v.ActionsAt(ref) && conflicts == old(conflicts) + v.ConflictsAt(ref)
    {
      if ref !in v.remote {
        HandleMissingRemote(ref, v.local[ref].Subject(), v);
      } else if ref !in v.local {
        HandleMissingLocal(ref, v.remote[ref].Subject(), v);
      } else {
        var localRow, remoteRow := v.local[ref], v.remote[ref];
        if localRow == remoteRow {
          SyncMissingEntityChanges(remoteRow.Subject(), v.lc, v.rc);
          return;
        }
        if ref.table.Notes? && localRow.Note? && remoteRow.Note? {
          var kind := NoteFieldTombstoneAction(localRow, remoteRow, v.lc, v.rc);
          if kind.Some? {
            PushAction(kind.value, ref, NoteFollowsFieldTombstone);
            return;
          }
        }
        PushNewer(ref, NewerTarget(remoteRow.Subject(), v.lc, v.rc));
      }
    }

    /** Changes are facts: a missing one is copied, a contradicting one conflicts. */
    method CompareSyncChange(ref: Ref, v: View)
      requires ref.table.SyncChanges? && ref in v.Keys()
      modifies this
      ensures actions == old(actions) + v.ActionsAt(ref) && conflicts == old(conflicts) + v.ConflictsAt(ref)
    {
      if ref !in v.remote {
        PushMissingChangeAction(SyncChangeRemote, ref.key);
      } else if ref !in v.local {
        PushMissingChangeAction(SyncChangeLocal, ref.key);
      } else if v.local[ref] != v.remote[ref] {
        PushConflict(ref, FactDiffers);
      }
    }

    method CompareKey(ref: Ref, v: View)
      requires ref in v.Keys()
      modifies this
      ensures actions == old(actions) + v.ActionsAt(ref) && conflicts == old(conflicts) + v.ConflictsAt(ref)
    {
      match ref.table {
        case Workspaces => CompareWorkspace(ref, v);
        case SyncChanges => CompareSyncChange(ref, v);
        case _ => CompareRow(ref, v);
      }
    }

    /** So far exactly the keys in `done` have been visited, in this order. */
    ghost predicate Collected(v: View, order: seq<Ref>, done: set<Ref>)
      reads this
    {
      && Visits(order, done)
      && actions == Flat(order, v.ActionsAt)
      && conflicts == Flat(order, v.ConflictsAt)
    }

    /** Visits the given keys in an arbitrary order, as a hash map iterates. */
    method CompareKeys(visit: set<Ref>, v: View, ghost before: seq<Ref>, ghost done: set<Ref>)
      returns (ghost order: seq<Ref>)
      requires visit <= v.Keys() && visit !! done
      requires Collected(v, before, done)
      modifies this
      ensures Collected(v, order, done + visit)
    {
      order := before;
      var keys := visit;
      assert done + visit - keys == done;
      while keys != {}
        invariant keys <= visit
        invariant Collected(v, order, done + visit - keys)
        decreases keys
      {
        var ref :| ref in keys;
        CompareKey(ref, v);
        FlatNext(order, v.ActionsAt, ref);
        FlatNext(order, v.ConflictsAt, ref);
        VisitsNext(order, done + visit, keys, ref);
        order, keys := order + [ref], keys - {ref};
      }
      assert done + visit - keys == done + visit;
    }
  }

  /** The step at which an action is executed. */
  function ActionOrder(kind: ActionKind): nat {
    match kind
    case UpsertLocal | UpsertRemote => 0
    case DeleteLocal | DeleteRemote => 1
    case SyncChangeLocal | SyncChangeRemote => 2
  }

  /** Execution order: by step, then foreign-key-safe table order, then key. */
  predicate ActionLess(a: Action, b: Action) {
    if ActionOrder(a.kind) != ActionOrder(b.kind) then ActionOrder(a.kind) < ActionOrder(b.kind)
    else if WriteOrder(a.table) != WriteOrder(b.table) then WriteOrder(a.table) < WriteOrder(b.table)
    else StringLess(a.key, b.key)
  }

  predicate AtMost(a: Action, b: Action) {
    !ActionLess(b, a)
  }

  lemma AtMostIsTotalPreorder(a: Action, b: Action, c: Action)
    ensures AtMost(a, b) || AtMost(b, a)
    ensures AtMost(a, b) && AtMost(b, c) ==> AtMost(a, c)
  {
    StringLessTotal(a.key, b.key);
    StringLessTotal(b.key, c.key);
    if StringLess(a.key, b.key) {
      StringLessAsymmetric(a.key, b.key);
    }
    if StringLess(a.key, b.key) && StringLess(b.key, c.key) {
      StringLessTransitive(a.key, b.key, c.key);
      StringLessAsymmetric(a.key, c.key);
    }
    if StringLess(b.key, c.key) {
      StringLessAsymmetric(b.key, c.key);
    }
  }

  ghost predicate Sorted(actions: seq<Action>) {
    forall i, j :: 0 <= i < j < |actions| ==> AtMost(actions[i], actions[j])
  }

  function Insert(a: Action, actions: seq<Action>): seq<Action> {
    if actions == [] || ActionLess(a, actions[0]) then [a] + actions
    else [actions[0]] + Insert(a, actions[1..])
  }

  lemma {:induction false} InsertKeepsBag(a: Action, actions: seq<Action>)
    ensures multiset(Insert(a, actions)) == multiset(actions) + multiset{a}
  {
    if actions != [] && !ActionLess(a, actions[0]) {
      InsertKeepsBag(a, actions[1..]);
      assert actions == [actions[0]] + actions[1..];
    }
  }

  lemma SortedHead(a: Action, actions: seq<Action>)
    requires Sorted(actions) && forall x <- actions :: AtMost(a, x)
    ensures Sorted([a] + actions)
  {
  }

  lemma {:induction false} InsertSorts(a: Action, actions: seq<Action>)
    requires Sorted(actions)
    ensures Sorted(Insert(a, actions))
  {
    if actions == [] {
    } else if ActionLess(a, actions[0]) {
      forall x | x in actions
        ensures AtMost(a, x)
      {
        AtMostIsTotalPreorder(a, actions[0], x);
      }
      SortedHead(a, actions);
    } else {
      var rest := Insert(a, actions[1..]);
      InsertSorts(a, actions[1..]);
      InsertKeepsBag(a, actions[1..]);
      forall x | x in rest
        ensures AtMost(actions[0], x)
      {
        assert x in multiset(rest);
      }
      SortedHead(actions[0], rest);
    }
  }

  /** What the standard library's `sort_by` promises for this order. */
  function SortActions(actions: seq<Action>): (r: seq<Action>)
    ensures Sorted(r) && multiset(r) == multiset(actions)
  {
    if actions == [] then []
    else
      assert actions == [actions[0]] + actions[1..];
      var rest := SortActions(actions[1..]);
      InsertSorts(actions[0], rest);
      InsertKeepsBag(actions[0], rest);
      Insert(actions[0], rest)
  }

  const TABLES: seq<Table> :=
    [Workspaces, Devices, Fields, Tags, Notes, NoteRevisions, NoteTags, NoteLinks, SyncChanges]

  /** Hashes the rows of one table by key. */
  method HashTable(rows: seq<Row>, t: Table, ghost s: Rows) returns (byKey: Rows)
    requires Keyed(s) && Enumerates(rows, t, s)
    ensures byKey == map r | r in s && r.table == t :: s[r]
  {
    byKey := map[];
    for i := 0 to |rows|
      invariant forall r <- byKey :: r in s && r.table == t && byKey[r] == s[r]
      invariant forall j | 0 <= j < i :: rows[j].PrimaryKey() in byKey
    {
      assert rows[i] in rows;
      byKey := byKey[rows[i].PrimaryKey() := rows[i]];
    }
    forall r | r in s && r.table == t
      ensures r in byKey
    {
      assert s[r] in rows;
    }
  }

  method HashTables(snapshot: Snapshot, tables: seq<Table>, ghost s: Rows) returns (byKey: Rows)
    requires Keyed(s) && Reads(snapshot, s)
    ensures byKey == map r | r in s && r.table in tables :: s[r]
  {
    byKey := map[];
    for i := 0 to |tables|
      invariant byKey == map r | r in s && r.table in tables[..i] :: s[r]
    {
      var table := HashTable(snapshot.Of(tables[i]), tables[i], s);
      assert tables[..i + 1] == tables[..i] + [tables[i]];
      byKey := byKey + table;
    }
    assert tables[..|tables|] == tables;
  }

  lemma EveryTableIsListed()
    ensures forall t: Table :: t in TABLES
    ensures forall i, j :: 0 <= i < j < |TABLES| ==> TABLES[i] != TABLES[j]
  {
    assert TABLES[0] == Workspaces && TABLES[1] == Devices && TABLES[2] == Fields && TABLES[3] == Tags;
    assert TABLES[4] == Notes && TABLES[5] == NoteRevisions && TABLES[6] == NoteTags && TABLES[7] == NoteLinks;
    assert TABLES[8] == SyncChanges;
    forall t: Table
      ensures t in TABLES
    {
      assert t == TABLES[WriteOrder(t)];
    }
  }

  lemma ChangeIdsAreDistinct(s: Rows)
    requires Keyed(s)
    ensures DistinctIds(Log(s))
  {
    forall c, d | c in Log(s) && d in Log(s) && c.id == d.id
      ensures c == d
    {
      assert Ref(SyncChanges, c.id) in s && Ref(SyncChanges, d.id) in s;
    }
  }

  /** Compares two snapshots. The actions and conflicts are, as bags, what every
      primary key contributes; the actions come in execution order. */
  method DiffSnapshots(local: Snapshot, remote: Snapshot, ghost L: Rows, ghost R: Rows) returns (diff: SyncSnapshotDiff)
    requires Keyed(L) && Keyed(R) && Reads(local, L) && Reads(remote, R)
    ensures fresh(diff)
    ensures multiset(diff.actions) == ViewOf(L, R).AllActions() && Sorted(diff.actions)
    ensures multiset(diff.conflicts) == ViewOf(L, R).AllConflicts()
  {
    ReadsLog(local, L);
    ReadsLog(remote, R);
    ChangeIdsAreDistinct(L);
    ChangeIdsAreDistinct(R);
    var lc := LatestChanges(local.syncChanges);
    var rc := LatestChanges(remote.syncChanges);
    EveryTableIsListed();
    var localByKey := HashTables(local, TABLES, L);
    var remoteByKey := HashTables(remote, TABLES, R);
    assert localByKey == L && remoteByKey == R;
    diff := new SyncSnapshotDiff();
    var v := View(localByKey, remoteByKey, lc, rc);
    var order := CompareTables(diff, v);
    FlatIsSum(order, v.Keys(), v.ActionsAt);
    FlatIsSum(order, v.Keys(), v.ConflictsAt);
    diff.actions := SortActions(diff.actions);
  }

  /** Table after table: first the keys only the local side has, then the others. */
  method CompareTables(diff: SyncSnapshotDiff, v: View) returns (ghost order: seq<Ref>)
    requires diff.actions == [] && diff.conflicts == []
    modifies diff
    ensures diff.Collected(v, order, v.Keys())
  {
    order := [];
    ghost var done: set<Ref> := {};
    EveryTableIsListed();
    for i := 0 to |TABLES|
      invariant done == set r | r in v.Keys() && r.table in TABLES[..i]
      invariant diff.Collected(v, order, done)
    {
      var t := TABLES[i];
      var localOnly := set r | r in v.local && r.table == t && r !in v.remote;
      order := diff.CompareKeys(localOnly, v, order, done);
      var onRemote := set r | r in v.remote && r.table == t;
      order := diff.CompareKeys(onRemote, v, order, done + localOnly);
      done := done + localOnly + onRemote;
    }
    assert TABLES[..|TABLES|] == TABLES;
    assert done == v.Keys();
  }
}
