/** The decision rules of the two-sided synchronization: what happens to one
    primary key, given what each side holds and what each side's log says last. */
module Lifecycle {
  import opened Base
  import opened Tables
  import opened Changes

  datatype ActionKind =
    | UpsertLocal
    | UpsertRemote
    | DeleteLocal
    | DeleteRemote
    | SyncChangeLocal
    | SyncChangeRemote

  datatype Reason =
    | LocalFactNewer
    | RemoteFactNewer
    | NoteFollowsFieldTombstone
    | RemoteMissing
    | LocalMissing
    | RemoteTombstone
    | LocalTombstone
    | SoftDeleteAuthoritative
    | FactMissing
    | FreshnessUnclear
    | DeleteUnsupported
    | FactDiffers

  datatype Action = Action(kind: ActionKind, table: Table, key: string, reason: Reason)

  datatype Conflict = Conflict(table: Table, key: string, reason: Reason)

  datatype EntityLifecycle = SoftDelete | PhysicalDelete | Relation | Preserved | AppendOnlyProjection

  type Latest = map<Entity, Change>

  /** The strategy each table is compared under. Workspaces and changes have
      their own comparison, which never deletes. */
  function LifecycleOf(t: Table): EntityLifecycle {
    match t
    case Workspaces => SoftDelete
    case Devices => Preserved
    case Fields => PhysicalDelete
    case Tags => Preserved
    case Notes => SoftDelete
    case NoteRevisions => AppendOnlyProjection
    case NoteTags => Relation
    case NoteLinks => Relation
    case SyncChanges => AppendOnlyProjection
  }

  function TombstoneChange(changes: Latest, e: Entity): Option<Change> {
    if e in changes && changes[e].IsTombstone() then Some(changes[e]) else None
  }

  /** Which side a differing row goes to; nothing when the times do not tell. */
  function NewerTarget(e: Entity, lc: Latest, rc: Latest): Option<ActionKind> {
    match (Lookup(lc, e), Lookup(rc, e))
    case (Some(l), Some(r)) =>
      if l.createdAt > r.createdAt then Some(UpsertRemote)
      else if l.createdAt < r.createdAt then Some(UpsertLocal)
      else None
    case (Some(_), None) => Some(UpsertRemote)
    case (None, Some(_)) => Some(UpsertLocal)
    case (None, None) => None
  }

  predicate NoteEqualIgnoringField(left: Row, right: Row)
    requires left.Note? && right.Note?
  {
    left.(fieldId := None) == right.(fieldId := None)
  }

  /** A note that lost its field reference on the side that deleted the field
      differs from its copy in nothing else; the deletion decides. */
  function NoteFieldTombstoneAction(local: Row, remote: Row, lc: Latest, rc: Latest): Option<ActionKind>
    requires local.Note? && remote.Note?
  {
    if local.fieldId.None? && remote.fieldId.Some? && NoteEqualIgnoringField(local, remote) &&
       TombstoneChange(lc, Entity(FieldEntity, remote.fieldId.value)).Some?
    then Some(UpsertRemote)
    else if remote.fieldId.None? && local.fieldId.Some? && NoteEqualIgnoringField(local, remote) &&
            TombstoneChange(rc, Entity(FieldEntity, local.fieldId.value)).Some?
    then Some(UpsertLocal)
    else None
  }

  /** What is decided about one primary key. */
  datatype Verdict = Settled | Act(kind: ActionKind, reason: Reason) | Clash(reason: Reason)

  function Freshness(target: Option<ActionKind>): Verdict {
    match target
    case None => Clash(FreshnessUnclear)
    case Some(kind) => Act(kind, if kind == UpsertRemote then LocalFactNewer else RemoteFactNewer)
  }

  function OnDifference(t: Table, l: Row, r: Row, lc: Latest, rc: Latest): Verdict {
    if t.SyncChanges? then Clash(FactDiffers)
    else if t.Notes? && l.Note? && r.Note? && NoteFieldTombstoneAction(l, r, lc, rc).Some? then
      Act(NoteFieldTombstoneAction(l, r, lc, rc).value, NoteFollowsFieldTombstone)
    else Freshness(NewerTarget(r.Subject(), lc, rc))
  }

  /** A row only one side has: `put` writes it to the other side, `drop` removes
      it where it is because the other side's newest change deleted it. */
  function OnMissing(t: Table, tombstone: Option<Change>, put: ActionKind, missing: Reason,
                     drop: ActionKind, deleted: Reason): Verdict
  {
    if t.SyncChanges? then Act(put, FactMissing)
    else if t.Workspaces? || tombstone.None? then Act(put, missing)
    else match LifecycleOf(t)
      case PhysicalDelete | Relation => Act(drop, deleted)
      case Preserved | AppendOnlyProjection => Clash(DeleteUnsupported)
      case SoftDelete => Act(put, SoftDeleteAuthoritative)
  }

  function CopyChange(kind: ActionKind, id: string): Action {
    Action(kind, SyncChanges, id, FactMissing)
  }

  /** A change one side has about an entity the other side's log never mentions. */
  function MissingEntityChanges(e: Entity, lc: Latest, rc: Latest): seq<Action> {
    match (Lookup(lc, e), Lookup(rc, e))
    case (Some(l), None) => [CopyChange(SyncChangeRemote, l.id)]
    case (None, Some(r)) => [CopyChange(SyncChangeLocal, r.id)]
    case _ => []
  }

  predicate DeletesPhysically(t: Table) {
    LifecycleOf(t).PhysicalDelete? || LifecycleOf(t).Relation?
  }

  /** The entities a tombstone removes. */
  predicate DeletableKind(kind: EntityType) {
    kind.FieldEntity? || kind.NoteTagEntity? || kind.NoteLinkEntity?
  }

  /** A workspace with no row of its own in any other table. */
  predicate WorkspaceEmpty(s: Rows, workspaceId: string) {
    forall r <- s :: s[r].Workspace? || s[r].Owner() != workspaceId
  }

  /** Both sides' rows with the newest change per entity of either log. */
  datatype View = View(local: Rows, remote: Rows, lc: Latest, rc: Latest)
  {
    function VerdictAt(ref: Ref): Verdict {
      if ref in local && ref in remote then
        if local[ref] == remote[ref] then Settled else OnDifference(ref.table, local[ref], remote[ref], lc, rc)
      else if ref in local then
        if ref.table.Workspaces? && WorkspaceEmpty(local, ref.key) then Settled
        else OnMissing(ref.table, TombstoneChange(rc, local[ref].Subject()),
                       if ref.table.SyncChanges? then SyncChangeRemote else UpsertRemote, RemoteMissing,
                       DeleteLocal, RemoteTombstone)
      else if ref in remote then
        OnMissing(ref.table, TombstoneChange(lc, remote[ref].Subject()),
                  if ref.table.SyncChanges? then SyncChangeLocal else UpsertLocal, LocalMissing,
                  DeleteRemote, LocalTombstone)
      else Settled
    }

    /** The change copies requested while handling one row. */
    function CopiesAt(ref: Ref): seq<Action> {
      if ref.table.Workspaces? || ref.table.SyncChanges? then []
      else if ref in local && ref in remote then
        if local[ref] == remote[ref] then MissingEntityChanges(remote[ref].Subject(), lc, rc) else []
      else if ref in local then
        var tombstone := TombstoneChange(rc, local[ref].Subject());
        if tombstone.None? then MissingEntityChanges(local[ref].Subject(), lc, rc)
        else if DeletesPhysically(ref.table) then [CopyChange(SyncChangeLocal, tombstone.value.id)]
        else []
      else if ref in remote then
        var tombstone := TombstoneChange(lc, remote[ref].Subject());
        if tombstone.None? then MissingEntityChanges(remote[ref].Subject(), lc, rc)
        else if DeletesPhysically(ref.table) then [CopyChange(SyncChangeRemote, tombstone.value.id)]
        else []
      else []
    }

    /** Everything one primary key contributes to the comparison. */
    function ActionsAt(ref: Ref): seq<Action> {
      match VerdictAt(ref)
      case Act(kind, reason) =>
        if kind.DeleteLocal? || kind.DeleteRemote? then [Action(kind, ref.table, ref.key, reason)] + CopiesAt(ref)
        else CopiesAt(ref) + [Action(kind, ref.table, ref.key, reason)]
      case _ => CopiesAt(ref)
    }

    function ConflictsAt(ref: Ref): seq<Conflict> {
      var v := VerdictAt(ref);
      if v.Clash? then [Conflict(ref.table, ref.key, v.reason)] else []
    }

    function Keys(): set<Ref> {
      local.Keys + remote.Keys
    }

    /** The whole comparison as a bag: what every key on either side contributes. */
    ghost function AllActions(): multiset<Action> {
      Sum(Keys(), Bag(ActionsAt))
    }

    ghost function AllConflicts(): multiset<Conflict> {
      Sum(Keys(), Bag(ConflictsAt))
    }
  }

  ghost function ViewOf(L: Rows, R: Rows): View {
    View(L, R, Index(Log(L)), Index(Log(R)))
  }
}
