/** The nine synchronized tables, their rows and keys, and a whole side of the
    synchronization as one keyed collection of rows. */
module Tables {
  import opened Base

  datatype Table =
    | Workspaces
    | Devices
    | Fields
    | Tags
    | Notes
    | NoteRevisions
    | NoteTags
    | NoteLinks
    | SyncChanges

  /** The foreign-key-safe write order. */
  function WriteOrder(t: Table): nat {
    match t
    case Workspaces => 0
    case Devices => 1
    case Fields => 2
    case Tags => 3
    case Notes => 4
    case NoteRevisions => 5
    case NoteTags => 6
    case NoteLinks => 7
    case SyncChanges => 8
  }

  /** The entity types the log speaks of; any other text is `OtherEntity`. */
  datatype EntityType =
    | WorkspaceEntity
    | DeviceEntity
    | FieldEntity
    | TagEntity
    | NoteEntity
    | NoteRevisionEntity
    | NoteTagEntity
    | NoteLinkEntity
    | OtherEntity(name: string)

  /** The operations the log speaks of; any other text is `OtherOperation`. */
  datatype Operation =
    | Insert
    | Update
    | Delete
    | Restore
    | Attach
    | Detach
    | Remove
    | Unlink
    | OtherOperation(name: string)

  /** What a change is about; relations have the id `note:tag`. */
  datatype Entity = Entity(kind: EntityType, id: string)

  function EntityTypeOf(t: Table): EntityType {
    match t
    case Workspaces => WorkspaceEntity
    case Devices => DeviceEntity
    case Fields => FieldEntity
    case Tags => TagEntity
    case Notes => NoteEntity
    case NoteRevisions => NoteRevisionEntity
    case NoteTags => NoteTagEntity
    case NoteLinks => NoteLinkEntity
    case SyncChanges => OtherEntity("sync_change")
  }

  /** The attribute names payloads use; any other name is `OtherAttribute`. */
  datatype Attribute =
    | AnchorText
    | ArchivedAt
    | BaseRevisionId
    | Content
    | CreatedAt
    | CurrentRevisionId
    | DeletedAt
    | Depth
    | DeviceId
    | FieldId
    | Id
    | Name
    | NoteId
    | ParentTagId
    | Path
    | Position
    | RoleName
    | SourceNoteId
    | TagId
    | TargetNoteId
    | Title
    | UpdatedAt
    | WorkspaceId
    | OtherAttribute(name: string)

  /** A JSON value; booleans, fractions, arrays and objects are `Other`. */
  datatype Json = Null | Text(text: string) | Number(value: int) | Other(raw: string)

  /** The text stored with a change: no JSON at all, an object, or other JSON. */
  datatype Payload = Malformed(raw: string) | Object(members: map<Attribute, Json>) | NonObject(raw: string)

  datatype Change = Change(
    id: string, workspaceId: string, deviceId: string, entityType: EntityType, entityId: string, operation: Operation,
    baseRevisionId: Option<string>, newRevisionId: Option<string>, payload: Payload, createdAt: int,
    appliedAt: Option<int>, supabaseCommittedAt: Option<int>)
  {
    function Subject(): Entity {
      Entity(entityType, entityId)
    }

    predicate IsTombstone() {
      operation.Delete? || operation.Detach? || operation.Remove? || operation.Unlink?
    }
  }

  datatype Row =
    | Workspace(id: string, workspaceName: Option<string>, createdAt: int, updatedAt: int,
                archivedAt: Option<int>, deletedAt: Option<int>)
    | Device(id: string, workspaceId: string, name: string, platform: string, createdAt: int,
             lastSeenAt: Option<int>, syncEnabled: bool, lastSyncedAt: Option<int>)
    | Field(id: string, workspaceId: string, name: string, createdAt: int)
    | Tag(id: string, workspaceId: string, name: string, parentTagId: Option<string>, path: string, depth: int,
          createdAt: int)
    | Note(id: string, workspaceId: string, content: string, role: string, fieldId: Option<string>, createdAt: int,
           updatedAt: int, archivedAt: Option<int>, deletedAt: Option<int>, currentRevisionId: Option<string>,
           lastChangeId: Option<string>, conflictStatus: string)
    | NoteRevision(id: string, workspaceId: string, noteId: string, content: string, title: Option<string>,
                   deviceId: Option<string>, createdAt: int, baseRevisionId: Option<string>, changeId: Option<string>)
    | NoteTag(workspaceId: string, noteId: string, tagId: string, createdAt: int)
    | NoteLink(id: string, workspaceId: string, sourceNoteId: string, targetNoteId: string,
               anchorText: Option<string>, position: Option<int>, createdAt: int)
    | ChangeRow(change: Change)
  {
    function Table(): Table {
      match this
      case Workspace(_, _, _, _, _, _) => Workspaces
      case Device(_, _, _, _, _, _, _, _) => Devices
      case Field(_, _, _, _) => Fields
      case Tag(_, _, _, _, _, _, _) => Tags
      case Note(_, _, _, _, _, _, _, _, _, _, _, _) => Notes
      case NoteRevision(_, _, _, _, _, _, _, _, _) => NoteRevisions
      case NoteTag(_, _, _, _) => NoteTags
      case NoteLink(_, _, _, _, _, _, _) => NoteLinks
      case ChangeRow(_) => SyncChanges
    }

    function Key(): string {
      if NoteTag? then NoteTagKey(workspaceId, noteId, tagId)
      else if ChangeRow? then change.id
      else id
    }

    function PrimaryKey(): Ref {
      Ref(Table(), Key())
    }

    /** The entity whose changes speak about this row. */
    function Subject(): Entity {
      Entity(EntityTypeOf(Table()), if NoteTag? then NoteTagEntityId(noteId, tagId) else Key())
    }

    /** The workspace that owns the row; a workspace row is owned by itself. */
    function Owner(): string {
      if Workspace? then id else if ChangeRow? then change.workspaceId else workspaceId
    }

    predicate ColonFree() {
      NoteTag? ==> ':' !in workspaceId && ':' !in noteId && ':' !in tagId
    }

    predicate Visible() {
      Note? && deletedAt.None? && archivedAt.None?
    }
  }

  /** Composite key of a note tag relation: `workspace:note:tag`. */
  function NoteTagKey(workspaceId: string, noteId: string, tagId: string): string {
    workspaceId + ":" + noteId + ":" + tagId
  }

  /** Entity id of a note tag relation in the change log: `note:tag`. */
  function NoteTagEntityId(noteId: string, tagId: string): string {
    noteId + ":" + tagId
  }

  /** Primary key of a row across all nine tables. */
  datatype Ref = Ref(table: Table, key: string)

  /** All rows one side holds, each under its own primary key. */
  type Rows = map<Ref, Row>

  ghost predicate Keyed(s: Rows) {
    forall r <- s :: s[r].PrimaryKey() == r
  }

  /** Keyed, and no id in a composite key contains the separator. */
  ghost predicate Sound(s: Rows) {
    forall r <- s :: s[r].PrimaryKey() == r && s[r].ColonFree()
  }

  lemma {:induction false} SplitsAtFirstColon(a: string, b: string, c: string, d: string)
    requires ':' !in a && ':' !in c && a + ":" + b == c + ":" + d
    ensures a == c && b == d
  {
    var s := a + ":" + b;
    assert s[|a|] == ':' && s == c + ":" + d && s[|c|] == ':';
    assert forall i | 0 <= i < |a| :: s[i] == a[i] != ':';
    assert forall i | 0 <= i < |c| :: s[i] == c[i] != ':';
    assert |a| == |c|;
    assert a == s[..|a|] == c && b == s[|a| + 1..] == d;
  }

  /** On colon-free ids the string key identifies the SQL primary key
      `(workspace_id, note_id, tag_id)`, and the entity id the pair. */
  lemma NoteTagKeysAreInjective(w: string, n: string, t: string, w': string, n': string, t': string)
    requires ':' !in w && ':' !in n && ':' !in w' && ':' !in n'
    ensures NoteTagKey(w, n, t) == NoteTagKey(w', n', t') <==> w == w' && n == n' && t == t'
    ensures NoteTagEntityId(n, t) == NoteTagEntityId(n', t') <==> n == n' && t == t'
  {
    if NoteTagEntityId(n, t) == NoteTagEntityId(n', t') {
      SplitsAtFirstColon(n, t, n', t');
    }
    if NoteTagKey(w, n, t) == NoteTagKey(w', n', t') {
      assert w + ":" + (n + ":" + t) == NoteTagKey(w, n, t);
      assert w' + ":" + (n' + ":" + t') == NoteTagKey(w', n', t');
      SplitsAtFirstColon(w, n + ":" + t, w', n' + ":" + t');
      SplitsAtFirstColon(n, t, n', t');
    }
  }

  /** Rows under the same primary key are about the same entity. */
  lemma SameKeySameSubject(a: Row, b: Row)
    requires a.PrimaryKey() == b.PrimaryKey() && a.ColonFree() && b.ColonFree()
    ensures a.Subject() == b.Subject()
  {
    if a.NoteTag? {
      NoteTagKeysAreInjective(a.workspaceId, a.noteId, a.tagId, b.workspaceId, b.noteId, b.tagId);
    }
  }

  /** Every row's workspace is itself one of the rows. */
  ghost predicate WorkspacesResolve(s: Rows) {
    forall r <- s :: Ref(Workspaces, s[r].Owner()) in s
  }

  /** The change log of a side. */
  ghost function Log(s: Rows): set<Change> {
    set r | r in s && s[r].ChangeRow? :: s[r].change
  }
}
