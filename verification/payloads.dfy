/** The JSON payloads changes carry: how rows become payloads and how a receiver
    reads them back. */
module Payloads {
  import opened Base
  import opened Tables
  import TagPaths

  /** The conflict status of a note nothing is wrong with. */
  const NO_CONFLICT := "none"

  function OptionalJson(text: Option<string>): Json {
    if text.Some? then Text(text.value) else Null
  }

  function OptionalNumber(value: Option<int>): Json {
    if value.Some? then Number(value.value) else Null
  }

  // Building

  function FieldPayload(row: Row): Payload
    requires row.Field?
  {
    Object(map[Id := Text(row.id), WorkspaceId := Text(row.workspaceId), Name := Text(row.name),
               CreatedAt := Number(row.createdAt)])
  }

  function TagPayload(row: Row): Payload
    requires row.Tag?
  {
    Object(map[Id := Text(row.id), WorkspaceId := Text(row.workspaceId), Name := Text(row.name),
               ParentTagId := OptionalJson(row.parentTagId), Path := Text(row.path), Depth := Number(row.depth),
               CreatedAt := Number(row.createdAt)])
  }

  function NotePayload(row: Row): Payload
    requires row.Note?
  {
    Object(map[Id := Text(row.id), WorkspaceId := Text(row.workspaceId), Content := Text(row.content),
               RoleName := Text(row.role), FieldId := OptionalJson(row.fieldId), CreatedAt := Number(row.createdAt),
               UpdatedAt := Number(row.updatedAt), ArchivedAt := OptionalNumber(row.archivedAt),
               DeletedAt := OptionalNumber(row.deletedAt),
               CurrentRevisionId := OptionalJson(row.currentRevisionId)])
  }

  /** The base revision travels with the payload only. */
  function NoteRevisionPayload(row: Row, base: Option<string>): Payload
    requires row.NoteRevision?
  {
    Object(map[Id := Text(row.id), WorkspaceId := Text(row.workspaceId), NoteId := Text(row.noteId),
               Content := Text(row.content), Title := OptionalJson(row.title), DeviceId := OptionalJson(row.deviceId),
               CreatedAt := Number(row.createdAt), BaseRevisionId := OptionalJson(base)])
  }

  function NoteTagPayload(workspaceId: string, noteId: string, tagId: string): Payload {
    Object(map[WorkspaceId := Text(workspaceId), NoteId := Text(noteId), TagId := Text(tagId)])
  }

  function NoteLinkPayload(row: Row): Payload
    requires row.NoteLink?
  {
    Object(map[Id := Text(row.id), WorkspaceId := Text(row.workspaceId), SourceNoteId := Text(row.sourceNoteId),
               TargetNoteId := Text(row.targetNoteId), AnchorText := OptionalJson(row.anchorText),
               Position := OptionalNumber(row.position), CreatedAt := Number(row.createdAt)])
  }

  // Reading

  datatype Rejection =
    | InvalidJson
    | Unsupported(kind: EntityType, operation: Operation)
    | MissingText(attribute: Attribute)
    | MissingInteger(attribute: Attribute)
    | StatementFailed

  /** What the receiving side adds to a payload: its workspace, the change that
      brought it, and the time. */
  datatype Receipt = Receipt(workspaceId: string, changeId: string, now: int)

  function Get(p: Payload, a: Attribute): Json {
    if p.Object? && a in p.members then p.members[a] else Null
  }

  function RequiredText(p: Payload, a: Attribute): Result<string, Rejection> {
    var v := Get(p, a);
    if v.Text? && !TagPaths.IsBlank(v.text) then Success(v.text) else Failure(MissingText(a))
  }

  /** A required text is one that trimming does not use up. */
  lemma RequiredTextIsTrimmed(p: Payload, a: Attribute)
    ensures RequiredText(p, a) == if Get(p, a).Text? && TagPaths.Trim(Get(p, a).text) != [] then Success(Get(p, a).text)
                                  else Failure(MissingText(a))
  {
    if Get(p, a).Text? {
      TagPaths.BlankIsTrimmedAway(Get(p, a).text);
    }
  }

  function OptionalText(p: Payload, a: Attribute): Option<string> {
    if Get(p, a).Text? then Some(Get(p, a).text) else None
  }

  function RequiredInteger(p: Payload, a: Attribute): Result<int, Rejection> {
    if Get(p, a).Number? then Success(Get(p, a).value) else Failure(MissingInteger(a))
  }

  function OptionalInteger(p: Payload, a: Attribute): Option<int> {
    if Get(p, a).Number? then Some(Get(p, a).value) else None
  }

  function ParseField(p: Payload, to: Receipt): (r: Result<Row, Rejection>)
    ensures r.Success? ==> r.value.Field? && r.value.workspaceId == to.workspaceId
  {
    var id :- RequiredText(p, Id);
    var name :- RequiredText(p, Name);
    var createdAt :- RequiredInteger(p, CreatedAt);
    Success(Field(id, to.workspaceId, name, createdAt))
  }

  function ParseTag(p: Payload, to: Receipt): (r: Result<Row, Rejection>)
    ensures r.Success? ==> r.value.Tag? && r.value.workspaceId == to.workspaceId
  {
    var id :- RequiredText(p, Id);
    var name :- RequiredText(p, Name);
    var path :- RequiredText(p, Path);
    var depth :- RequiredInteger(p, Depth);
    var createdAt :- RequiredInteger(p, CreatedAt);
    Success(Tag(id, to.workspaceId, name, OptionalText(p, ParentTagId), path, depth, createdAt))
  }

  function ParseNote(p: Payload, to: Receipt): (r: Result<Row, Rejection>)
    ensures r.Success? ==> r.value.Note? && r.value.workspaceId == to.workspaceId
  {
    var id :- RequiredText(p, Id);
    var content :- RequiredText(p, Content);
    var role :- RequiredText(p, RoleName);
    var createdAt :- RequiredInteger(p, CreatedAt);
    var updatedAt :- RequiredInteger(p, UpdatedAt);
    Success(Note(id, to.workspaceId, content, role, OptionalText(p, FieldId), createdAt, updatedAt,
                 OptionalInteger(p, ArchivedAt), OptionalInteger(p, DeletedAt), OptionalText(p, CurrentRevisionId),
                 None, NO_CONFLICT))
  }

  function ParseNoteRevision(p: Payload, to: Receipt): (r: Result<Row, Rejection>)
    ensures r.Success? ==> r.value.NoteRevision? && r.value.workspaceId == to.workspaceId
  {
    var id :- RequiredText(p, Id);
    var noteId :- RequiredText(p, NoteId);
    var content :- RequiredText(p, Content);
    var createdAt :- RequiredInteger(p, CreatedAt);
    Success(NoteRevision(id, to.workspaceId, noteId, content, OptionalText(p, Title), OptionalText(p, DeviceId),
                         createdAt, OptionalText(p, BaseRevisionId), Some(to.changeId)))
  }

  /** The time of arrival stands in for a missing creation time. */
  function ParseNoteTag(p: Payload, to: Receipt): (r: Result<Row, Rejection>)
    ensures r.Success? ==> r.value.NoteTag? && r.value.workspaceId == to.workspaceId
  {
    var noteId :- RequiredText(p, NoteId);
    var tagId :- RequiredText(p, TagId);
    var createdAt := OptionalInteger(p, CreatedAt);
    Success(NoteTag(to.workspaceId, noteId, tagId, if createdAt.Some? then createdAt.value else to.now))
  }

  function ParseNoteLink(p: Payload, to: Receipt): (r: Result<Row, Rejection>)
    ensures r.Success? ==> r.value.NoteLink? && r.value.workspaceId == to.workspaceId
  {
    var id :- RequiredText(p, Id);
    var source :- RequiredText(p, SourceNoteId);
    var target :- RequiredText(p, TargetNoteId);
    var createdAt := OptionalInteger(p, CreatedAt);
    Success(NoteLink(id, to.workspaceId, source, target, OptionalText(p, AnchorText),
                     OptionalInteger(p, Position), if createdAt.Some? then createdAt.value else to.now))
  }

  // Round trips

  /** The texts a receiver insists on are not blank. */
  predicate Readable(row: Row) {
    match row
    case Field(id, _, name, _) => !TagPaths.IsBlank(id) && !TagPaths.IsBlank(name)
    case Tag(id, _, name, _, path, _, _) => !TagPaths.IsBlank(id) && !TagPaths.IsBlank(name) && !TagPaths.IsBlank(path)
    case Note(id, _, content, role, _, _, _, _, _, _, _, _) =>
      !TagPaths.IsBlank(id) && !TagPaths.IsBlank(content) && !TagPaths.IsBlank(role)
    case NoteRevision(id, _, noteId, content, _, _, _, _, _) =>
      !TagPaths.IsBlank(id) && !TagPaths.IsBlank(noteId) && !TagPaths.IsBlank(content)
    case NoteTag(_, noteId, tagId, _) => !TagPaths.IsBlank(noteId) && !TagPaths.IsBlank(tagId)
    case NoteLink(id, _, source, target, _, _, _) =>
      !TagPaths.IsBlank(id) && !TagPaths.IsBlank(source) && !TagPaths.IsBlank(target)
    case _ => false
  }

  /** The payload a row is logged with, and what a receiver makes of it. */
  function PayloadOf(row: Row, base: Option<string>): Payload {
    match row
    case Field(_, _, _, _) => FieldPayload(row)
    case Tag(_, _, _, _, _, _, _) => TagPayload(row)
    case Note(_, _, _, _, _, _, _, _, _, _, _, _) => NotePayload(row)
    case NoteRevision(_, _, _, _, _, _, _, _, _) => NoteRevisionPayload(row, base)
    case NoteTag(w, n, t, _) => NoteTagPayload(w, n, t)
    case NoteLink(_, _, _, _, _, _, _) => NoteLinkPayload(row)
    case _ => NonObject("")
  }

  /** What arrives of a row: everything but the workspace, a note's local
      bookkeeping, and the creation time of a tag relation. */
  function Arrived(row: Row, base: Option<string>, to: Receipt): Row {
    match row
    case Field(id, _, name, createdAt) => Field(id, to.workspaceId, name, createdAt)
    case Tag(id, _, name, parent, path, depth, createdAt) =>
      Tag(id, to.workspaceId, name, parent, path, depth, createdAt)
    case Note(id, _, content, role, field, createdAt, updatedAt, archivedAt, deletedAt, revision, _, _) =>
      Note(id, to.workspaceId, content, role, field, createdAt, updatedAt, archivedAt, deletedAt, revision, None,
           NO_CONFLICT)
    case NoteRevision(id, _, noteId, content, title, device, createdAt, _, _) =>
      NoteRevision(id, to.workspaceId, noteId, content, title, device, createdAt, base, Some(to.changeId))
    case NoteTag(_, noteId, tagId, _) => NoteTag(to.workspaceId, noteId, tagId, to.now)
    case NoteLink(id, _, source, target, anchor, position, createdAt) =>
      NoteLink(id, to.workspaceId, source, target, anchor, position, createdAt)
    case _ => row
  }

  predicate IsLogged(row: Row) {
    row.Field? || row.Tag? || row.Note? || row.NoteRevision? || row.NoteTag? || row.NoteLink?
  }

  /** The row arrives, exactly if no text the receiver insists on is blank. */
  predicate Arrives(row: Row, base: Option<string>, read: Result<Row, Rejection>, to: Receipt) {
    if Readable(row) then read == Success(Arrived(row, base, to)) else read.Failure?
  }

  /** Reading back what was logged gives the row; a blank note, for one, never
      arrives. The payload names the workspace it comes from, which is not read. */
  lemma PayloadRoundTrip(row: Row, base: Option<string>, to: Receipt)
    requires IsLogged(row)
    ensures Get(PayloadOf(row, base), WorkspaceId) == Text(row.workspaceId)
    ensures match row
            case Field(_, _, _, _) => Arrives(row, base, ParseField(FieldPayload(row), to), to)
            case Tag(_, _, _, _, _, _, _) => Arrives(row, base, ParseTag(TagPayload(row), to), to)
            case Note(_, _, _, _, _, _, _, _, _, _, _, _) => Arrives(row, base, ParseNote(NotePayload(row), to), to)
            case NoteRevision(_, _, _, _, _, _, _, _, _) =>
              Arrives(row, base, ParseNoteRevision(NoteRevisionPayload(row, base), to), to)
            case NoteTag(w, n, t, _) => Arrives(row, base, ParseNoteTag(NoteTagPayload(w, n, t), to), to)
            case NoteLink(_, _, _, _, _, _, _) => Arrives(row, base, ParseNoteLink(NoteLinkPayload(row), to), to)
            case _ => true
  {
    match row
    case Field(_, _, _, _) => FieldRoundTrip(row, base, to);
    case Tag(_, _, _, _, _, _, _) => TagRoundTrip(row, base, to);
    case Note(_, _, _, _, _, _, _, _, _, _, _, _) => NoteRoundTrip(row, base, to);
    case NoteRevision(_, _, _, _, _, _, _, _, _) => NoteRevisionRoundTrip(row, base, to);
    case NoteTag(_, _, _, _) => NoteTagRoundTrip(row, base, to);
    case NoteLink(_, _, _, _, _, _, _) => NoteLinkRoundTrip(row, base, to);
  }

  lemma FieldRoundTrip(row: Row, base: Option<string>, to: Receipt)
    requires row.Field?
    ensures Arrives(row, base, ParseField(FieldPayload(row), to), to)
  {
    var p := FieldPayload(row);
    assert Get(p, Id) == Text(row.id);
    assert Get(p, Name) == Text(row.name);
    assert Get(p, CreatedAt) == Number(row.createdAt);
  }

  lemma TagRoundTrip(row: Row, base: Option<string>, to: Receipt)
    requires row.Tag?
    ensures Arrives(row, base, ParseTag(TagPayload(row), to), to)
  {
    var p := TagPayload(row);
    assert Get(p, Id) == Text(row.id);
    assert Get(p, Name) == Text(row.name);
    assert Get(p, ParentTagId) == OptionalJson(row.parentTagId);
    assert Get(p, Path) == Text(row.path);
    assert Get(p, Depth) == Number(row.depth);
    assert Get(p, CreatedAt) == Number(row.createdAt);
  }

  lemma NoteRoundTrip(row: Row, base: Option<string>, to: Receipt)
    requires row.Note?
    ensures Arrives(row, base, ParseNote(NotePayload(row), to), to)
  {
    var p := NotePayload(row);
    assert Get(p, Id) == Text(row.id);
    assert Get(p, Content) == Text(row.content);
    assert Get(p, RoleName) == Text(row.role);
    assert Get(p, FieldId) == OptionalJson(row.fieldId);
    assert Get(p, CreatedAt) == Number(row.createdAt);
    assert Get(p, UpdatedAt) == Number(row.updatedAt);
    assert Get(p, ArchivedAt) == OptionalNumber(row.archivedAt);
    assert Get(p, DeletedAt) == OptionalNumber(row.deletedAt);
    assert Get(p, CurrentRevisionId) == OptionalJson(row.currentRevisionId);
  }

  lemma NoteRevisionRoundTrip(row: Row, base: Option<string>, to: Receipt)
    requires row.NoteRevision?
    ensures Arrives(row, base, ParseNoteRevision(NoteRevisionPayload(row, base), to), to)
  {
    var p := NoteRevisionPayload(row, base);
    assert Get(p, Id) == Text(row.id);
    assert Get(p, NoteId) == Text(row.noteId);
    assert Get(p, Content) == Text(row.content);
    assert Get(p, Title) == OptionalJson(row.title);
    assert Get(p, DeviceId) == OptionalJson(row.deviceId);
    assert Get(p, CreatedAt) == Number(row.createdAt);
    assert Get(p, BaseRevisionId) == OptionalJson(base);
  }

  lemma NoteTagRoundTrip(row: Row, base: Option<string>, to: Receipt)
    requires row.NoteTag?
    ensures Arrives(row, base, ParseNoteTag(NoteTagPayload(row.workspaceId, row.noteId, row.tagId), to), to)
  {
    var p := NoteTagPayload(row.workspaceId, row.noteId, row.tagId);
    assert Get(p, NoteId) == Text(row.noteId);
    assert Get(p, TagId) == Text(row.tagId);
    assert Get(p, CreatedAt) == Null;
  }

  lemma NoteLinkRoundTrip(row: Row, base: Option<string>, to: Receipt)
    requires row.NoteLink?
    ensures Arrives(row, base, ParseNoteLink(NoteLinkPayload(row), to), to)
  {
    var p := NoteLinkPayload(row);
    assert Get(p, Id) == Text(row.id);
    assert Get(p, SourceNoteId) == Text(row.sourceNoteId);
    assert Get(p, TargetNoteId) == Text(row.targetNoteId);
    assert Get(p, AnchorText) == OptionalJson(row.anchorText);
    assert Get(p, Position) == OptionalNumber(row.position);
    assert Get(p, CreatedAt) == Number(row.createdAt);
  }
}
