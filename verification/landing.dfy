/** What a change of the inbox leaves in the tables, told by the attributes of its
    payload and the rows there are. */
module Landing {
  import opened Base
  import opened Tables
  import opened Payloads
  import opened ForeignKeys
  import opened Apply
  import TagPaths

  // What a payload tells

  predicate HasText(p: Payload, a: Attribute, text: string) {
    p.Object? && a in p.members && p.members[a] == Text(text) && !TagPaths.IsBlank(text)
  }

  predicate HasNumber(p: Payload, a: Attribute, value: int) {
    p.Object? && a in p.members && p.members[a] == Number(value)
  }

  predicate MayHaveText(p: Payload, a: Attribute, text: Option<string>) {
    if p.Object? && a in p.members && p.members[a].Text? then text == Some(p.members[a].text) else text == None
  }

  predicate MayHaveNumber(p: Payload, a: Attribute, value: Option<int>) {
    if p.Object? && a in p.members && p.members[a].Number? then value == Some(p.members[a].value) else value == None
  }

  /** The time of arrival stands in for a creation time that is missing. */
  predicate HasTime(p: Payload, createdAt: int, now: int) {
    HasNumber(p, CreatedAt, createdAt) || (MayHaveNumber(p, CreatedAt, None) && createdAt == now)
  }

  /** The payload of change `changeId` tells of this row. */
  predicate Tells(p: Payload, row: Row, workspaceId: string, changeId: string, now: int) {
    match row
    case Field(id, home, name, createdAt) =>
      home == workspaceId && HasText(p, Id, id) && HasText(p, Name, name) && HasNumber(p, CreatedAt, createdAt)
    case Tag(id, home, name, parent, path, depth, createdAt) =>
      && home == workspaceId && HasText(p, Id, id) && HasText(p, Name, name) && MayHaveText(p, ParentTagId, parent)
      && HasText(p, Path, path) && HasNumber(p, Depth, depth) && HasNumber(p, CreatedAt, createdAt)
    case Note(id, home, content, role, field, createdAt, updatedAt, archivedAt, deletedAt, revision, change, status) =>
      && home == workspaceId && HasText(p, Id, id) && HasText(p, Content, content) && HasText(p, RoleName, role)
      && MayHaveText(p, FieldId, field) && HasNumber(p, CreatedAt, createdAt) && HasNumber(p, UpdatedAt, updatedAt)
      && MayHaveNumber(p, ArchivedAt, archivedAt) && MayHaveNumber(p, DeletedAt, deletedAt)
      && MayHaveText(p, CurrentRevisionId, revision) && change == None && status == NO_CONFLICT
    case NoteRevision(id, home, note, content, title, device, createdAt, base, change) =>
      && home == workspaceId && HasText(p, Id, id) && HasText(p, NoteId, note) && HasText(p, Content, content)
      && MayHaveText(p, Title, title) && MayHaveText(p, DeviceId, device) && HasNumber(p, CreatedAt, createdAt)
      && MayHaveText(p, BaseRevisionId, base) && change == Some(changeId)
    case NoteTag(home, note, tag, createdAt) =>
      home == workspaceId && HasText(p, NoteId, note) && HasText(p, TagId, tag) && HasTime(p, createdAt, now)
    case NoteLink(id, home, source, target, anchor, position, createdAt) =>
      && home == workspaceId && HasText(p, Id, id)
      && HasText(p, SourceNoteId, source) && HasText(p, TargetNoteId, target)
      && MayHaveText(p, AnchorText, anchor) && MayHaveNumber(p, Position, position) && HasTime(p, createdAt, now)
    case _ => false
  }

  /** The change inserts the row if its key is free. */
  predicate Inserts(c: Change, row: Row) {
    || (c.entityType.FieldEntity? && c.operation.Insert? && row.Field?)
    || (c.entityType.TagEntity? && c.operation.Insert? && row.Tag?)
    || (c.entityType.NoteTagEntity? && c.operation.Attach? && row.NoteTag?)
    || (c.entityType.NoteLinkEntity? && c.operation.Attach? && row.NoteLink?)
  }

  predicate WritesNote(c: Change) {
    c.entityType.NoteEntity? &&
    (c.operation.Insert? || c.operation.Update? || c.operation.Delete? || c.operation.Restore?)
  }

  lemma FieldAndTagTold(p: Payload, row: Row, to: Receipt)
    requires Tells(p, row, to.workspaceId, to.changeId, to.now)
    ensures row.Field? ==> ParseField(p, to) == Success(row)
    ensures row.Tag? ==> ParseTag(p, to) == Success(row)
  {
  }

  lemma NoteTold(p: Payload, row: Row, to: Receipt)
    requires Tells(p, row, to.workspaceId, to.changeId, to.now) && row.Note?
    ensures ParseNote(p, to) == Success(row)
  {
  }

  lemma RevisionTold(p: Payload, row: Row, to: Receipt)
    requires Tells(p, row, to.workspaceId, to.changeId, to.now) && row.NoteRevision?
    ensures ParseNoteRevision(p, to) == Success(row)
  {
  }

  lemma RelationTold(p: Payload, row: Row, to: Receipt)
    requires Tells(p, row, to.workspaceId, to.changeId, to.now)
    ensures row.NoteTag? ==> ParseNoteTag(p, to) == Success(row)
    ensures row.NoteLink? ==> ParseNoteLink(p, to) == Success(row)
  {
  }

  // What every change leaves

  /** The change is logged with its own creation time and its device is there, with
      everything else it does not touch as before. */
  ghost predicate Recorded(s: Rows, t: Rows, c: Change, workspaceId: string, now: int, touched: set<Ref>) {
    && Lookup(t, Ref(SyncChanges, c.id)) ==
       Some(ChangeRow(Change(c.id, workspaceId, c.deviceId, c.entityType, c.entityId, c.operation, c.baseRevisionId,
                             c.newRevisionId, c.payload, c.createdAt, Some(now), c.supabaseCommittedAt)))
    && Lookup(t, Ref(Devices, c.deviceId)) ==
       Some(if Ref(Devices, c.deviceId) in s then s[Ref(Devices, c.deviceId)]
            else Device(c.deviceId, workspaceId, c.deviceId, "remote", now, None, true, None))
    && forall r :: r !in touched + {Ref(SyncChanges, c.id), Ref(Devices, c.deviceId)} ==> Lookup(t, r) == Lookup(s, r)
  }

  /** The change counts and is applied, touching these rows. */
  ghost predicate Landed(s: State, t: State, c: Change, workspaceId: string, now: int, touched: set<Ref>) {
    t.applied == s.applied + 1 && t.conflicts == s.conflicts && Recorded(s.rows, t.rows, c, workspaceId, now, touched)
  }

  /** The change counts and becomes a conflict, touching no row. */
  ghost predicate SetAsideFor(s: State, t: State, c: Change, workspaceId: string, now: int, reason: Rejection) {
    && t.applied == s.applied + 1 && Recorded(s.rows, t.rows, c, workspaceId, now, {})
    && t.conflicts == s.conflicts + [SchemaConflict(c.entityType, c.entityId, c.id, reason)]
  }

  ghost predicate Rejected(s: State, t: State, c: Change, workspaceId: string, now: int) {
    SetAsideFor(s, t, c, workspaceId, now, StatementFailed)
  }

  lemma SuccessLands(s: State, c: Change, workspaceId: string, now: int, next: Rows, touched: set<Ref>)
    requires Keyed(s.rows) && !HasChange(s.rows, c.id) && Keyed(next) && forall r <- touched :: !Apart(r.table)
    requires var to := Receipt(workspaceId, c.id, now);
             var here := WithRemoteDevice(s.rows, c.deviceId, to);
             Outcome(here, c, to) == Success(next) && forall r :: r !in touched ==> Lookup(next, r) == Lookup(here, r)
    ensures Landed(s, Take(s, c, workspaceId, now), c, workspaceId, now, touched)
    ensures forall r <- touched :: Lookup(Take(s, c, workspaceId, now).rows, r) == Lookup(next, r)
  {
  }

  lemma FailureIsRejected(s: State, c: Change, workspaceId: string, now: int)
    requires Keyed(s.rows) && !HasChange(s.rows, c.id)
    requires var to := Receipt(workspaceId, c.id, now);
             Outcome(WithRemoteDevice(s.rows, c.deviceId, to), c, to) == Failure(StatementFailed)
    ensures Rejected(s, Take(s, c, workspaceId, now), c, workspaceId, now)
  {
  }

  /** Where the statement of a change runs: its device is there. */
  lemma HereIsKeyed(s: Rows, c: Change, to: Receipt)
    requires Keyed(s)
    ensures Keyed(WithRemoteDevice(s, c.deviceId, to))
    ensures forall r: Ref :: !r.table.Devices? ==> Lookup(WithRemoteDevice(s, c.deviceId, to), r) == Lookup(s, r)
  {
  }

  // What each kind of change does

  predicate FieldIn(s: Rows, workspaceId: string, fieldId: string) {
    Ref(Fields, fieldId) in s && s[Ref(Fields, fieldId)].Owner() == workspaceId
  }

  /** The note after a change about it: what the payload tells; of a note that is
      there, the workspace, the creation time and the local bookkeeping stay. */
  function NoteAfter(held: Option<Row>, row: Row): Row
    requires row.Note? && (held.Some? ==> held.value.Note?)
  {
    match held
    case None => row
    case Some(h) =>
      h.(content := row.content, role := row.role, fieldId := row.fieldId, updatedAt := row.updatedAt,
         archivedAt := row.archivedAt, deletedAt := row.deletedAt, currentRevisionId := row.currentRevisionId)
  }

  lemma NoteUpserts(here: Rows, row: Row)
    requires Keyed(here) && row.Note?
    ensures var ref := Ref(Notes, row.id);
            var held := Lookup(here, ref);
            && (held.Some? ==> held.value.Note?)
            && var note := NoteAfter(held, row);
               UpsertNote(here, row) ==
               if Ref(Workspaces, note.workspaceId) in here &&
                  (note.fieldId.Some? ==> FieldIn(here, note.workspaceId, note.fieldId.value))
               then Success(here[ref := note]) else Failure(StatementFailed)
  {
    var ref := Ref(Notes, row.id);
    var held := Lookup(here, ref);
    if held.Some? {
      assert here[ref].PrimaryKey() == ref;
    }
    var note := NoteAfter(held, row);
    assert Revised(here, row) == note;
    NoteFits(here, note);
  }

  lemma NoteFits(s: Rows, note: Row)
    requires note.Note?
    ensures Fits(s, note) <==>
            && Ref(Workspaces, note.workspaceId) in s
            && (note.fieldId.Some? ==> FieldIn(s, note.workspaceId, note.fieldId.value))
  {
    assert Ref(Workspaces, note.workspaceId) in Targets(note);
    if note.fieldId.Some? {
      assert Ref(Fields, note.fieldId.value) in Targets(note);
    }
  }

  /** The note is as the payload tells, if its workspace and its field are there;
      otherwise the change is set aside. */
  ghost predicate NoteWritten(s: State, t: State, c: Change, workspaceId: string, now: int, row: Row)
    requires row.Note?
  {
    var ref := Ref(Notes, row.id);
    var held := Lookup(s.rows, ref);
    && (held.Some? ==> held.value.Note?)
    && var note := NoteAfter(held, row);
       if Ref(Workspaces, note.workspaceId) in s.rows &&
          (note.fieldId.Some? ==> FieldIn(s.rows, note.workspaceId, note.fieldId.value))
       then Landed(s, t, c, workspaceId, now, {ref}) && Lookup(t.rows, ref) == Some(note)
       else Rejected(s, t, c, workspaceId, now)
  }

  lemma NoteTaken(s: State, c: Change, workspaceId: string, now: int, row: Row)
    requires Keyed(s.rows) && WritesNote(c) && row.Note? && Tells(c.payload, row, workspaceId, c.id, now)
    requires !HasChange(s.rows, c.id)
    ensures NoteWritten(s, Take(s, c, workspaceId, now), c, workspaceId, now, row)
  {
    var to, ref := Receipt(workspaceId, c.id, now), Ref(Notes, row.id);
    var here := WithRemoteDevice(s.rows, c.deviceId, to);
    HereIsKeyed(s.rows, c, to);
    NoteTold(c.payload, row, to);
    NoteUpserts(here, row);
    assert Outcome(here, c, to) == UpsertNote(here, row);
    assert Lookup(here, ref) == Lookup(s.rows, ref);
    var note := NoteAfter(Lookup(here, ref), row);
    if Outcome(here, c, to).Success? {
      SuccessLands(s, c, workspaceId, now, here[ref := note], {ref});
    } else {
      FailureIsRejected(s, c, workspaceId, now);
    }
  }

  /** A change of a note gives it what the payload tells, if the workspace and the field
      are there; otherwise it is set aside. */
  lemma NoteLands(st: State, batch: seq<Change>, c: Change, workspaceId: string, now: int, row: Row)
    requires Keyed(st.rows) && WritesNote(c) && row.Note? && Tells(c.payload, row, workspaceId, c.id, now)
    requires !HasChange(Fold(st, batch, workspaceId, now).rows, c.id)
    ensures NoteWritten(Fold(st, batch, workspaceId, now), Fold(st, batch + [c], workspaceId, now), c, workspaceId,
                        now, row)
  {
    FoldIsKeyed(st, batch, workspaceId, now);
    FoldNext(st, batch, c, workspaceId, now);
    NoteTaken(Fold(st, batch, workspaceId, now), c, workspaceId, now, row);
  }

  lemma NoDeviceNeeded(s: Rows, row: Row, device: Row)
    requires device.Device? && (row.Field? || row.Tag? || row.NoteTag? || row.NoteLink?)
    ensures Fits(s[device.PrimaryKey() := device], row) <==> Fits(s, row)
  {
    var t := s[device.PrimaryKey() := device];
    assert forall x <- Targets(row) :: !x.table.Devices?;
  }

  lemma InsertIgnored(s: State, c: Change, workspaceId: string, now: int, row: Row)
    requires Keyed(s.rows) && Inserts(c, row) && Tells(c.payload, row, workspaceId, c.id, now)
    requires !HasChange(s.rows, c.id) && row.PrimaryKey() in s.rows
    ensures Landed(s, Take(s, c, workspaceId, now), c, workspaceId, now, {})
  {
    var to := Receipt(workspaceId, c.id, now);
    var here := WithRemoteDevice(s.rows, c.deviceId, to);
    HereIsKeyed(s.rows, c, to);
    InsertOutcome(here, c, row, to);
    SuccessLands(s, c, workspaceId, now, here, {});
  }

  lemma InsertsHere(s: Rows, c: Change, row: Row, to: Receipt)
    requires Inserts(c, row) && row.PrimaryKey() !in s && Fits(s, row)
    ensures InsertOrIgnore(WithRemoteDevice(s, c.deviceId, to), row) ==
            Success(WithRemoteDevice(s, c.deviceId, to)[row.PrimaryKey() := row])
    ensures !Apart(row.Table())
  {
    NoDeviceNeeded(s, row, RemoteDevice(c.deviceId, to));
    assert !row.Table().Devices?;
  }

  lemma InsertTaken(s: State, c: Change, workspaceId: string, now: int, row: Row)
    requires Keyed(s.rows) && Inserts(c, row) && Tells(c.payload, row, workspaceId, c.id, now)
    requires !HasChange(s.rows, c.id) && row.PrimaryKey() !in s.rows && Fits(s.rows, row)
    ensures Landed(s, Take(s, c, workspaceId, now), c, workspaceId, now, {row.PrimaryKey()})
    ensures Lookup(Take(s, c, workspaceId, now).rows, row.PrimaryKey()) == Some(row)
  {
    var to, ref := Receipt(workspaceId, c.id, now), row.PrimaryKey();
    var here := WithRemoteDevice(s.rows, c.deviceId, to);
    HereIsKeyed(s.rows, c, to);
    InsertOutcome(here, c, row, to);
    InsertsHere(s.rows, c, row, to);
    PutIsKeyed(here, row);
    SuccessLands(s, c, workspaceId, now, here[ref := row], {ref});
  }

  lemma InsertRefused(s: State, c: Change, workspaceId: string, now: int, row: Row)
    requires Keyed(s.rows) && Inserts(c, row) && Tells(c.payload, row, workspaceId, c.id, now)
    requires !HasChange(s.rows, c.id) && row.PrimaryKey() !in s.rows && !Fits(s.rows, row)
    ensures Rejected(s, Take(s, c, workspaceId, now), c, workspaceId, now)
  {
    var to := Receipt(workspaceId, c.id, now);
    InsertOutcome(WithRemoteDevice(s.rows, c.deviceId, to), c, row, to);
    NoDeviceNeeded(s.rows, row, RemoteDevice(c.deviceId, to));
    FailureIsRejected(s, c, workspaceId, now);
  }

  lemma InsertOutcome(here: Rows, c: Change, row: Row, to: Receipt)
    requires Inserts(c, row) && Tells(c.payload, row, to.workspaceId, to.changeId, to.now)
    ensures Outcome(here, c, to) == InsertOrIgnore(here, row)
  {
    FieldAndTagTold(c.payload, row, to);
    RelationTold(c.payload, row, to);
  }

  /** An inserted or attached row is there if its key was free; under a taken key
      nothing changes; without what it points at it is set aside. */
  lemma InsertLands(st: State, batch: seq<Change>, c: Change, workspaceId: string, now: int, row: Row)
    requires Keyed(st.rows) && Inserts(c, row) && Tells(c.payload, row, workspaceId, c.id, now)
    requires !HasChange(Fold(st, batch, workspaceId, now).rows, c.id)
    ensures var s, t := Fold(st, batch, workspaceId, now), Fold(st, batch + [c], workspaceId, now);
            if row.PrimaryKey() in s.rows then Landed(s, t, c, workspaceId, now, {})
            else if Fits(s.rows, row) then
              Landed(s, t, c, workspaceId, now, {row.PrimaryKey()}) && Lookup(t.rows, row.PrimaryKey()) == Some(row)
            else Rejected(s, t, c, workspaceId, now)
  {
    FoldIsKeyed(st, batch, workspaceId, now);
    FoldNext(st, batch, c, workspaceId, now);
    var s := Fold(st, batch, workspaceId, now);
    if row.PrimaryKey() in s.rows {
      InsertIgnored(s, c, workspaceId, now, row);
    } else if Fits(s.rows, row) {
      InsertTaken(s, c, workspaceId, now, row);
    } else {
      InsertRefused(s, c, workspaceId, now, row);
    }
  }

  /** A detached tag relation is gone. */
  lemma DetachLands(st: State, batch: seq<Change>, c: Change, workspaceId: string, now: int, row: Row)
    requires Keyed(st.rows) && c.entityType.NoteTagEntity? && c.operation.Detach?
    requires row.NoteTag? && Tells(c.payload, row, workspaceId, c.id, now)
    requires !HasChange(Fold(st, batch, workspaceId, now).rows, c.id)
    ensures var s, t := Fold(st, batch, workspaceId, now), Fold(st, batch + [c], workspaceId, now);
            Landed(s, t, c, workspaceId, now, {row.PrimaryKey()}) && row.PrimaryKey() !in t.rows
  {
    var s, to := Fold(st, batch, workspaceId, now), Receipt(workspaceId, c.id, now);
    var here := WithRemoteDevice(s.rows, c.deviceId, to);
    FoldIsKeyed(st, batch, workspaceId, now);
    FoldNext(st, batch, c, workspaceId, now);
    HereIsKeyed(s.rows, c, to);
    RelationTold(c.payload, row, to);
    RemovalFrame(here, row.PrimaryKey());
    SuccessLands(s, c, workspaceId, now, here - {row.PrimaryKey()}, {row.PrimaryKey()});
    assert Lookup(Fold(st, batch + [c], workspaceId, now).rows, row.PrimaryKey()) == None;
  }

  lemma LinkDetached(s: State, c: Change, workspaceId: string, now: int, id: string)
    requires Keyed(s.rows) && c.entityType.NoteLinkEntity? && c.operation.Detach? && HasText(c.payload, Id, id)
    requires !HasChange(s.rows, c.id)
    ensures var t, ref := Take(s, c, workspaceId, now), Ref(NoteLinks, id);
            if ref in s.rows && s.rows[ref].Owner() == workspaceId
            then Landed(s, t, c, workspaceId, now, {ref}) && ref !in t.rows
            else Landed(s, t, c, workspaceId, now, {})
  {
    var to, ref := Receipt(workspaceId, c.id, now), Ref(NoteLinks, id);
    var here := WithRemoteDevice(s.rows, c.deviceId, to);
    HereIsKeyed(s.rows, c, to);
    assert Outcome(here, c, to) == Success(WithoutLink(here, workspaceId, id));
    assert Lookup(here, ref) == Lookup(s.rows, ref);
    if ref in s.rows && s.rows[ref].Owner() == workspaceId {
      RemovalFrame(here, ref);
      SuccessLands(s, c, workspaceId, now, here - {ref}, {ref});
      assert Lookup(Take(s, c, workspaceId, now).rows, ref) == None;
    } else {
      SuccessLands(s, c, workspaceId, now, here, {});
    }
  }

  /** A detached link of the workspace is gone; one of another workspace stays. */
  lemma LinkDetachLands(st: State, batch: seq<Change>, c: Change, workspaceId: string, now: int, id: string)
    requires Keyed(st.rows) && c.entityType.NoteLinkEntity? && c.operation.Detach? && HasText(c.payload, Id, id)
    requires !HasChange(Fold(st, batch, workspaceId, now).rows, c.id)
    ensures var s, t := Fold(st, batch, workspaceId, now), Fold(st, batch + [c], workspaceId, now);
            var ref := Ref(NoteLinks, id);
            if ref in s.rows && s.rows[ref].Owner() == workspaceId
            then Landed(s, t, c, workspaceId, now, {ref}) && ref !in t.rows
            else Landed(s, t, c, workspaceId, now, {})
  {
    FoldIsKeyed(st, batch, workspaceId, now);
    FoldNext(st, batch, c, workspaceId, now);
    LinkDetached(Fold(st, batch, workspaceId, now), c, workspaceId, now, id);
  }

  // Revisions

  /** Everything a revision points at is there once the change's own device is. */
  predicate RevisionFits(s: Rows, c: Change, row: Row)
    requires row.NoteRevision?
  {
    && Ref(Workspaces, row.workspaceId) in s
    && Ref(Notes, row.noteId) in s && s[Ref(Notes, row.noteId)].Owner() == row.workspaceId
    && (row.deviceId.Some? ==> Ref(Devices, row.deviceId.value) in s || row.deviceId.value == c.deviceId)
  }

  lemma RevisionFitsHere(s: Rows, c: Change, row: Row, to: Receipt)
    requires row.NoteRevision?
    ensures Fits(WithRemoteDevice(s, c.deviceId, to), row) <==> RevisionFits(s, c, row)
  {
    var here := WithRemoteDevice(s, c.deviceId, to);
    assert Ref(Workspaces, row.workspaceId) in Targets(row) && Ref(Notes, row.noteId) in Targets(row);
    assert row.deviceId.Some? ==> Ref(Devices, row.deviceId.value) in Targets(row);
  }

  /** The note with its latest revision, updated no earlier than now. */
  function NotePointed(held: Option<Row>, workspaceId: string, revisionId: string, now: int): Option<Row> {
    if held.Some? && held.value.Note? && held.value.workspaceId == workspaceId then
      Some(held.value.(currentRevisionId := Some(revisionId),
                       updatedAt := if now > held.value.updatedAt then now else held.value.updatedAt))
    else held
  }

  ghost predicate HasRevision(s: Rows, workspaceId: string, noteId: string) {
    exists r :: r in s && s[r].NoteRevision? && s[r].workspaceId == workspaceId && s[r].noteId == noteId
  }

  lemma SameLatest(s: Rows, t: Rows, w: Row)
    requires LatestRevision(s, w) && forall r: Ref :: r.table.NoteRevisions? ==> Lookup(t, r) == Lookup(s, r)
    requires Keyed(s) && Keyed(t)
    ensures LatestRevision(t, w)
  {
    forall r | r in t && t[r].NoteRevision?
      ensures r in s && s[r] == t[r]
    {
      assert t[r].PrimaryKey() == r;
    }
  }

  /** The revision is there, its note points at its latest one; without what it points
      at, or under a key another note's revision has while its own note has none, it is
      set aside. */
  ghost predicate RevisionWritten(s: State, t: State, c: Change, workspaceId: string, now: int, row: Row)
    requires row.NoteRevision?
  {
    var ref, noteRef := Ref(NoteRevisions, row.id), Ref(Notes, row.noteId);
    if (if ref in s.rows then HasRevision(s.rows, workspaceId, row.noteId) else RevisionFits(s.rows, c, row)) then
      && Landed(s, t, c, workspaceId, now, {ref, noteRef})
      && Lookup(t.rows, ref) == Some(if ref in s.rows then s.rows[ref] else row)
      && exists w :: LatestRevision(t.rows, w) && w.workspaceId == workspaceId && w.noteId == row.noteId &&
           Lookup(t.rows, noteRef) == NotePointed(Lookup(s.rows, noteRef), workspaceId, w.id, now)
    else Rejected(s, t, c, workspaceId, now)
  }

  lemma RefreshTells(s: Rows, noteId: string, to: Receipt)
    requires Keyed(s)
    ensures if HasRevision(s, to.workspaceId, noteId) then
              exists w :: LatestRevision(s, w) && w.workspaceId == to.workspaceId && w.noteId == noteId &&
                var note := NotePointed(Lookup(s, Ref(Notes, noteId)), to.workspaceId, w.id, to.now);
                Refreshed(s, noteId, to) == Success(if note.Some? then s[Ref(Notes, noteId) := note.value] else s)
            else Refreshed(s, noteId, to) == Failure(StatementFailed)
  {
    WinnerIsLatest(s, to.workspaceId, noteId);
    var w := Winner(RevisionsOf(s, to.workspaceId, noteId));
    var ref := Ref(Notes, noteId);
    if w.Some? {
      var note := NotePointed(Lookup(s, ref), to.workspaceId, w.value.id, to.now);
      assert s[Ref(NoteRevisions, w.value.id)] == w.value;
      assert note.Some? && NoteOf(s, to.workspaceId, noteId).None? ==> s[ref := note.value] == s;
    }
  }

  lemma RevisionOutcome(here: Rows, c: Change, row: Row, to: Receipt)
    requires c.entityType.NoteRevisionEntity? && c.operation.Insert? && row.NoteRevision?
    requires Tells(c.payload, row, to.workspaceId, to.changeId, to.now)
    ensures Outcome(here, c, to) ==
            if row.PrimaryKey() in here then Refreshed(here, row.noteId, to)
            else if Fits(here, row) then Refreshed(here[row.PrimaryKey() := row], row.noteId, to)
            else Failure(StatementFailed)
  {
    RevisionTold(c.payload, row, to);
  }

  lemma PointedIsKeyed(s: Rows, workspaceId: string, noteId: string, revisionId: string, now: int)
    requires Keyed(s)
    ensures var ref := Ref(Notes, noteId);
            var note := NotePointed(Lookup(s, ref), workspaceId, revisionId, now);
            (note.Some? <==> ref in s) && (note.Some? ==> Keyed(s[ref := note.value]))
  {
    assert Ref(Notes, noteId) in s ==> s[Ref(Notes, noteId)].PrimaryKey() == Ref(Notes, noteId);
  }

  /** What the refresh makes of `next`. */
  function PointedRows(next: Rows, noteId: string, workspaceId: string, revisionId: string, now: int): Rows {
    var note := NotePointed(Lookup(next, Ref(Notes, noteId)), workspaceId, revisionId, now);
    if note.Some? then next[Ref(Notes, noteId) := note.value] else next
  }

  lemma PointedLands(s: State, c: Change, workspaceId: string, now: int, next: Rows, row: Row, revisionId: string)
    requires Keyed(s.rows) && Keyed(next) && !HasChange(s.rows, c.id) && row.NoteRevision?
    requires var to := Receipt(workspaceId, c.id, now);
             var here := WithRemoteDevice(s.rows, c.deviceId, to);
             && Outcome(here, c, to) == Success(PointedRows(next, row.noteId, workspaceId, revisionId, now))
             && forall r :: r != row.PrimaryKey() ==> Lookup(next, r) == Lookup(here, r)
    ensures var t := Take(s, c, workspaceId, now);
            && Landed(s, t, c, workspaceId, now, {row.PrimaryKey(), Ref(Notes, row.noteId)})
            && Lookup(t.rows, row.PrimaryKey()) == Lookup(next, row.PrimaryKey())
            && Lookup(t.rows, Ref(Notes, row.noteId)) ==
               NotePointed(Lookup(s.rows, Ref(Notes, row.noteId)), workspaceId, revisionId, now)
  {
    var to, ref, noteRef := Receipt(workspaceId, c.id, now), row.PrimaryKey(), Ref(Notes, row.noteId);
    PointedIsKeyed(next, workspaceId, row.noteId, revisionId, now);
    HereIsKeyed(s.rows, c, to);
    var final := PointedRows(next, row.noteId, workspaceId, revisionId, now);
    SuccessLands(s, c, workspaceId, now, final, {ref, noteRef});
    assert Lookup(Take(s, c, workspaceId, now).rows, ref) == Lookup(final, ref);
    assert Lookup(Take(s, c, workspaceId, now).rows, noteRef) == Lookup(final, noteRef);
  }

  /** The revision is in `next`, where its note has revisions: the refresh points the
      note at the latest of them. */
  lemma RefreshLands(s: State, c: Change, workspaceId: string, now: int, next: Rows, row: Row) returns (w: Row)
    requires Keyed(s.rows) && Keyed(next) && !HasChange(s.rows, c.id) && row.NoteRevision?
    requires HasRevision(next, workspaceId, row.noteId)
    requires var to := Receipt(workspaceId, c.id, now);
             var here := WithRemoteDevice(s.rows, c.deviceId, to);
             && Outcome(here, c, to) == Refreshed(next, row.noteId, to)
             && forall r :: r != row.PrimaryKey() ==> Lookup(next, r) == Lookup(here, r)
    ensures LatestRevision(next, w) && w.workspaceId == workspaceId && w.noteId == row.noteId
    ensures var t := Take(s, c, workspaceId, now);
            && Landed(s, t, c, workspaceId, now, {row.PrimaryKey(), Ref(Notes, row.noteId)})
            && Lookup(t.rows, row.PrimaryKey()) == Lookup(next, row.PrimaryKey())
            && Lookup(t.rows, Ref(Notes, row.noteId)) ==
               NotePointed(Lookup(s.rows, Ref(Notes, row.noteId)), workspaceId, w.id, now)
  {
    var to := Receipt(workspaceId, c.id, now);
    RefreshTells(next, row.noteId, to);
    w :| LatestRevision(next, w) && w.workspaceId == workspaceId && w.noteId == row.noteId &&
        var note := NotePointed(Lookup(next, Ref(Notes, row.noteId)), workspaceId, w.id, now);
        Refreshed(next, row.noteId, to) ==
        Success(if note.Some? then next[Ref(Notes, row.noteId) := note.value] else next);
    PointedLands(s, c, workspaceId, now, next, row, w.id);
  }

  /** The latest revision in `next` is the latest one after the change. */
  lemma StaysLatest(s: State, c: Change, workspaceId: string, now: int, next: Rows, row: Row, w: Row)
    requires Keyed(s.rows) && Keyed(next) && LatestRevision(next, w) && row.NoteRevision?
    requires var t := Take(s, c, workspaceId, now);
             && Landed(s, t, c, workspaceId, now, {row.PrimaryKey(), Ref(Notes, row.noteId)})
             && Lookup(t.rows, row.PrimaryKey()) == Lookup(next, row.PrimaryKey())
    requires forall r: Ref :: r != row.PrimaryKey() && r.table.NoteRevisions? ==> Lookup(next, r) == Lookup(s.rows, r)
    ensures LatestRevision(Take(s, c, workspaceId, now).rows, w)
  {
    TakeIsKeyed(s, c, workspaceId, now);
    SameLatest(next, Take(s, c, workspaceId, now).rows, w);
  }

  lemma RevisionTaken(s: State, c: Change, workspaceId: string, now: int, row: Row)
    requires Keyed(s.rows) && c.entityType.NoteRevisionEntity? && c.operation.Insert? && row.NoteRevision?
    requires Tells(c.payload, row, workspaceId, c.id, now) && !HasChange(s.rows, c.id)
    ensures RevisionWritten(s, Take(s, c, workspaceId, now), c, workspaceId, now, row)
  {
    var to, ref := Receipt(workspaceId, c.id, now), row.PrimaryKey();
    var here := WithRemoteDevice(s.rows, c.deviceId, to);
    HereIsKeyed(s.rows, c, to);
    RevisionOutcome(here, c, row, to);
    RevisionFitsHere(s.rows, c, row, to);
    SameRevisionsHere(s.rows, here, workspaceId, row.noteId);
    if ref in s.rows {
      if HasRevision(s.rows, workspaceId, row.noteId) {
        var w := RefreshLands(s, c, workspaceId, now, here, row);
        StaysLatest(s, c, workspaceId, now, here, row, w);
      } else {
        RefreshTells(here, row.noteId, to);
        FailureIsRejected(s, c, workspaceId, now);
      }
    } else if RevisionFits(s.rows, c, row) {
      PutIsKeyed(here, row);
      assert here[ref := row][ref] == row;
      var w := RefreshLands(s, c, workspaceId, now, here[ref := row], row);
      StaysLatest(s, c, workspaceId, now, here[ref := row], row, w);
    } else {
      FailureIsRejected(s, c, workspaceId, now);
    }
  }

  lemma SameRevisionsHere(s: Rows, here: Rows, workspaceId: string, noteId: string)
    requires Keyed(s) && Keyed(here) && forall r: Ref :: !r.table.Devices? ==> Lookup(here, r) == Lookup(s, r)
    ensures HasRevision(here, workspaceId, noteId) <==> HasRevision(s, workspaceId, noteId)
  {
    if r :| r in s && s[r].NoteRevision? && s[r].workspaceId == workspaceId && s[r].noteId == noteId {
      assert s[r].PrimaryKey() == r && Lookup(here, r) == Lookup(s, r);
    }
    if r :| r in here && here[r].NoteRevision? && here[r].workspaceId == workspaceId && here[r].noteId == noteId {
      assert here[r].PrimaryKey() == r && Lookup(here, r) == Lookup(s, r);
    }
  }

  /** A revision from the inbox. */
  lemma RevisionLands(st: State, batch: seq<Change>, c: Change, workspaceId: string, now: int, row: Row)
    requires Keyed(st.rows) && c.entityType.NoteRevisionEntity? && c.operation.Insert? && row.NoteRevision?
    requires Tells(c.payload, row, workspaceId, c.id, now)
    requires !HasChange(Fold(st, batch, workspaceId, now).rows, c.id)
    ensures RevisionWritten(Fold(st, batch, workspaceId, now), Fold(st, batch + [c], workspaceId, now), c, workspaceId,
                            now, row)
  {
    FoldIsKeyed(st, batch, workspaceId, now);
    FoldNext(st, batch, c, workspaceId, now);
    RevisionTaken(Fold(st, batch, workspaceId, now), c, workspaceId, now, row);
  }

  // What is left

  lemma HopelessTaken(s: State, c: Change, workspaceId: string, now: int, reason: Rejection)
    requires Keyed(s.rows) && !HasChange(s.rows, c.id)
    requires if c.payload.Malformed? then reason == InvalidJson
             else StatementFor(c, Receipt(workspaceId, c.id, now)) == Failure(reason)
    ensures SetAsideFor(s, Take(s, c, workspaceId, now), c, workspaceId, now, reason)
  {
    var to := Receipt(workspaceId, c.id, now);
    assert Outcome(WithRemoteDevice(s.rows, c.deviceId, to), c, to) == Failure(reason);
  }

  /** A change that is no JSON, or of a kind nothing is done about, is set aside for that
      reason; a readable one is not. */
  lemma UnreadableLands(st: State, batch: seq<Change>, c: Change, workspaceId: string, now: int)
    requires Keyed(st.rows) && !HasChange(Fold(st, batch, workspaceId, now).rows, c.id)
    requires c.payload.Malformed? ||
             (c.entityType, c.operation) !in {
               (FieldEntity, Insert), (TagEntity, Insert), (NoteEntity, Insert), (NoteEntity, Update),
               (NoteEntity, Delete), (NoteEntity, Restore), (NoteRevisionEntity, Insert), (NoteTagEntity, Attach),
               (NoteTagEntity, Detach), (NoteLinkEntity, Attach), (NoteLinkEntity, Detach)}
    ensures SetAsideFor(Fold(st, batch, workspaceId, now), Fold(st, batch + [c], workspaceId, now), c, workspaceId, now,
                        if c.payload.Malformed? then InvalidJson else Unsupported(c.entityType, c.operation))
  {
    FoldIsKeyed(st, batch, workspaceId, now);
    FoldNext(st, batch, c, workspaceId, now);
    HopelessTaken(Fold(st, batch, workspaceId, now), c, workspaceId, now,
                  if c.payload.Malformed? then InvalidJson else Unsupported(c.entityType, c.operation));
  }

  /** Every readable change is one of the kinds above, and its payload tells of a row or
      names a link. */
  lemma ReadableIsTold(c: Change, to: Receipt) returns (row: Row)
    requires !c.payload.Malformed? && StatementFor(c, to).Success? && to.changeId == c.id
    ensures if c.entityType.NoteLinkEntity? && c.operation.Detach? then
              c.payload.Object? && Id in c.payload.members && c.payload.members[Id].Text? &&
                  HasText(c.payload, Id, c.payload.members[Id].text)
            else
              && Tells(c.payload, row, to.workspaceId, c.id, to.now)
              && (Inserts(c, row) || (WritesNote(c) && row.Note?) ||
                  (c.entityType.NoteRevisionEntity? && c.operation.Insert? && row.NoteRevision?) ||
                  (c.entityType.NoteTagEntity? && c.operation.Detach? && row.NoteTag?))
  {
    if c.entityType.NoteLinkEntity? && c.operation.Detach? {
      row := ChangeRow(c);
    } else {
      row := if c.entityType.FieldEntity? then ParseField(c.payload, to).value
      else if c.entityType.TagEntity? then ParseTag(c.payload, to).value
      else if c.entityType.NoteEntity? then ParseNote(c.payload, to).value
      else if c.entityType.NoteRevisionEntity? then ParseNoteRevision(c.payload, to).value
      else if c.entityType.NoteTagEntity? then ParseNoteTag(c.payload, to).value
      else ParseNoteLink(c.payload, to).value;
    }
  }
}
