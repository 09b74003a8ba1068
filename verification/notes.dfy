/** Notes: created, updated, archived and deleted, each call one transaction over
    tables and log. */
module Notes {
  import opened Base
  import opened Tables
  import opened Payloads
  import opened ForeignKeys
  import opened Ledger
  import opened Database
  import opened Taxonomy
  import opened Growth
  import opened NoteTagging
  import opened NoteLinking
  import TagPaths

  datatype CreateNoteInput = CreateNoteInput(
    content: string, field: Option<string>, tags: seq<string>, role: string, deviceId: Option<string>,
    links: seq<NoteLinkInput>)

  datatype UpdateNoteInput = UpdateNoteInput(
    content: string, deviceId: Option<string>, field: Option<string>, tags: Option<seq<string>>,
    links: Option<seq<NoteLinkInput>>)

  datatype CreatedNote = CreatedNote(note: Row, field: Option<string>, tags: seq<string>, links: seq<Row>)

  function NoteInput(note: Row, operation: Operation): SyncChangeInput
    requires note.Note?
  {
    SyncChangeInput(note.workspaceId, NoteEntity, note.id, operation, None, note.currentRevisionId, NotePayload(note))
  }

  function RevisionInput(revision: Row, base: Option<string>): SyncChangeInput
    requires revision.NoteRevision?
  {
    SyncChangeInput(revision.workspaceId, NoteRevisionEntity, revision.id, Insert, base, Some(revision.id),
                    NoteRevisionPayload(revision, base))
  }

  // Frames

  /** Only default devices were added. */
  ghost predicate OnlyDevices(s: Rows, t: Rows) {
    Kept(s, t) && forall r <- t :: r in s || r.table.Devices?
  }

  lemma DeviceOnly(defaults: Defaults, s: Rows, workspaceId: string, now: int)
    ensures OnlyDevices(s, WithDevice(defaults, s, workspaceId, now))
  {
  }

  lemma DevicesChangeNothing(s: Rows, t: Rows, workspaceId: string, noteId: string)
    requires OnlyDevices(s, t) && Keyed(t)
    ensures TagIds(t, workspaceId, noteId) == TagIds(s, workspaceId, noteId)
    ensures LinksFrom(t, workspaceId, noteId) == LinksFrom(s, workspaceId, noteId)
    ensures OnlyLinking(s, t, workspaceId, noteId) && OnlyTagging(s, t, workspaceId, noteId)
    ensures forall id :: NoteIn(s, workspaceId, id) ==> NoteIn(t, workspaceId, id)
  {
    forall r | r in t && (IsRelationOf(t[r], workspaceId, noteId) || IsLinkFrom(t[r], workspaceId, noteId))
      ensures r in s
    {
      assert t[r].PrimaryKey() == r;
    }
    forall id | id in TagIds(s, workspaceId, noteId)
      ensures id in TagIds(t, workspaceId, noteId)
    {
      var r :| r in s && s[r].NoteTag? && s[r].workspaceId == workspaceId && s[r].noteId == noteId && s[r].tagId == id;
      assert r in t && t[r] == s[r];
    }
  }

  lemma TaggingKeepsFaces(s: Rows, t: Rows, workspaceId: string, noteId: string)
    requires OnlyTagging(s, t, workspaceId, noteId) && Keyed(t)
    ensures SameFaces(s, t)
  {
    forall r
      ensures Face(t, r) == Face(s, r)
    {
      assert r in t ==> t[r].PrimaryKey() == r;
    }
  }

  lemma FieldsKeepFaces(s: Rows, t: Rows)
    requires Kept(s, t) && Keyed(t) && forall x <- t :: x in s || x.table.Devices? || x.table.Fields?
    ensures SameFaces(s, t)
  {
    forall r
      ensures Face(t, r) == Face(s, r)
    {
      assert r in t ==> t[r].PrimaryKey() == r;
    }
  }

  /** The row belongs to the note: itself, its revision, its field, a tag relation or
      an outgoing link. */
  predicate PartOf(row: Row, note: Row)
    requires note.Note?
  {
    || row == note || (row.NoteRevision? && note.currentRevisionId == Some(row.id))
    || (row.Field? && note.fieldId == Some(row.id))
    || IsRelationOf(row, note.workspaceId, note.id) || IsLinkFrom(row, note.workspaceId, note.id)
  }

  /** What is new belongs to the note, tags and default devices aside. */
  ghost predicate OnlyPartsOf(s: Rows, t: Rows, note: Row)
    requires note.Note?
  {
    forall r <- t :: r in s || r.table.Devices? || t[r].Tag? || PartOf(t[r], note)
  }

  /** What is new are tag relations and links of one note, tags and default devices aside. */
  ghost predicate OnlyDress(s: Rows, t: Rows, workspaceId: string, noteId: string) {
    forall r <- t ::
      r in s || r.table.Devices? || t[r].Tag? || IsRelationOf(t[r], workspaceId, noteId) ||
      IsLinkFrom(t[r], workspaceId, noteId)
  }

  lemma TagsThenLinks(s: Rows, t: Rows, u: Rows, workspaceId: string, noteId: string)
    requires OnlyTagging(s, t, workspaceId, noteId) && OnlyLinking(t, u, workspaceId, noteId)
    ensures OnlyDress(s, u, workspaceId, noteId)
  {
    forall r | r in u && r !in s && !r.table.Devices? && !IsLinkFrom(u[r], workspaceId, noteId)
      ensures u[r].Tag? || IsRelationOf(u[r], workspaceId, noteId)
    {
      assert Lookup(t, r) == Some(u[r]);
    }
  }

  lemma DevicesAreDress(s: Rows, t: Rows, u: Rows, workspaceId: string, noteId: string)
    requires OnlyDress(s, t, workspaceId, noteId) && OnlyDevices(t, u)
    ensures OnlyDress(s, u, workspaceId, noteId)
  {
    forall r | r in u && r in t
      ensures u[r] == t[r]
    {
    }
  }

  lemma DressIsPart(s: Rows, t: Rows, u: Rows, note: Row)
    requires note.Note? && OnlyPartsOf(s, t, note) && Kept(t, u) && OnlyDress(t, u, note.workspaceId, note.id)
    ensures OnlyPartsOf(s, u, note)
  {
    forall r | r in u && r in t
      ensures u[r] == t[r]
    {
    }
  }

  lemma StartIsPart(s: Rows, t: Rows, note: Row, revision: Row)
    requires note.Note? && revision.NoteRevision? && note.currentRevisionId == Some(revision.id) && Keyed(t)
    requires forall x <- t :: x in s || x.table.Devices? || (x.table.Fields? && note.fieldId == Some(x.key))
    ensures OnlyPartsOf(s, t[note.PrimaryKey() := note][revision.PrimaryKey() := revision], note)
  {
    forall r | r in t && r.table.Fields?
      ensures t[r].Field? && t[r].id == r.key
    {
      assert t[r].PrimaryKey() == r;
    }
  }

  // What a note needs

  /** A field of that name is asked for and not there yet. */
  ghost predicate FieldIsNew(s: Rows, workspaceId: string, name: Option<string>) {
    name.Some? && forall x <- s :: !FieldAt(s, x, workspaceId, name.value)
  }

  /** The device is known, or it is the default device, which recording a new field
      brings in. */
  ghost predicate DeviceReady(defaults: Defaults, s: Rows, workspaceId: string, name: Option<string>,
                              deviceId: Option<string>)
  {
    DeviceKnown(s, deviceId) ||
        (FieldIsNew(s, workspaceId, name) && deviceId == Some(DefaultDeviceId(defaults, workspaceId)))
  }

  /** The ids made up once the field is there: a new field takes one, its change another. */
  ghost function IssuedForField(mint: set<string> -> string, issued: set<string>, isNew: bool): set<string> {
    if isNew then issued + {mint(issued), mint(issued + {mint(issued)})} else issued
  }

  predicate AllNamed(names: seq<string>) {
    forall i | 0 <= i < |names| :: TagPaths.NamesTag(names[i])
  }

  /** Every reference means one visible note, and none of them the new one as well. */
  ghost predicate LinkableFromNew(s: Rows, workspaceId: string, noteId: string, links: seq<NoteLinkInput>) {
    forall i | 0 <= i < |links| ::
      Resolution(s, workspaceId, links[i].targetNoteRef).None? && !StartsWith(noteId, links[i].targetNoteRef)
  }

  /** When a note can be created. */
  ghost predicate CanCreate(defaults: Defaults, mint: set<string> -> string, s: Rows, issued: set<string>,
                            workspaceId: string, input: CreateNoteInput)
  {
    && Ref(Workspaces, workspaceId) in s && DeviceReady(defaults, s, workspaceId, input.field, input.deviceId)
    && AllNamed(input.tags)
    && LinkableFromNew(s, workspaceId, mint(IssuedForField(mint, issued, FieldIsNew(s, workspaceId, input.field))),
                       input.links)
  }

  /** When a visible note can be updated. */
  ghost predicate CanUpdate(defaults: Defaults, s: Rows, workspaceId: string, noteId: string, input: UpdateNoteInput) {
    && DeviceReady(defaults, s, workspaceId, input.field, input.deviceId)
    && (input.tags.Some? ==> AllNamed(input.tags.value))
    && (input.links.Some? ==> AllLinkable(s, workspaceId, noteId, input.links.value, |input.links.value|))
  }

  // Recording notes and revisions

  lemma NoteIsTruthful(s: Rows, journal: seq<Change>, note: Row, operation: Operation)
    requires Tabular(s) && Resolves(s) && note.Note? && Lookup(s, note.PrimaryKey()) == Some(note)
    ensures Truthful(s, journal, NoteInput(note, operation))
  {
    var input := NoteInput(note, operation);
    assert Described(s, input.Subject());
    forall r | r in s && IsLogged(s[r]) && s[r].Subject() == input.Subject()
      ensures Matches(journal, input.payload, s[r])
    {
      SubjectsAreDistinct(s, r, note.PrimaryKey());
    }
  }

  lemma RevisionIsTruthful(s: Rows, journal: seq<Change>, revision: Row, base: Option<string>)
    requires Tabular(s) && Resolves(s) && revision.NoteRevision? && Lookup(s, revision.PrimaryKey()) == Some(revision)
    ensures Truthful(s, journal, RevisionInput(revision, base))
  {
    var input := RevisionInput(revision, base);
    assert Described(s, input.Subject());
    forall r | r in s && IsLogged(s[r]) && s[r].Subject() == input.Subject()
      ensures Matches(journal, input.payload, s[r])
    {
      SubjectsAreDistinct(s, r, revision.PrimaryKey());
    }
  }

  method RecordNote(db: Database, note: Row, operation: Operation, now: int, ghost pending: set<Entity>)
    returns (id: string)
    requires note.Note? && db.Good(pending + {note.Subject()}) && Lookup(db.rows, note.PrimaryKey()) == Some(note)
    modifies db
    ensures db.Good(pending) && old(db.issued) <= db.issued
    ensures OnlyDevices(old(db.rows), db.rows)
    ensures db.journal == old(db.journal) + [NoteInput(note, operation).Recorded(db.defaults, id, now)]
  {
    ghost var s, journal, issued := db.rows, db.journal, db.issued;
    NoteIsTruthful(s, journal, note, operation);
    WorkspaceOfNote(s, note.workspaceId, note.id);
    assert NoteInput(note, operation).Subject() == note.Subject();
    id := db.RecordSyncChange(NoteInput(note, operation), now);
    SettlingStep(db.defaults, s, journal, issued, pending, NoteInput(note, operation), id, now);
    DeviceOnly(db.defaults, s, note.workspaceId, now);
  }

  method RecordRevision(db: Database, revision: Row, base: Option<string>, now: int, ghost pending: set<Entity>)
    returns (id: string)
    requires revision.NoteRevision? && db.Good(pending + {revision.Subject()})
    requires Lookup(db.rows, revision.PrimaryKey()) == Some(revision)
    modifies db
    ensures db.Good(pending) && old(db.issued) <= db.issued
    ensures OnlyDevices(old(db.rows), db.rows)
    ensures db.journal == old(db.journal) + [RevisionInput(revision, base).Recorded(db.defaults, id, now)]
  {
    ghost var s, journal, issued := db.rows, db.journal, db.issued;
    RevisionIsTruthful(s, journal, revision, base);
    RevisionWorkspace(s, revision);
    assert RevisionInput(revision, base).Subject() == revision.Subject();
    id := db.RecordSyncChange(RevisionInput(revision, base), now);
    SettlingStep(db.defaults, s, journal, issued, pending, RevisionInput(revision, base), id, now);
    DeviceOnly(db.defaults, s, revision.workspaceId, now);
  }

  lemma RevisionWorkspace(s: Rows, revision: Row)
    requires Resolves(s) && revision.NoteRevision? && Lookup(s, revision.PrimaryKey()) == Some(revision)
    ensures Ref(Workspaces, revision.workspaceId) in s
  {
    assert Resolved(s, s[revision.PrimaryKey()]) && Ref(Workspaces, revision.workspaceId) in Targets(revision);
  }

  // Creating

  predicate FieldOf(s: Rows, workspaceId: string, fieldId: Option<string>) {
    fieldId.Some? ==> Ref(Fields, fieldId.value) in s && s[Ref(Fields, fieldId.value)].Owner() == workspaceId
  }

  predicate DeviceKnown(s: Rows, deviceId: Option<string>) {
    deviceId.Some? ==> Ref(Devices, deviceId.value) in s
  }

  lemma NoteAnchors(s: Rows, note: Row)
    requires note.Note? && FieldOf(s, note.workspaceId, note.fieldId)
    ensures Resolved(s, note) <==> Ref(Workspaces, note.workspaceId) in s
  {
    assert Ref(Workspaces, note.workspaceId) in Targets(note);
  }

  lemma RevisionAnchors(s: Rows, revision: Row)
    requires revision.NoteRevision? && NoteIn(s, revision.workspaceId, revision.noteId)
    requires Ref(Workspaces, revision.workspaceId) in s
    ensures Resolved(s, revision) <==> DeviceKnown(s, revision.deviceId)
  {
    if revision.deviceId.Some? {
      assert Ref(Devices, revision.deviceId.value) in Targets(revision);
    }
  }

  /** Ids made up now name no row yet. */
  lemma FreshIds(s: Rows, journal: seq<Change>, issued: set<string>, more: set<string>)
    requires Consistent(s, journal, issued, {}) && issued <= more && forall id <- more :: IsHex(id)
    ensures Consistent(s, journal, more, {})
    ensures forall id, t | id !in issued && IsMinted(t) :: Ref(t, id) !in s
  {
    IssueStep(s, journal, issued, {}, more);
  }

  /** The row a new note starts with. */
  function NewNote(id: string, workspaceId: string, input: CreateNoteInput, fieldId: Option<string>,
                   revisionId: string, now: int): Row
  {
    Note(id, workspaceId, input.content, input.role, fieldId, now, now, None, None, Some(revisionId), None, NO_CONFLICT)
  }

  function NewRevision(id: string, workspaceId: string, noteId: string, content: string, deviceId: Option<string>,
                       now: int): Row
  {
    NoteRevision(id, workspaceId, noteId, content, None, deviceId, now, None, None)
  }

  function Two(a: Row, b: Row): set<Entity> {
    {a.Subject(), b.Subject()}
  }

  /** Inserts a new note and its first revision; both are recorded later. */
  method InsertNote(db: Database, workspaceId: string, input: CreateNoteInput, fieldId: Option<string>, now: int)
    returns (r: Result<(Row, Row), TaxonomyError>)
    requires db.Minting() && FieldOf(db.rows, workspaceId, fieldId)
    modifies db`rows, db`issued
    ensures db.Minting() && old(db.issued) <= db.issued
    ensures r.Success? <==> Ref(Workspaces, workspaceId) in old(db.rows) && DeviceKnown(old(db.rows), input.deviceId)
    ensures r.Success? ==>
              var (note, revision) := r.value;
              && note.Note? && revision.NoteRevision?
              && note == NewNote(note.id, workspaceId, input, fieldId, revision.id, now)
              && revision == NewRevision(revision.id, workspaceId, note.id, input.content, input.deviceId, now)
              && note.id == db.mint(old(db.issued)) && note.id !in old(db.issued)
              && revision.id !in old(db.issued) + {note.id}
              && db.issued == old(db.issued) + {note.id} + {revision.id}
              && Resolved(old(db.rows), note) && Resolved(old(db.rows)[note.PrimaryKey() := note], revision)
              && db.rows == old(db.rows)[note.PrimaryKey() := note][revision.PrimaryKey() := revision]
  {
    ghost var s := db.rows;
    var noteId := db.NewId();
    var revisionId := db.NewId();
    var note := NewNote(noteId, workspaceId, input, fieldId, revisionId, now);
    var revision := NewRevision(revisionId, workspaceId, noteId, input.content, input.deviceId, now);
    NoteAnchors(s, note);
    var ok := db.Insert(note);
    if !ok {
      return Failure(ForeignKeyFailed);
    }
    RevisionAnchors(db.rows, revision);
    ok := db.Insert(revision);
    r := if ok then Success((note, revision)) else Failure(ForeignKeyFailed);
  }

  lemma NoteAndRevisionInserted(s: Rows, journal: seq<Change>, issued: set<string>, note: Row, revision: Row,
                                more: set<string>)
    requires Consistent(s, journal, issued, {}) && note.Note? && revision.NoteRevision?
    requires note.id !in issued && IsHex(note.id) && revision.id !in issued + {note.id} && IsHex(revision.id)
    requires Resolved(s, note) && Resolved(s[note.PrimaryKey() := note], revision)
    requires more == issued + {note.id} + {revision.id}
    ensures note.PrimaryKey() !in s && revision.PrimaryKey() !in s && NotesPending(Two(note, revision))
    ensures Consistent(s[note.PrimaryKey() := note][revision.PrimaryKey() := revision], journal, more,
                       Two(note, revision))
  {
    FreshIds(s, journal, issued, more);
    InsertStep(s, journal, more, {}, note);
    InsertStep(s[note.PrimaryKey() := note], journal, more, {} + {note.Subject()}, revision);
    assert {} + {note.Subject()} + {revision.Subject()} == Two(note, revision);
  }

  /** The note has the field of that name, or none. */
  predicate FieldNamed(s: Rows, workspaceId: string, name: Option<string>, fieldId: Option<string>) {
    match (name, fieldId)
    case (None, None) => true
    case (Some(n), Some(f)) => FieldAt(s, Ref(Fields, f), workspaceId, n)
    case _ => false
  }

  /** A note nothing points at yet. */
  lemma NewNoteIsBare(s: Rows, workspaceId: string, note: Row, revision: Row)
    requires Tabular(s) && Resolves(s) && note.Note? && revision.NoteRevision? && note.PrimaryKey() !in s
    ensures var t := s[note.PrimaryKey() := note][revision.PrimaryKey() := revision];
            TagIds(t, workspaceId, note.id) == {} && LinksFrom(t, workspaceId, note.id) == {}
  {
    var t := s[note.PrimaryKey() := note][revision.PrimaryKey() := revision];
    forall r | r in t
      ensures !IsRelationOf(t[r], workspaceId, note.id) && !IsLinkFrom(t[r], workspaceId, note.id)
    {
      if r in s {
        assert Resolved(s, s[r]);
        if s[r].NoteTag? {
          RelationTargets(s[r]);
        }
        assert s[r].NoteLink? ==> Ref(Notes, s[r].sourceNoteId) in Targets(s[r]);
      }
    }
  }

  lemma FieldGrowth(defaults: Defaults, s: Rows, journal: seq<Change>, field: Row, id: string, now: int)
    requires field.Field? && field.PrimaryKey() !in s
    ensures Grown(s, journal, WithDevice(defaults, s[field.PrimaryKey() := field], field.workspaceId, now),
                  journal + [FieldInput(field, Insert).Recorded(defaults, id, now)], field.workspaceId)
  {
    OneRowGrown(defaults, s, journal, field, FieldInput(field, Insert), id, now);
  }

  /** The field a note asks for, created when missing. */
  method ResolveField(db: Database, workspaceId: string, name: Option<string>, now: int, ghost pending: set<Entity>)
    returns (r: Result<Option<string>, TaxonomyError>)
    requires db.Good(pending)
    modifies db
    ensures db.Good(pending) && old(db.issued) <= db.issued
    ensures r.Failure? <==> name.Some? && Ref(Workspaces, workspaceId) !in old(db.rows)
    ensures r.Success? ==> FieldNamed(db.rows, workspaceId, name, r.value)
    ensures Grown(old(db.rows), old(db.journal), db.rows, db.journal, workspaceId)
    ensures forall x <- db.rows ::
              x in old(db.rows) || x.table.Devices? || (x.table.Fields? && r.Success? && r.value == Some(x.key))
    ensures r.Success? ==>
              && db.issued == IssuedForField(db.mint, old(db.issued), FieldIsNew(old(db.rows), workspaceId, name))
              && forall d :: DeviceKnown(db.rows, d) <==> DeviceReady(db.defaults, old(db.rows), workspaceId, name, d)
  {
    NotGrown(db.rows, db.journal, workspaceId);
    if name.None? {
      return Success(None);
    }
    ghost var s, journal, issued := db.rows, db.journal, db.issued;
    var field := GetOrCreateField(db, workspaceId, name.value, now, pending);
    if field.Failure? {
      return Failure(field.error);
    }
    if field.value.PrimaryKey() !in s {
      FieldGrowth(db.defaults, s, journal, field.value, db.mint(issued + {field.value.id}), now);
    }
    r := Success(Some(field.value.id));
  }

  /** The rows a new note consists of are there, tags and links still to come. */
  ghost predicate Started(s: Rows, journal: seq<Change>, t: Rows, later: seq<Change>, workspaceId: string,
                          input: CreateNoteInput, now: int, note: Row, revision: Row)
  {
    && note.Note? && revision.NoteRevision?
    && note == NewNote(note.id, workspaceId, input, note.fieldId, revision.id, now)
    && revision == NewRevision(revision.id, workspaceId, note.id, input.content, input.deviceId, now)
    && note.PrimaryKey() !in s && revision.PrimaryKey() !in s
    && Lookup(t, note.PrimaryKey()) == Some(note) && Lookup(t, revision.PrimaryKey()) == Some(revision)
    && FieldNamed(t, workspaceId, input.field, note.fieldId)
    && TagIds(t, workspaceId, note.id) == {} && LinksFrom(t, workspaceId, note.id) == {}
    && GrownOwing(s, journal, t, later, workspaceId, 2) && OnlyPartsOf(s, t, note)
  }

  lemma NoteStarted(s: Rows, a: seq<Change>, t: Rows, b: seq<Change>, workspaceId: string, input: CreateNoteInput,
                    now: int, note: Row, revision: Row)
    requires note.Note? && revision.NoteRevision? && Tabular(t) && Resolves(t)
    requires Grown(s, a, t, b, workspaceId) && FieldNamed(t, workspaceId, input.field, note.fieldId)
    requires note == NewNote(note.id, workspaceId, input, note.fieldId, revision.id, now)
    requires revision == NewRevision(revision.id, workspaceId, note.id, input.content, input.deviceId, now)
    requires note.PrimaryKey() !in t && revision.PrimaryKey() !in t
    requires forall x <- t :: x in s || x.table.Devices? || (x.table.Fields? && note.fieldId == Some(x.key))
    ensures Started(s, a, t[note.PrimaryKey() := note][revision.PrimaryKey() := revision], b, workspaceId, input, now,
                    note, revision)
  {
    NewNoteIsBare(t, workspaceId, note, revision);
    StartIsPart(s, t, note, revision);
    OweOneMore(s, a, t, b, workspaceId, 0, note);
    OweOneMore(s, a, t[note.PrimaryKey() := note], b, workspaceId, 1, revision);
  }

  /** One note is new; references see every other note as before. */
  ghost predicate OneNewFace(s: Rows, t: Rows, note: Row)
    requires note.Note?
  {
    && Face(s, note.PrimaryKey()).None? && Face(t, note.PrimaryKey()) == Some((note.workspaceId, note.id))
    && forall r {:trigger Face(t, r)} :: r != note.PrimaryKey() ==> Face(t, r) == Face(s, r)
  }

  lemma NewFace(s: Rows, t: Rows, note: Row, revision: Row)
    requires note.Note? && note.Visible() && revision.NoteRevision? && Kept(s, t) && Keyed(t) && note.PrimaryKey() !in t
    requires forall x <- t :: x in s || x.table.Devices? || x.table.Fields?
    ensures OneNewFace(s, t[note.PrimaryKey() := note][revision.PrimaryKey() := revision], note)
  {
    var u := t[note.PrimaryKey() := note][revision.PrimaryKey() := revision];
    FieldsKeepFaces(s, t);
    forall r | r != note.PrimaryKey()
      ensures Face(u, r) == Face(s, r)
    {
      assert Face(t, r) == Face(s, r);
      assert r in t ==> t[r].PrimaryKey() == r;
    }
    assert Face(t, note.PrimaryKey()) == Face(s, note.PrimaryKey());
  }

  /** With the new note there, a reference means another note exactly if it meant
      one before and does not mean the new note too. */
  lemma LinkableBesideNew(s: Rows, t: Rows, note: Row, noteRef: string)
    requires note.Note? && OneNewFace(s, t, note)
    ensures Linkable(t, note.workspaceId, note.id, noteRef) <==>
            Resolution(s, note.workspaceId, noteRef).None? && !StartsWith(note.id, noteRef)
  {
    var before, after, ref :=
        Candidates(s, note.workspaceId, noteRef), Candidates(t, note.workspaceId, noteRef), note.PrimaryKey();
    forall r
      ensures r in after <==> r in before || (r == ref && StartsWith(note.id, noteRef))
    {
      assert r != ref ==> Face(t, r) == Face(s, r);
      assert Face(s, ref).None? && Face(t, ref).Some?;
    }
    assert ref !in before by {
      assert Face(s, ref).None?;
    }
    if StartsWith(note.id, noteRef) {
      assert after == before + {ref};
    } else {
      assert after == before;
    }
  }

  lemma LinksBesideNew(s: Rows, t: Rows, note: Row, links: seq<NoteLinkInput>)
    requires note.Note? && OneNewFace(s, t, note)
    ensures AllLinkable(t, note.workspaceId, note.id, links, |links|) <==>
            LinkableFromNew(s, note.workspaceId, note.id, links)
  {
    forall i | 0 <= i < |links|
      ensures Linkable(t, note.workspaceId, note.id, links[i].targetNoteRef) <==>
              Resolution(s, note.workspaceId, links[i].targetNoteRef).None? &&
                  !StartsWith(note.id, links[i].targetNoteRef)
    {
      LinkableBesideNew(s, t, note, links[i].targetNoteRef);
    }
  }

  /** The note and its first revision, on the field already resolved. */
  method InsertStarted(db: Database, workspaceId: string, input: CreateNoteInput, fieldId: Option<string>, now: int,
                       ghost s: Rows, ghost journal: seq<Change>)
    returns (r: Result<(Row, Row), TaxonomyError>)
    requires db.Good({}) && FieldNamed(db.rows, workspaceId, input.field, fieldId)
    requires Grown(s, journal, db.rows, db.journal, workspaceId)
    requires forall x <- db.rows :: x in s || x.table.Devices? || (x.table.Fields? && fieldId == Some(x.key))
    modifies db`rows, db`issued
    ensures db.Minting() && old(db.issued) <= db.issued
    ensures r.Success? ==> db.Good(Two(r.value.0, r.value.1))
    ensures r.Success? ==> Started(s, journal, db.rows, db.journal, workspaceId, input, now, r.value.0, r.value.1)
    ensures r.Success? <==> Ref(Workspaces, workspaceId) in old(db.rows) && DeviceKnown(old(db.rows), input.deviceId)
    ensures r.Success? ==>
              && var (note, revision) := r.value;
              && note.Note? && revision.NoteRevision? && note.id == db.mint(old(db.issued)) &&
                 note.PrimaryKey() !in old(db.rows)
              && db.rows == old(db.rows)[note.PrimaryKey() := note][revision.PrimaryKey() := revision]
  {
    ghost var t, issued := db.rows, db.issued;
    r := InsertNote(db, workspaceId, input, fieldId, now);
    if r.Success? {
      var (note, revision) := r.value;
      NoteAndRevisionInserted(t, db.journal, issued, note, revision, db.issued);
      NoteStarted(s, journal, t, db.journal, workspaceId, input, now, note, revision);
    }
  }

  method StartNote(db: Database, workspaceId: string, input: CreateNoteInput, now: int)
    returns (r: Result<(Row, Row), TaxonomyError>)
    requires db.Good({})
    modifies db
    ensures db.Minting() && old(db.issued) <= db.issued
    ensures r.Success? ==> db.Good(Two(r.value.0, r.value.1))
    ensures r.Success? ==>
              Started(old(db.rows), old(db.journal), db.rows, db.journal, workspaceId, input, now, r.value.0, r.value.1)
    ensures r.Success? <==>
              Ref(Workspaces, workspaceId) in old(db.rows) &&
              DeviceReady(db.defaults, old(db.rows), workspaceId, input.field, input.deviceId)
    ensures r.Success? ==>
              && r.value.0.Note? && OneNewFace(old(db.rows), db.rows, r.value.0)
              && r.value.0.id ==
                 db.mint(IssuedForField(db.mint, old(db.issued), FieldIsNew(old(db.rows), workspaceId, input.field)))
  {
    ghost var s, journal := db.rows, db.journal;
    var field := ResolveField(db, workspaceId, input.field, now, {});
    if field.Failure? {
      return Failure(field.error);
    }
    ghost var t := db.rows;
    WorkspacesStayed(s, t, workspaceId);
    r := InsertStarted(db, workspaceId, input, field.value, now, s, journal);
    if r.Success? {
      NewFace(s, t, r.value.0, r.value.1);
    }
  }

  lemma WorkspacesStayed(s: Rows, t: Rows, workspaceId: string)
    requires Kept(s, t) && forall x <- t :: x in s || x.table.Devices? || x.table.Fields?
    ensures Ref(Workspaces, workspaceId) in t <==> Ref(Workspaces, workspaceId) in s
  {
  }

  /** The tag has one of the paths. */
  ghost predicate Labelled(s: Rows, workspaceId: string, id: string, paths: seq<string>) {
    exists i | 0 <= i < |paths| :: TagAt(s, Ref(Tags, id), workspaceId, paths[i])
  }

  ghost predicate PathTaken(s: Rows, workspaceId: string, path: string) {
    exists id :: TagAt(s, Ref(Tags, id), workspaceId, path)
  }

  /** The tags on the note are exactly those with the given paths, and every path
      has one; no tag has an empty path, so a string that names none cannot be
      among them. */
  ghost predicate HasTags(s: Rows, workspaceId: string, noteId: string, paths: seq<string>) {
    && (forall id :: id in TagIds(s, workspaceId, noteId) <==> Labelled(s, workspaceId, id, paths))
    && (forall i | 0 <= i < |paths| :: PathTaken(s, workspaceId, paths[i]))
  }

  ghost predicate SameTags(s: Rows, t: Rows) {
    forall id, workspaceId, path {:trigger TagAt(t, Ref(Tags, id), workspaceId, path)} ::
      TagAt(t, Ref(Tags, id), workspaceId, path) <==> TagAt(s, Ref(Tags, id), workspaceId, path)
  }

  lemma LabelStays(s: Rows, t: Rows, workspaceId: string, id: string, paths: seq<string>)
    requires SameTags(s, t)
    ensures Labelled(t, workspaceId, id, paths) == Labelled(s, workspaceId, id, paths)
  {
    if i :| 0 <= i < |paths| && TagAt(s, Ref(Tags, id), workspaceId, paths[i]) {
      assert TagAt(t, Ref(Tags, id), workspaceId, paths[i]);
    }
    if i :| 0 <= i < |paths| && TagAt(t, Ref(Tags, id), workspaceId, paths[i]) {
      assert TagAt(s, Ref(Tags, id), workspaceId, paths[i]);
    }
  }

  lemma SameTagsStay(s: Rows, t: Rows, workspaceId: string, noteId: string, paths: seq<string>)
    requires SameTags(s, t) && HasTags(s, workspaceId, noteId, paths)
    requires TagIds(t, workspaceId, noteId) == TagIds(s, workspaceId, noteId)
    ensures HasTags(t, workspaceId, noteId, paths)
  {
    forall id
      ensures Labelled(t, workspaceId, id, paths) == Labelled(s, workspaceId, id, paths)
    {
      LabelStays(s, t, workspaceId, id, paths);
    }
    forall i | 0 <= i < |paths|
      ensures PathTaken(t, workspaceId, paths[i])
    {
      assert PathTaken(s, workspaceId, paths[i]);
      var id :| TagAt(s, Ref(Tags, id), workspaceId, paths[i]);
      assert TagAt(t, Ref(Tags, id), workspaceId, paths[i]);
    }
  }

  lemma TagsByPath(s: Rows, workspaceId: string, noteId: string, paths: seq<string>, tags: seq<Row>)
    requires Forest(s) && |tags| == |paths| && AreTagsOf(s, workspaceId, paths, tags)
    requires TagIds(s, workspaceId, noteId) == Ids(tags)
    ensures HasTags(s, workspaceId, noteId, paths)
  {
    forall id
      ensures id in Ids(tags) <==> Labelled(s, workspaceId, id, paths)
    {
      if id in Ids(tags) {
        var i :| 0 <= i < |tags| && tags[i].id == id;
        assert TagAt(s, Ref(Tags, id), workspaceId, paths[i]);
      }
      if i :| 0 <= i < |paths| && TagAt(s, Ref(Tags, id), workspaceId, paths[i]) {
        assert TagAt(s, Ref(Tags, tags[i].id), workspaceId, paths[i]);
        assert TagAt(s, Ref(Tags, id), s[Ref(Tags, tags[i].id)].workspaceId, s[Ref(Tags, tags[i].id)].path);
        assert tags[i] in tags;
      }
    }
    forall i | 0 <= i < |paths|
      ensures PathTaken(s, workspaceId, paths[i])
    {
      assert TagAt(s, Ref(Tags, tags[i].id), workspaceId, paths[i]);
    }
  }

  lemma LinkingKeepsTags(s: Rows, t: Rows, workspaceId: string, noteId: string, paths: seq<string>, tags: seq<Row>)
    requires OnlyLinking(s, t, workspaceId, noteId) && Keyed(t) && AreTagsOf(s, workspaceId, paths, tags)
    ensures TagIds(t, workspaceId, noteId) == TagIds(s, workspaceId, noteId)
    ensures AreTagsOf(t, workspaceId, paths, tags)
  {
    TagsStay(s, t, workspaceId, paths, tags);
    forall r | r in t && IsRelationOf(t[r], workspaceId, noteId)
      ensures r in s && s[r] == t[r]
    {
      assert t[r].PrimaryKey() == r;
    }
    forall id | id in TagIds(s, workspaceId, noteId)
      ensures id in TagIds(t, workspaceId, noteId)
    {
      var r :| r in s && s[r].NoteTag? && s[r].workspaceId == workspaceId && s[r].noteId == noteId && s[r].tagId == id;
      assert r in t && t[r] == s[r];
    }
  }

  lemma TaggingKeepsLinks(s: Rows, t: Rows, workspaceId: string, noteId: string)
    requires OnlyTagging(s, t, workspaceId, noteId) && Keyed(t)
    ensures LinksFrom(t, workspaceId, noteId) == LinksFrom(s, workspaceId, noteId)
    ensures NoteIn(s, workspaceId, noteId) ==> NoteIn(t, workspaceId, noteId)
  {
    forall r | r in t && IsLinkFrom(t[r], workspaceId, noteId)
      ensures r in s && s[r] == t[r]
    {
      assert t[r].PrimaryKey() == r;
    }
  }

  /** The note has exactly these links, made for the inputs. */
  ghost predicate HasLinks(s: Rows, workspaceId: string, noteId: string, inputs: seq<NoteLinkInput>, links: seq<Row>,
                           now: int)
  {
    && |links| == |inputs| && AreLinksFor(s, workspaceId, noteId, inputs, links, now)
    && LinksFrom(s, workspaceId, noteId) == KeysOf(links)
    && forall link <- links :: Lookup(s, link.PrimaryKey()) == Some(link)
  }

  lemma LinksAreThere(s: Rows, a: seq<Change>, t: Rows, b: seq<Change>, workspaceId: string, noteId: string,
                      inputs: seq<NoteLinkInput>, links: seq<Row>, now: int)
    requires Keyed(s) && Keyed(t) && LinksFrom(s, workspaceId, noteId) == {}
    requires |links| == |inputs| && AreLinksFor(s, workspaceId, noteId, inputs, links, now)
    requires LinksAdded(s, a, t, b, workspaceId, noteId, links)
    ensures HasLinks(t, workspaceId, noteId, inputs, links, now)
  {
    AllLinkableStays(s, t, workspaceId, noteId, inputs, links, now);
    assert {} + KeysOf(links) == KeysOf(links);
  }

  /** From `s` to `t` the tags and links of a new note were added. */
  ghost predicate DressedUp(s: Rows, journal: seq<Change>, t: Rows, later: seq<Change>, workspaceId: string,
                            noteId: string, names: seq<string>, inputs: seq<NoteLinkInput>, links: seq<Row>, now: int)
  {
    && Grown(s, journal, t, later, workspaceId) && OnlyDress(s, t, workspaceId, noteId)
    && HasTags(t, workspaceId, noteId, LeafPaths(names)) && HasLinks(t, workspaceId, noteId, inputs, links, now)
  }

  /** Attaches the tags and inserts the links of a new note. */
  method DressNote(db: Database, workspaceId: string, noteId: string, names: seq<string>, inputs: seq<NoteLinkInput>,
                   now: int, ghost pending: set<Entity>)
    returns (r: Result<seq<Row>, NoteError>)
    requires db.Good(pending) && NoteIn(db.rows, workspaceId, noteId)
    requires TagIds(db.rows, workspaceId, noteId) == {} && LinksFrom(db.rows, workspaceId, noteId) == {}
    modifies db
    ensures db.Good(pending) && old(db.issued) <= db.issued
    ensures r.Success? <==> AllNamed(names) && AllLinkable(old(db.rows), workspaceId, noteId, inputs, |inputs|)
    ensures r.Success? ==>
              DressedUp(old(db.rows), old(db.journal), db.rows, db.journal, workspaceId, noteId, names, inputs,
                        r.value, now)
  {
    ghost var s, journal := db.rows, db.journal;
    var tags := AttachTags(db, workspaceId, noteId, names, now, pending);
    ghost var t, later := db.rows, db.journal;
    if tags.Failure? {
      return Failure(DatabaseError(tags.error));
    }
    MoreIsOnly(s, t, workspaceId, noteId);
    TaggingKeepsLinks(s, t, workspaceId, noteId);
    TaggingKeepsFaces(s, t, workspaceId, noteId);
    SameFacesLinkable(s, t, workspaceId, noteId, inputs);
    r := InsertNoteLinks(db, workspaceId, noteId, inputs, now, pending);
    if r.Success? {
      GrownTwice(s, journal, t, later, db.rows, db.journal, workspaceId);
      TagsThenLinks(s, t, db.rows, workspaceId, noteId);
      LinksAreThere(t, later, db.rows, db.journal, workspaceId, noteId, inputs, r.value, now);
      LinkingKeepsTags(t, db.rows, workspaceId, noteId, LeafPaths(names), tags.value);
      TagsByPath(db.rows, workspaceId, noteId, LeafPaths(names), tags.value);
    }
  }

  /** What creating a note leaves: the note, its first revision, its field, exactly
      the tags and links asked for, and one change for every new row; nothing else is
      new but tags and default devices. */
  ghost predicate Created(s: Rows, journal: seq<Change>, t: Rows, later: seq<Change>, workspaceId: string,
                          input: CreateNoteInput, now: int, c: CreatedNote)
  {
    && c.note.Note? && c.note.currentRevisionId.Some?
    && var id, revisionId := c.note.id, c.note.currentRevisionId.value;
    && c.note == Note(id, workspaceId, input.content, input.role, c.note.fieldId, now, now, None, None,
                      Some(revisionId), None, NO_CONFLICT)
    && Ref(Notes, id) !in s && Lookup(t, Ref(Notes, id)) == Some(c.note)
    && Ref(NoteRevisions, revisionId) !in s
    && Lookup(t, Ref(NoteRevisions, revisionId)) ==
       Some(NoteRevision(revisionId, workspaceId, id, input.content, None, input.deviceId, now, None, None))
    && FieldNamed(t, workspaceId, input.field, c.note.fieldId) && c.field == input.field
    && c.tags == LeafPaths(input.tags) && HasTags(t, workspaceId, id, c.tags)
    && HasLinks(t, workspaceId, id, input.links, c.links, now)
    && Grown(s, journal, t, later, workspaceId) && OnlyPartsOf(s, t, c.note)
  }

  lemma DevicesKeepDress(s: Rows, t: Rows, workspaceId: string, noteId: string, paths: seq<string>,
                         inputs: seq<NoteLinkInput>, links: seq<Row>, now: int)
    requires OnlyDevices(s, t) && Keyed(s) && Keyed(t)
    requires HasTags(s, workspaceId, noteId, paths) && HasLinks(s, workspaceId, noteId, inputs, links, now)
    ensures HasTags(t, workspaceId, noteId, paths) && HasLinks(t, workspaceId, noteId, inputs, links, now)
  {
    DevicesChangeNothing(s, t, workspaceId, noteId);
    AllLinkableStays(s, t, workspaceId, noteId, inputs, links, now);
    LinkingKeepsTagRows(s, t, workspaceId, noteId);
    SameTagsStay(s, t, workspaceId, noteId, paths);
  }

  lemma LinkingKeepsTagRows(s: Rows, t: Rows, workspaceId: string, noteId: string)
    requires OnlyLinking(s, t, workspaceId, noteId) && Keyed(s) && Keyed(t)
    ensures SameTags(s, t)
  {
    forall id, w, path
      ensures TagAt(t, Ref(Tags, id), w, path) <==> TagAt(s, Ref(Tags, id), w, path)
    {
      assert Ref(Tags, id) in t ==> t[Ref(Tags, id)].PrimaryKey() == Ref(Tags, id);
    }
  }

  /** The last two changes report the note as it is inserted, then its first revision. */
  ghost predicate NewNoteReported(journal: seq<Change>, note: Row, revision: Row, defaults: Defaults, now: int)
    requires note.Note? && revision.NoteRevision?
  {
    && |journal| >= 2
    && var c, d := journal[|journal| - 2], journal[|journal| - 1];
    && c == Change(c.id, note.workspaceId, DefaultDeviceId(defaults, note.workspaceId), NoteEntity, note.id, Insert,
                   None, note.currentRevisionId, NotePayload(note), now, Some(now), None)
    && d == Change(d.id, revision.workspaceId, DefaultDeviceId(defaults, revision.workspaceId), NoteRevisionEntity,
                   revision.id, Insert, None, Some(revision.id), NoteRevisionPayload(revision, None), now, Some(now),
                   None)
  }

  /** Records the note, then its first revision. */
  method RecordNewNote(db: Database, note: Row, revision: Row, now: int) returns (ids: (string, string))
    requires note.Note? && revision.NoteRevision? && db.Good(Two(note, revision))
    requires Lookup(db.rows, note.PrimaryKey()) == Some(note) &&
             Lookup(db.rows, revision.PrimaryKey()) == Some(revision)
    modifies db
    ensures db.Good({}) && old(db.issued) <= db.issued
    ensures OnlyDevices(old(db.rows), db.rows)
    ensures db.journal == old(db.journal) + [NoteInput(note, Insert).Recorded(db.defaults, ids.0, now)] +
                          [RevisionInput(revision, None).Recorded(db.defaults, ids.1, now)]
    ensures NewNoteReported(db.journal, note, revision, db.defaults, now)
  {
    assert Two(note, revision) == {} + {revision.Subject()} + {note.Subject()};
    var noteChange := RecordNote(db, note, Insert, now, {} + {revision.Subject()});
    var revisionChange := RecordRevision(db, revision, None, now, {});
    ids := (noteChange, revisionChange);
  }

  /** Tags and links of a new note, and the changes for its two rows besides. */
  ghost predicate Dressed(s: Rows, journal: seq<Change>, t: Rows, later: seq<Change>, workspaceId: string,
                          noteId: string, names: seq<string>, inputs: seq<NoteLinkInput>, links: seq<Row>, now: int)
  {
    && Kept(s, t) && (forall r <- NewRows(s, t) :: t[r].Owner() == workspaceId) && OnlyDress(s, t, workspaceId, noteId)
    && journal <= later && |later| - |journal| == |NewRows(s, t)| + 2
    && (forall c <- later[|journal|..] :: !c.IsTombstone())
    && HasTags(t, workspaceId, noteId, LeafPaths(names)) && HasLinks(t, workspaceId, noteId, inputs, links, now)
  }

  lemma DressedAndRecorded(s: Rows, a: seq<Change>, t: Rows, b: seq<Change>, u: Rows, c: Change, d: Change,
                           workspaceId: string, noteId: string, names: seq<string>, inputs: seq<NoteLinkInput>,
                           links: seq<Row>, now: int)
    requires Keyed(t) && Keyed(u) && OnlyDevices(t, u) &&
             DressedUp(s, a, t, b, workspaceId, noteId, names, inputs, links, now)
    requires !c.IsTombstone() && !d.IsTombstone()
    ensures Dressed(s, a, u, b + [c] + [d], workspaceId, noteId, names, inputs, links, now)
  {
    DevicesKeepDress(t, u, workspaceId, noteId, LeafPaths(names), inputs, links, now);
    DevicesAreDress(s, t, u, workspaceId, noteId);
    assert NewRows(s, u) == NewRows(s, t);
    assert (b + [c] + [d])[|a|..] == b[|a|..] + [c] + [d];
  }

  /** The two changes still owed for a note and its revision are among the later ones. */
  lemma DressSettlesDebt(s: Rows, a: seq<Change>, t: Rows, b: seq<Change>, u: Rows, c: seq<Change>,
                         workspaceId: string, noteId: string, names: seq<string>, inputs: seq<NoteLinkInput>,
                         links: seq<Row>, now: int)
    requires GrownOwing(s, a, t, b, workspaceId, 2)
    requires Dressed(t, b, u, c, workspaceId, noteId, names, inputs, links, now)
    ensures Grown(s, a, u, c, workspaceId)
  {
    assert NewRows(s, u) == NewRows(s, t) + NewRows(t, u);
    assert NewRows(s, t) !! NewRows(t, u);
    LaterChanges(a, b, c);
  }

  lemma NoteCreated(s: Rows, a: seq<Change>, t: Rows, b: seq<Change>, u: Rows, c: seq<Change>, workspaceId: string,
                    input: CreateNoteInput, now: int, note: Row, revision: Row, links: seq<Row>)
    requires Started(s, a, t, b, workspaceId, input, now, note, revision)
    requires Dressed(t, b, u, c, workspaceId, note.id, input.tags, input.links, links, now)
    ensures Created(s, a, u, c, workspaceId, input, now, CreatedNote(note, input.field, LeafPaths(input.tags), links))
  {
    DressSettlesDebt(s, a, t, b, u, c, workspaceId, note.id, input.tags, input.links, links, now);
    DressIsPart(s, t, u, note);
  }

  lemma KeptBoth(s: Rows, a: seq<Change>, t: Rows, b: seq<Change>, note: Row, revision: Row, names: seq<string>,
                 inputs: seq<NoteLinkInput>, links: seq<Row>, now: int)
    requires note.Note? && DressedUp(s, a, t, b, note.workspaceId, note.id, names, inputs, links, now)
    requires Lookup(s, note.PrimaryKey()) == Some(note) && Lookup(s, revision.PrimaryKey()) == Some(revision)
    ensures Lookup(t, note.PrimaryKey()) == Some(note) && Lookup(t, revision.PrimaryKey()) == Some(revision)
  {
  }

  /** Tags, links and the two changes of a new note. */
  method DressAndRecord(db: Database, note: Row, revision: Row, names: seq<string>, inputs: seq<NoteLinkInput>,
                        now: int)
    returns (r: Result<seq<Row>, NoteError>)
    requires note.Note? && revision.NoteRevision? && db.Good(Two(note, revision))
    requires Lookup(db.rows, note.PrimaryKey()) == Some(note) &&
             Lookup(db.rows, revision.PrimaryKey()) == Some(revision)
    requires TagIds(db.rows, note.workspaceId, note.id) == {} && LinksFrom(db.rows, note.workspaceId, note.id) == {}
    modifies db
    ensures db.Minting() && old(db.issued) <= db.issued
    ensures r.Success? ==> db.Good({})
    ensures r.Success? <==> AllNamed(names) && AllLinkable(old(db.rows), note.workspaceId, note.id, inputs, |inputs|)
    ensures r.Success? ==>
              Dressed(old(db.rows), old(db.journal), db.rows, db.journal, note.workspaceId, note.id, names, inputs,
                      r.value, now)
    ensures r.Success? ==> NewNoteReported(db.journal, note, revision, db.defaults, now)
  {
    ghost var s, journal := db.rows, db.journal;
    r := DressNote(db, note.workspaceId, note.id, names, inputs, now, Two(note, revision));
    if r.Success? {
      KeptBoth(s, journal, db.rows, db.journal, note, revision, names, inputs, r.value, now);
      RecordDress(db, note, revision, names, inputs, r.value, now, s, journal);
    }
  }

  /** The two changes of a note whose tags and links are there. */
  method RecordDress(db: Database, note: Row, revision: Row, ghost names: seq<string>, ghost inputs: seq<NoteLinkInput>,
                     ghost links: seq<Row>, now: int, ghost s: Rows, ghost journal: seq<Change>)
    requires note.Note? && revision.NoteRevision? && db.Good(Two(note, revision))
    requires Lookup(db.rows, note.PrimaryKey()) == Some(note) &&
             Lookup(db.rows, revision.PrimaryKey()) == Some(revision)
    requires DressedUp(s, journal, db.rows, db.journal, note.workspaceId, note.id, names, inputs, links, now)
    modifies db
    ensures db.Good({}) && old(db.issued) <= db.issued
    ensures Dressed(s, journal, db.rows, db.journal, note.workspaceId, note.id, names, inputs, links, now)
    ensures NewNoteReported(db.journal, note, revision, db.defaults, now)
  {
    ghost var t, later := db.rows, db.journal;
    var ids := RecordNewNote(db, note, revision, now);
    DressedAndRecorded(s, journal, t, later, db.rows, NoteInput(note, Insert).Recorded(db.defaults, ids.0, now),
                       RevisionInput(revision, None).Recorded(db.defaults, ids.1, now), note.workspaceId, note.id,
                       names, inputs, links, now);
  }

  method CreateNoteInTransaction(db: Database, workspaceId: string, input: CreateNoteInput, now: int)
    returns (r: Result<CreatedNote, NoteError>)
    requires db.Good({})
    modifies db
    ensures db.Minting() && old(db.issued) <= db.issued
    ensures r.Success? <==> CanCreate(db.defaults, db.mint, old(db.rows), old(db.issued), workspaceId, input)
    ensures r.Success? ==>
              && db.Good({}) &&
                 Created(old(db.rows), old(db.journal), db.rows, db.journal, workspaceId, input, now, r.value)
    ensures r.Success? ==>
              exists revision: Row :: revision.NoteRevision? && r.value.note.currentRevisionId == Some(revision.id) &&
                NewNoteReported(db.journal, r.value.note, revision, db.defaults, now)
  {
    ghost var s, journal := db.rows, db.journal;
    var started := StartNote(db, workspaceId, input, now);
    if started.Failure? {
      return Failure(DatabaseError(started.error));
    }
    var (note, revision) := started.value;
    ghost var t, later := db.rows, db.journal;
    LinksBesideNew(s, t, note, input.links);
    var links := DressAndRecord(db, note, revision, input.tags, input.links, now);
    if links.Failure? {
      return Failure(links.error);
    }
    NoteCreated(s, journal, t, later, db.rows, db.journal, workspaceId, input, now, note, revision, links.value);
    r := Success(CreatedNote(note, input.field, LeafPaths(input.tags), links.value));
  }

  /** A failed transaction leaves everything as it was. */
  method Rollback(db: Database, rows: Rows, journal: seq<Change>, ghost issued: set<string>)
    requires db.Minting() && Consistent(rows, journal, issued, {}) && issued <= db.issued
    modifies db`rows, db`journal
    ensures db.Good({}) && db.rows == rows && db.journal == journal
  {
    IssueStep(rows, journal, issued, {}, db.issued);
    db.rows := rows;
    db.journal := journal;
  }

  /** Creates a note: all of it exactly if it can be created, else nothing. */
  method CreateNote(db: Database, workspaceId: string, input: CreateNoteInput, now: int)
    returns (r: Result<CreatedNote, NoteError>)
    requires db.Good({})
    modifies db
    ensures db.Good({}) && old(db.issued) <= db.issued
    ensures r.Success? <==> CanCreate(db.defaults, db.mint, old(db.rows), old(db.issued), workspaceId, input)
    ensures if r.Success? then Created(old(db.rows), old(db.journal), db.rows, db.journal, workspaceId, input, now,
                                       r.value)
            else db.rows == old(db.rows) && db.journal == old(db.journal)
    ensures r.Success? ==>
              exists revision: Row :: revision.NoteRevision? && r.value.note.currentRevisionId == Some(revision.id) &&
                NewNoteReported(db.journal, r.value.note, revision, db.defaults, now)
  {
    var rows, journal := db.rows, db.journal;
    ghost var issued := db.issued;
    r := CreateNoteInTransaction(db, workspaceId, input, now);
    if r.Failure? {
      Rollback(db, rows, journal, issued);
    }
  }

  // Several notes at once

  /** A moment of a transaction. */
  datatype Moment = Moment(rows: Rows, journal: seq<Change>, issued: set<string>)

  ghost predicate CanCreateAt(defaults: Defaults, mint: set<string> -> string, m: Moment, workspaceId: string,
                              input: CreateNoteInput)
  {
    CanCreate(defaults, mint, m.rows, m.issued, workspaceId, input)
  }

  ghost predicate CreatedBetween(m: Moment, n: Moment, workspaceId: string, input: CreateNoteInput, now: int,
                                 c: CreatedNote)
  {
    Created(m.rows, m.journal, n.rows, n.journal, workspaceId, input, now, c)
  }

  /** Item after item could be created and was, each from the moment the one before it
      left. */
  ghost predicate Trail(defaults: Defaults, mint: set<string> -> string, trail: seq<Moment>, workspaceId: string,
                        items: seq<CreateNoteInput>, notes: seq<CreatedNote>, now: int)
  {
    && |trail| == |notes| + 1 && |notes| <= |items|
    && forall i | 0 <= i < |notes| ::
         && CanCreateAt(defaults, mint, trail[i], workspaceId, items[i])
         && CreatedBetween(trail[i], trail[i + 1], workspaceId, items[i], now, notes[i])
  }

  lemma TrailGoesOn(defaults: Defaults, mint: set<string> -> string, trail: seq<Moment>, workspaceId: string,
                    items: seq<CreateNoteInput>, notes: seq<CreatedNote>, now: int, next: Moment, c: CreatedNote)
    requires Trail(defaults, mint, trail, workspaceId, items, notes, now) && |notes| < |items|
    requires CanCreateAt(defaults, mint, trail[|notes|], workspaceId, items[|notes|])
    requires CreatedBetween(trail[|notes|], next, workspaceId, items[|notes|], now, c)
    ensures Trail(defaults, mint, trail + [next], workspaceId, items, notes + [c], now)
  {
    forall i | 0 <= i < |notes|
      ensures CanCreateAt(defaults, mint, trail[i], workspaceId, items[i])
      ensures CreatedBetween(trail[i], trail[i + 1], workspaceId, items[i], now, notes[i])
    {
    }
    assert (trail + [next])[|notes|] == trail[|notes|];
  }

  /** A created note with its revision, its field, exactly its tags and its links. */
  ghost predicate Stands(t: Rows, workspaceId: string, input: CreateNoteInput, now: int, c: CreatedNote) {
    && c.note.Note? && c.note.currentRevisionId.Some?
    && var id, revisionId := c.note.id, c.note.currentRevisionId.value;
    && c.note == Note(id, workspaceId, input.content, input.role, c.note.fieldId, now, now, None, None,
                      Some(revisionId), None, NO_CONFLICT)
    && Lookup(t, Ref(Notes, id)) == Some(c.note)
    && Lookup(t, Ref(NoteRevisions, revisionId)) ==
       Some(NoteRevision(revisionId, workspaceId, id, input.content, None, input.deviceId, now, None, None))
    && FieldNamed(t, workspaceId, input.field, c.note.fieldId) && c.field == input.field
    && c.tags == LeafPaths(input.tags) && HasTags(t, workspaceId, id, c.tags)
    && LinksFrom(t, workspaceId, id) == KeysOf(c.links)
    && forall link <- c.links :: Lookup(t, link.PrimaryKey()) == Some(link)
  }

  lemma CreatedStands(s: Rows, a: seq<Change>, t: Rows, b: seq<Change>, workspaceId: string, input: CreateNoteInput,
                      now: int, c: CreatedNote)
    requires Created(s, a, t, b, workspaceId, input, now, c)
    ensures Stands(t, workspaceId, input, now, c)
  {
  }

  /** A path names the same tag as long as it is there. */
  lemma LabelLasts(s: Rows, t: Rows, workspaceId: string, id: string, paths: seq<string>)
    requires Kept(s, t) && Forest(t) && forall i | 0 <= i < |paths| :: PathTaken(s, workspaceId, paths[i])
    ensures Labelled(t, workspaceId, id, paths) == Labelled(s, workspaceId, id, paths)
  {
    if i :| 0 <= i < |paths| && TagAt(s, Ref(Tags, id), workspaceId, paths[i]) {
      assert TagAt(t, Ref(Tags, id), workspaceId, paths[i]);
    }
    if i :| 0 <= i < |paths| && TagAt(t, Ref(Tags, id), workspaceId, paths[i]) {
      assert PathTaken(s, workspaceId, paths[i]);
      var x :| TagAt(s, Ref(Tags, x), workspaceId, paths[i]);
      assert TagAt(t, Ref(Tags, id), t[Ref(Tags, x)].workspaceId, t[Ref(Tags, x)].path);
    }
  }

  /** What is new about one note leaves the tags and links of another alone. */
  lemma OtherNoteUntouched(s: Rows, t: Rows, workspaceId: string, noteId: string, other: Row)
    requires Kept(s, t) && other.Note? && other.id != noteId && OnlyPartsOf(s, t, other)
    requires Keyed(t)
    ensures TagIds(t, workspaceId, noteId) == TagIds(s, workspaceId, noteId)
    ensures LinksFrom(t, workspaceId, noteId) == LinksFrom(s, workspaceId, noteId)
  {
    forall r | r in t && (IsRelationOf(t[r], workspaceId, noteId) || IsLinkFrom(t[r], workspaceId, noteId))
      ensures r in s && s[r] == t[r]
    {
      assert t[r].PrimaryKey() == r;
    }
    forall id | id in TagIds(s, workspaceId, noteId)
      ensures id in TagIds(t, workspaceId, noteId)
    {
      var r :| r in s && s[r].NoteTag? && s[r].workspaceId == workspaceId && s[r].noteId == noteId && s[r].tagId == id;
      assert r in t && t[r] == s[r];
    }
  }

  lemma TagsLast(s: Rows, t: Rows, workspaceId: string, noteId: string, paths: seq<string>)
    requires Kept(s, t) && Forest(t) && HasTags(s, workspaceId, noteId, paths)
    requires TagIds(t, workspaceId, noteId) == TagIds(s, workspaceId, noteId)
    ensures HasTags(t, workspaceId, noteId, paths)
  {
    forall id
      ensures Labelled(t, workspaceId, id, paths) == Labelled(s, workspaceId, id, paths)
    {
      LabelLasts(s, t, workspaceId, id, paths);
    }
    forall i | 0 <= i < |paths|
      ensures PathTaken(t, workspaceId, paths[i])
    {
      assert PathTaken(s, workspaceId, paths[i]);
      var id :| TagAt(s, Ref(Tags, id), workspaceId, paths[i]);
      assert TagAt(t, Ref(Tags, id), workspaceId, paths[i]);
    }
  }

  /** A created note stands while another one is created. */
  lemma StandsOn(s: Rows, t: Rows, workspaceId: string, input: CreateNoteInput, now: int, c: CreatedNote, other: Row)
    requires Stands(s, workspaceId, input, now, c) && Kept(s, t) && Keyed(t) && Forest(t)
    requires other.Note? && OnlyPartsOf(s, t, other) && other.PrimaryKey() !in s
    ensures Stands(t, workspaceId, input, now, c)
  {
    OtherNoteUntouched(s, t, workspaceId, c.note.id, other);
    TagsLast(s, t, workspaceId, c.note.id, c.tags);
  }

  ghost predicate BatchStands(t: Rows, workspaceId: string, items: seq<CreateNoteInput>, notes: seq<CreatedNote>,
                              now: int)
  {
    |notes| <= |items| && forall i | 0 <= i < |notes| :: Stands(t, workspaceId, items[i], now, notes[i])
  }

  lemma OneMoreStands(s: Rows, a: seq<Change>, t: Rows, b: seq<Change>, workspaceId: string,
                      items: seq<CreateNoteInput>, notes: seq<CreatedNote>, c: CreatedNote, now: int)
    requires |notes| < |items| && BatchStands(s, workspaceId, items, notes, now) && Keyed(t) && Forest(t)
    requires Created(s, a, t, b, workspaceId, items[|notes|], now, c)
    ensures BatchStands(t, workspaceId, items, notes + [c], now)
  {
    forall i | 0 <= i < |notes|
      ensures Stands(t, workspaceId, items[i], now, notes[i])
    {
      assert Stands(s, workspaceId, items[i], now, notes[i]);
      StandsOn(s, t, workspaceId, items[i], now, notes[i], c.note);
    }
    CreatedStands(s, a, t, b, workspaceId, items[|notes|], now, c);
  }

  /** Creates several notes in one transaction, item after item: all of them exactly
      if each can be created once the ones before it are there, or none. At the end
      every one stands with its revision, field, tags and links. */
  method CreateNotesBatch(db: Database, workspaceId: string, items: seq<CreateNoteInput>, now: int)
    returns (r: Result<seq<CreatedNote>, NoteError>, ghost trail: seq<Moment>, ghost notes: seq<CreatedNote>)
    requires db.Good({})
    modifies db
    ensures db.Good({}) && old(db.issued) <= db.issued
    ensures Trail(db.defaults, db.mint, trail, workspaceId, items, notes, now)
    ensures trail[0] == Moment(old(db.rows), old(db.journal), old(db.issued))
    ensures r.Success? <==> |notes| == |items|
    ensures r.Success? ==>
              && r.value == notes && trail[|items|] == Moment(db.rows, db.journal, db.issued)
              && BatchStands(db.rows, workspaceId, items, notes, now)
              && Grown(old(db.rows), old(db.journal), db.rows, db.journal, workspaceId)
    ensures r.Failure? ==>
              && !CanCreateAt(db.defaults, db.mint, trail[|notes|], workspaceId, items[|notes|])
              && db.rows == old(db.rows) && db.journal == old(db.journal)
  {
    var rows, journal := db.rows, db.journal;
    ghost var issued := db.issued;
    var made: seq<CreatedNote> := [];
    trail, notes := [Moment(rows, journal, issued)], [];
    NotGrown(rows, journal, workspaceId);
    for i := 0 to |items|
      invariant db.Good({}) && issued <= db.issued
      invariant made == notes && |notes| == i && Trail(db.defaults, db.mint, trail, workspaceId, items, notes, now)
      invariant trail[0] == Moment(rows, journal, issued) && trail[i] == Moment(db.rows, db.journal, db.issued)
      invariant BatchStands(db.rows, workspaceId, items, notes, now)
      invariant Grown(rows, journal, db.rows, db.journal, workspaceId)
    {
      ghost var t, later := db.rows, db.journal;
      var created := CreateNoteInTransaction(db, workspaceId, items[i], now);
      if created.Failure? {
        Rollback(db, rows, journal, issued);
        return Failure(created.error), trail, notes;
      }
      ghost var next := Moment(db.rows, db.journal, db.issued);
      TrailGoesOn(db.defaults, db.mint, trail, workspaceId, items, notes, now, next, created.value);
      OneMoreStands(t, later, db.rows, db.journal, workspaceId, items, notes, created.value, now);
      GrownTwice(rows, journal, t, later, db.rows, db.journal, workspaceId);
      made := made + [created.value];
      trail, notes := trail + [next], made;
    }
    r := Success(made);
  }

  // Updating

  /** The row of a note after an update of its content and, possibly, its field. */
  function Rewritten(note: Row, content: string, fieldId: Option<string>, revisionId: string, now: int): Row
    requires note.Note?
  {
    Note(note.id, note.workspaceId, content, note.role, if fieldId.Some? then fieldId else note.fieldId,
         note.createdAt, now, note.archivedAt, note.deletedAt, Some(revisionId), note.lastChangeId, note.conflictStatus)
  }

  /** Rows an update of one note leaves alone. */
  predicate Elsewhere(row: Row, workspaceId: string, noteId: string) {
    !(row.Note? && row.id == noteId) && !IsRelationOf(row, workspaceId, noteId) && !IsLinkFrom(row, workspaceId, noteId)
  }

  /** Nothing but one note, its tags and links differ; new fields, tags, revisions
      and default devices aside. */
  ghost predicate OnlyNote(s: Rows, t: Rows, workspaceId: string, noteId: string) {
    && (forall r <- s :: Elsewhere(s[r], workspaceId, noteId) ==> Lookup(t, r) == Some(s[r]))
    && (forall r <- t :: Lookup(s, r) == Some(t[r]) || r.table.Devices? || t[r].Field? || t[r].Tag? ||
          t[r].NoteRevision? || !Elsewhere(t[r], workspaceId, noteId))
  }

  lemma OnlyNoteTwice(s: Rows, t: Rows, u: Rows, workspaceId: string, noteId: string)
    requires OnlyNote(s, t, workspaceId, noteId) && OnlyNote(t, u, workspaceId, noteId)
    ensures OnlyNote(s, u, workspaceId, noteId)
  {
    forall r | r in u
      ensures Lookup(s, r) == Some(u[r]) || r.table.Devices? || u[r].Field? || u[r].Tag? || u[r].NoteRevision? ||
              !Elsewhere(u[r], workspaceId, noteId)
    {
      if Lookup(t, r) == Some(u[r]) {
        assert Lookup(s, r) == Some(t[r]) || r.table.Devices? || t[r].Field? || t[r].Tag? || t[r].NoteRevision? ||
               !Elsewhere(t[r], workspaceId, noteId);
      }
    }
  }

  /** The note rewritten and its new revision inserted; recorded later. */
  ghost predicate Begun(s: Rows, t: Rows, note: Row, input: UpdateNoteInput, now: int, updated: Row, revision: Row) {
    && note.Note? && updated.Note? && revision.NoteRevision?
    && (exists f :: FieldNamed(t, note.workspaceId, input.field, f) &&
          updated == Rewritten(note, input.content, f, revision.id, now))
    && revision == NewRevision(revision.id, note.workspaceId, note.id, input.content, input.deviceId, now)
    && revision.PrimaryKey() !in s
    && Lookup(t, updated.PrimaryKey()) == Some(updated) && Lookup(t, revision.PrimaryKey()) == Some(revision)
    && OnlyNote(s, t, note.workspaceId, note.id)
    && TagIds(t, note.workspaceId, note.id) == TagIds(s, note.workspaceId, note.id)
    && LinksFrom(t, note.workspaceId, note.id) == LinksFrom(s, note.workspaceId, note.id)
  }

  lemma RewrittenAndInserted(s: Rows, journal: seq<Change>, issued: set<string>, updated: Row, revision: Row)
    requires Consistent(s, journal, issued, {}) && updated.Note? && revision.NoteRevision?
    requires revision.id in issued && revision.PrimaryKey() !in s && NoteIn(s, updated.workspaceId, updated.id)
    requires Resolved(s, revision) && Resolved(s, updated)
    ensures Consistent(s[revision.PrimaryKey() := revision][updated.PrimaryKey() := updated], journal, issued,
                       Two(updated, revision))
  {
    InsertStep(s, journal, issued, {}, revision);
    var t := s[revision.PrimaryKey() := revision];
    assert Resolved(t, updated);
    RewriteStep(t, journal, issued, {} + {revision.Subject()}, updated);
    assert {} + {revision.Subject()} + {updated.Subject()} == Two(updated, revision);
  }

  lemma RewriteLeavesParts(s: Rows, updated: Row, revision: Row)
    requires updated.Note? && revision.NoteRevision? && revision.PrimaryKey() !in s && Keyed(s)
    requires NoteIn(s, updated.workspaceId, updated.id)
    ensures var t := s[revision.PrimaryKey() := revision][updated.PrimaryKey() := updated];
            && TagIds(t, updated.workspaceId, updated.id) == TagIds(s, updated.workspaceId, updated.id)
            && LinksFrom(t, updated.workspaceId, updated.id) == LinksFrom(s, updated.workspaceId, updated.id)
            && OnlyNote(s, t, updated.workspaceId, updated.id)
  {
    var t := s[revision.PrimaryKey() := revision][updated.PrimaryKey() := updated];
    forall id | id in TagIds(s, updated.workspaceId, updated.id)
      ensures id in TagIds(t, updated.workspaceId, updated.id)
    {
      var r :| r in s && s[r].NoteTag? && s[r].workspaceId == updated.workspaceId && s[r].noteId == updated.id &&
          s[r].tagId == id;
      assert r in t && t[r] == s[r];
    }
    forall r | r in s && Elsewhere(s[r], updated.workspaceId, updated.id)
      ensures r != updated.PrimaryKey()
    {
      assert s[r].PrimaryKey() == r;
    }
  }

  lemma UpdateAnchors(s: Rows, note: Row, updated: Row, revision: Row)
    requires Tabular(s) && Resolves(s) && note.Note? && updated.Note? && revision.NoteRevision?
    requires Lookup(s, note.PrimaryKey()) == Some(note) && updated.id == note.id &&
             updated.workspaceId == note.workspaceId
    requires revision.noteId == note.id && revision.workspaceId == note.workspaceId
    requires updated.fieldId == note.fieldId || FieldOf(s, note.workspaceId, updated.fieldId)
    ensures Resolved(s, updated) && (Resolved(s, revision) <==> DeviceKnown(s, revision.deviceId))
  {
    assert Resolved(s, s[note.PrimaryKey()]);
    WorkspaceOfNote(s, note.workspaceId, note.id);
    assert Also(Fields, note.fieldId) <= Targets(note);
    NoteAnchors(s, updated);
    RevisionAnchors(s, revision);
  }

  lemma UpdateBegun(s: Rows, t: Rows, note: Row, input: UpdateNoteInput, now: int, fieldId: Option<string>,
                    updated: Row, revision: Row)
    requires note.Note? && Lookup(s, note.PrimaryKey()) == Some(note) && Kept(s, t) && Keyed(t)
    requires forall x <- t :: x in s || x.table.Devices? || x.table.Fields?
    requires FieldNamed(t, note.workspaceId, input.field, fieldId) && revision.NoteRevision?
    requires updated == Rewritten(note, input.content, fieldId, revision.id, now)
    requires revision == NewRevision(revision.id, note.workspaceId, note.id, input.content, input.deviceId, now)
    requires revision.PrimaryKey() !in t
    ensures Begun(s, t[revision.PrimaryKey() := revision][updated.PrimaryKey() := updated], note, input, now, updated,
                  revision)
    ensures SameFaces(s, t[revision.PrimaryKey() := revision][updated.PrimaryKey() := updated])
    ensures updated.PrimaryKey() == note.PrimaryKey() && updated.workspaceId == note.workspaceId
    ensures updated.fieldId == note.fieldId || FieldOf(t, note.workspaceId, updated.fieldId)
  {
    var u := t[revision.PrimaryKey() := revision][updated.PrimaryKey() := updated];
    UpdateKeepsFaces(s, t, note, updated, revision);
    FieldsLeaveParts(s, t, note.workspaceId, note.id);
    RewriteLeavesParts(t, updated, revision);
    OnlyNoteTwice(s, t, u, note.workspaceId, note.id);
    assert FieldNamed(u, note.workspaceId, input.field, fieldId);
  }

  lemma FieldsLeaveParts(s: Rows, t: Rows, workspaceId: string, noteId: string)
    requires Kept(s, t) && Keyed(t) && forall x <- t :: x in s || x.table.Devices? || x.table.Fields?
    ensures OnlyNote(s, t, workspaceId, noteId)
    ensures TagIds(t, workspaceId, noteId) == TagIds(s, workspaceId, noteId)
    ensures LinksFrom(t, workspaceId, noteId) == LinksFrom(s, workspaceId, noteId)
  {
    forall r | r in t
      ensures r !in s ==> r.table.Devices? || t[r].Field?
    {
      assert t[r].PrimaryKey() == r;
    }
    forall id | id in TagIds(s, workspaceId, noteId)
      ensures id in TagIds(t, workspaceId, noteId)
    {
      var r :| r in s && s[r].NoteTag? && s[r].workspaceId == workspaceId && s[r].noteId == noteId && s[r].tagId == id;
      assert r in t && t[r] == s[r];
    }
    forall r | r in t && (IsRelationOf(t[r], workspaceId, noteId) || IsLinkFrom(t[r], workspaceId, noteId))
      ensures r in s && s[r] == t[r]
    {
      assert t[r].PrimaryKey() == r;
    }
  }

  lemma UpdateKeepsFaces(s: Rows, t: Rows, note: Row, updated: Row, revision: Row)
    requires note.Note? && updated.Note? && revision.NoteRevision? && Lookup(s, note.PrimaryKey()) == Some(note)
    requires Kept(s, t) && Keyed(t) && forall x <- t :: x in s || x.table.Devices? || x.table.Fields?
    requires updated.PrimaryKey() == note.PrimaryKey() && updated.workspaceId == note.workspaceId
    requires updated.Visible() == note.Visible() && revision.PrimaryKey() !in t
    ensures SameFaces(s, t[revision.PrimaryKey() := revision][updated.PrimaryKey() := updated])
  {
    FieldsKeepFaces(s, t);
    forall r
      ensures Face(t[revision.PrimaryKey() := revision][updated.PrimaryKey() := updated], r) == Face(s, r)
    {
      assert Face(t, r) == Face(s, r);
    }
  }

  /** Inserts the revision and rewrites the note; recorded later. */
  method PutUpdate(db: Database, note: Row, updated: Row, revision: Row) returns (ok: bool)
    requires db.Good({}) && note.Note? && updated.Note? && revision.NoteRevision? &&
             Lookup(db.rows, note.PrimaryKey()) == Some(note)
    requires updated.id == note.id && updated.workspaceId == note.workspaceId
    requires revision.noteId == note.id && revision.workspaceId == note.workspaceId
    requires updated.fieldId == note.fieldId || FieldOf(db.rows, note.workspaceId, updated.fieldId)
    requires revision.id in db.issued && revision.PrimaryKey() !in db.rows
    modifies db`rows
    ensures ok <==> DeviceKnown(old(db.rows), revision.deviceId)
    ensures ok ==> db.rows == old(db.rows)[revision.PrimaryKey() := revision][updated.PrimaryKey() := updated]
    ensures if ok then db.Good(Two(updated, revision)) else db.Good({})
  {
    ghost var s := db.rows;
    UpdateAnchors(s, note, updated, revision);
    if DeviceKnown(s, revision.deviceId) {
      RewrittenAndInserted(s, db.journal, db.issued, updated, revision);
    }
    ok := db.Insert(revision);
    if ok {
      db.rows := db.rows[updated.PrimaryKey() := updated];
    }
  }

  /** Resolves the field, inserts the revision and rewrites the note. */
  method BeginUpdate(db: Database, note: Row, input: UpdateNoteInput, now: int)
    returns (r: Result<(Row, Row), TaxonomyError>)
    requires db.Good({}) && note.Note? && Lookup(db.rows, note.PrimaryKey()) == Some(note)
    modifies db
    ensures db.Minting() && old(db.issued) <= db.issued && old(db.journal) <= db.journal
    ensures r.Success? <==> DeviceReady(db.defaults, old(db.rows), note.workspaceId, input.field, input.deviceId)
    ensures r.Success? ==> Begun(old(db.rows), db.rows, note, input, now, r.value.0, r.value.1)
    ensures r.Success? ==> db.Good(Two(r.value.0, r.value.1)) && SameFaces(old(db.rows), db.rows)
  {
    ghost var s, journal, issued := db.rows, db.journal, db.issued;
    var revisionId := db.NewId();
    FreshIds(s, journal, issued, db.issued);
    var field := ResolveField(db, note.workspaceId, input.field, now, {});
    if field.Failure? {
      r := Failure(field.error);
      WorkspaceOfNote(s, note.workspaceId, note.id);
      return;
    }
    ghost var t := db.rows;
    var revision := NewRevision(revisionId, note.workspaceId, note.id, input.content, input.deviceId, now);
    var updated := Rewritten(note, input.content, field.value, revisionId, now);
    UpdateBegun(s, t, note, input, now, field.value, updated, revision);
    var ok := PutUpdate(db, note, updated, revision);
    r := if ok then Success((updated, revision)) else Failure(ForeignKeyFailed);
  }

  /** Nothing but the tags and links of one note differ; new tags and default
      devices aside. */
  ghost predicate OnlyParts(s: Rows, t: Rows, workspaceId: string, noteId: string) {
    && (forall r <- s :: !IsRelationOf(s[r], workspaceId, noteId) && !IsLinkFrom(s[r], workspaceId, noteId) ==>
          Lookup(t, r) == Some(s[r]))
    && (forall r <- t :: Lookup(s, r) == Some(t[r]) || r.table.Devices? || t[r].Tag? ||
                         IsRelationOf(t[r], workspaceId, noteId) || IsLinkFrom(t[r], workspaceId, noteId))
  }

  lemma PartsTwice(s: Rows, t: Rows, u: Rows, workspaceId: string, noteId: string)
    requires OnlyTagging(s, t, workspaceId, noteId) && OnlyLinking(t, u, workspaceId, noteId)
    ensures OnlyParts(s, u, workspaceId, noteId)
  {
    forall r | r in u
      ensures Lookup(s, r) == Some(u[r]) || r.table.Devices? || u[r].Tag? ||
              IsRelationOf(u[r], workspaceId, noteId) || IsLinkFrom(u[r], workspaceId, noteId)
    {
      if Lookup(t, r) == Some(u[r]) {
        assert r !in s ==> r.table.Devices? || t[r].Tag? || IsRelationOf(t[r], workspaceId, noteId);
      }
    }
  }

  /** The tags and links asked for; what was not asked for is as before. */
  ghost predicate Retouched(s: Rows, t: Rows, workspaceId: string, noteId: string, tags: Option<seq<string>>,
                            links: Option<seq<NoteLinkInput>>, now: int)
  {
    && (match tags
        case None => TagIds(t, workspaceId, noteId) == TagIds(s, workspaceId, noteId)
        case Some(names) => HasTags(t, workspaceId, noteId, LeafPaths(names)))
    && (match links
        case None => LinksFrom(t, workspaceId, noteId) == LinksFrom(s, workspaceId, noteId)
        case Some(inputs) => exists made :: HasLinks(t, workspaceId, noteId, inputs, made, now))
  }

  /** The tag half of an update. */
  method RetouchTags(db: Database, workspaceId: string, noteId: string, tags: Option<seq<string>>, now: int,
                     ghost pending: set<Entity>)
    returns (r: Result<(), TaxonomyError>)
    requires db.Good(pending) && NoteIn(db.rows, workspaceId, noteId)
    modifies db
    ensures db.Good(pending) && old(db.issued) <= db.issued && old(db.journal) <= db.journal
    ensures r.Success? <==> (tags.Some? ==> AllNamed(tags.value))
    ensures r.Success? ==> Retouched(old(db.rows), db.rows, workspaceId, noteId, tags, None, now)
    ensures OnlyTagging(old(db.rows), db.rows, workspaceId, noteId)
  {
    r := Success(());
    ghost var s := db.rows;
    if tags.Some? {
      var result := ReplaceNoteTags(db, workspaceId, noteId, tags.value, now, pending);
      TaggingKeepsLinks(s, db.rows, workspaceId, noteId);
      if result.Failure? {
        return Failure(result.error);
      }
      TagsByPath(db.rows, workspaceId, noteId, LeafPaths(tags.value), result.value);
    }
  }

  /** Tags, then links. */
  method Retouch(db: Database, workspaceId: string, noteId: string, tags: Option<seq<string>>,
                 links: Option<seq<NoteLinkInput>>, now: int, ghost pending: set<Entity>)
    returns (r: Result<(), NoteError>)
    requires db.Good(pending) && NoteIn(db.rows, workspaceId, noteId)
    modifies db
    ensures db.Good(pending) && old(db.issued) <= db.issued && old(db.journal) <= db.journal
    ensures r.Success? <==>
              && (tags.Some? ==> AllNamed(tags.value))
              && (links.Some? ==> AllLinkable(old(db.rows), workspaceId, noteId, links.value, |links.value|))
    ensures r.Success? ==>
              && Retouched(old(db.rows), db.rows, workspaceId, noteId, tags, links, now)
              && OnlyParts(old(db.rows), db.rows, workspaceId, noteId)
  {
    ghost var s := db.rows;
    var tagged := RetouchTags(db, workspaceId, noteId, tags, now, pending);
    if tagged.Failure? {
      return Failure(DatabaseError(tagged.error));
    }
    ghost var t := db.rows;
    TaggingKeepsLinks(s, t, workspaceId, noteId);
    r := Success(());
    if links.Some? {
      TaggingKeepsFaces(s, t, workspaceId, noteId);
      SameFacesLinkable(s, t, workspaceId, noteId, links.value);
      var made := ReplaceNoteLinks(db, workspaceId, noteId, links.value, now, pending);
      if made.Failure? {
        return Failure(made.error);
      }
      LinksReplaced(s, t, db.rows, workspaceId, noteId, tags, links.value, made.value, now);
    } else {
      NoLinking(t, workspaceId, noteId);
    }
    PartsTwice(s, t, db.rows, workspaceId, noteId);
  }

  lemma NoLinking(s: Rows, workspaceId: string, noteId: string)
    ensures OnlyLinking(s, s, workspaceId, noteId)
  {
  }

  lemma LinksReplaced(s: Rows, t: Rows, u: Rows, workspaceId: string, noteId: string, tags: Option<seq<string>>,
                      inputs: seq<NoteLinkInput>, made: seq<Row>, now: int)
    requires Retouched(s, t, workspaceId, noteId, tags, None, now) && OnlyLinking(t, u, workspaceId, noteId) &&
             Keyed(t) && Keyed(u)
    requires |made| == |inputs| && AreLinksFor(t, workspaceId, noteId, inputs, made, now)
    requires LinksFrom(u, workspaceId, noteId) == KeysOf(made) &&
             forall link <- made :: Lookup(u, link.PrimaryKey()) == Some(link)
    ensures Retouched(s, u, workspaceId, noteId, tags, Some(inputs), now)
  {
    AllLinkableStays(t, u, workspaceId, noteId, inputs, made, now);
    assert HasLinks(u, workspaceId, noteId, inputs, made, now);
    LinkingKeepsTags(t, u, workspaceId, noteId, [], []);
    if tags.Some? {
      LinkingKeepsTagRows(t, u, workspaceId, noteId);
      SameTagsStay(t, u, workspaceId, noteId, LeafPaths(tags.value));
    }
  }

  /** What updating a note leaves: the rewritten note with its new revision, the tags
      and links asked for, and everything else as it was. */
  ghost predicate Updated(s: Rows, t: Rows, note: Row, input: UpdateNoteInput, now: int, updated: Row) {
    && note.Note? && updated.Note? && updated.currentRevisionId.Some?
    && var revisionId := updated.currentRevisionId.value;
    && (exists f :: FieldNamed(t, note.workspaceId, input.field, f) &&
          updated == Note(note.id, note.workspaceId, input.content, note.role,
                          if input.field.Some? then f else note.fieldId, note.createdAt, now, note.archivedAt,
                          note.deletedAt, Some(revisionId), note.lastChangeId, note.conflictStatus))
    && Lookup(t, Ref(Notes, note.id)) == Some(updated) && Ref(NoteRevisions, revisionId) !in s
    && Lookup(t, Ref(NoteRevisions, revisionId)) ==
       Some(NoteRevision(revisionId, note.workspaceId, note.id, input.content, None, input.deviceId, now, None, None))
    && OnlyNote(s, t, note.workspaceId, note.id)
    && Retouched(s, t, note.workspaceId, note.id, input.tags, input.links, now)
  }

  lemma NoteUpdated(s: Rows, t: Rows, u: Rows, note: Row, input: UpdateNoteInput, now: int, updated: Row, revision: Row)
    requires Begun(s, t, note, input, now, updated, revision)
    requires Retouched(t, u, note.workspaceId, note.id, input.tags, input.links, now) &&
             OnlyParts(t, u, note.workspaceId, note.id)
    ensures Updated(s, u, note, input, now, updated)
  {
    PartsAreOfNote(t, u, note.workspaceId, note.id);
    OnlyNoteTwice(s, t, u, note.workspaceId, note.id);
    var f :| FieldNamed(t, note.workspaceId, input.field, f) &&
        updated == Rewritten(note, input.content, f, revision.id, now);
    FieldStays(t, u, note.workspaceId, note.id, input.field, f);
  }

  lemma FieldStays(s: Rows, t: Rows, workspaceId: string, noteId: string, name: Option<string>, fieldId: Option<string>)
    requires OnlyParts(s, t, workspaceId, noteId) && FieldNamed(s, workspaceId, name, fieldId)
    ensures FieldNamed(t, workspaceId, name, fieldId)
  {
  }

  lemma PartsAreOfNote(s: Rows, t: Rows, workspaceId: string, noteId: string)
    requires OnlyParts(s, t, workspaceId, noteId)
    ensures OnlyNote(s, t, workspaceId, noteId)
  {
    forall r | r in t
      ensures Lookup(s, r) == Some(t[r]) || r.table.Devices? || t[r].Tag? || !Elsewhere(t[r], workspaceId, noteId)
    {
    }
  }

  lemma DevicesKeepTouch(s: Rows, t: Rows, u: Rows, workspaceId: string, noteId: string, tags: Option<seq<string>>,
                         links: Option<seq<NoteLinkInput>>, now: int)
    requires Retouched(s, t, workspaceId, noteId, tags, links, now) && OnlyDevices(t, u) && Keyed(t) && Keyed(u)
    ensures Retouched(s, u, workspaceId, noteId, tags, links, now)
  {
    DevicesChangeNothing(t, u, workspaceId, noteId);
    if tags.Some? {
      LinkingKeepsTagRows(t, u, workspaceId, noteId);
      SameTagsStay(t, u, workspaceId, noteId, LeafPaths(tags.value));
    }
    if links.Some? {
      var made :| HasLinks(t, workspaceId, noteId, links.value, made, now);
      AllLinkableStays(t, u, workspaceId, noteId, links.value, made, now);
      assert HasLinks(u, workspaceId, noteId, links.value, made, now);
    }
  }

  /** The last two changes report the new revision, on the one it replaces, and the
      note. */
  ghost predicate UpdateReported(journal: seq<Change>, note: Row, updated: Row, revision: Row, defaults: Defaults,
                                 now: int)
    requires note.Note? && updated.Note? && revision.NoteRevision?
  {
    && |journal| >= 2
    && var c, d := journal[|journal| - 2], journal[|journal| - 1];
    && c == Change(c.id, revision.workspaceId, DefaultDeviceId(defaults, revision.workspaceId), NoteRevisionEntity,
                   revision.id, Insert, note.currentRevisionId, Some(revision.id),
                   NoteRevisionPayload(revision, note.currentRevisionId), now, Some(now), None)
    && d == Change(d.id, updated.workspaceId, DefaultDeviceId(defaults, updated.workspaceId), NoteEntity, updated.id,
                   Update, None, updated.currentRevisionId, NotePayload(updated), now, Some(now), None)
  }

  /** Records the new revision, then the note. */
  method RecordUpdate(db: Database, note: Row, updated: Row, revision: Row, now: int)
    requires note.Note? && updated.Note? && revision.NoteRevision? && db.Good(Two(updated, revision))
    requires Lookup(db.rows, updated.PrimaryKey()) == Some(updated) &&
             Lookup(db.rows, revision.PrimaryKey()) == Some(revision)
    modifies db
    ensures db.Good({}) && old(db.issued) <= db.issued
    ensures OnlyDevices(old(db.rows), db.rows) && old(db.journal) <= db.journal
    ensures UpdateReported(db.journal, note, updated, revision, db.defaults, now)
  {
    assert Two(updated, revision) == {} + {updated.Subject()} + {revision.Subject()};
    var revisionChange := RecordRevision(db, revision, note.currentRevisionId, now, {} + {updated.Subject()});
    var noteChange := RecordNote(db, updated, Update, now, {});
  }

  /** The tags and links of an update, and its two changes. */
  method RetouchAndRecord(db: Database, note: Row, updated: Row, revision: Row, input: UpdateNoteInput, now: int)
    returns (r: Result<(), NoteError>)
    requires note.Note? && updated.Note? && revision.NoteRevision? && db.Good(Two(updated, revision))
    requires updated.id == note.id && updated.workspaceId == note.workspaceId
    requires Lookup(db.rows, updated.PrimaryKey()) == Some(updated) &&
             Lookup(db.rows, revision.PrimaryKey()) == Some(revision)
    modifies db
    ensures db.Minting() && old(db.issued) <= db.issued
    ensures r.Success? <==>
              && (input.tags.Some? ==> AllNamed(input.tags.value))
              && (input.links.Some? ==>
                  AllLinkable(old(db.rows), note.workspaceId, note.id, input.links.value, |input.links.value|))
    ensures r.Success? ==>
              && db.Good({}) && old(db.journal) <= db.journal
              && Retouched(old(db.rows), db.rows, note.workspaceId, note.id, input.tags, input.links, now)
              && OnlyParts(old(db.rows), db.rows, note.workspaceId, note.id)
              && UpdateReported(db.journal, note, updated, revision, db.defaults, now)
  {
    ghost var s := db.rows;
    r := Retouch(db, note.workspaceId, note.id, input.tags, input.links, now, Two(updated, revision));
    if r.Success? {
      ghost var t := db.rows;
      RecordUpdate(db, note, updated, revision, now);
      DevicesKeepTouch(s, t, db.rows, note.workspaceId, note.id, input.tags, input.links, now);
      DevicesKeepParts(s, t, db.rows, note.workspaceId, note.id);
    }
  }

  lemma DevicesKeepParts(s: Rows, t: Rows, u: Rows, workspaceId: string, noteId: string)
    requires OnlyParts(s, t, workspaceId, noteId) && OnlyDevices(t, u)
    ensures OnlyParts(s, u, workspaceId, noteId)
  {
    forall r | r in u
      ensures Lookup(s, r) == Some(u[r]) || r.table.Devices? || u[r].Tag? ||
              IsRelationOf(u[r], workspaceId, noteId) || IsLinkFrom(u[r], workspaceId, noteId)
    {
      assert r in t ==> u[r] == t[r];
    }
  }

  method UpdateInTransaction(db: Database, note: Row, input: UpdateNoteInput, now: int)
    returns (r: Result<(Row, Row), NoteError>)
    requires db.Good({}) && note.Note? && Lookup(db.rows, note.PrimaryKey()) == Some(note)
    modifies db
    ensures db.Minting() && old(db.issued) <= db.issued
    ensures r.Success? <==> CanUpdate(db.defaults, old(db.rows), note.workspaceId, note.id, input)
    ensures r.Success? ==>
              && db.Good({}) && old(db.journal) <= db.journal
              && Updated(old(db.rows), db.rows, note, input, now, r.value.0) && r.value.1.NoteRevision?
              && UpdateReported(db.journal, note, r.value.0, r.value.1, db.defaults, now)
              && r.value.0.currentRevisionId == Some(r.value.1.id)
  {
    ghost var s := db.rows;
    var begun := BeginUpdate(db, note, input, now);
    if begun.Failure? {
      return Failure(DatabaseError(begun.error));
    }
    var (updated, revision) := begun.value;
    ghost var t := db.rows;
    if input.links.Some? {
      SameFacesLinkable(s, t, note.workspaceId, note.id, input.links.value);
    }
    var retouched := RetouchAndRecord(db, note, updated, revision, input, now);
    if retouched.Failure? {
      return Failure(retouched.error);
    }
    NoteUpdated(s, t, db.rows, note, input, now, updated, revision);
    r := Success((updated, revision));
  }

  /** Updates the visible note a reference means: all of it exactly if it can be
      updated, else nothing. */
  method UpdateNote(db: Database, workspaceId: string, noteRef: string, input: UpdateNoteInput, now: int)
    returns (r: Result<Row, NoteError>)
    requires db.Good({})
    modifies db
    ensures db.Good({}) && old(db.issued) <= db.issued
    ensures r.Failure? ==> db.rows == old(db.rows) && db.journal == old(db.journal)
    ensures Resolution(old(db.rows), workspaceId, noteRef).Some? ==>
            r == Failure(Resolution(old(db.rows), workspaceId, noteRef).value)
    ensures r.Success? <==>
              && Resolution(old(db.rows), workspaceId, noteRef).None?
              && forall noteId | Candidates(old(db.rows), workspaceId, noteRef) == {Ref(Notes, noteId)} ::
                   CanUpdate(db.defaults, old(db.rows), workspaceId, noteId, input)
    ensures r.Success? ==>
              && r.value.Note? && Candidates(old(db.rows), workspaceId, noteRef) == {Ref(Notes, r.value.id)}
              && Ref(Notes, r.value.id) in old(db.rows) && old(db.journal) <= db.journal
              && Updated(old(db.rows), db.rows, old(db.rows)[Ref(Notes, r.value.id)], input, now, r.value)
              && exists revision: Row :: revision.NoteRevision? && r.value.currentRevisionId == Some(revision.id) &&
                   UpdateReported(db.journal, old(db.rows)[Ref(Notes, r.value.id)], r.value, revision, db.defaults, now)
  {
    var found := GetNoteByRef(db, workspaceId, noteRef);
    if found.Failure? {
      return Failure(found.error);
    }
    var rows, journal := db.rows, db.journal;
    ghost var issued := db.issued;
    var result := UpdateInTransaction(db, found.value, input, now);
    if result.Failure? {
      Rollback(db, rows, journal, issued);
      return Failure(result.error);
    }
    r := Success(result.value.0);
  }

  // Archiving and deleting

  function Archived(note: Row, now: int): Row
    requires note.Note?
  {
    Note(note.id, note.workspaceId, note.content, note.role, note.fieldId, note.createdAt, now, Some(now),
         note.deletedAt, note.currentRevisionId, note.lastChangeId, note.conflictStatus)
  }

  function SoftDeleted(note: Row, now: int): Row
    requires note.Note?
  {
    Note(note.id, note.workspaceId, note.content, note.role, note.fieldId, note.createdAt, now, note.archivedAt,
         Some(now), note.currentRevisionId, note.lastChangeId, note.conflictStatus)
  }

  /** The archived row: archived and updated now, and otherwise as it was. */
  ghost predicate IsArchived(note: Row, row: Row, now: int) {
    && note.Note? && row.Note? && row.archivedAt == Some(now) && row.updatedAt == now
    && row.(archivedAt := note.archivedAt, updatedAt := note.updatedAt) == note
  }

  /** The deleted row: deleted and updated now, and otherwise as it was. */
  ghost predicate IsSoftDeleted(note: Row, row: Row, now: int) {
    && note.Note? && row.Note? && row.deletedAt == Some(now) && row.updatedAt == now
    && row.(deletedAt := note.deletedAt, updatedAt := note.updatedAt) == note
  }

  /** One change more, which tells of the note as it is now. */
  ghost predicate NoteReported(journal: seq<Change>, later: seq<Change>, note: Row, operation: Operation,
                               defaults: Defaults, now: int)
    requires note.Note?
  {
    exists id :: later == journal + [
      Change(id, note.workspaceId, DefaultDeviceId(defaults, note.workspaceId), NoteEntity, note.id, operation, None,
             note.currentRevisionId, NotePayload(note), now, Some(now), None)]
  }

  /** Rewrites a note row without touching its references, and records it. */
  method Stamp(db: Database, note: Row, stamped: Row, operation: Operation, now: int)
    requires db.Good({}) && note.Note? && stamped.Note? && Lookup(db.rows, note.PrimaryKey()) == Some(note)
    requires stamped.id == note.id && stamped.workspaceId == note.workspaceId && stamped.fieldId == note.fieldId
    modifies db
    ensures db.Good({}) && old(db.issued) <= db.issued
    ensures OnlyDevices(old(db.rows)[stamped.PrimaryKey() := stamped], db.rows)
    ensures NoteReported(old(db.journal), db.journal, stamped, operation, db.defaults, now)
  {
    ghost var s := db.rows;
    StampAnchors(s, note, stamped);
    RewriteStep(s, db.journal, db.issued, {}, stamped);
    db.rows := db.rows[stamped.PrimaryKey() := stamped];
    var id := RecordNote(db, stamped, operation, now, {});
  }

  lemma StampAnchors(s: Rows, note: Row, stamped: Row)
    requires Resolves(s) && note.Note? && stamped.Note? && Lookup(s, note.PrimaryKey()) == Some(note)
    requires stamped.id == note.id && stamped.workspaceId == note.workspaceId && stamped.fieldId == note.fieldId
    ensures Resolved(s, stamped)
  {
    assert Resolved(s, s[note.PrimaryKey()]);
    assert Targets(stamped) == Targets(note);
  }

  /** Hides a visible note; its fields, tags, links and revisions stay. */
  method ArchiveNote(db: Database, workspaceId: string, noteRef: string, now: int) returns (r: Result<Row, NoteError>)
    requires db.Good({})
    modifies db
    ensures db.Good({}) && old(db.issued) <= db.issued
    ensures Resolution(old(db.rows), workspaceId, noteRef) == if r.Failure? then Some(r.error) else None
    ensures r.Failure? ==> db.rows == old(db.rows) && db.journal == old(db.journal)
    ensures r.Success? ==>
              && r.value.Note? && Candidates(old(db.rows), workspaceId, noteRef) == {Ref(Notes, r.value.id)}
              && Ref(Notes, r.value.id) in old(db.rows) && old(db.rows)[Ref(Notes, r.value.id)].Note?
              && IsArchived(old(db.rows)[Ref(Notes, r.value.id)], r.value, now)
              && OnlyDevices(old(db.rows)[Ref(Notes, r.value.id) := r.value], db.rows)
              && NoteReported(old(db.journal), db.journal, r.value, Update, db.defaults, now)
  {
    var found := GetNoteByRef(db, workspaceId, noteRef);
    if found.Failure? {
      return Failure(found.error);
    }
    var archived := Archived(found.value, now);
    Stamp(db, found.value, archived, Update, now);
    r := Success(archived);
  }

  /** Soft-deletes a visible note: the row stays, with a deletion change. */
  method DeleteNote(db: Database, workspaceId: string, noteRef: string, now: int)
    returns (r: Result<(), NoteError>, ghost note: Row, ghost gone: Row)
    requires db.Good({})
    modifies db
    ensures db.Good({}) && old(db.issued) <= db.issued
    ensures Resolution(old(db.rows), workspaceId, noteRef) == if r.Failure? then Some(r.error) else None
    ensures r.Failure? ==> db.rows == old(db.rows) && db.journal == old(db.journal)
    ensures r.Success? ==>
              && note.Note? && Candidates(old(db.rows), workspaceId, noteRef) == {Ref(Notes, note.id)}
              && Lookup(old(db.rows), Ref(Notes, note.id)) == Some(note)
              && IsSoftDeleted(note, gone, now)
              && OnlyDevices(old(db.rows)[Ref(Notes, note.id) := gone], db.rows)
              && NoteReported(old(db.journal), db.journal, gone, Delete, db.defaults, now)
  {
    note, gone := Workspace("", None, 0, 0, None, None), Workspace("", None, 0, 0, None, None);
    var found := GetNoteByRef(db, workspaceId, noteRef);
    if found.Failure? {
      return Failure(found.error), note, gone;
    }
    note, gone := found.value, SoftDeleted(found.value, now);
    Stamp(db, found.value, SoftDeleted(found.value, now), Delete, now);
    r := Success(());
  }

  // Tags of an existing note

  /** The note has this tag too, which has the path the client named. */
  ghost predicate TagAdded(s: Rows, journal: seq<Change>, t: Rows, later: seq<Change>, workspaceId: string,
                           noteId: string, path: string, tag: Row)
  {
    && tag.Tag? && TagAt(t, tag.PrimaryKey(), workspaceId, path)
    && TagIds(t, workspaceId, noteId) == TagIds(s, workspaceId, noteId) + {tag.id}
    && OnlyTagging(s, t, workspaceId, noteId) && Grown(s, journal, t, later, workspaceId)
  }

  /** Attaches a tag in a transaction of its own. */
  method TagNote(db: Database, workspaceId: string, noteId: string, tagName: string, now: int)
    returns (r: Result<Row, NoteError>)
    requires db.Good({}) && NoteIn(db.rows, workspaceId, noteId)
    modifies db
    ensures db.Good({}) && old(db.issued) <= db.issued
    ensures r.Failure? ==> db.rows == old(db.rows) && db.journal == old(db.journal)
    ensures r.Success? <==> TagPaths.NamesTag(tagName)
    ensures r.Success? ==>
              TagAdded(old(db.rows), old(db.journal), db.rows, db.journal, workspaceId, noteId,
                       TagPaths.Join(TagPaths.Parse(tagName)), r.value)
  {
    var rows, journal := db.rows, db.journal;
    ghost var issued := db.issued;
    var tag := AttachTag(db, workspaceId, noteId, tagName, now, {});
    if tag.Failure? {
      Rollback(db, rows, journal, issued);
      return Failure(DatabaseError(tag.error));
    }
    r := Success(tag.value);
  }

  /** Adds a tag to the note a reference means. */
  method AddTagToNote(db: Database, workspaceId: string, noteRef: string, tagName: string, now: int)
    returns (r: Result<Row, NoteError>)
    requires db.Good({})
    modifies db
    ensures db.Good({}) && old(db.issued) <= db.issued
    ensures r.Failure? ==> db.rows == old(db.rows) && db.journal == old(db.journal)
    ensures r.Success? <==> Resolution(old(db.rows), workspaceId, noteRef).None? && TagPaths.NamesTag(tagName)
    ensures r.Success? ==>
              exists noteId {:trigger Ref(Notes, noteId)} ::
                && Candidates(old(db.rows), workspaceId, noteRef) == {Ref(Notes, noteId)}
                && TagAdded(old(db.rows), old(db.journal), db.rows, db.journal, workspaceId, noteId,
                            TagPaths.Join(TagPaths.Parse(tagName)), r.value)
  {
    var found := GetNoteByRef(db, workspaceId, noteRef);
    if found.Failure? {
      return Failure(found.error);
    }
    r := TagNote(db, workspaceId, found.value.id, tagName, now);
  }

  /** Removes the tag of a path from the note a reference means. */
  method RemoveTagFromNote(db: Database, workspaceId: string, noteRef: string, path: string, now: int)
    returns (r: Result<(), NoteError>)
    requires db.Good({})
    modifies db
    ensures db.Good({}) && old(db.issued) <= db.issued
    ensures Resolution(old(db.rows), workspaceId, noteRef) == if r.Failure? then Some(r.error) else None
    ensures r.Failure? ==> db.rows == old(db.rows) && db.journal == old(db.journal)
    ensures r.Success? ==>
              exists noteId ::
                && Candidates(old(db.rows), workspaceId, noteRef) == {Ref(Notes, noteId)}
                && OnlyTagging(old(db.rows), db.rows, workspaceId, noteId)
                && forall id :: id in TagIds(db.rows, workspaceId, noteId) <==>
                                id in TagIds(old(db.rows), workspaceId, noteId) &&
                                    !TagAt(old(db.rows), Ref(Tags, id), workspaceId, path)
  {
    var found := GetNoteByRef(db, workspaceId, noteRef);
    if found.Failure? {
      return Failure(found.error);
    }
    DetachTag(db, workspaceId, found.value.id, path, now, {});
    r := Success(());
  }
}
