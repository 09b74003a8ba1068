/** Applying a batch of remote changes: each change once, bad ones set aside as
    conflicts, and the same winning revision in whatever order they come. */
module Apply {
  import opened Base
  import opened Tables
  import opened Payloads
  import opened ForeignKeys

  // The winning revision

  /** Newest first; among equals the larger device id, no device counting as the
      empty one; then the larger id. */
  predicate Beats(a: Row, b: Row)
    requires a.NoteRevision? && b.NoteRevision?
  {
    var d, e := DeviceOf(a), DeviceOf(b);
    if a.createdAt != b.createdAt then a.createdAt > b.createdAt
    else if d != e then StringLess(e, d)
    else StringLess(b.id, a.id)
  }

  function DeviceOf(revision: Row): string
    requires revision.NoteRevision?
  {
    if revision.deviceId.Some? then revision.deviceId.value else []
  }

  /** The revisions of a note. */
  function RevisionsOf(s: Rows, workspaceId: string, noteId: string): set<Row> {
    set r | r in s && s[r].NoteRevision? && s[r].workspaceId == workspaceId && s[r].noteId == noteId :: s[r]
  }

  ghost predicate Wins(revisions: set<Row>, w: Row) {
    w in revisions && w.NoteRevision? && forall x <- revisions :: x.NoteRevision? && (x == w || Beats(w, x))
  }

  ghost function Winner(revisions: set<Row>): Option<Row> {
    if exists w :: Wins(revisions, w) then var w :| Wins(revisions, w); Some(w) else None
  }

  lemma BeatsIsTotal(a: Row, b: Row)
    requires a.NoteRevision? && b.NoteRevision? && a.id != b.id
    ensures Beats(a, b) <==> !Beats(b, a)
  {
    var d, e := DeviceOf(a), DeviceOf(b);
    StringLessTotal(d, e);
    StringLessTotal(a.id, b.id);
    if StringLess(d, e) { StringLessAsymmetric(d, e); }
    if StringLess(e, d) { StringLessAsymmetric(e, d); }
    if StringLess(a.id, b.id) { StringLessAsymmetric(a.id, b.id); }
    if StringLess(b.id, a.id) { StringLessAsymmetric(b.id, a.id); }
  }

  lemma BeatsIsTransitive(a: Row, b: Row, c: Row)
    requires a.NoteRevision? && b.NoteRevision? && c.NoteRevision? && Beats(a, b) && Beats(b, c)
    ensures Beats(a, c)
  {
    if a.createdAt == b.createdAt == c.createdAt {
      var d, e, f := DeviceOf(a), DeviceOf(b), DeviceOf(c);
      if d != e && e != f {
        StringLessTransitive(f, e, d);
        StringLessAsymmetric(f, d);
      } else if d == e == f {
        StringLessTransitive(c.id, b.id, a.id);
      }
    }
  }

  /** Revision ids are primary keys. */
  ghost predicate DistinctRevisions(revisions: set<Row>) {
    && (forall x <- revisions :: x.NoteRevision?)
    && forall x <- revisions, y <- revisions :: x.id == y.id ==> x == y
  }

  lemma WinnerIs(revisions: set<Row>, w: Row)
    requires DistinctRevisions(revisions) && Wins(revisions, w)
    ensures Winner(revisions) == Some(w)
  {
    var v := Winner(revisions).value;
    if v != w {
      BeatsIsTotal(v, w);
    }
  }

  /** `w` is the latest revision of its note: by creation time, then by device, none
      counting as the empty one, then by id. */
  ghost predicate LatestRevision(s: Rows, w: Row) {
    && w.NoteRevision? && Lookup(s, Ref(NoteRevisions, w.id)) == Some(w)
    && forall r <- s :: s[r].NoteRevision? && s[r].workspaceId == w.workspaceId && s[r].noteId == w.noteId ==>
         var x, d, e := s[r], if w.deviceId.Some? then w.deviceId.value else "",
                        if s[r].deviceId.Some? then s[r].deviceId.value else "";
         || x == w || w.createdAt > x.createdAt
         || (w.createdAt == x.createdAt && (StringLess(e, d) || (d == e && StringLess(x.id, w.id))))
  }

  lemma WinnerIsLatest(s: Rows, workspaceId: string, noteId: string)
    requires Keyed(s)
    ensures var w := Winner(RevisionsOf(s, workspaceId, noteId));
            if w.Some? then LatestRevision(s, w.value) && w.value.workspaceId == workspaceId && w.value.noteId == noteId
            else forall r <- s :: !(s[r].NoteRevision? && s[r].workspaceId == workspaceId && s[r].noteId == noteId)
  {
    var revisions := RevisionsOf(s, workspaceId, noteId);
    RevisionsAreDistinct(s, workspaceId, noteId);
    if revisions != {} {
      BestExists(revisions);
      var w := Winner(revisions).value;
      assert Wins(revisions, w);
      var p :| p in s && s[p] == w;
      assert s[p].PrimaryKey() == p;
      forall r | r in s && s[r].NoteRevision? && s[r].workspaceId == workspaceId && s[r].noteId == noteId
        ensures s[r] == w || Beats(w, s[r])
      {
        assert s[r] in revisions;
      }
    } else {
      assert forall r <- s ::
          s[r].NoteRevision? && s[r].workspaceId == workspaceId && s[r].noteId == noteId ==> s[r] in revisions;
    }
  }

  /** A note with revisions has a winner. */
  method FindWinner(s: Rows, workspaceId: string, noteId: string) returns (w: Option<Row>)
    requires Keyed(s)
    ensures w == Winner(RevisionsOf(s, workspaceId, noteId))
    ensures w.None? <==> RevisionsOf(s, workspaceId, noteId) == {}
    ensures w.Some? ==> LatestRevision(s, w.value) && w.value.workspaceId == workspaceId && w.value.noteId == noteId
  {
    WinnerIsLatest(s, workspaceId, noteId);
    var revisions := RevisionsOf(s, workspaceId, noteId);
    RevisionsAreDistinct(s, workspaceId, noteId);
    w := None;
    var rest := revisions;
    while rest != {}
      invariant rest <= revisions
      invariant if w.None? then rest == revisions else Wins(revisions - rest, w.value)
      decreases rest
    {
      var x :| x in rest;
      rest := rest - {x};
      if w.None? {
        assert revisions - rest == {x};
        w := Some(x);
      } else {
        BeatsIsTotal(x, w.value);
        if Beats(x, w.value) {
          forall y | y in revisions - rest && y != x
            ensures Beats(x, y)
          {
            if y != w.value {
              BeatsIsTransitive(x, w.value, y);
            }
          }
          w := Some(x);
        }
      }
    }
    if w.Some? {
      assert revisions - rest == revisions;
      WinnerIs(revisions, w.value);
    }
  }

  lemma RevisionsAreDistinct(s: Rows, workspaceId: string, noteId: string)
    requires Keyed(s)
    ensures DistinctRevisions(RevisionsOf(s, workspaceId, noteId))
  {
    var revisions := RevisionsOf(s, workspaceId, noteId);
    forall x, y | x in revisions && y in revisions && x.id == y.id
      ensures x == y
    {
      var p :| p in s && s[p] == x;
      var q :| q in s && s[q] == y;
      assert s[p].PrimaryKey() == p && s[q].PrimaryKey() == q;
    }
  }

  // One change

  /** `INSERT OR IGNORE`: nothing if the key is taken, refused if a reference is
      missing. */
  function InsertOrIgnore(s: Rows, row: Row): Result<Rows, Rejection> {
    if row.PrimaryKey() in s then Success(s)
    else if Fits(s, row) then Success(s[row.PrimaryKey() := row])
    else Failure(StatementFailed)
  }

  /** A note that is there keeps its workspace, creation time and local bookkeeping. */
  function Revised(s: Rows, row: Row): (note: Row)
    requires row.Note?
    ensures note.Note? && note.PrimaryKey() == row.PrimaryKey()
  {
    if row.PrimaryKey() in s && s[row.PrimaryKey()].Note? then
      var held := s[row.PrimaryKey()];
      Note(row.id, held.workspaceId, row.content, row.role, row.fieldId, held.createdAt, row.updatedAt, row.archivedAt,
           row.deletedAt, row.currentRevisionId, held.lastChangeId, held.conflictStatus)
    else row
  }

  function UpsertNote(s: Rows, row: Row): Result<Rows, Rejection>
    requires row.Note?
  {
    if Fits(s, Revised(s, row)) then Success(s[row.PrimaryKey() := Revised(s, row)]) else Failure(StatementFailed)
  }

  /** The note with its current revision set, not earlier than it was updated. */
  function WithRevision(note: Row, revisionId: string, now: int): Row
    requires note.Note?
  {
    Note(note.id, note.workspaceId, note.content, note.role, note.fieldId, note.createdAt,
         if note.updatedAt < now then now else note.updatedAt, note.archivedAt, note.deletedAt, Some(revisionId),
         note.lastChangeId, note.conflictStatus)
  }

  function NoteOf(s: Rows, workspaceId: string, noteId: string): Option<Row> {
    var ref := Ref(Notes, noteId);
    if ref in s && s[ref].Note? && s[ref].workspaceId == workspaceId then Some(s[ref]) else None
  }

  /** Points a note at its winning revision. */
  ghost function Refreshed(s: Rows, noteId: string, to: Receipt): Result<Rows, Rejection> {
    var winner := Winner(RevisionsOf(s, to.workspaceId, noteId));
    if winner.None? || !winner.value.NoteRevision? then Failure(StatementFailed)
    else
      var note := NoteOf(s, to.workspaceId, noteId);
      Success(if note.Some? then s[Ref(Notes, noteId) := WithRevision(note.value, winner.value.id, to.now)] else s)
  }

  /** The entity types and operations there is a statement for. */
  predicate Supported(kind: EntityType, operation: Operation) {
    match kind
    case FieldEntity | TagEntity | NoteRevisionEntity => operation.Insert?
    case NoteEntity => operation.Insert? || operation.Update? || operation.Delete? || operation.Restore?
    case NoteTagEntity | NoteLinkEntity => operation.Attach? || operation.Detach?
    case _ => false
  }

  /** What a change comes down to. */
  datatype Statement =
    | Put(row: Row)
    | Upsert(row: Row)
    | PutRevision(row: Row)
    | Drop(ref: Ref)
    | DropLink(id: string)
  {
    predicate WellFormed() {
      match this
      case Put(row) => row.Field? || row.Tag? || row.NoteTag? || row.NoteLink?
      case Upsert(row) => row.Note?
      case PutRevision(row) => row.NoteRevision?
      case Drop(ref) => ref.table.NoteTags?
      case DropLink(_) => true
    }
  }

  function Putting(row: Result<Row, Rejection>): Result<Statement, Rejection> {
    if row.Success? then Success(Put(row.value)) else Failure(row.error)
  }

  /** The statement for a change, or why there is none. */
  function StatementFor(c: Change, to: Receipt): (r: Result<Statement, Rejection>)
    ensures r.Success? ==> r.value.WellFormed()
  {
    if !Supported(c.entityType, c.operation) then Failure(Unsupported(c.entityType, c.operation))
    else match c.entityType
      case FieldEntity => Putting(ParseField(c.payload, to))
      case TagEntity => Putting(ParseTag(c.payload, to))
      case NoteEntity =>
        var row := ParseNote(c.payload, to);
        if row.Success? then Success(Upsert(row.value)) else Failure(row.error)
      case NoteRevisionEntity =>
        var row := ParseNoteRevision(c.payload, to);
        if row.Success? then Success(PutRevision(row.value)) else Failure(row.error)
      case NoteTagEntity =>
        var row := ParseNoteTag(c.payload, to);
        if c.operation.Attach? || row.Failure? then Putting(row) else Success(Drop(row.value.PrimaryKey()))
      case NoteLinkEntity =>
        if c.operation.Attach? then Putting(ParseNoteLink(c.payload, to))
        else
          var id := RequiredText(c.payload, Id);
          if id.Success? then Success(DropLink(id.value)) else Failure(id.error)
      case _ => Failure(Unsupported(c.entityType, c.operation))
  }

  ghost function Run(s: Rows, statement: Statement, to: Receipt): Result<Rows, Rejection>
    requires statement.WellFormed()
  {
    match statement
    case Put(row) => InsertOrIgnore(s, row)
    case Upsert(row) => UpsertNote(s, row)
    case PutRevision(row) =>
      var next :- InsertOrIgnore(s, row);
      Refreshed(next, row.noteId, to)
    case Drop(ref) => Success(s - {ref})
    case DropLink(id) => Success(WithoutLink(s, to.workspaceId, id))
  }

  /** The tables after a change, or why it cannot be applied. */
  ghost function Effect(s: Rows, c: Change, to: Receipt): Result<Rows, Rejection> {
    var statement :- StatementFor(c, to);
    Run(s, statement, to)
  }

  function WithoutLink(s: Rows, workspaceId: string, id: string): Rows {
    var ref := Ref(NoteLinks, id);
    if ref in s && s[ref].Owner() == workspaceId then s - {ref} else s
  }

  /** A change that could not be applied, kept for inspection. */
  datatype SchemaConflict = SchemaConflict(entityType: EntityType, entityId: string, changeId: string,
                                           reason: Rejection)

  datatype State = State(rows: Rows, conflicts: seq<SchemaConflict>, applied: nat)

  /** The tables once the device of a change is known. */
  function WithRemoteDevice(s: Rows, deviceId: string, to: Receipt): Rows {
    if Ref(Devices, deviceId) in s then s
    else s[Ref(Devices, deviceId) := RemoteDevice(deviceId, to)]
  }

  function RemoteDevice(deviceId: string, to: Receipt): Row {
    Device(deviceId, to.workspaceId, deviceId, REMOTE_PLATFORM, to.now, None, true, None)
  }

  const REMOTE_PLATFORM := "remote"

  function LogRef(id: string): Ref {
    Ref(SyncChanges, id)
  }

  /** The change as it is logged here. */
  function LogRow(c: Change, to: Receipt): Row {
    ChangeRow(Change(c.id, to.workspaceId, c.deviceId, c.entityType, c.entityId, c.operation, c.baseRevisionId,
                     c.newRevisionId, c.payload, c.createdAt, Some(to.now), c.supabaseCommittedAt))
  }

  ghost function Outcome(s: Rows, c: Change, to: Receipt): Result<Rows, Rejection> {
    if c.payload.Malformed? then Failure(InvalidJson) else Effect(s, c, to)
  }

  /** One change of a batch. */
  ghost function Take(st: State, c: Change, workspaceId: string, now: int): State {
    var to := Receipt(workspaceId, c.id, now);
    var s := WithRemoteDevice(st.rows, c.deviceId, to);
    if LogRef(c.id) in s then st.(rows := s)
    else match Outcome(s, c, to)
      case Success(next) => State(next[LogRef(c.id) := LogRow(c, to)], st.conflicts, st.applied + 1)
      case Failure(reason) =>
        var conflict := SchemaConflict(c.entityType, c.entityId, c.id, reason);
        State(s[LogRef(c.id) := LogRow(c, to)], st.conflicts + [conflict], st.applied + 1)
  }

  ghost function Fold(st: State, batch: seq<Change>, workspaceId: string, now: int): State {
    if batch == [] then st
    else Take(Fold(st, batch[..|batch| - 1], workspaceId, now), batch[|batch| - 1], workspaceId, now)
  }

  /** The tables no statement writes to. */
  predicate Apart(t: Table) {
    t.SyncChanges? || t.Devices? || t.Workspaces?
  }

  lemma InsertFrame(s: Rows, row: Row)
    requires InsertOrIgnore(s, row).Success?
    ensures Keyed(s) ==> Keyed(InsertOrIgnore(s, row).value)
    ensures forall r: Ref :: r.table != row.Table() ==> Lookup(InsertOrIgnore(s, row).value, r) == Lookup(s, r)
    ensures s.Keys <= InsertOrIgnore(s, row).value.Keys
  {
  }

  lemma RefreshFrame(s: Rows, noteId: string, to: Receipt)
    requires Keyed(s) && Refreshed(s, noteId, to).Success?
    ensures Keyed(Refreshed(s, noteId, to).value)
    ensures forall r :: r != Ref(Notes, noteId) ==> Lookup(Refreshed(s, noteId, to).value, r) == Lookup(s, r)
    ensures Refreshed(s, noteId, to).value.Keys == s.Keys
  {
    var ref := Ref(Notes, noteId);
    if ref in s {
      assert s[ref].PrimaryKey() == ref;
    }
  }

  lemma RevisionFrame(s: Rows, row: Row, to: Receipt)
    requires Keyed(s) && row.NoteRevision? && InsertOrIgnore(s, row).Success?
    requires Refreshed(InsertOrIgnore(s, row).value, row.noteId, to).Success?
    ensures var next := Refreshed(InsertOrIgnore(s, row).value, row.noteId, to).value;
            && Keyed(next)
            && forall r: Ref | Apart(r.table) :: Lookup(next, r) == Lookup(s, r)
  {
    InsertFrame(s, row);
    RefreshFrame(InsertOrIgnore(s, row).value, row.noteId, to);
  }

  lemma UpsertFrame(s: Rows, row: Row)
    requires row.Note? && UpsertNote(s, row).Success?
    ensures Keyed(s) ==> Keyed(UpsertNote(s, row).value)
    ensures forall r: Ref | !r.table.Notes? :: Lookup(UpsertNote(s, row).value, r) == Lookup(s, r)
  {
  }

  lemma RemovalFrame(s: Rows, ref: Ref)
    requires Keyed(s)
    ensures Keyed(s - {ref}) && forall r :: r != ref ==> Lookup(s - {ref}, r) == Lookup(s, r)
  {
  }

  /** A statement never touches the log, the devices or the workspaces. */
  lemma RunFrame(s: Rows, statement: Statement, to: Receipt)
    requires Keyed(s) && statement.WellFormed() && Run(s, statement, to).Success?
    ensures var next := Run(s, statement, to).value;
            && Keyed(next)
            && forall r: Ref | Apart(r.table) :: Lookup(next, r) == Lookup(s, r)
  {
    match statement
    case Put(row) => InsertFrame(s, row);
    case Upsert(row) => UpsertFrame(s, row);
    case PutRevision(row) => RevisionFrame(s, row, to);
    case Drop(ref) => RemovalFrame(s, ref);
    case DropLink(id) => RemovalFrame(s, Ref(NoteLinks, id));
  }

  lemma EffectFrame(s: Rows, c: Change, to: Receipt)
    requires Keyed(s) && Effect(s, c, to).Success?
    ensures Keyed(Effect(s, c, to).value)
    ensures forall r: Ref | Apart(r.table) ::
              Lookup(Effect(s, c, to).value, r) == Lookup(s, r)
  {
    RunFrame(s, StatementFor(c, to).value, to);
  }

  // A whole batch

  predicate HasChange(s: Rows, id: string) {
    LogRef(id) in s
  }

  predicate DeviceKnown(s: Rows, deviceId: string) {
    Ref(Devices, deviceId) in s
  }

  lemma OutcomeFrame(s: Rows, c: Change, to: Receipt)
    requires Keyed(s) && Outcome(s, c, to).Success?
    ensures Keyed(Outcome(s, c, to).value)
    ensures forall r: Ref | Apart(r.table) ::
              Lookup(Outcome(s, c, to).value, r) == Lookup(s, r)
  {
    EffectFrame(s, c, to);
  }

  /** What a change leaves in the log, the devices and the workspaces. */
  lemma TakeAt(st: State, c: Change, workspaceId: string, now: int, r: Ref)
    requires Keyed(st.rows) && Apart(r.table)
    ensures var to := Receipt(workspaceId, c.id, now);
            var s := WithRemoteDevice(st.rows, c.deviceId, to);
            Lookup(Take(st, c, workspaceId, now).rows, r) ==
            if r == LogRef(c.id) && r !in s then Some(LogRow(c, to)) else Lookup(s, r)
  {
    var to := Receipt(workspaceId, c.id, now);
    var s := WithRemoteDevice(st.rows, c.deviceId, to);
    if LogRef(c.id) !in s && Outcome(s, c, to).Success? {
      OutcomeFrame(s, c, to);
      assert Lookup(Outcome(s, c, to).value, r) == Lookup(s, r);
    }
  }

  lemma PutIsKeyed(s: Rows, row: Row)
    requires Keyed(s)
    ensures Keyed(s[row.PrimaryKey() := row])
  {
  }

  lemma TakeIsKeyed(st: State, c: Change, workspaceId: string, now: int)
    requires Keyed(st.rows)
    ensures Keyed(Take(st, c, workspaceId, now).rows)
  {
    var to := Receipt(workspaceId, c.id, now);
    var s := WithRemoteDevice(st.rows, c.deviceId, to);
    PutIsKeyed(st.rows, RemoteDevice(c.deviceId, to));
    if LogRef(c.id) !in s {
      if Outcome(s, c, to).Success? {
        OutcomeFrame(s, c, to);
        PutIsKeyed(Outcome(s, c, to).value, LogRow(c, to));
      } else {
        PutIsKeyed(s, LogRow(c, to));
      }
    }
  }

  lemma TakeOnce(st: State, c: Change, workspaceId: string, now: int)
    ensures var next := Take(st, c, workspaceId, now);
            next.applied == st.applied + (if HasChange(st.rows, c.id) then 0 else 1) && st.conflicts <= next.conflicts
  {
  }

  /** The ids of a batch that are not logged yet. */
  function NewIds(s: Rows, batch: seq<Change>): set<string> {
    set c | c in batch && !HasChange(s, c.id) :: c.id
  }

  lemma OneMoreId(s: Rows, init: seq<Change>, last: Change)
    ensures |NewIds(s, init + [last])| ==
            |NewIds(s, init)| + if HasChange(s, last.id) || exists c <- init :: c.id == last.id then 0 else 1
  {
    var ids := NewIds(s, init);
    IdsOfMore(s, init, last);
    if HasChange(s, last.id) {
      assert ids + {} == ids;
    } else {
      assert last.id in ids <==> exists c <- init :: c.id == last.id;
      assert last.id in ids ==> ids + {last.id} == ids;
    }
  }

  lemma MembersOfMore(init: seq<Change>, last: Change)
    ensures forall c :: c in init + [last] <==> c in init || c == last
  {
  }

  lemma IdsOfMore(s: Rows, init: seq<Change>, last: Change)
    ensures NewIds(s, init + [last]) == NewIds(s, init) + if HasChange(s, last.id) then {} else {last.id}
  {
    assert last in init + [last];
  }

  lemma {:induction false} FoldIsKeyed(st: State, batch: seq<Change>, workspaceId: string, now: int)
    requires Keyed(st.rows)
    ensures Keyed(Fold(st, batch, workspaceId, now).rows)
  {
    if batch != [] {
      var init, last := batch[..|batch| - 1], batch[|batch| - 1];
      FoldIsKeyed(st, init, workspaceId, now);
      TakeIsKeyed(Fold(st, init, workspaceId, now), last, workspaceId, now);
    }
  }

  lemma {:induction false} FoldHasChange(st: State, batch: seq<Change>, workspaceId: string, now: int, id: string)
    requires Keyed(st.rows)
    ensures var end := Fold(st, batch, workspaceId, now).rows;
            && (HasChange(end, id) <==> HasChange(st.rows, id) || exists c <- batch :: c.id == id)
            && (HasChange(st.rows, id) ==> end[LogRef(id)] == st.rows[LogRef(id)])
  {
    if batch != [] {
      var init, last := batch[..|batch| - 1], batch[|batch| - 1];
      assert batch == init + [last];
      FoldIsKeyed(st, init, workspaceId, now);
      FoldHasChange(st, init, workspaceId, now, id);
      TakeAt(Fold(st, init, workspaceId, now), last, workspaceId, now, LogRef(id));
      MembersOfMore(init, last);
    }
  }

  lemma {:induction false} FoldKnowsDevice(st: State, batch: seq<Change>, workspaceId: string, now: int, d: string)
    requires Keyed(st.rows) && (DeviceKnown(st.rows, d) || exists c <- batch :: c.deviceId == d)
    ensures DeviceKnown(Fold(st, batch, workspaceId, now).rows, d)
  {
    if batch != [] {
      var init, last := batch[..|batch| - 1], batch[|batch| - 1];
      assert batch == init + [last];
      FoldIsKeyed(st, init, workspaceId, now);
      if last.deviceId != d {
        FoldKnowsDevice(st, init, workspaceId, now, d);
      }
      TakeAt(Fold(st, init, workspaceId, now), last, workspaceId, now, Ref(Devices, d));
    }
  }

  lemma {:induction false} FoldCounts(st: State, batch: seq<Change>, workspaceId: string, now: int)
    requires Keyed(st.rows)
    ensures var end := Fold(st, batch, workspaceId, now);
            end.applied == st.applied + |NewIds(st.rows, batch)| && st.conflicts <= end.conflicts
  {
    if batch == [] {
      assert NewIds(st.rows, batch) == {};
    } else {
      var init, last := batch[..|batch| - 1], batch[|batch| - 1];
      assert batch == init + [last];
      FoldCounts(st, init, workspaceId, now);
      FoldHasChange(st, init, workspaceId, now, last.id);
      TakeOnce(Fold(st, init, workspaceId, now), last, workspaceId, now);
      OneMoreId(st.rows, init, last);
    }
  }

  lemma FoldLogs(st: State, batch: seq<Change>, workspaceId: string, now: int)
    requires Keyed(st.rows)
    ensures Keyed(Fold(st, batch, workspaceId, now).rows)
    ensures forall id :: HasChange(Fold(st, batch, workspaceId, now).rows, id) <==>
                         HasChange(st.rows, id) || exists c <- batch :: c.id == id
  {
    FoldIsKeyed(st, batch, workspaceId, now);
    forall id
      ensures HasChange(Fold(st, batch, workspaceId, now).rows, id) <==>
              HasChange(st.rows, id) || exists c <- batch :: c.id == id
    {
      FoldHasChange(st, batch, workspaceId, now, id);
    }
  }

  lemma {:induction false} KnownBatch(st: State, batch: seq<Change>, workspaceId: string, now: int)
    requires forall c <- batch :: HasChange(st.rows, c.id) && DeviceKnown(st.rows, c.deviceId)
    ensures Fold(st, batch, workspaceId, now) == st
  {
    if batch != [] {
      var init, last := batch[..|batch| - 1], batch[|batch| - 1];
      assert batch == init + [last];
      KnownBatch(st, init, workspaceId, now);
    }
  }

  /** Exactly once: a batch counts its distinct new ids and logs exactly those; applied
      again, whenever and in whatever order, it counts nothing and changes nothing. */
  lemma ExactlyOnce(rows: Rows, conflicts: seq<SchemaConflict>, batch: seq<Change>, again: seq<Change>,
                    workspaceId: string, now: int, later: int)
    requires Keyed(rows) && forall c <- again :: c in batch
    ensures var first := Fold(State(rows, conflicts, 0), batch, workspaceId, now);
            && first.applied == |NewIds(rows, batch)|
            && (forall id :: HasChange(first.rows, id) <==> HasChange(rows, id) || exists c <- batch :: c.id == id)
            && Fold(State(first.rows, first.conflicts, 0), again, workspaceId, later) ==
               State(first.rows, first.conflicts, 0)
  {
    var first := Fold(State(rows, conflicts, 0), batch, workspaceId, now);
    FoldLogs(State(rows, conflicts, 0), batch, workspaceId, now);
    FoldCounts(State(rows, conflicts, 0), batch, workspaceId, now);
    forall d | exists c <- batch :: c.deviceId == d
      ensures DeviceKnown(first.rows, d)
    {
      FoldKnowsDevice(State(rows, conflicts, 0), batch, workspaceId, now, d);
    }
    KnownBatch(State(first.rows, first.conflicts, 0), again, workspaceId, later);
  }

  // Bad changes

  ghost predicate SetAside(st: State, id: string) {
    exists k <- st.conflicts :: k.changeId == id
  }

  /** Nothing the tables hold can make this change applicable: the payload is no
      JSON, lacks something the entity needs, or nothing is done about the pair. */
  ghost predicate Hopeless(c: Change) {
    c.payload.Malformed? || forall to :: StatementFor(c, to).Failure?
  }

  /** A hopeless change becomes a conflict and is logged, and the rest of the batch
      goes on; only new changes of the batch become conflicts. */
  lemma {:induction false} BadChangesAreSetAside(st: State, batch: seq<Change>, workspaceId: string, now: int,
                                                 c: Change)
    requires Keyed(st.rows) && c in batch && !HasChange(st.rows, c.id) && Hopeless(c)
    requires forall d <- batch :: d.id == c.id ==> d == c
    ensures SetAside(Fold(st, batch, workspaceId, now), c.id) && HasChange(Fold(st, batch, workspaceId, now).rows, c.id)
  {
    FoldHasChange(st, batch, workspaceId, now, c.id);
    var init, last := batch[..|batch| - 1], batch[|batch| - 1];
    assert batch == init + [last];
    var mid := Fold(st, init, workspaceId, now);
    TakeOnce(mid, last, workspaceId, now);
    if c in init {
      BadChangesAreSetAside(st, init, workspaceId, now, c);
      var k :| k in mid.conflicts && k.changeId == c.id;
      assert k in Take(mid, last, workspaceId, now).conflicts;
    } else {
      FoldHasChange(st, init, workspaceId, now, c.id);
      assert last == c && !HasChange(mid.rows, c.id);
      var to := Receipt(workspaceId, c.id, now);
      var reason := Outcome(WithRemoteDevice(mid.rows, c.deviceId, to), c, to).error;
      var k := SchemaConflict(c.entityType, c.entityId, c.id, reason);
      assert k in Take(mid, last, workspaceId, now).conflicts;
    }
  }

  lemma OneConflictAtMost(st: State, c: Change, workspaceId: string, now: int, i: nat)
    requires i < |Take(st, c, workspaceId, now).conflicts|
    ensures var next := Take(st, c, workspaceId, now);
            if i < |st.conflicts| then next.conflicts[i] == st.conflicts[i]
            else next.conflicts[i].changeId == c.id && !HasChange(st.rows, c.id)
  {
  }

  lemma {:induction false} OnlyNewChangesAreSetAside(st: State, batch: seq<Change>, workspaceId: string, now: int,
                                                     i: nat)
    requires Keyed(st.rows) && i < |Fold(st, batch, workspaceId, now).conflicts|
    ensures var end := Fold(st, batch, workspaceId, now);
            if i < |st.conflicts| then end.conflicts[i] == st.conflicts[i]
            else end.conflicts[i].changeId in NewIds(st.rows, batch)
  {
    if batch != [] {
      var init, last := batch[..|batch| - 1], batch[|batch| - 1];
      assert batch == init + [last];
      var mid := Fold(st, init, workspaceId, now);
      FoldCounts(st, init, workspaceId, now);
      FoldHasChange(st, init, workspaceId, now, last.id);
      OneConflictAtMost(mid, last, workspaceId, now, i);
      if i < |mid.conflicts| {
        OnlyNewChangesAreSetAside(st, init, workspaceId, now, i);
        assert NewIds(st.rows, init) <= NewIds(st.rows, batch);
      }
    }
  }

  // Revisions in any order

  function RevisionIn(c: Change, workspaceId: string, now: int): Result<Row, Rejection> {
    ParseNoteRevision(c.payload, Receipt(workspaceId, c.id, now))
  }

  /** A new revision of a note that is there, from a device that is known or that its
      own change brings in. */
  ghost predicate CleanRevision(s: Rows, c: Change, workspaceId: string, now: int) {
    && c.entityType.NoteRevisionEntity? && c.operation.Insert? && !c.payload.Malformed? && !HasChange(s, c.id)
    && RevisionIn(c, workspaceId, now).Success?
    && var row := RevisionIn(c, workspaceId, now).value;
       Fits(WithRemoteDevice(s, c.deviceId, Receipt(workspaceId, c.id, now)), row) && row.PrimaryKey() !in s
  }

  /** The note points at the winner among its revisions. */
  ghost predicate Settled(s: Rows, workspaceId: string, noteId: string) {
    var winner := Winner(RevisionsOf(s, workspaceId, noteId));
    && winner.Some? && winner.value.NoteRevision?
    && (NoteOf(s, workspaceId, noteId).Some? ==>
        NoteOf(s, workspaceId, noteId).value.currentRevisionId == Some(winner.value.id))
  }

  lemma WinnerExists(s: Rows, workspaceId: string, noteId: string, row: Row)
    requires Keyed(s) && row in RevisionsOf(s, workspaceId, noteId)
    ensures Winner(RevisionsOf(s, workspaceId, noteId)).Some? &&
            Winner(RevisionsOf(s, workspaceId, noteId)).value.NoteRevision?
  {
    RevisionsAreDistinct(s, workspaceId, noteId);
    BestExists(RevisionsOf(s, workspaceId, noteId));
  }

  lemma {:induction false} BestExists(revisions: set<Row>)
    requires DistinctRevisions(revisions) && revisions != {}
    ensures exists w :: Wins(revisions, w)
    decreases revisions
  {
    var x :| x in revisions;
    var rest := revisions - {x};
    assert revisions == rest + {x};
    if rest == {} {
      assert Wins(revisions, x);
    } else {
      BestExists(rest);
      var w :| Wins(rest, w);
      BeatsIsTotal(x, w);
      if Beats(x, w) {
        forall y | y in revisions && y != x
          ensures Beats(x, y)
        {
          if y != w {
            assert y in rest;
            BeatsIsTransitive(x, w, y);
          }
        }
        assert Wins(revisions, x);
      } else {
        assert Wins(revisions, w);
      }
    }
  }

  lemma InsertedRevisions(s: Rows, row: Row, workspaceId: string, noteId: string)
    requires row.NoteRevision? && row.workspaceId == workspaceId && row.PrimaryKey() !in s
    ensures RevisionsOf(s[row.PrimaryKey() := row], workspaceId, noteId) ==
            RevisionsOf(s, workspaceId, noteId) + if row.noteId == noteId then {row} else {}
  {
    var t := s[row.PrimaryKey() := row];
    assert t[row.PrimaryKey()] == row;
    forall x | x in RevisionsOf(s, workspaceId, noteId)
      ensures x in RevisionsOf(t, workspaceId, noteId)
    {
      var r :| r in s && s[r].NoteRevision? && s[r].workspaceId == workspaceId && s[r].noteId == noteId && s[r] == x;
      assert t[r] == x;
    }
  }

  lemma SameRevisions(s: Rows, t: Rows, workspaceId: string, noteId: string)
    requires Keyed(s) && Keyed(t)
    requires forall r: Ref | r.table.NoteRevisions? :: Lookup(t, r) == Lookup(s, r)
    ensures RevisionsOf(t, workspaceId, noteId) == RevisionsOf(s, workspaceId, noteId)
  {
    forall x
      ensures x in RevisionsOf(s, workspaceId, noteId) <==> x in RevisionsOf(t, workspaceId, noteId)
    {
      if x in RevisionsOf(s, workspaceId, noteId) {
        var r :| r in s && s[r].NoteRevision? && s[r].workspaceId == workspaceId && s[r].noteId == noteId && s[r] == x;
        assert s[r].PrimaryKey() == r && Lookup(t, r) == Lookup(s, r);
      }
      if x in RevisionsOf(t, workspaceId, noteId) {
        var r :| r in t && t[r].NoteRevision? && t[r].workspaceId == workspaceId && t[r].noteId == noteId && t[r] == x;
        assert t[r].PrimaryKey() == r && Lookup(t, r) == Lookup(s, r);
      }
    }
  }

  /** Nothing goes, and notes stay in their workspaces. */
  ghost predicate KeepsNotes(s: Rows, t: Rows) {
    forall r <- s :: r in t && (r.table.Notes? ==> t[r].Owner() == s[r].Owner())
  }

  lemma FitsPersists(s: Rows, t: Rows, row: Row)
    requires row.NoteRevision? && Fits(s, row) && KeepsNotes(s, t)
    ensures Fits(t, row)
  {
    var r := row.PrimaryKey();
    forall x | x in Targets(row)
      ensures x in t && (SharedTable(x.table) || t[r := row][x].Owner() == row.Owner())
    {
      assert x in s && (SharedTable(x.table) || s[r := row][x].Owner() == row.Owner());
    }
  }

  /** What one clean revision does. */
  ghost predicate RevisionTaken(s: Rows, t: Rows, row: Row, workspaceId: string)
    requires row.NoteRevision?
  {
    && Keyed(t) && KeepsNotes(s, t)
    && (forall r: Ref | r.table.NoteRevisions? :: r in t <==> r in s || r == row.PrimaryKey())
    && (forall noteId :: RevisionsOf(t, workspaceId, noteId) ==
                         RevisionsOf(s, workspaceId, noteId) + if row.noteId == noteId then {row} else {})
    && (forall noteId :: noteId != row.noteId ==> NoteOf(t, workspaceId, noteId) == NoteOf(s, workspaceId, noteId))
    && Settled(t, workspaceId, row.noteId)
  }

  lemma PutRevisionTaken(s: Rows, row: Row, to: Receipt)
    requires Keyed(s) && row.NoteRevision? && row.workspaceId == to.workspaceId && Fits(s, row) &&
             row.PrimaryKey() !in s
    ensures Run(s, PutRevision(row), to).Success?
    ensures RevisionTaken(s, Run(s, PutRevision(row), to).value, row, to.workspaceId)
  {
    var t := s[row.PrimaryKey() := row];
    assert Keyed(t);
    InsertedRevisions(s, row, to.workspaceId, row.noteId);
    WinnerExists(t, to.workspaceId, row.noteId, row);
    RefreshFrame(t, row.noteId, to);
    var u := Refreshed(t, row.noteId, to).value;
    forall noteId
      ensures RevisionsOf(u, to.workspaceId, noteId) ==
              RevisionsOf(s, to.workspaceId, noteId) + if row.noteId == noteId then {row} else {}
      ensures noteId != row.noteId ==> NoteOf(u, to.workspaceId, noteId) == NoteOf(s, to.workspaceId, noteId)
    {
      OneNoteRefreshed(s, t, u, row, to, noteId);
    }
  }

  lemma OneNoteRefreshed(s: Rows, t: Rows, u: Rows, row: Row, to: Receipt, noteId: string)
    requires Keyed(t) && Keyed(u) && row.NoteRevision? && row.workspaceId == to.workspaceId && row.PrimaryKey() !in s
    requires t == s[row.PrimaryKey() := row] && forall r :: r != Ref(Notes, row.noteId) ==> Lookup(u, r) == Lookup(t, r)
    ensures RevisionsOf(u, to.workspaceId, noteId) ==
            RevisionsOf(s, to.workspaceId, noteId) + if row.noteId == noteId then {row} else {}
    ensures noteId != row.noteId ==> NoteOf(u, to.workspaceId, noteId) == NoteOf(s, to.workspaceId, noteId)
  {
    InsertedRevisions(s, row, to.workspaceId, noteId);
    SameRevisions(t, u, to.workspaceId, noteId);
    assert noteId != row.noteId ==> Lookup(u, Ref(Notes, noteId)) == Lookup(t, Ref(Notes, noteId));
  }

  lemma LoggedRevisionTaken(s: Rows, t: Rows, row: Row, workspaceId: string, logged: Row)
    requires row.NoteRevision? && RevisionTaken(s, t, row, workspaceId) && logged.ChangeRow?
    ensures RevisionTaken(s, t[logged.PrimaryKey() := logged], row, workspaceId)
  {
    var u := t[logged.PrimaryKey() := logged];
    forall noteId
      ensures RevisionsOf(u, workspaceId, noteId) == RevisionsOf(t, workspaceId, noteId)
      ensures NoteOf(u, workspaceId, noteId) == NoteOf(t, workspaceId, noteId)
    {
      SameRevisions(t, u, workspaceId, noteId);
    }
  }

  lemma DeviceBeforeRevision(s: Rows, u: Rows, row: Row, deviceId: string, to: Receipt)
    requires Keyed(s) && row.NoteRevision? && RevisionTaken(WithRemoteDevice(s, deviceId, to), u, row, to.workspaceId)
    ensures RevisionTaken(s, u, row, to.workspaceId)
  {
    var t := WithRemoteDevice(s, deviceId, to);
    forall noteId
      ensures RevisionsOf(t, to.workspaceId, noteId) == RevisionsOf(s, to.workspaceId, noteId)
      ensures NoteOf(t, to.workspaceId, noteId) == NoteOf(s, to.workspaceId, noteId)
    {
      SameRevisions(s, t, to.workspaceId, noteId);
    }
  }

  lemma AroundRevision(s: Rows, u: Rows, row: Row, deviceId: string, logged: Row, to: Receipt)
    requires Keyed(s) && row.NoteRevision? && logged.ChangeRow?
    requires RevisionTaken(WithRemoteDevice(s, deviceId, to), u, row, to.workspaceId)
    ensures RevisionTaken(s, u[logged.PrimaryKey() := logged], row, to.workspaceId)
  {
    DeviceBeforeRevision(s, u, row, deviceId, to);
    LoggedRevisionTaken(s, u, row, to.workspaceId, logged);
  }

  lemma CleanOutcome(s: Rows, c: Change, row: Row, to: Receipt)
    requires row.NoteRevision? && c.entityType.NoteRevisionEntity? && c.operation.Insert? && !c.payload.Malformed?
    requires ParseNoteRevision(c.payload, to) == Success(row)
    ensures Outcome(s, c, to) == Run(s, PutRevision(row), to)
  {
    assert StatementFor(c, to) == Success(PutRevision(row));
  }

  lemma TakeOutcome(st: State, c: Change, workspaceId: string, now: int, next: Rows)
    requires !HasChange(st.rows, c.id)
    requires var to := Receipt(workspaceId, c.id, now);
             Outcome(WithRemoteDevice(st.rows, c.deviceId, to), c, to) == Success(next)
    ensures var logged := LogRow(c, Receipt(workspaceId, c.id, now));
            logged.ChangeRow? &&
            Take(st, c, workspaceId, now) ==
            State(next[logged.PrimaryKey() := logged], st.conflicts, st.applied + 1)
  {
  }

  lemma TakeClean(st: State, c: Change, workspaceId: string, now: int)
    requires Keyed(st.rows) && CleanRevision(st.rows, c, workspaceId, now)
    ensures RevisionTaken(st.rows, Take(st, c, workspaceId, now).rows, RevisionIn(c, workspaceId, now).value,
                          workspaceId)
  {
    var to, row := Receipt(workspaceId, c.id, now), RevisionIn(c, workspaceId, now).value;
    var s := WithRemoteDevice(st.rows, c.deviceId, to);
    CleanOutcome(s, c, row, to);
    PutRevisionTaken(s, row, to);
    var next := Run(s, PutRevision(row), to).value;
    var logged := LogRow(c, to);
    TakeOutcome(st, c, workspaceId, now, next);
    AroundRevision(st.rows, next, row, c.deviceId, logged, to);
  }

  function RevisionId(c: Change, workspaceId: string, now: int): Option<string> {
    var row := RevisionIn(c, workspaceId, now);
    if row.Success? then Some(row.value.id) else None
  }

  /** New revisions with distinct ids, each change with its own id. */
  ghost predicate CleanBatch(s: Rows, batch: seq<Change>, workspaceId: string, now: int) {
    (forall c <- batch :: CleanRevision(s, c, workspaceId, now)) && OnceEach(batch, workspaceId, now)
  }

  ghost predicate OnceEach(batch: seq<Change>, workspaceId: string, now: int) {
    && (forall c <- batch :: multiset(batch)[c] == 1)
    && (forall c <- batch, d <- batch :: c != d ==>
          c.id != d.id && RevisionId(c, workspaceId, now) != RevisionId(d, workspaceId, now))
  }

  ghost function RevisionsIn(batch: seq<Change>, workspaceId: string, now: int, noteId: string): set<Row> {
    set c | c in batch && RevisionIn(c, workspaceId, now).Success? &&
        RevisionIn(c, workspaceId, now).value.noteId == noteId ::
      RevisionIn(c, workspaceId, now).value
  }

  predicate Touches(c: Change, workspaceId: string, now: int, noteId: string) {
    RevisionIn(c, workspaceId, now).Success? && RevisionIn(c, workspaceId, now).value.noteId == noteId
  }

  /** After the batch every note has its old revisions and the new ones, and every
      note the batch touched points at the winner among all of them. */
  ghost predicate RevisionsTaken(s: Rows, t: Rows, batch: seq<Change>, workspaceId: string, now: int) {
    && Keyed(t) && KeepsNotes(s, t)
    && (forall r: Ref | r.table.NoteRevisions? ::
          r in t <==>
          r in s || exists c <- batch ::
            RevisionIn(c, workspaceId, now).Success? && RevisionIn(c, workspaceId, now).value.PrimaryKey() == r)
    && (forall noteId ::
          RevisionsOf(t, workspaceId, noteId) ==
          RevisionsOf(s, workspaceId, noteId) + RevisionsIn(batch, workspaceId, now, noteId))
    && (forall c <- batch, noteId | Touches(c, workspaceId, now, noteId) :: Settled(t, workspaceId, noteId))
  }

  lemma {:induction false} WinnersOfBatch(st: State, batch: seq<Change>, workspaceId: string, now: int)
    requires Keyed(st.rows) && CleanBatch(st.rows, batch, workspaceId, now)
    ensures RevisionsTaken(st.rows, Fold(st, batch, workspaceId, now).rows, batch, workspaceId, now)
  {
    if batch != [] {
      var init, last := batch[..|batch| - 1], batch[|batch| - 1];
      assert batch == init + [last];
      var mid := Fold(st, init, workspaceId, now);
      CleanPrefix(st.rows, init, last, workspaceId, now);
      OnceEachPrefix(init, last, workspaceId, now);
      WinnersOfBatch(st, init, workspaceId, now);
      FoldLogs(st, init, workspaceId, now);
      NextIsClean(st.rows, mid.rows, init, last, workspaceId, now);
      TakeClean(mid, last, workspaceId, now);
      OneMoreRevision(st.rows, mid.rows, Fold(st, batch, workspaceId, now).rows, init, last, workspaceId, now);
    }
  }

  lemma OnceInPrefix<T>(init: seq<T>, last: T, x: T)
    requires x in init && multiset(init + [last])[x] == 1
    ensures x != last && multiset(init)[x] == 1
  {
    assert multiset(init + [last])[x] == multiset(init)[x] + multiset{last}[x];
    assert x in multiset(init);
  }

  lemma OnceEachPrefix(init: seq<Change>, last: Change, workspaceId: string, now: int)
    requires OnceEach(init + [last], workspaceId, now)
    ensures OnceEach(init, workspaceId, now)
    ensures forall c <- init :: c.id != last.id && RevisionId(c, workspaceId, now) != RevisionId(last, workspaceId, now)
  {
    MembersOfMore(init, last);
    forall c | c in init
      ensures c != last && multiset(init)[c] == 1
    {
      OnceInPrefix(init, last, c);
    }
  }

  lemma CleanPrefix(s: Rows, init: seq<Change>, last: Change, workspaceId: string, now: int)
    requires CleanBatch(s, init + [last], workspaceId, now)
    ensures CleanBatch(s, init, workspaceId, now) && CleanRevision(s, last, workspaceId, now)
  {
    MembersOfMore(init, last);
    OnceEachPrefix(init, last, workspaceId, now);
  }

  lemma NextIsClean(s: Rows, t: Rows, init: seq<Change>, last: Change, workspaceId: string, now: int)
    requires CleanRevision(s, last, workspaceId, now) && RevisionsTaken(s, t, init, workspaceId, now)
    requires forall id :: HasChange(t, id) <==> HasChange(s, id) || exists c <- init :: c.id == id
    requires forall c <- init ::
               c.id != last.id && RevisionId(c, workspaceId, now) != RevisionId(last, workspaceId, now)
    ensures CleanRevision(t, last, workspaceId, now)
  {
    var to := Receipt(workspaceId, last.id, now);
    assert KeepsNotes(WithRemoteDevice(s, last.deviceId, to), WithRemoteDevice(t, last.deviceId, to));
    FitsPersists(WithRemoteDevice(s, last.deviceId, to), WithRemoteDevice(t, last.deviceId, to),
                 RevisionIn(last, workspaceId, now).value);
  }

  lemma RevisionsInNext(init: seq<Change>, last: Change, workspaceId: string, now: int, noteId: string)
    requires RevisionIn(last, workspaceId, now).Success?
    ensures var row := RevisionIn(last, workspaceId, now).value;
            RevisionsIn(init + [last], workspaceId, now, noteId) ==
            RevisionsIn(init, workspaceId, now, noteId) + if row.noteId == noteId then {row} else {}
  {
    assert last in init + [last];
  }

  lemma StillSettled(s: Rows, t: Rows, u: Rows, init: seq<Change>, row: Row, c: Change, workspaceId: string, now: int,
                     noteId: string)
    requires RevisionsTaken(s, t, init, workspaceId, now) && row.NoteRevision? && RevisionTaken(t, u, row, workspaceId)
    requires noteId == row.noteId || (c in init && Touches(c, workspaceId, now, noteId))
    ensures Settled(u, workspaceId, noteId)
  {
    if noteId != row.noteId {
      assert Settled(t, workspaceId, noteId);
      assert RevisionsOf(u, workspaceId, noteId) == RevisionsOf(t, workspaceId, noteId);
    }
  }

  lemma OneMoreRevision(s: Rows, t: Rows, u: Rows, init: seq<Change>, last: Change, workspaceId: string, now: int)
    requires RevisionsTaken(s, t, init, workspaceId, now) && RevisionIn(last, workspaceId, now).Success?
    requires RevisionTaken(t, u, RevisionIn(last, workspaceId, now).value, workspaceId)
    ensures RevisionsTaken(s, u, init + [last], workspaceId, now)
  {
    var row := RevisionIn(last, workspaceId, now).value;
    assert last in init + [last];
    forall noteId
      ensures RevisionsOf(u, workspaceId, noteId) ==
              RevisionsOf(s, workspaceId, noteId) + RevisionsIn(init + [last], workspaceId, now, noteId)
    {
      RevisionsInNext(init, last, workspaceId, now, noteId);
    }
    forall c, noteId | c in init + [last] && Touches(c, workspaceId, now, noteId)
      ensures Settled(u, workspaceId, noteId)
    {
      StillSettled(s, t, u, init, row, c, workspaceId, now, noteId);
    }
  }

  // The same state in any order

  /** The revision and the log entry a change writes. */
  predicate Writes(c: Change, workspaceId: string, now: int, r: Ref) {
    r == LogRef(c.id) ||
    (RevisionIn(c, workspaceId, now).Success? && RevisionIn(c, workspaceId, now).value.PrimaryKey() == r)
  }

  function Written(c: Change, workspaceId: string, now: int, r: Ref): Row
    requires Writes(c, workspaceId, now, r)
  {
    if r == LogRef(c.id) then LogRow(c, Receipt(workspaceId, c.id, now)) else RevisionIn(c, workspaceId, now).value
  }

  /** The note it is about, pointed at the winner among the revisions there now. */
  ghost function Landed(s: Rows, now: int, t: Rows, workspaceId: string, noteId: string, touched: bool): Option<Row> {
    var note, winner := NoteOf(s, workspaceId, noteId), Winner(RevisionsOf(t, workspaceId, noteId));
    if touched && note.Some? && winner.Some? && winner.value.NoteRevision?
    then Some(WithRevision(note.value, winner.value.id, now)) else Lookup(s, Ref(Notes, noteId))
  }

  ghost predicate TouchedBy(batch: seq<Change>, workspaceId: string, now: int, noteId: string) {
    exists c <- batch :: Touches(c, workspaceId, now, noteId)
  }

  lemma TakeCleanState(st: State, c: Change, workspaceId: string, now: int)
    requires Keyed(st.rows) && CleanRevision(st.rows, c, workspaceId, now)
    ensures var to, row := Receipt(workspaceId, c.id, now), RevisionIn(c, workspaceId, now).value;
            var inserted := WithRemoteDevice(st.rows, c.deviceId, to)[row.PrimaryKey() := row];
            && Keyed(inserted) && Refreshed(inserted, row.noteId, to).Success?
            && Take(st, c, workspaceId, now) ==
               State(Refreshed(inserted, row.noteId, to).value[LogRow(c, to).PrimaryKey() := LogRow(c, to)],
                     st.conflicts, st.applied + 1)
  {
    var to, row := Receipt(workspaceId, c.id, now), RevisionIn(c, workspaceId, now).value;
    var s := WithRemoteDevice(st.rows, c.deviceId, to);
    CleanOutcome(s, c, row, to);
    RunOfNew(s, row, to);
    TakeOutcome(st, c, workspaceId, now, Run(s, PutRevision(row), to).value);
  }

  lemma RunOfNew(s: Rows, row: Row, to: Receipt)
    requires Keyed(s) && row.NoteRevision? && row.workspaceId == to.workspaceId && Fits(s, row) &&
             row.PrimaryKey() !in s
    ensures var inserted := s[row.PrimaryKey() := row];
            && Keyed(inserted) && Refreshed(inserted, row.noteId, to).Success?
            && Run(s, PutRevision(row), to) == Refreshed(inserted, row.noteId, to)
  {
    PutRevisionTaken(s, row, to);
  }

  lemma TakeCleanAt(st: State, c: Change, workspaceId: string, now: int, r: Ref)
    requires Keyed(st.rows) && CleanRevision(st.rows, c, workspaceId, now) && !r.table.Notes? && !r.table.Devices?
    ensures Lookup(Take(st, c, workspaceId, now).rows, r) ==
            if Writes(c, workspaceId, now, r) then Some(Written(c, workspaceId, now, r)) else Lookup(st.rows, r)
  {
    var to, row := Receipt(workspaceId, c.id, now), RevisionIn(c, workspaceId, now).value;
    TakeCleanState(st, c, workspaceId, now);
    RefreshFrame(WithRemoteDevice(st.rows, c.deviceId, to)[row.PrimaryKey() := row], row.noteId, to);
  }

  lemma TakeCleanNote(st: State, c: Change, workspaceId: string, now: int, noteId: string)
    requires Keyed(st.rows) && CleanRevision(st.rows, c, workspaceId, now)
    ensures var next := Take(st, c, workspaceId, now).rows;
            Lookup(next, Ref(Notes, noteId)) ==
            Landed(st.rows, now, next, workspaceId, noteId, Touches(c, workspaceId, now, noteId))
  {
    var to, row := Receipt(workspaceId, c.id, now), RevisionIn(c, workspaceId, now).value;
    TakeCleanState(st, c, workspaceId, now);
    TakeIsKeyed(st, c, workspaceId, now);
    NoteInserted(WithRemoteDevice(st.rows, c.deviceId, to), row, to, LogRow(c, to), noteId);
    LandedFrom(st.rows, WithRemoteDevice(st.rows, c.deviceId, to), Take(st, c, workspaceId, now).rows, workspaceId, now,
               noteId, row.noteId == noteId);
  }

  lemma NoteInserted(s: Rows, row: Row, to: Receipt, logged: Row, noteId: string)
    requires row.NoteRevision? && logged.ChangeRow?
    requires var inserted := s[row.PrimaryKey() := row];
             && Keyed(inserted) && Refreshed(inserted, row.noteId, to).Success?
             && Keyed(Refreshed(inserted, row.noteId, to).value[logged.PrimaryKey() := logged])
    ensures var t := Refreshed(s[row.PrimaryKey() := row], row.noteId, to).value[logged.PrimaryKey() := logged];
            Lookup(t, Ref(Notes, noteId)) == Landed(s, to.now, t, to.workspaceId, noteId, row.noteId == noteId)
  {
    var inserted := s[row.PrimaryKey() := row];
    var t := Refreshed(inserted, row.noteId, to).value[logged.PrimaryKey() := logged];
    RefreshFrame(inserted, row.noteId, to);
    SameRevisions(inserted, t, to.workspaceId, noteId);
    LandedFrom(s, inserted, t, to.workspaceId, to.now, noteId, row.noteId == noteId);
  }

  lemma LandedFrom(s: Rows, u: Rows, t: Rows, workspaceId: string, now: int, noteId: string, touched: bool)
    requires Lookup(u, Ref(Notes, noteId)) == Lookup(s, Ref(Notes, noteId))
    ensures Landed(u, now, t, workspaceId, noteId, touched) == Landed(s, now, t, workspaceId, noteId, touched)
  {
  }

  lemma {:induction false} FoldDevice(st: State, batch: seq<Change>, workspaceId: string, now: int, d: string)
    requires Keyed(st.rows)
    ensures Lookup(Fold(st, batch, workspaceId, now).rows, Ref(Devices, d)) ==
            if !DeviceKnown(st.rows, d) && exists c <- batch :: c.deviceId == d
            then Some(RemoteDevice(d, Receipt(workspaceId, "", now))) else Lookup(st.rows, Ref(Devices, d))
  {
    if batch != [] {
      var init, last := batch[..|batch| - 1], batch[|batch| - 1];
      assert batch == init + [last];
      FoldIsKeyed(st, init, workspaceId, now);
      FoldDevice(st, init, workspaceId, now, d);
      TakeAt(Fold(st, init, workspaceId, now), last, workspaceId, now, Ref(Devices, d));
      MembersOfMore(init, last);
    }
  }

  lemma OneWriter(c: Change, d: Change, workspaceId: string, now: int, r: Ref)
    requires c.id != d.id && RevisionId(c, workspaceId, now) != RevisionId(d, workspaceId, now)
    requires Writes(c, workspaceId, now, r)
    ensures !Writes(d, workspaceId, now, r)
  {
  }

  lemma {:induction false} FoldCleanAt(st: State, batch: seq<Change>, workspaceId: string, now: int, r: Ref)
    requires Keyed(st.rows) && CleanBatch(st.rows, batch, workspaceId, now) && !r.table.Notes? && !r.table.Devices?
    ensures var end := Fold(st, batch, workspaceId, now);
            && (forall c <- batch :: Writes(c, workspaceId, now, r) ==>
                  Lookup(end.rows, r) == Some(Written(c, workspaceId, now, r)))
            && ((forall c <- batch :: !Writes(c, workspaceId, now, r)) ==> Lookup(end.rows, r) == Lookup(st.rows, r))
  {
    if batch != [] {
      var init, last := batch[..|batch| - 1], batch[|batch| - 1];
      assert batch == init + [last];
      var mid := Fold(st, init, workspaceId, now);
      CleanStep(st, init, last, workspaceId, now);
      FoldCleanAt(st, init, workspaceId, now, r);
      TakeCleanAt(mid, last, workspaceId, now, r);
      forall c | c in batch && Writes(c, workspaceId, now, r)
        ensures Lookup(Fold(st, batch, workspaceId, now).rows, r) == Some(Written(c, workspaceId, now, r))
      {
        if c != last {
          OneWriter(c, last, workspaceId, now, r);
        }
      }
    }
  }

  lemma CleanStep(st: State, init: seq<Change>, last: Change, workspaceId: string, now: int)
    requires Keyed(st.rows) && CleanBatch(st.rows, init + [last], workspaceId, now)
    ensures var mid := Fold(st, init, workspaceId, now);
            && CleanBatch(st.rows, init, workspaceId, now)
            && Keyed(mid.rows) && CleanRevision(mid.rows, last, workspaceId, now)
            && Fold(st, init + [last], workspaceId, now) == Take(mid, last, workspaceId, now)
    ensures forall c <- init :: c.id != last.id && RevisionId(c, workspaceId, now) != RevisionId(last, workspaceId, now)
  {
    CleanPrefix(st.rows, init, last, workspaceId, now);
    OnceEachPrefix(init, last, workspaceId, now);
    WinnersOfBatch(st, init, workspaceId, now);
    FoldLogs(st, init, workspaceId, now);
    NextIsClean(st.rows, Fold(st, init, workspaceId, now).rows, init, last, workspaceId, now);
    FoldNext(st, init, last, workspaceId, now);
  }

  lemma LandedTwice(s: Rows, mid: Rows, end: Rows, workspaceId: string, now: int, noteId: string, before: bool,
                    touched: bool)
    requires Lookup(mid, Ref(Notes, noteId)) == Landed(s, now, mid, workspaceId, noteId, before)
    requires Lookup(end, Ref(Notes, noteId)) == Landed(mid, now, end, workspaceId, noteId, touched)
    requires if touched then Settled(end, workspaceId, noteId)
             else RevisionsOf(end, workspaceId, noteId) == RevisionsOf(mid, workspaceId, noteId)
    ensures Lookup(end, Ref(Notes, noteId)) == Landed(s, now, end, workspaceId, noteId, before || touched)
  {
  }

  /** A touched note ends as it was but for the winner of all its revisions. */
  lemma {:induction false} FoldCleanNote(st: State, batch: seq<Change>, workspaceId: string, now: int, noteId: string)
    requires Keyed(st.rows) && CleanBatch(st.rows, batch, workspaceId, now)
    ensures var end := Fold(st, batch, workspaceId, now).rows;
            Lookup(end, Ref(Notes, noteId)) ==
            Landed(st.rows, now, end, workspaceId, noteId, TouchedBy(batch, workspaceId, now, noteId))
  {
    if batch != [] {
      var init, last := batch[..|batch| - 1], batch[|batch| - 1];
      assert batch == init + [last];
      var mid, end := Fold(st, init, workspaceId, now), Fold(st, batch, workspaceId, now);
      CleanStep(st, init, last, workspaceId, now);
      FoldCleanNote(st, init, workspaceId, now, noteId);
      TakeCleanNote(mid, last, workspaceId, now, noteId);
      TakeClean(mid, last, workspaceId, now);
      TouchedByMore(init, last, workspaceId, now, noteId);
      LandedTwice(st.rows, mid.rows, end.rows, workspaceId, now, noteId, TouchedBy(init, workspaceId, now, noteId),
                  Touches(last, workspaceId, now, noteId));
    }
  }

  lemma TouchedByMore(init: seq<Change>, last: Change, workspaceId: string, now: int, noteId: string)
    ensures TouchedBy(init + [last], workspaceId, now, noteId) <==>
            TouchedBy(init, workspaceId, now, noteId) || Touches(last, workspaceId, now, noteId)
  {
    MembersOfMore(init, last);
  }

  lemma {:induction false} FoldCleanRest(st: State, batch: seq<Change>, workspaceId: string, now: int)
    requires Keyed(st.rows) && CleanBatch(st.rows, batch, workspaceId, now)
    ensures var end := Fold(st, batch, workspaceId, now);
            end.conflicts == st.conflicts && end.applied == st.applied + |batch|
  {
    if batch != [] {
      var init, last := batch[..|batch| - 1], batch[|batch| - 1];
      assert batch == init + [last];
      CleanStep(st, init, last, workspaceId, now);
      FoldCleanRest(st, init, workspaceId, now);
      TakeCleanState(Fold(st, init, workspaceId, now), last, workspaceId, now);
    }
  }

  lemma SameMembers(a: seq<Change>, b: seq<Change>)
    requires multiset(a) == multiset(b)
    ensures |a| == |b| && forall c :: c in a <==> c in b
  {
    assert |multiset(a)| == |a| && |multiset(b)| == |b|;
    forall c
      ensures c in a <==> c in b
    {
      assert c in multiset(a) <==> c in multiset(b);
    }
  }

  lemma SameCleanBatch(s: Rows, a: seq<Change>, b: seq<Change>, workspaceId: string, now: int)
    requires multiset(a) == multiset(b) && CleanBatch(s, a, workspaceId, now)
    ensures CleanBatch(s, b, workspaceId, now)
  {
    SameMembers(a, b);
    SameOnceEach(a, b, workspaceId, now);
  }

  lemma SameOnceEach(a: seq<Change>, b: seq<Change>, workspaceId: string, now: int)
    requires multiset(a) == multiset(b) && OnceEach(a, workspaceId, now)
    ensures OnceEach(b, workspaceId, now)
  {
    SameMembers(a, b);
  }

  lemma SameRowAfter(st: State, a: seq<Change>, b: seq<Change>, workspaceId: string, now: int, r: Ref)
    requires Keyed(st.rows) && multiset(a) == multiset(b)
    requires CleanBatch(st.rows, a, workspaceId, now) && CleanBatch(st.rows, b, workspaceId, now)
    ensures Lookup(Fold(st, a, workspaceId, now).rows, r) == Lookup(Fold(st, b, workspaceId, now).rows, r)
  {
    SameMembers(a, b);
    if r.table.Notes? {
      WinnersOfBatch(st, a, workspaceId, now);
      WinnersOfBatch(st, b, workspaceId, now);
      assert RevisionsIn(a, workspaceId, now, r.key) == RevisionsIn(b, workspaceId, now, r.key);
      FoldCleanNote(st, a, workspaceId, now, r.key);
      FoldCleanNote(st, b, workspaceId, now, r.key);
    } else if r.table.Devices? {
      FoldDevice(st, a, workspaceId, now, r.key);
      FoldDevice(st, b, workspaceId, now, r.key);
    } else {
      FoldCleanAt(st, a, workspaceId, now, r);
      FoldCleanAt(st, b, workspaceId, now, r);
    }
  }

  /** Order independence: new revisions applied in any two orders leave the very same
      state, in which every note they touch points at the lexicographic maximum of
      creation time, device and id among all its revisions. */
  lemma OrderIndependentWinners(st: State, a: seq<Change>, b: seq<Change>, workspaceId: string, now: int,
                                noteId: string)
    requires Keyed(st.rows) && multiset(a) == multiset(b) && CleanBatch(st.rows, a, workspaceId, now)
    ensures var end := Fold(st, a, workspaceId, now);
            && Fold(st, b, workspaceId, now) == end
            && RevisionsOf(end.rows, workspaceId, noteId) ==
               RevisionsOf(st.rows, workspaceId, noteId) + RevisionsIn(a, workspaceId, now, noteId)
            && (TouchedBy(a, workspaceId, now, noteId) ==> Settled(end.rows, workspaceId, noteId))
  {
    SameCleanBatch(st.rows, a, b, workspaceId, now);
    SameMembers(a, b);
    WinnersOfBatch(st, a, workspaceId, now);
    FoldCleanRest(st, a, workspaceId, now);
    FoldCleanRest(st, b, workspaceId, now);
    forall r
      ensures Lookup(Fold(st, a, workspaceId, now).rows, r) == Lookup(Fold(st, b, workspaceId, now).rows, r)
    {
      SameRowAfter(st, a, b, workspaceId, now, r);
    }
    MapsEqual(Fold(st, a, workspaceId, now).rows, Fold(st, b, workspaceId, now).rows);
  }

  // The statements themselves

  /** A revision that was inserted gives its note a winner, so the refresh after it
      can fail only when the insertion was ignored. */
  lemma RefreshAfterInsert(s: Rows, row: Row, to: Receipt)
    requires Keyed(s) && row.NoteRevision? && row.workspaceId == to.workspaceId && InsertOrIgnore(s, row).Success?
    requires Refreshed(InsertOrIgnore(s, row).value, row.noteId, to).Failure?
    ensures InsertOrIgnore(s, row).value == s
  {
    if row.PrimaryKey() !in s {
      var t := InsertOrIgnore(s, row).value;
      InsertedRevisions(s, row, to.workspaceId, row.noteId);
      WinnerExists(t, to.workspaceId, row.noteId, row);
    }
  }

  class Inbox {
    var rows: Rows
    var conflicts: seq<SchemaConflict>
    const workspaceId: string

    constructor (rows: Rows, workspaceId: string)
      ensures this.rows == rows && conflicts == [] && this.workspaceId == workspaceId
    {
      this.rows, conflicts, this.workspaceId := rows, [], workspaceId;
    }

    /** An unknown device is inserted, if its workspace is there. */
    method EnsureRemoteDevice(deviceId: string, to: Receipt) returns (ok: bool)
      modifies this`rows
      ensures ok <==> DeviceKnown(old(rows), deviceId) || WorkspaceKnown(old(rows), to.workspaceId)
      ensures rows == if ok then WithRemoteDevice(old(rows), deviceId, to) else old(rows)
    {
      ok := true;
      if Ref(Devices, deviceId) !in rows {
        var device := RemoteDevice(deviceId, to);
        ok := Fits(rows, device);
        if ok {
          rows := rows[device.PrimaryKey() := device];
        }
      }
    }

    /** Points the note at the winning revision. */
    method RefreshWinner(noteId: string, to: Receipt) returns (r: Result<(), Rejection>)
      requires Keyed(rows)
      modifies this`rows
      ensures match Refreshed(old(rows), noteId, to)
              case Success(next) => r.Success? && rows == next
              case Failure(reason) => r == Failure(reason) && rows == old(rows)
    {
      var winner := FindWinner(rows, to.workspaceId, noteId);
      if winner.None? {
        return Failure(StatementFailed);
      }
      var note := NoteOf(rows, to.workspaceId, noteId);
      if note.Some? {
        rows := rows[Ref(Notes, noteId) := WithRevision(note.value, winner.value.id, to.now)];
      }
      r := Success(());
    }

    /** Runs one statement; a failed one leaves no trace. */
    method Execute(statement: Statement, to: Receipt) returns (r: Result<(), Rejection>)
      requires Keyed(rows) && statement.WellFormed()
      requires statement.PutRevision? ==> statement.row.workspaceId == to.workspaceId
      modifies this`rows
      ensures match Run(old(rows), statement, to)
              case Success(next) => r.Success? && rows == next
              case Failure(reason) => r == Failure(reason) && rows == old(rows)
    {
      r := Success(());
      match statement
      case Put(row) =>
        var next := InsertOrIgnore(rows, row);
        if next.Failure? { return Failure(next.error); }
        rows := next.value;
      case Upsert(row) =>
        var next := UpsertNote(rows, row);
        if next.Failure? { return Failure(next.error); }
        rows := next.value;
      case PutRevision(row) =>
        ghost var s := rows;
        var next := InsertOrIgnore(rows, row);
        if next.Failure? { return Failure(next.error); }
        InsertFrame(s, row);
        rows := next.value;
        r := RefreshWinner(row.noteId, to);
        if r.Failure? {
          RefreshAfterInsert(s, row, to);
        }
      case Drop(ref) =>
        rows := rows - {ref};
      case DropLink(id) =>
        rows := WithoutLink(rows, to.workspaceId, id);
    }

    /** Applies the payload, or tells why it cannot be applied. */
    method Attempt(c: Change, to: Receipt) returns (rejected: Option<Rejection>)
      requires Keyed(rows)
      modifies this`rows
      ensures match Outcome(old(rows), c, to)
              case Success(next) => rejected.None? && rows == next
              case Failure(reason) => rejected == Some(reason) && rows == old(rows)
    {
      if c.payload.Malformed? {
        return Some(InvalidJson);
      }
      var statement := StatementFor(c, to);
      if statement.Failure? {
        return Some(statement.error);
      }
      RevisionsArriveHere(c, to);
      var result := Execute(statement.value, to);
      rejected := if result.Failure? then Some(result.error) else None;
    }

    /** One change, in its own transaction, which a change that cannot be logged
        takes back. */
    method TakeChange(c: Change, now: int) returns (counted: Result<bool, Rejection>)
      requires Keyed(rows)
      modifies this
      ensures WorkspaceKnown(old(rows), workspaceId) ==>
                && counted.Success?
                && State(rows, conflicts, if counted.value then 1 else 0) ==
                   Take(State(old(rows), old(conflicts), 0), c, workspaceId, now)
      ensures !WorkspaceKnown(old(rows), workspaceId) ==>
                && rows == old(rows) && conflicts == old(conflicts)
                && counted == if KnownHere(old(rows), c) then Success(false) else Failure(StatementFailed)
    {
      var to := Receipt(workspaceId, c.id, now);
      var savedRows, savedConflicts := rows, conflicts;
      var ok := EnsureRemoteDevice(c.deviceId, to);
      if !ok {
        return Failure(StatementFailed);
      }
      if LogRef(c.id) in rows {
        return Success(false);
      }
      ghost var before := rows;
      var rejected := Attempt(c, to);
      OutcomeKeepsPlace(before, c, to, rows);
      if rejected.Some? {
        conflicts := conflicts + [SchemaConflict(c.entityType, c.entityId, c.id, rejected.value)];
      }
      var logged := LogRow(c, to);
      FactFits(rows, logged);
      if !Fits(rows, logged) {
        rows, conflicts := savedRows, savedConflicts;
        return Failure(StatementFailed);
      }
      rows := rows[LogRef(c.id) := logged];
      counted := Success(true);
    }

    /** Applies a batch: every change whose id is not logged yet counts once and is
        logged; what cannot be applied becomes a conflict and stops nothing. Only
        without the workspace the changes go to does a change not known here stop
        the batch; then nothing is taken. */
    method ApplyRemoteChanges(changes: seq<Change>, now: int) returns (applied: Result<nat, Rejection>)
      requires Keyed(rows)
      modifies this
      ensures WorkspaceKnown(old(rows), workspaceId) ==>
                && applied.Success? && applied.value == |NewIds(old(rows), changes)|
                && State(rows, conflicts, applied.value) ==
                   Fold(State(old(rows), old(conflicts), 0), changes, workspaceId, now)
      ensures WorkspaceKnown(old(rows), workspaceId) ==>
                forall id :: HasChange(rows, id) <==> HasChange(old(rows), id) || exists c <- changes :: c.id == id
      ensures !WorkspaceKnown(old(rows), workspaceId) ==>
                && rows == old(rows) && conflicts == old(conflicts)
                && applied == if AllKnown(old(rows), changes) then Success(0) else Failure(StatementFailed)
    {
      var count := 0;
      ghost var start, here := State(rows, conflicts, 0), WorkspaceKnown(rows, workspaceId);
      for i := 0 to |changes|
        invariant Keyed(rows) && WorkspaceKnown(rows, workspaceId) == here
        invariant here ==> State(rows, conflicts, count) == Fold(start, changes[..i], workspaceId, now)
        invariant !here ==> State(rows, conflicts, count) == start && AllKnown(start.rows, changes[..i])
      {
        ghost var st := State(rows, conflicts, count);
        assert changes[..i + 1] == changes[..i] + [changes[i]];
        FoldNext(start, changes[..i], changes[i], workspaceId, now);
        TakeCounts(st, changes[i], workspaceId, now);
        TakeIsKeyed(State(rows, conflicts, 0), changes[i], workspaceId, now);
        TakeAt(State(rows, conflicts, 0), changes[i], workspaceId, now, Ref(Workspaces, workspaceId));
        var counted := TakeChange(changes[i], now);
        if counted.Failure? {
          assert changes[i] in changes && !KnownHere(start.rows, changes[i]);
          return Failure(counted.error);
        }
        if counted.value {
          count := count + 1;
        }
      }
      assert changes[..|changes|] == changes;
      FoldLogs(start, changes, workspaceId, now);
      FoldCounts(start, changes, workspaceId, now);
      applied := Success(count);
    }
  }

  predicate WorkspaceKnown(s: Rows, workspaceId: string) {
    Ref(Workspaces, workspaceId) in s
  }

  predicate KnownHere(s: Rows, c: Change) {
    HasChange(s, c.id) && DeviceKnown(s, c.deviceId)
  }

  predicate AllKnown(s: Rows, batch: seq<Change>) {
    forall c <- batch :: KnownHere(s, c)
  }

  lemma OutcomeKeepsPlace(s: Rows, c: Change, to: Receipt, t: Rows)
    requires Keyed(s)
    requires match Outcome(s, c, to) case Success(next) => t == next case Failure(_) => t == s
    ensures Ref(Workspaces, to.workspaceId) in t <==> Ref(Workspaces, to.workspaceId) in s
    ensures DeviceKnown(t, c.deviceId) <==> DeviceKnown(s, c.deviceId)
  {
    if Outcome(s, c, to).Success? {
      OutcomeFrame(s, c, to);
      assert Lookup(t, Ref(Workspaces, to.workspaceId)) == Lookup(s, Ref(Workspaces, to.workspaceId));
      assert Lookup(t, Ref(Devices, c.deviceId)) == Lookup(s, Ref(Devices, c.deviceId));
    }
  }

  lemma FactFits(s: Rows, logged: Row)
    requires logged.ChangeRow? && DeviceKnown(s, logged.change.deviceId)
    ensures Fits(s, logged) <==> WorkspaceKnown(s, logged.change.workspaceId)
  {
    assert Ref(Workspaces, logged.change.workspaceId) in Targets(logged);
  }

  lemma FoldNext(st: State, init: seq<Change>, last: Change, workspaceId: string, now: int)
    ensures Fold(st, init + [last], workspaceId, now) == Take(Fold(st, init, workspaceId, now), last, workspaceId, now)
  {
    assert (init + [last])[..|init|] == init;
  }

  lemma RevisionsArriveHere(c: Change, to: Receipt)
    ensures var statement := StatementFor(c, to);
            statement.Success? && statement.value.PutRevision? ==> statement.value.row.workspaceId == to.workspaceId
  {
  }

  /** The count only counts. */
  lemma TakeCounts(st: State, c: Change, workspaceId: string, now: int)
    ensures var zero, next := Take(State(st.rows, st.conflicts, 0), c, workspaceId, now), Take(st, c, workspaceId, now);
            next == State(zero.rows, zero.conflicts, st.applied + zero.applied)
  {
  }
}
