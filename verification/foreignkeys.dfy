/** Foreign keys: which rows a row points at, and when its references hold. */
module ForeignKeys {
  import opened Base
  import opened Tables
  import opened Lifecycle

  function Also(t: Table, id: Option<string>): set<Ref> {
    if id.Some? then {Ref(t, id.value)} else {}
  }

  /** The rows a row points at. Revision and change ids are not followed: their
      rows may be written later. */
  function Targets(row: Row): set<Ref> {
    match row
    case Workspace(_, _, _, _, _, _) => {}
    case Device(_, w, _, _, _, _, _, _) => {Ref(Workspaces, w)}
    case Field(_, w, _, _) => {Ref(Workspaces, w)}
    case Tag(_, w, _, parent, _, _, _) => {Ref(Workspaces, w)} + Also(Tags, parent)
    case Note(_, w, _, _, field, _, _, _, _, _, _, _) => {Ref(Workspaces, w)} + Also(Fields, field)
    case NoteRevision(_, w, n, _, _, device, _, _, _) => {Ref(Workspaces, w), Ref(Notes, n)} + Also(Devices, device)
    case NoteTag(w, n, t, _) => {Ref(Workspaces, w), Ref(Notes, n), Ref(Tags, t)}
    case NoteLink(_, w, source, target, _, _, _) => {Ref(Workspaces, w), Ref(Notes, source), Ref(Notes, target)}
    case ChangeRow(c) => {Ref(Workspaces, c.workspaceId), Ref(Devices, c.deviceId)}
  }

  /** A device may serve any workspace; everything else belongs to one. */
  predicate SharedTable(t: Table) {
    t.Workspaces? || t.Devices?
  }

  /** Every reference holds, within the row's own workspace. */
  predicate Resolved(s: Rows, row: Row) {
    forall x <- Targets(row) :: x in s && (SharedTable(x.table) || s[x].Owner() == row.Owner())
  }

  /** The row is there and of the workspace. */
  predicate HeldIn(s: Rows, x: Ref, workspaceId: string) {
    x in s && s[x].Owner() == workspaceId
  }

  /** Row by row, what has to be there: the workspace; the parent of a tag, the field of
      a note, both ends of a tag relation or link and the note of a revision, within the
      workspace; and the device of a revision or a change. */
  lemma ResolvedTells(s: Rows, row: Row)
    ensures Resolved(s, row) <==>
            match row
            case Workspace(_, _, _, _, _, _) => true
            case Device(_, w, _, _, _, _, _, _) => Ref(Workspaces, w) in s
            case Field(_, w, _, _) => Ref(Workspaces, w) in s
            case Tag(_, w, _, parent, _, _, _) =>
              Ref(Workspaces, w) in s && (parent.Some? ==> HeldIn(s, Ref(Tags, parent.value), w))
            case Note(_, w, _, _, field, _, _, _, _, _, _, _) =>
              Ref(Workspaces, w) in s && (field.Some? ==> HeldIn(s, Ref(Fields, field.value), w))
            case NoteRevision(_, w, note, _, _, device, _, _, _) =>
              && Ref(Workspaces, w) in s && HeldIn(s, Ref(Notes, note), w)
              && (device.Some? ==> Ref(Devices, device.value) in s)
            case NoteTag(w, note, tag, _) =>
              Ref(Workspaces, w) in s && HeldIn(s, Ref(Notes, note), w) && HeldIn(s, Ref(Tags, tag), w)
            case NoteLink(_, w, source, target, _, _, _) =>
              Ref(Workspaces, w) in s && HeldIn(s, Ref(Notes, source), w) && HeldIn(s, Ref(Notes, target), w)
            case ChangeRow(c) => Ref(Workspaces, c.workspaceId) in s && Ref(Devices, c.deviceId) in s
  {
    var w := if row.ChangeRow? then row.change.workspaceId else row.Owner();
    assert !row.Workspace? ==> Ref(Workspaces, w) in Targets(row);
    match row
    case Tag(_, _, _, parent, _, _, _) => assert parent.Some? ==> Ref(Tags, parent.value) in Targets(row);
    case Note(_, _, _, _, field, _, _, _, _, _, _, _) =>
      assert field.Some? ==> Ref(Fields, field.value) in Targets(row);
    case NoteRevision(_, _, note, _, _, device, _, _, _) =>
      assert Ref(Notes, note) in Targets(row) && (device.Some? ==> Ref(Devices, device.value) in Targets(row));
    case NoteTag(_, note, tag, _) => assert Ref(Notes, note) in Targets(row) && Ref(Tags, tag) in Targets(row);
    case NoteLink(_, _, source, target, _, _, _) =>
      assert Ref(Notes, source) in Targets(row) && Ref(Notes, target) in Targets(row);
    case ChangeRow(c) => assert Ref(Devices, c.deviceId) in Targets(row);
    case _ =>
  }

  /** The row can be written: its references hold once it is there. */
  predicate Fits(s: Rows, row: Row) {
    Resolved(s[row.PrimaryKey() := row], row)
  }

  /** A row may point at itself, as a tag may name itself as its parent. */
  lemma FitsTells(s: Rows, row: Row)
    ensures Fits(s, row) <==>
            forall x <- Targets(row) ::
              x == row.PrimaryKey() || (x in s && (SharedTable(x.table) || s[x].Owner() == row.Owner()))
  {
  }

  ghost predicate Resolves(s: Rows) {
    forall r {:trigger Resolved(s, s[r])} :: r in s ==> Resolved(s, s[r])
  }

  /** What a row points at is there, in whichever workspace. */
  predicate Held(s: Rows, row: Row) {
    Targets(row) <= s.Keys
  }

  ghost predicate AllHeld(s: Rows) {
    forall r {:trigger Held(s, s[r])} :: r in s ==> Held(s, s[r])
  }

  lemma ResolvedIsHeld(s: Rows)
    requires Resolves(s)
    ensures AllHeld(s)
  {
    forall r | r in s
      ensures Held(s, s[r])
    {
      assert Resolved(s, s[r]);
    }
  }

  /** Parents sit higher in the tag tree. */
  ghost predicate TagsRanked(s: Rows) {
    forall r <- s :: s[r].Tag? && s[r].parentTagId.Some? ==>
      var parent := Ref(Tags, s[r].parentTagId.value);
      parent in s ==> s[parent].Tag? && s[parent].depth < s[r].depth
  }

  /** What a statement is checked for when it ends: no reference is missing that
      was not missing before. */
  predicate KeepsReferences(before: Rows, after: Rows) {
    forall r <- after :: Resolved(after, after[r]) ||
        (r in before && before[r] == after[r] && !Resolved(before, before[r]))
  }

  lemma KeepingMeansResolving(before: Rows, after: Rows)
    requires Resolves(before)
    ensures KeepsReferences(before, after) <==> Resolves(after)
  {
    forall r | r in before
      ensures Resolved(before, before[r])
    {
    }
  }

  /** Only a field can be pointed at and deleted, and only by a note. */
  lemma ReferencedTables(row: Row, x: Ref)
    requires x in Targets(row)
    ensures DeletesPhysically(x.table) ==> row.Note? && row.fieldId.Some? && x == Ref(Fields, row.fieldId.value)
    ensures WriteOrder(x.table) < WriteOrder(row.Table()) ||
            (row.Tag? && row.parentTagId.Some? && x == Ref(Tags, row.parentTagId.value))
  {
  }

  lemma TargetsAreTables(row: Row, x: Ref)
    requires x in Targets(row)
    ensures !x.table.SyncChanges?
  {
  }

  lemma RelationTargets(row: Row)
    requires row.NoteTag?
    ensures Targets(row) == {Ref(Workspaces, row.workspaceId), Ref(Notes, row.noteId), Ref(Tags, row.tagId)}
  {
  }

  lemma OwnerResolves(s: Rows, r: Ref)
    requires r in s && s[r].PrimaryKey() == r && Resolved(s, s[r])
    ensures Ref(Workspaces, s[r].Owner()) in s
  {
    if !s[r].Workspace? {
      assert Ref(Workspaces, s[r].Owner()) in Targets(s[r]);
    }
  }

  lemma OwnersResolve(s: Rows)
    requires Keyed(s) && Resolves(s)
    ensures WorkspacesResolve(s)
  {
    forall r | r in s
      ensures Ref(Workspaces, s[r].Owner()) in s
    {
      assert Resolved(s, s[r]);
      OwnerResolves(s, r);
    }
  }
}
