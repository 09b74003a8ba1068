/** Tags on notes: attached, detached and replaced, each with its log entry. */
module NoteTagging {
  import opened Base
  import opened Tables
  import opened Payloads
  import opened ForeignKeys
  import opened Ledger
  import opened Database
  import opened Taxonomy
  import opened Growth
  import TagPaths

  datatype NoteError =
    | NoteReferenceTooShort
    | InvalidNoteReference
    | RecordNotFound
    | AmbiguousNoteReference
    | Validation
    | DatabaseError(cause: TaxonomyError)

  function RelationRef(workspaceId: string, noteId: string, tagId: string): Ref {
    Ref(NoteTags, NoteTagKey(workspaceId, noteId, tagId))
  }

  function RelationInput(workspaceId: string, noteId: string, tagId: string, operation: Operation): SyncChangeInput {
    SyncChangeInput(workspaceId, NoteTagEntity, NoteTagEntityId(noteId, tagId), operation, None, None,
                    NoteTagPayload(workspaceId, noteId, tagId))
  }

  predicate NoteIn(s: Rows, workspaceId: string, noteId: string) {
    Ref(Notes, noteId) in s && s[Ref(Notes, noteId)].Note? && s[Ref(Notes, noteId)].workspaceId == workspaceId
  }

  /** The ids of the tags on a note. */
  function TagIds(s: Rows, workspaceId: string, noteId: string): set<string> {
    set r | r in s && s[r].NoteTag? && s[r].workspaceId == workspaceId && s[r].noteId == noteId :: s[r].tagId
  }

  /** The relation row is there exactly when its key is. */
  lemma RelationIsItsKey(s: Rows, issued: set<string>, journal: seq<Change>, workspaceId: string, noteId: string,
                         tagId: string)
    requires Tabular(s) && IdsIssued(s, journal, issued) && Resolves(s)
    requires NoteIn(s, workspaceId, noteId) && Ref(Tags, tagId) in s
    ensures ':' !in workspaceId && ':' !in noteId && ':' !in tagId
    ensures tagId in TagIds(s, workspaceId, noteId) <==> RelationRef(workspaceId, noteId, tagId) in s
  {
    assert Resolved(s, s[Ref(Notes, noteId)]);
    assert Ref(Workspaces, workspaceId) in Targets(s[Ref(Notes, noteId)]);
    assert noteId in issued && tagId in issued && IsHex(noteId) && IsHex(tagId);
    var ref := RelationRef(workspaceId, noteId, tagId);
    if ref in s {
      var row := s[ref];
      assert row.PrimaryKey() == ref && row.ColonFree();
      NoteTagKeysAreInjective(row.workspaceId, row.noteId, row.tagId, workspaceId, noteId, tagId);
    }
    if tagId in TagIds(s, workspaceId, noteId) {
      var r :| r in s && s[r].NoteTag? && s[r].workspaceId == workspaceId && s[r].noteId == noteId &&
          s[r].tagId == tagId;
      assert s[r].PrimaryKey() == r;
    }
  }

  predicate TagIn(s: Rows, workspaceId: string, tagId: string) {
    Ref(Tags, tagId) in s && s[Ref(Tags, tagId)].Tag? && s[Ref(Tags, tagId)].workspaceId == workspaceId
  }

  lemma RelationIsInsertable(s: Rows, journal: seq<Change>, issued: set<string>, workspaceId: string, noteId: string,
                             tagId: string, now: int)
    requires Tabular(s) && IdsIssued(s, journal, issued) && Resolves(s)
    requires NoteIn(s, workspaceId, noteId) && TagIn(s, workspaceId, tagId)
    requires RelationRef(workspaceId, noteId, tagId) !in s
    ensures Insertable(s, issued, NoteTag(workspaceId, noteId, tagId, now))
  {
    RelationIsItsKey(s, issued, journal, workspaceId, noteId, tagId);
    assert Resolved(s, s[Ref(Notes, noteId)]);
    assert Ref(Workspaces, workspaceId) in Targets(s[Ref(Notes, noteId)]);
  }

  /** A relation inserted unless it is there, and recorded either way. */
  lemma RelationRecorded(defaults: Defaults, s: Rows, journal: seq<Change>, issued: set<string>, pending: set<Entity>,
                         workspaceId: string, noteId: string, tagId: string, id: string, now: int)
    requires Consistent(s, journal, issued, pending) && id !in issued && IsHex(id)
    requires NoteIn(s, workspaceId, noteId) && TagIn(s, workspaceId, tagId)
    ensures Consistent(WithDevice(defaults, WithRelation(s, workspaceId, noteId, tagId, now), workspaceId, now),
                       journal + [RelationInput(workspaceId, noteId, tagId, Attach).Recorded(defaults, id, now)],
                       issued + {id}, pending)
  {
    var ref, input := RelationRef(workspaceId, noteId, tagId), RelationInput(workspaceId, noteId, tagId, Attach);
    if ref !in s {
      RelationIsInsertable(s, journal, issued, workspaceId, noteId, tagId, now);
      InsertedAndRecorded(defaults, s, journal, issued, pending, NoteTag(workspaceId, noteId, tagId, now), input, id,
                          now);
    } else {
      RelationIsItsKey(s, issued, journal, workspaceId, noteId, tagId);
      var row := s[ref];
      assert row.PrimaryKey() == ref && row.ColonFree();
      NoteTagKeysAreInjective(row.workspaceId, row.noteId, row.tagId, workspaceId, noteId, tagId);
      InsertedIsTruthful(s, journal, row, input);
      assert Resolved(s, row) && Ref(Workspaces, workspaceId) in Targets(row);
      SmallerPending(s, journal, issued, pending, pending + {input.Subject()});
      SettlingStep(defaults, s, journal, issued, pending, input, id, now);
    }
  }

  /** The tables once the relation is there. */
  function WithRelation(s: Rows, workspaceId: string, noteId: string, tagId: string, now: int): Rows {
    var ref := RelationRef(workspaceId, noteId, tagId);
    if ref in s then s else s[ref := NoteTag(workspaceId, noteId, tagId, now)]
  }

  /** A relation removed and recorded. */
  lemma RelationRemoved(defaults: Defaults, s: Rows, journal: seq<Change>, issued: set<string>, pending: set<Entity>,
                        workspaceId: string, noteId: string, tagId: string, id: string, now: int)
    requires Consistent(s, journal, issued, pending) && id !in issued && IsHex(id)
    requires NoteIn(s, workspaceId, noteId) && TagIn(s, workspaceId, tagId) &&
             RelationRef(workspaceId, noteId, tagId) in s
    ensures Consistent(WithDevice(defaults, s - {RelationRef(workspaceId, noteId, tagId)}, workspaceId, now),
                       journal + [RelationInput(workspaceId, noteId, tagId, Detach).Recorded(defaults, id, now)],
                       issued + {id}, pending)
  {
    var ref, input := RelationRef(workspaceId, noteId, tagId), RelationInput(workspaceId, noteId, tagId, Detach);
    RelationIsItsKey(s, issued, journal, workspaceId, noteId, tagId);
    var row := s[ref];
    assert row.PrimaryKey() == ref && row.ColonFree();
    NoteTagKeysAreInjective(row.workspaceId, row.noteId, row.tagId, workspaceId, noteId, tagId);
    assert Resolved(s, row) && Ref(Workspaces, workspaceId) in Targets(row);
    RemoveStep(s, journal, issued, pending, ref);
    SettlingStep(defaults, s - {ref}, journal, issued, pending, input, id, now);
  }

  predicate IsRelationOf(row: Row, workspaceId: string, noteId: string) {
    row.NoteTag? && row.workspaceId == workspaceId && row.noteId == noteId
  }

  /** Nothing but tags, default devices and the tags of one note differ. */
  ghost predicate OnlyTagging(s: Rows, t: Rows, workspaceId: string, noteId: string) {
    && (forall r <- s :: !IsRelationOf(s[r], workspaceId, noteId) ==> Lookup(t, r) == Some(s[r]))
    && (forall r <- t :: if r in s then t[r] == s[r]
                         else r.table.Devices? || t[r].Tag? || IsRelationOf(t[r], workspaceId, noteId))
  }

  lemma OnlyTaggingTwice(s: Rows, t: Rows, u: Rows, workspaceId: string, noteId: string)
    requires OnlyTagging(s, t, workspaceId, noteId) && Kept(s, t) && OnlyTagging(t, u, workspaceId, noteId)
    ensures OnlyTagging(s, u, workspaceId, noteId)
  {
  }

  lemma WorkspaceOfNote(s: Rows, workspaceId: string, noteId: string)
    requires Resolves(s) && NoteIn(s, workspaceId, noteId)
    ensures Ref(Workspaces, workspaceId) in s
  {
    assert Resolved(s, s[Ref(Notes, noteId)]);
    assert Ref(Workspaces, workspaceId) in Targets(s[Ref(Notes, noteId)]);
  }

  lemma TagsLeaveRelations(s: Rows, journal: seq<Change>, t: Rows, later: seq<Change>, workspaceId: string,
                           paths: set<string>, noteId: string)
    requires TagsAdded(s, journal, t, later, workspaceId, paths) && Keyed(t)
    ensures TagIds(t, workspaceId, noteId) == TagIds(s, workspaceId, noteId) && OnlyTagging(s, t, workspaceId, noteId)
    ensures NoteIn(s, workspaceId, noteId) ==> NoteIn(t, workspaceId, noteId)
  {
    forall r | r in t && IsRelationOf(t[r], workspaceId, noteId)
      ensures r in s
    {
      assert t[r].PrimaryKey() == r;
    }
    forall id | id in TagIds(s, workspaceId, noteId)
      ensures id in TagIds(t, workspaceId, noteId)
    {
      var r :| r in s && IsRelationOf(s[r], workspaceId, noteId) && s[r].tagId == id;
      assert r in t && t[r] == s[r];
    }
  }

  lemma RelationAdded(defaults: Defaults, s: Rows, workspaceId: string, noteId: string, tagId: string, now: int)
    requires RelationRef(workspaceId, noteId, tagId) !in s
    ensures var relation := NoteTag(workspaceId, noteId, tagId, now);
            var t := WithDevice(defaults, s[RelationRef(workspaceId, noteId, tagId) := relation], workspaceId, now);
            && TagIds(t, workspaceId, noteId) == TagIds(s, workspaceId, noteId) + {tagId}
            && OnlyTagging(s, t, workspaceId, noteId)
  {
    var ref := RelationRef(workspaceId, noteId, tagId);
    var t := WithDevice(defaults, s[ref := NoteTag(workspaceId, noteId, tagId, now)], workspaceId, now);
    assert t[ref].NoteTag? && t[ref].tagId == tagId;
    forall id | id in TagIds(s, workspaceId, noteId)
      ensures id in TagIds(t, workspaceId, noteId)
    {
      var r :| r in s && IsRelationOf(s[r], workspaceId, noteId) && s[r].tagId == id;
      assert r in t && t[r] == s[r] && IsRelationOf(t[r], workspaceId, noteId);
    }
  }

  lemma RelationKeepsTag(s: Rows, workspaceId: string, noteId: string, tag: Row)
    requires Resolves(s) && tag.Tag? && tag.id in TagIds(s, workspaceId, noteId)
    ensures tag.PrimaryKey() in s
  {
    var r :| r in s && s[r].NoteTag? && s[r].workspaceId == workspaceId && s[r].noteId == noteId &&
        s[r].tagId == tag.id;
    RelationTargets(s[r]);
    assert Resolved(s, s[r]);
  }

  /** Inserts a relation that is not there and records it. */
  method Relate(db: Database, workspaceId: string, noteId: string, tagId: string, now: int, ghost pending: set<Entity>)
    requires db.Good(pending) && NoteIn(db.rows, workspaceId, noteId) && TagIn(db.rows, workspaceId, tagId)
    requires RelationRef(workspaceId, noteId, tagId) !in db.rows
    modifies db
    ensures db.Good(pending) && old(db.issued) <= db.issued
    ensures TagIds(db.rows, workspaceId, noteId) == TagIds(old(db.rows), workspaceId, noteId) + {tagId}
    ensures Grown(old(db.rows), old(db.journal), db.rows, db.journal, workspaceId)
    ensures OnlyTagging(old(db.rows), db.rows, workspaceId, noteId)
  {
    ghost var s, journal, issued := db.rows, db.journal, db.issued;
    var row, input := NoteTag(workspaceId, noteId, tagId, now), RelationInput(workspaceId, noteId, tagId, Attach);
    db.rows := db.rows[RelationRef(workspaceId, noteId, tagId) := row];
    var id := db.RecordSyncChange(input, now);
    RelationRecorded(db.defaults, s, journal, issued, pending, workspaceId, noteId, tagId, id, now);
    OneRowGrown(db.defaults, s, journal, row, input, id, now);
    RelationAdded(db.defaults, s, workspaceId, noteId, tagId, now);
  }

  /** Puts the tag on the note; recorded only if it was not there. Attaching twice
      does nothing the second time. */
  method AttachTag(db: Database, workspaceId: string, noteId: string, tagName: string, now: int,
                   ghost pending: set<Entity>)
    returns (r: Result<Row, TaxonomyError>)
    requires db.Good(pending) && NoteIn(db.rows, workspaceId, noteId)
    modifies db
    ensures db.Good(pending) && old(db.issued) <= db.issued
    ensures r.Success? <==> TagPaths.NamesTag(tagName)
    ensures r.Success? ==>
              && TagAt(db.rows, r.value.PrimaryKey(), workspaceId, TagPaths.Join(TagPaths.Parse(tagName)))
              && db.rows[r.value.PrimaryKey()] == r.value
              && TagIds(db.rows, workspaceId, noteId) == TagIds(old(db.rows), workspaceId, noteId) + {r.value.id}
              && (r.value.id in TagIds(old(db.rows), workspaceId, noteId) ==>
                    db.rows == old(db.rows) && db.journal == old(db.journal))
    ensures Grown(old(db.rows), old(db.journal), db.rows, db.journal, workspaceId)
    ensures OnlyTagging(old(db.rows), db.rows, workspaceId, noteId)
  {
    ghost var s0, j0 := db.rows, db.journal;
    r := GetOrCreateTag(db, workspaceId, tagName, now, pending);
    TagsAreGrowth(s0, j0, db.rows, db.journal, workspaceId, Stems(TagPaths.Parse(tagName)));
    WorkspaceOfNote(s0, workspaceId, noteId);
    TagsLeaveRelations(s0, j0, db.rows, db.journal, workspaceId, Stems(TagPaths.Parse(tagName)), noteId);
    if r.Failure? {
      return;
    }
    var tag := r.value;
    ghost var s, journal := db.rows, db.journal;
    RelationIsItsKey(s, db.issued, journal, workspaceId, noteId, tag.id);
    var ref := RelationRef(workspaceId, noteId, tag.id);
    if ref !in db.rows {
      Relate(db, workspaceId, noteId, tag.id, now, pending);
      GrownTwice(s0, j0, s, journal, db.rows, db.journal, workspaceId);
      OnlyTaggingTwice(s0, s, db.rows, workspaceId, noteId);
    } else {
      RelationKeepsTag(s0, workspaceId, noteId, tag);
      assert TagAt(s0, tag.PrimaryKey(), workspaceId, TagPaths.Join(TagPaths.Parse(tagName)));
    }
  }

  lemma RelationDropped(defaults: Defaults, s: Rows, journal: seq<Change>, issued: set<string>, workspaceId: string,
                        noteId: string, tagId: string, now: int)
    requires Tabular(s) && IdsIssued(s, journal, issued) && Resolves(s)
    requires NoteIn(s, workspaceId, noteId) && TagIn(s, workspaceId, tagId) &&
             RelationRef(workspaceId, noteId, tagId) in s
    ensures var t := WithDevice(defaults, s - {RelationRef(workspaceId, noteId, tagId)}, workspaceId, now);
            && TagIds(t, workspaceId, noteId) == TagIds(s, workspaceId, noteId) - {tagId}
            && OnlyTagging(s, t, workspaceId, noteId)
  {
    var ref := RelationRef(workspaceId, noteId, tagId);
    var t := WithDevice(defaults, s - {ref}, workspaceId, now);
    RelationIsItsKey(s, issued, journal, workspaceId, noteId, tagId);
    KeyIsRelation(s, workspaceId, noteId, tagId);
    forall id | id in TagIds(s, workspaceId, noteId) - {tagId}
      ensures id in TagIds(t, workspaceId, noteId)
    {
      var r :| r in s && s[r].NoteTag? && s[r].workspaceId == workspaceId && s[r].noteId == noteId && s[r].tagId == id;
      assert r in t && t[r] == s[r];
    }
    forall r | r in t && IsRelationOf(t[r], workspaceId, noteId)
      ensures r in s && t[r] == s[r] && t[r].tagId != tagId
    {
      assert s[r].PrimaryKey() == r;
    }
  }

  lemma KeyIsRelation(s: Rows, workspaceId: string, noteId: string, tagId: string)
    requires Tabular(s) && RelationRef(workspaceId, noteId, tagId) in s
    requires ':' !in workspaceId && ':' !in noteId && ':' !in tagId
    ensures var row := s[RelationRef(workspaceId, noteId, tagId)];
            IsRelationOf(row, workspaceId, noteId) && row.tagId == tagId
  {
    var row := s[RelationRef(workspaceId, noteId, tagId)];
    assert row.PrimaryKey() == RelationRef(workspaceId, noteId, tagId) && row.ColonFree();
    NoteTagKeysAreInjective(row.workspaceId, row.noteId, row.tagId, workspaceId, noteId, tagId);
  }

  /** Removes a relation and records it. */
  method Unrelate(db: Database, workspaceId: string, noteId: string, tagId: string, now: int,
                  ghost pending: set<Entity>)
    requires db.Good(pending) && NoteIn(db.rows, workspaceId, noteId) && TagIn(db.rows, workspaceId, tagId)
    requires RelationRef(workspaceId, noteId, tagId) in db.rows
    modifies db
    ensures db.Good(pending) && old(db.issued) <= db.issued && old(db.journal) <= db.journal
    ensures TagIds(db.rows, workspaceId, noteId) == TagIds(old(db.rows), workspaceId, noteId) - {tagId}
    ensures OnlyTagging(old(db.rows), db.rows, workspaceId, noteId)
    ensures forall r <- db.rows :: r in old(db.rows) || r.table.Devices?
  {
    ghost var s, journal, issued := db.rows, db.journal, db.issued;
    db.rows := db.rows - {RelationRef(workspaceId, noteId, tagId)};
    var id := db.RecordSyncChange(RelationInput(workspaceId, noteId, tagId, Detach), now);
    RelationRemoved(db.defaults, s, journal, issued, pending, workspaceId, noteId, tagId, id, now);
    RelationDropped(db.defaults, s, journal, issued, workspaceId, noteId, tagId, now);
  }

  /** Takes the tag with exactly this path off the note; recorded only if it was
      there. */
  method DetachTag(db: Database, workspaceId: string, noteId: string, path: string, now: int,
                   ghost pending: set<Entity>)
    requires db.Good(pending) && NoteIn(db.rows, workspaceId, noteId)
    modifies db
    ensures db.Good(pending) && old(db.issued) <= db.issued && old(db.journal) <= db.journal
    ensures OnlyTagging(old(db.rows), db.rows, workspaceId, noteId)
    ensures forall id :: id in TagIds(db.rows, workspaceId, noteId) <==>
                         id in TagIds(old(db.rows), workspaceId, noteId) &&
                             !TagAt(old(db.rows), Ref(Tags, id), workspaceId, path)
    ensures (forall id <- TagIds(old(db.rows), workspaceId, noteId) ::
               !TagAt(old(db.rows), Ref(Tags, id), workspaceId, path)) ==>
              db.rows == old(db.rows) && db.journal == old(db.journal)
  {
    var tag := FindTag(db, workspaceId, path);
    if tag.Some? {
      var tagId := tag.value.id;
      ghost var s := db.rows;
      RelationIsItsKey(s, db.issued, db.journal, workspaceId, noteId, tagId);
      forall id | TagAt(s, Ref(Tags, id), workspaceId, path)
        ensures id == tagId
      {
        assert TagAt(s, Ref(Tags, id), s[Ref(Tags, tagId)].workspaceId, s[Ref(Tags, tagId)].path);
      }
      if RelationRef(workspaceId, noteId, tagId) in db.rows {
        Unrelate(db, workspaceId, noteId, tagId, now, pending);
      }
    }
  }

  /** Inserts the relation unless it is there, and records it either way. */
  method RelateAnyway(db: Database, workspaceId: string, noteId: string, tagId: string, now: int,
                      ghost pending: set<Entity>)
    requires db.Good(pending) && NoteIn(db.rows, workspaceId, noteId) && TagIn(db.rows, workspaceId, tagId)
    modifies db
    ensures db.Good(pending) && old(db.issued) <= db.issued && old(db.journal) <= db.journal
    ensures TagIds(db.rows, workspaceId, noteId) == TagIds(old(db.rows), workspaceId, noteId) + {tagId}
    ensures Kept(old(db.rows), db.rows) && OnlyTagging(old(db.rows), db.rows, workspaceId, noteId)
  {
    if RelationRef(workspaceId, noteId, tagId) !in db.rows {
      Relate(db, workspaceId, noteId, tagId, now, pending);
    } else {
      ghost var s, journal, issued := db.rows, db.journal, db.issued;
      RelationIsItsKey(s, issued, journal, workspaceId, noteId, tagId);
      var id := db.RecordSyncChange(RelationInput(workspaceId, noteId, tagId, Attach), now);
      RelationRecorded(db.defaults, s, journal, issued, pending, workspaceId, noteId, tagId, id, now);
      DeviceLeavesRelations(db.defaults, s, workspaceId, noteId, now);
      assert TagIds(s, workspaceId, noteId) + {tagId} == TagIds(s, workspaceId, noteId);
    }
  }

  lemma DeviceLeavesRelations(defaults: Defaults, s: Rows, workspaceId: string, noteId: string, now: int)
    ensures var t := WithDevice(defaults, s, workspaceId, now);
            TagIds(t, workspaceId, noteId) == TagIds(s, workspaceId, noteId) && Kept(s, t) &&
                OnlyTagging(s, t, workspaceId, noteId)
  {
    var t := WithDevice(defaults, s, workspaceId, now);
    forall id | id in TagIds(s, workspaceId, noteId)
      ensures id in TagIds(t, workspaceId, noteId)
    {
      var r :| r in s && s[r].NoteTag? && s[r].workspaceId == workspaceId && s[r].noteId == noteId && s[r].tagId == id;
      assert r in t && t[r] == s[r];
    }
  }

  // Replacing

  /** Nothing changed but for new tags, default devices and new tags on the note. */
  ghost predicate MoreTagging(s: Rows, t: Rows, workspaceId: string, noteId: string) {
    && Kept(s, t)
    && forall r <- t :: r in s || r.table.Devices? || t[r].Tag? || IsRelationOf(t[r], workspaceId, noteId)
  }

  lemma MoreTaggingTwice(s: Rows, t: Rows, u: Rows, workspaceId: string, noteId: string)
    requires MoreTagging(s, t, workspaceId, noteId) && Kept(t, u) && OnlyTagging(t, u, workspaceId, noteId)
    ensures MoreTagging(s, u, workspaceId, noteId)
  {
  }

  lemma MoreIsOnly(s: Rows, t: Rows, workspaceId: string, noteId: string)
    requires MoreTagging(s, t, workspaceId, noteId)
    ensures OnlyTagging(s, t, workspaceId, noteId)
  {
  }

  /** The tag paths a list of client strings names. */
  function LeafPaths(names: seq<string>): seq<string> {
    seq(|names|, i requires 0 <= i < |names| => TagPaths.Join(TagPaths.Parse(names[i])))
  }

  /** The tags of the first paths. */
  ghost predicate AreTagsOf(s: Rows, workspaceId: string, paths: seq<string>, tags: seq<Row>) {
    && |tags| <= |paths|
    && forall i | 0 <= i < |tags| :: tags[i].Tag? && TagAt(s, Ref(Tags, tags[i].id), workspaceId, paths[i])
  }

  lemma TagsStay(s: Rows, t: Rows, workspaceId: string, paths: seq<string>, tags: seq<Row>)
    requires AreTagsOf(s, workspaceId, paths, tags) && forall r <- s :: s[r].Tag? ==> Lookup(t, r) == Some(s[r])
    ensures AreTagsOf(t, workspaceId, paths, tags)
  {
    forall i | 0 <= i < |tags|
      ensures TagAt(t, Ref(Tags, tags[i].id), workspaceId, paths[i])
    {
      assert TagAt(s, Ref(Tags, tags[i].id), workspaceId, paths[i]);
    }
  }

  lemma OneMoreTag(s: Rows, workspaceId: string, paths: seq<string>, tags: seq<Row>, tag: Row)
    requires |tags| < |paths| && AreTagsOf(s, workspaceId, paths, tags)
    requires tag.Tag? && TagAt(s, tag.PrimaryKey(), workspaceId, paths[|tags|])
    ensures AreTagsOf(s, workspaceId, paths, tags + [tag])
  {
  }

  method ResolveTag(db: Database, workspaceId: string, noteId: string, name: string, now: int,
                    ghost pending: set<Entity>)
    returns (r: Result<Row, TaxonomyError>)
    requires db.Good(pending) && NoteIn(db.rows, workspaceId, noteId)
    modifies db
    ensures db.Good(pending) && old(db.issued) <= db.issued && old(db.journal) <= db.journal
    ensures r.Success? <==> TagPaths.NamesTag(name)
    ensures r.Success? ==>
              r.value.Tag? && TagAt(db.rows, r.value.PrimaryKey(), workspaceId, TagPaths.Join(TagPaths.Parse(name)))
    ensures TagIds(db.rows, workspaceId, noteId) == TagIds(old(db.rows), workspaceId, noteId)
    ensures Kept(old(db.rows), db.rows) && OnlyTagging(old(db.rows), db.rows, workspaceId, noteId)
    ensures NoteIn(db.rows, workspaceId, noteId)
  {
    ghost var s, journal := db.rows, db.journal;
    WorkspaceOfNote(s, workspaceId, noteId);
    r := GetOrCreateTag(db, workspaceId, name, now, pending);
    TagsLeaveRelations(s, journal, db.rows, db.journal, workspaceId, Stems(TagPaths.Parse(name)), noteId);
  }

  /** The tags of a list of client strings, created where missing. */
  method ResolveTags(db: Database, workspaceId: string, noteId: string, names: seq<string>, now: int,
                     ghost pending: set<Entity>)
    returns (r: Result<seq<Row>, TaxonomyError>)
    requires db.Good(pending) && NoteIn(db.rows, workspaceId, noteId)
    modifies db
    ensures db.Good(pending) && old(db.issued) <= db.issued && old(db.journal) <= db.journal
    ensures r.Failure? ==> exists i | 0 <= i < |names| :: !TagPaths.NamesTag(names[i])
    ensures r.Success? ==> |r.value| == |names| && AreTagsOf(db.rows, workspaceId, LeafPaths(names), r.value)
    ensures TagIds(db.rows, workspaceId, noteId) == TagIds(old(db.rows), workspaceId, noteId)
    ensures MoreTagging(old(db.rows), db.rows, workspaceId, noteId)
  {
    var tags: seq<Row> := [];
    ghost var s, paths := db.rows, LeafPaths(names);
    for i := 0 to |names|
      invariant db.Good(pending) && old(db.issued) <= db.issued && old(db.journal) <= db.journal
      invariant |tags| == i && AreTagsOf(db.rows, workspaceId, paths, tags)
      invariant TagIds(db.rows, workspaceId, noteId) == TagIds(s, workspaceId, noteId)
      invariant MoreTagging(s, db.rows, workspaceId, noteId)
    {
      ghost var t := db.rows;
      var tag := ResolveTag(db, workspaceId, noteId, names[i], now, pending);
      MoreTaggingTwice(s, t, db.rows, workspaceId, noteId);
      if tag.Failure? {
        return Failure(tag.error);
      }
      TagsStay(t, db.rows, workspaceId, paths, tags);
      OneMoreTag(db.rows, workspaceId, paths, tags, tag.value);
      tags := tags + [tag.value];
    }
    r := Success(tags);
  }

  function Ids(tags: seq<Row>): set<string>
    requires forall t <- tags :: t.Tag?
  {
    set t <- tags :: t.id
  }

  lemma NextId(tags: seq<Row>, i: nat)
    requires i < |tags| && forall t <- tags :: t.Tag?
    ensures Ids(tags[..i + 1]) == Ids(tags[..i]) + {tags[i].id}
  {
    assert tags[..i + 1] == tags[..i] + [tags[i]];
  }

  method RelateAll(db: Database, workspaceId: string, noteId: string, tags: seq<Row>, current: set<string>, now: int,
                   ghost pending: set<Entity>)
    requires db.Good(pending) && NoteIn(db.rows, workspaceId, noteId)
    requires forall t <- tags :: t.Tag? && TagIn(db.rows, workspaceId, t.id)
    requires TagIds(db.rows, workspaceId, noteId) == current
    modifies db
    ensures db.Good(pending) && old(db.issued) <= db.issued && old(db.journal) <= db.journal
    ensures TagIds(db.rows, workspaceId, noteId) == current + Ids(tags)
    ensures MoreTagging(old(db.rows), db.rows, workspaceId, noteId)
  {
    ghost var s := db.rows;
    for i := 0 to |tags|
      invariant db.Good(pending) && old(db.issued) <= db.issued && old(db.journal) <= db.journal
      invariant TagIds(db.rows, workspaceId, noteId) == current + Ids(tags[..i])
      invariant MoreTagging(s, db.rows, workspaceId, noteId)
    {
      ghost var t := db.rows;
      NextId(tags, i);
      assert TagIn(s, workspaceId, tags[i].id);
      if tags[i].id !in current {
        RelateAnyway(db, workspaceId, noteId, tags[i].id, now, pending);
        MoreTaggingTwice(s, t, db.rows, workspaceId, noteId);
      }
    }
    assert tags[..|tags|] == tags;
  }

  lemma OnlyTaggingThenLess(s: Rows, t: Rows, u: Rows, workspaceId: string, noteId: string)
    requires OnlyTagging(s, t, workspaceId, noteId) && OnlyTagging(t, u, workspaceId, noteId)
    requires forall r <- u :: r in t || r.table.Devices?
    requires Keyed(s)
    ensures OnlyTagging(s, u, workspaceId, noteId)
  {
    forall r | r in u && r in s
      ensures u[r] == s[r]
    {
      assert s[r].PrimaryKey() == r;
    }
  }

  lemma RelatedTags(s: Rows, workspaceId: string, noteId: string)
    requires Resolves(s) && Tabular(s)
    ensures forall id <- TagIds(s, workspaceId, noteId) :: TagIn(s, workspaceId, id)
  {
    forall id | id in TagIds(s, workspaceId, noteId)
      ensures TagIn(s, workspaceId, id)
    {
      var r :| r in s && s[r].NoteTag? && s[r].workspaceId == workspaceId && s[r].noteId == noteId && s[r].tagId == id;
      RelationTargets(s[r]);
      assert Resolved(s, s[r]);
      assert s[Ref(Tags, id)].PrimaryKey() == Ref(Tags, id);
    }
  }

  lemma OneLess(rest: set<string>, kept: set<string>, id: string)
    requires id in rest
    ensures if id in kept then rest - {id} + kept == rest + kept else rest + kept - {id} == rest - {id} + kept
  {
  }

  method UnrelateAll(db: Database, workspaceId: string, noteId: string, current: set<string>, kept: set<string>,
                     now: int, ghost pending: set<Entity>)
    requires db.Good(pending) && NoteIn(db.rows, workspaceId, noteId)
    requires TagIds(db.rows, workspaceId, noteId) == current + kept
    modifies db
    ensures db.Good(pending) && old(db.issued) <= db.issued && old(db.journal) <= db.journal
    ensures TagIds(db.rows, workspaceId, noteId) == kept
    ensures OnlyTagging(old(db.rows), db.rows, workspaceId, noteId)
    ensures forall r <- db.rows :: r in old(db.rows) || r.table.Devices?
  {
    ghost var s := db.rows;
    var rest := current;
    while rest != {}
      invariant db.Good(pending) && old(db.issued) <= db.issued && old(db.journal) <= db.journal
      invariant TagIds(db.rows, workspaceId, noteId) == rest + kept
      invariant OnlyTagging(s, db.rows, workspaceId, noteId) && forall r <- db.rows :: r in s || r.table.Devices?
      decreases rest
    {
      var id :| id in rest;
      OneLess(rest, kept, id);
      rest := rest - {id};
      if id !in kept {
        ghost var t := db.rows;
        RelatedTags(t, workspaceId, noteId);
        RelationIsItsKey(t, db.issued, db.journal, workspaceId, noteId, id);
        Unrelate(db, workspaceId, noteId, id, now, pending);
        OnlyTaggingThenLess(s, t, db.rows, workspaceId, noteId);
      }
    }
  }

  /** A string that names no tag has no tag row. */
  lemma NamedTags(s: Rows, workspaceId: string, names: seq<string>, tags: seq<Row>)
    requires Forest(s) && |tags| == |names| && AreTagsOf(s, workspaceId, LeafPaths(names), tags)
    ensures forall i | 0 <= i < |names| :: TagPaths.NamesTag(names[i])
  {
    forall i | 0 <= i < |names|
      ensures TagPaths.NamesTag(names[i])
    {
      NamedTag(s, tags[i].id, workspaceId, names[i], LeafPaths(names)[i]);
    }
  }

  lemma NamedTag(s: Rows, id: string, workspaceId: string, name: string, path: string)
    requires Forest(s) && path == TagPaths.Join(TagPaths.Parse(name)) && TagAt(s, Ref(Tags, id), workspaceId, path)
    ensures TagPaths.NamesTag(name)
  {
    assert IsTagNode(s, s[Ref(Tags, id)]);
    TagPaths.ParseOfJoin([]);
  }

  /** Makes the tags of a note exactly the given ones; relations that stay are not
      touched. */
  method ReplaceNoteTags(db: Database, workspaceId: string, noteId: string, names: seq<string>, now: int,
                         ghost pending: set<Entity>)
    returns (r: Result<seq<Row>, TaxonomyError>)
    requires db.Good(pending) && NoteIn(db.rows, workspaceId, noteId)
    modifies db
    ensures db.Good(pending) && old(db.issued) <= db.issued && old(db.journal) <= db.journal
    ensures r.Success? <==> forall i | 0 <= i < |names| :: TagPaths.NamesTag(names[i])
    ensures r.Success? ==>
              && |r.value| == |names| && AreTagsOf(db.rows, workspaceId, LeafPaths(names), r.value)
              && TagIds(db.rows, workspaceId, noteId) == Ids(r.value)
    ensures OnlyTagging(old(db.rows), db.rows, workspaceId, noteId)
  {
    ghost var s := db.rows;
    var current := TagIds(db.rows, workspaceId, noteId);
    r := ResolveTags(db, workspaceId, noteId, names, now, pending);
    MoreIsOnly(s, db.rows, workspaceId, noteId);
    if r.Failure? {
      return;
    }
    var targets := r.value;
    ghost var t := db.rows;
    NamedTags(t, workspaceId, names, targets);
    ListedTags(t, workspaceId, LeafPaths(names), targets);
    RelateAll(db, workspaceId, noteId, targets, current, now, pending);
    ghost var u := db.rows;
    MoreIsOnly(t, u, workspaceId, noteId);
    OnlyTaggingTwice(s, t, u, workspaceId, noteId);
    UnrelateAll(db, workspaceId, noteId, current, Ids(targets), now, pending);
    OnlyTaggingThenLess(s, u, db.rows, workspaceId, noteId);
    TagsStay(t, u, workspaceId, LeafPaths(names), targets);
    TagsStay(u, db.rows, workspaceId, LeafPaths(names), targets);
  }

  lemma ListedTags(s: Rows, workspaceId: string, paths: seq<string>, tags: seq<Row>)
    requires AreTagsOf(s, workspaceId, paths, tags)
    ensures forall t <- tags :: t.Tag? && TagIn(s, workspaceId, t.id)
  {
    forall t | t in tags
      ensures t.Tag? && TagIn(s, workspaceId, t.id)
    {
      var i :| 0 <= i < |tags| && tags[i] == t;
      assert TagAt(s, Ref(Tags, tags[i].id), workspaceId, paths[i]);
    }
  }

  // Tagging a new note

  lemma OneMoreId(tags: seq<Row>, tag: Row)
    requires tag.Tag? && forall t <- tags :: t.Tag?
    ensures Ids(tags + [tag]) == Ids(tags) + {tag.id}
  {
    assert tag in tags + [tag];
  }

  /** Attaches the tags one after the other. */
  method AttachTags(db: Database, workspaceId: string, noteId: string, names: seq<string>, now: int,
                    ghost pending: set<Entity>)
    returns (r: Result<seq<Row>, TaxonomyError>)
    requires db.Good(pending) && NoteIn(db.rows, workspaceId, noteId) && TagIds(db.rows, workspaceId, noteId) == {}
    modifies db
    ensures db.Good(pending) && old(db.issued) <= db.issued
    ensures r.Success? <==> forall i | 0 <= i < |names| :: TagPaths.NamesTag(names[i])
    ensures r.Success? ==>
              && |r.value| == |names| && AreTagsOf(db.rows, workspaceId, LeafPaths(names), r.value)
              && TagIds(db.rows, workspaceId, noteId) == Ids(r.value)
    ensures Grown(old(db.rows), old(db.journal), db.rows, db.journal, workspaceId)
    ensures MoreTagging(old(db.rows), db.rows, workspaceId, noteId)
  {
    var tags: seq<Row> := [];
    ghost var s, journal, paths := db.rows, db.journal, LeafPaths(names);
    NotGrown(s, journal, workspaceId);
    for i := 0 to |names|
      invariant db.Good(pending) && old(db.issued) <= db.issued
      invariant |tags| == i && AreTagsOf(db.rows, workspaceId, paths, tags)
      invariant TagIds(db.rows, workspaceId, noteId) == Ids(tags)
      invariant Grown(s, journal, db.rows, db.journal, workspaceId)
      invariant MoreTagging(s, db.rows, workspaceId, noteId)
    {
      ghost var t, later := db.rows, db.journal;
      var tag := AttachTag(db, workspaceId, noteId, names[i], now, pending);
      GrownTwice(s, journal, t, later, db.rows, db.journal, workspaceId);
      MoreTaggingTwice(s, t, db.rows, workspaceId, noteId);
      if tag.Failure? {
        return Failure(tag.error);
      }
      TagsStay(t, db.rows, workspaceId, paths, tags);
      OneMoreTag(db.rows, workspaceId, paths, tags, tag.value);
      OneMoreId(tags, tag.value);
      tags := tags + [tag.value];
    }
    NamedTags(db.rows, workspaceId, names, tags);
    r := Success(tags);
  }
}
