/** The note store and its outbox: what it means that the change log agrees with
    the tables, and which single steps keep that so. */
module Ledger {
  import opened Base
  import opened Tables
  import opened Lifecycle
  import opened Payloads
  import opened ForeignKeys
  import opened Stores
  import TagPaths

  // Folding the log

  function Step(facts: map<Entity, Payload>, c: Change): map<Entity, Payload> {
    if c.IsTombstone() && DeletableKind(c.entityType) then facts - {c.Subject()}
    else facts[c.Subject() := c.payload]
  }

  /** What the log, read in recording order, says there is. */
  function Replay(journal: seq<Change>): map<Entity, Payload> {
    if journal == [] then map[] else Step(Replay(journal[..|journal| - 1]), journal[|journal| - 1])
  }

  lemma ReplayNext(journal: seq<Change>, c: Change)
    ensures Replay(journal + [c]) == Step(Replay(journal), c)
  {
    assert (journal + [c])[..|journal|] == journal;
  }

  ghost predicate FieldDeleted(journal: seq<Change>, field: string) {
    exists c <- journal :: c.entityType.FieldEntity? && c.entityId == field && c.operation.Delete?
  }

  /** The payload is the row's; only a hidden note may have lost a field deleted
      since. */
  ghost predicate Matches(journal: seq<Change>, p: Payload, row: Row)
    requires IsLogged(row)
  {
    if row.NoteRevision? then exists base :: p == NoteRevisionPayload(row, base)
    else
      || p == PayloadOf(row, None)
      || (row.Note? && !row.Visible() && row.fieldId.None? &&
          exists f :: FieldDeleted(journal, f) && p == NotePayload(row.(fieldId := Some(f))))
  }

  ghost predicate Described(s: Rows, e: Entity) {
    exists r <- s :: IsLogged(s[r]) && s[r].Subject() == e
  }

  ghost predicate RowAgrees(journal: seq<Change>, row: Row) {
    IsLogged(row) ==> row.Subject() in Replay(journal) && Matches(journal, Replay(journal)[row.Subject()], row)
  }

  /** The log describes exactly the rows there are, entities being written aside. */
  ghost predicate LogAgrees(s: Rows, journal: seq<Change>, pending: set<Entity>) {
    && (forall r {:trigger RowAgrees(journal, s[r])} ::
          r in s && s[r].Subject() !in pending ==> RowAgrees(journal, s[r]))
    && (forall e {:trigger Described(s, e)} :: e in Replay(journal) && e !in pending ==> Described(s, e))
  }

  // The tables

  predicate TagAt(s: Rows, r: Ref, workspaceId: string, path: string) {
    r in s && s[r].Tag? && s[r].workspaceId == workspaceId && s[r].path == path
  }

  /** The tag is its path: name, depth and parent follow from the segments. */
  predicate IsTagNode(s: Rows, row: Row)
    requires row.Tag?
  {
    var segments := TagPaths.Parse(row.path);
    && segments != [] && row.path == TagPaths.Join(segments)
    && row.name == segments[|segments| - 1] && row.depth == |segments| - 1
    && if |segments| == 1 then row.parentTagId.None?
       else row.parentTagId.Some? &&
            TagAt(s, Ref(Tags, row.parentTagId.value), row.workspaceId, TagPaths.Join(segments[..|segments| - 1]))
  }

  ghost predicate Forest(s: Rows) {
    && (forall r {:trigger IsTagNode(s, s[r])} :: r in s && s[r].Tag? ==> IsTagNode(s, s[r]))
    && (forall a, b {:trigger TagAt(s, b, s[a].workspaceId, s[a].path)} ::
          a in s && s[a].Tag? && TagAt(s, b, s[a].workspaceId, s[a].path) ==> a == b)
  }

  predicate FieldAt(s: Rows, r: Ref, workspaceId: string, name: string) {
    r in s && s[r].Field? && s[r].workspaceId == workspaceId && s[r].name == name
  }

  ghost predicate FieldNamesUnique(s: Rows) {
    forall a, b {:trigger FieldAt(s, b, s[a].workspaceId, s[a].name)} ::
      a in s && s[a].Field? && FieldAt(s, b, s[a].workspaceId, s[a].name) ==> a == b
  }

  /** Rows whose id the store makes up. */
  predicate IsMinted(t: Table) {
    t.Fields? || t.Tags? || t.Notes? || t.NoteRevisions? || t.NoteLinks?
  }

  predicate IsHex(id: string) {
    forall c <- id :: '0' <= c <= '9' || 'a' <= c <= 'f'
  }

  ghost predicate IdsIssued(s: Rows, journal: seq<Change>, issued: set<string>) {
    && (forall id <- issued :: IsHex(id))
    && (forall r <- s :: IsMinted(r.table) ==> r.key in issued)
    && (forall c <- journal :: c.id in issued)
    && (forall c <- journal :: NeverReused(c.entityType) ==> c.entityId in issued)
    && (forall r <- s :: r.table.Workspaces? ==> ':' !in r.key)
  }

  ghost predicate NewIdAt(journal: seq<Change>, i: nat)
    requires i < |journal|
  {
    forall j | 0 <= j < i :: journal[j].id != journal[i].id
  }

  /** Change ids are distinct; every change has its workspace and device. */
  ghost predicate LogAnchored(s: Rows, journal: seq<Change>) {
    && (forall i {:trigger NewIdAt(journal, i)} :: 0 <= i < |journal| ==> NewIdAt(journal, i))
    && (forall c <- journal :: Ref(Workspaces, c.workspaceId) in s && Ref(Devices, c.deviceId) in s)
  }

  /** Entities whose ids are made up once and never used again. */
  predicate NeverReused(kind: EntityType) {
    kind.FieldEntity? || kind.NoteLinkEntity?
  }

  ghost predicate Buried(journal: seq<Change>, e: Entity) {
    exists d <- journal :: d.IsTombstone() && d.Subject() == e
  }

  /** A deleted field or link is never spoken of again. */
  ghost predicate TombstonesFinal(journal: seq<Change>) {
    forall i {:trigger LastWord(journal, i)} ::
      0 <= i < |journal| && NeverReused(journal[i].entityType) && journal[i].IsTombstone() ==> LastWord(journal, i)
  }

  ghost predicate LastWord(journal: seq<Change>, i: nat)
    requires i < |journal|
  {
    forall j | i < j < |journal| :: journal[j].Subject() != journal[i].Subject()
  }

  /** The log may speak of this entity. */
  ghost predicate Speakable(journal: seq<Change>, issued: set<string>, e: Entity) {
    NeverReused(e.kind) ==> e.id in issued && !Buried(journal, e)
  }

  lemma {:induction false} ReplayedIsNotBuried(journal: seq<Change>, e: Entity)
    requires TombstonesFinal(journal) && NeverReused(e.kind) && e in Replay(journal)
    ensures !Buried(journal, e)
  {
    var init, last := journal[..|journal| - 1], journal[|journal| - 1];
    assert journal == init + [last];
    if e in Replay(init) {
      forall i | 0 <= i < |init| && NeverReused(init[i].entityType) && init[i].IsTombstone()
        ensures LastWord(init, i)
      {
        assert LastWord(journal, i);
      }
      ReplayedIsNotBuried(init, e);
    }
    forall d | d in init && d.Subject() == e
      ensures !d.IsTombstone()
    {
      var i :| 0 <= i < |init| && init[i] == d;
      assert journal[i] == d && journal[|journal| - 1] == last;
      assert d.IsTombstone() ==> LastWord(journal, i);
    }
  }

  /** The table rows; changes are kept in the journal. */
  ghost predicate Tabular(s: Rows) {
    forall r {:trigger s[r].PrimaryKey()} :: r in s ==> s[r].PrimaryKey() == r && s[r].ColonFree() && !s[r].ChangeRow?
  }

  /** The invariant of the note store. */
  ghost predicate Consistent(s: Rows, journal: seq<Change>, issued: set<string>, pending: set<Entity>) {
    && Tabular(s) && Resolves(s) && Forest(s) && FieldNamesUnique(s)
    && IdsIssued(s, journal, issued) && LogAnchored(s, journal) && TombstonesFinal(journal) &&
       LogAgrees(s, journal, pending)
  }

  lemma EntityIdsAreInjective(n: string, t: string, n': string, t': string)
    requires ':' !in n && ':' !in n' && NoteTagEntityId(n, t) == NoteTagEntityId(n', t')
    ensures n == n' && t == t'
  {
    SplitsAtFirstColon(n, t, n', t');
  }

  /** No two rows of the store share an entity. */
  lemma SubjectsAreDistinct(s: Rows, a: Ref, b: Ref)
    requires Tabular(s) && Resolves(s)
    requires a in s && b in s && IsLogged(s[a]) && IsLogged(s[b]) && s[a].Subject() == s[b].Subject()
    ensures a == b
  {
    var x, y := s[a], s[b];
    assert x.PrimaryKey() == a && y.PrimaryKey() == b;
    if x.NoteTag? {
      assert y.NoteTag?;
      EntityIdsAreInjective(x.noteId, x.tagId, y.noteId, y.tagId);
      assert Resolved(s, x) && Resolved(s, y);
      assert Ref(Notes, x.noteId) in Targets(x) && Ref(Notes, y.noteId) in Targets(y);
    }
  }

  /** An entity with a settled row is not buried. */
  lemma SettledIsSpeakable(s: Rows, journal: seq<Change>, issued: set<string>, pending: set<Entity>, r: Ref)
    requires Consistent(s, journal, issued, pending) && r in s && IsLogged(s[r]) && s[r].Subject() !in pending
    ensures Speakable(journal, issued, s[r].Subject())
  {
    assert RowAgrees(journal, s[r]) && s[r].PrimaryKey() == r;
    if NeverReused(s[r].Subject().kind) {
      ReplayedIsNotBuried(journal, s[r].Subject());
    }
  }

  /** An id made up now was never spoken of. */
  lemma FreshIsSpeakable(s: Rows, journal: seq<Change>, issued: set<string>, pending: set<Entity>, e: Entity,
                         more: set<string>)
    requires Consistent(s, journal, issued, pending) && e.id !in issued && e.id in more
    ensures Speakable(journal, more, e)
  {
  }

  // Inserting a row

  ghost predicate Insertable(s: Rows, issued: set<string>, row: Row) {
    && row.PrimaryKey() !in s && !row.ChangeRow? && !row.Workspace? && row.ColonFree() && Resolved(s, row)
    && (IsMinted(row.Table()) ==> row.Key() in issued)
    && (row.Tag? ==> IsTagNode(s, row) && forall r :: !TagAt(s, r, row.workspaceId, row.path))
    && (row.Field? ==> forall r :: !FieldAt(s, r, row.workspaceId, row.name))
  }

  lemma InsertKeepsOwned(s: Rows, row: Row)
    requires Tabular(s) && Resolves(s) && row.PrimaryKey() !in s && !row.ChangeRow? && row.ColonFree() &&
             Resolved(s, row)
    ensures Tabular(s[row.PrimaryKey() := row]) && Resolves(s[row.PrimaryKey() := row])
  {
    var t := s[row.PrimaryKey() := row];
    forall r | r in t
      ensures t[r].PrimaryKey() == r && t[r].ColonFree() && !t[r].ChangeRow?
    {
      assert r in s ==> s[r].PrimaryKey() == r;
    }
    forall r | r in t
      ensures Resolved(t, t[r])
    {
      assert r in s ==> Resolved(s, s[r]);
    }
  }

  function Tagged(s: Rows, r: Ref): Option<Row> {
    if r in s && s[r].Tag? then Some(s[r]) else None
  }

  function Fielded(s: Rows, r: Ref): Option<Row> {
    if r in s && s[r].Field? then Some(s[r]) else None
  }

  lemma NodeOfMoreTags(s: Rows, t: Rows, row: Row)
    requires row.Tag? && IsTagNode(s, row)
    requires forall r {:trigger Tagged(t, r)} :: Tagged(s, r).Some? ==> Tagged(t, r) == Tagged(s, r)
    ensures IsTagNode(t, row)
  {
    if row.parentTagId.Some? {
      assert Tagged(t, Ref(Tags, row.parentTagId.value)).Some? || Tagged(s, Ref(Tags, row.parentTagId.value)).None?;
    }
  }

  lemma ForestOfSameTags(s: Rows, t: Rows)
    requires Forest(s) && forall r {:trigger Tagged(t, r)} :: Tagged(t, r) == Tagged(s, r)
    ensures Forest(t)
  {
    forall r | r in t && t[r].Tag?
      ensures IsTagNode(t, t[r])
    {
      assert Tagged(t, r).Some?;
      assert IsTagNode(s, s[r]);
      NodeOfMoreTags(s, t, t[r]);
    }
    forall a, b | a in t && b in t && t[a].Tag? && TagAt(t, b, t[a].workspaceId, t[a].path)
      ensures a == b
    {
      assert Tagged(t, a).Some? && Tagged(t, b).Some?;
      assert TagAt(s, b, s[a].workspaceId, s[a].path);
    }
  }

  lemma NamesOfSameFields(s: Rows, t: Rows)
    requires FieldNamesUnique(s)
    requires forall r {:trigger Fielded(t, r)} :: Fielded(t, r).Some? ==> Fielded(t, r) == Fielded(s, r)
    ensures FieldNamesUnique(t)
  {
    forall a, b | a in t && b in t && t[a].Field? && FieldAt(t, b, t[a].workspaceId, t[a].name)
      ensures a == b
    {
      assert Fielded(t, a).Some? && Fielded(t, b).Some?;
      assert FieldAt(s, b, s[a].workspaceId, s[a].name);
    }
  }

  lemma InsertKeepsForest(s: Rows, row: Row)
    requires Forest(s) && row.PrimaryKey() !in s
    requires row.Tag? ==> IsTagNode(s, row) && forall r :: !TagAt(s, r, row.workspaceId, row.path)
    ensures Forest(s[row.PrimaryKey() := row])
  {
    if row.Tag? {
      NewNodeKeepsForest(s, row);
    } else {
      ForestOfSameTags(s, s[row.PrimaryKey() := row]);
    }
  }

  lemma NewNodeIsAlone(s: Rows, row: Row, a: Ref, b: Ref)
    requires Forest(s) && row.PrimaryKey() !in s && row.Tag? && forall r :: !TagAt(s, r, row.workspaceId, row.path)
    requires var t := s[row.PrimaryKey() := row];
             a in t && t[a].Tag? && TagAt(t, b, t[a].workspaceId, t[a].path)
    ensures a == b
  {
    assert !TagAt(s, a, row.workspaceId, row.path) && !TagAt(s, b, row.workspaceId, row.path);
    assert a in s && b in s ==> TagAt(s, b, s[a].workspaceId, s[a].path);
  }

  lemma NewNodeKeepsForest(s: Rows, row: Row)
    requires Forest(s) && row.PrimaryKey() !in s && row.Tag?
    requires IsTagNode(s, row) && forall r :: !TagAt(s, r, row.workspaceId, row.path)
    ensures Forest(s[row.PrimaryKey() := row])
  {
    var t := s[row.PrimaryKey() := row];
    forall r | r in t && t[r].Tag?
      ensures IsTagNode(t, t[r])
    {
      assert r in s ==> IsTagNode(s, s[r]);
      NodeOfMoreTags(s, t, t[r]);
    }
    forall a, b | a in t && t[a].Tag? && TagAt(t, b, t[a].workspaceId, t[a].path)
      ensures a == b
    {
      NewNodeIsAlone(s, row, a, b);
    }
  }

  lemma InsertKeepsFieldNames(s: Rows, row: Row)
    requires FieldNamesUnique(s) && row.PrimaryKey() !in s
    requires row.Field? ==> forall r :: !FieldAt(s, r, row.workspaceId, row.name)
    ensures FieldNamesUnique(s[row.PrimaryKey() := row])
  {
    var t := s[row.PrimaryKey() := row];
    forall a, b | a in t && b in t && t[a].Field? && FieldAt(t, b, t[a].workspaceId, t[a].name)
      ensures a == b
    {
      assert row.Field? ==> !FieldAt(s, a, row.workspaceId, row.name) && !FieldAt(s, b, row.workspaceId, row.name);
      assert a in s && b in s ==> FieldAt(s, b, s[a].workspaceId, s[a].name);
    }
  }

  function Awaiting(pending: set<Entity>, row: Row): set<Entity> {
    if IsLogged(row) then pending + {row.Subject()} else pending
  }

  lemma InsertKeepsLog(s: Rows, journal: seq<Change>, pending: set<Entity>, row: Row)
    requires LogAgrees(s, journal, pending) && row.PrimaryKey() !in s
    ensures LogAgrees(s[row.PrimaryKey() := row], journal, Awaiting(pending, row))
  {
    var t := s[row.PrimaryKey() := row];
    forall e | e in Replay(journal) && e !in Awaiting(pending, row)
      ensures Described(t, e)
    {
      assert Described(s, e);
      var r :| r in s && IsLogged(s[r]) && s[r].Subject() == e;
      assert r in t && t[r] == s[r];
    }
  }

  /** A new row keeps the invariant, its log entry pending. */
  lemma InsertStep(s: Rows, journal: seq<Change>, issued: set<string>, pending: set<Entity>, row: Row)
    requires Consistent(s, journal, issued, pending) && Insertable(s, issued, row)
    ensures Consistent(s[row.PrimaryKey() := row], journal, issued, Awaiting(pending, row))
  {
    InsertKeepsOwned(s, row);
    InsertKeepsForest(s, row);
    InsertKeepsFieldNames(s, row);
    InsertKeepsLog(s, journal, pending, row);
  }

  lemma IssueStep(s: Rows, journal: seq<Change>, issued: set<string>, pending: set<Entity>, more: set<string>)
    requires Consistent(s, journal, issued, pending) && issued <= more && forall id <- more :: IsHex(id)
    ensures Consistent(s, journal, more, pending)
  {
  }

  // Recording a change

  lemma MatchesLater(journal: seq<Change>, c: Change, p: Payload, row: Row)
    requires IsLogged(row) && Matches(journal, p, row)
    ensures Matches(journal + [c], p, row)
  {
    if !row.NoteRevision? && p != PayloadOf(row, None) {
      var f :| FieldDeleted(journal, f) && p == NotePayload(row.(fieldId := Some(f)));
      var d :| d in journal && d.entityType.FieldEntity? && d.entityId == f && d.operation.Delete?;
      assert d in journal + [c];
    }
  }

  /** The change says what has been done: it carries the payload of the row of
      its entity, or tombstones an entity that has no row any more. */
  ghost predicate Reports(s: Rows, journal: seq<Change>, c: Change) {
    if c.IsTombstone() && DeletableKind(c.entityType) then !Described(s, c.Subject())
    else
      && Described(s, c.Subject())
      && forall r <- s :: IsLogged(s[r]) && s[r].Subject() == c.Subject() ==> Matches(journal, c.payload, s[r])
  }

  lemma RecordKeepsLog(s: Rows, journal: seq<Change>, pending: set<Entity>, c: Change)
    requires LogAgrees(s, journal, pending) && Reports(s, journal + [c], c)
    ensures LogAgrees(s, journal + [c], pending - {c.Subject()})
  {
    ReplayNext(journal, c);
    forall r | r in s && s[r].Subject() !in pending - {c.Subject()}
      ensures RowAgrees(journal + [c], s[r])
    {
      if IsLogged(s[r]) && s[r].Subject() != c.Subject() {
        assert RowAgrees(journal, s[r]);
        MatchesLater(journal, c, Replay(journal)[s[r].Subject()], s[r]);
      }
    }
    forall e | e in Replay(journal + [c]) && e !in pending - {c.Subject()}
      ensures Described(s, e)
    {
    }
  }

  ghost predicate Recordable(s: Rows, journal: seq<Change>, issued: set<string>, c: Change) {
    && c.id in issued && (forall d <- journal :: d.id != c.id)
    && Speakable(journal, issued, c.Subject())
    && Ref(Workspaces, c.workspaceId) in s && Ref(Devices, c.deviceId) in s
  }

  /** Recording what was done settles the entity. */
  lemma RecordStep(s: Rows, journal: seq<Change>, issued: set<string>, pending: set<Entity>, c: Change)
    requires Consistent(s, journal, issued, pending) && Recordable(s, journal, issued, c)
    requires Reports(s, journal + [c], c)
    ensures Consistent(s, journal + [c], issued, pending - {c.Subject()})
  {
    RecordKeepsLog(s, journal, pending, c);
    RecordKeepsIds(s, journal, issued, c);
  }

  lemma RecordKeepsIds(s: Rows, journal: seq<Change>, issued: set<string>, c: Change)
    requires IdsIssued(s, journal, issued) && LogAnchored(s, journal) && TombstonesFinal(journal) &&
             Recordable(s, journal, issued, c)
    ensures IdsIssued(s, journal + [c], issued) && LogAnchored(s, journal + [c]) && TombstonesFinal(journal + [c])
  {
    var later := journal + [c];
    assert forall d <- later :: d in journal || d == c;
    forall i | 0 <= i < |later|
      ensures NewIdAt(later, i)
      ensures NeverReused(later[i].entityType) && later[i].IsTombstone() ==> LastWord(later, i)
    {
      assert i < |journal| ==> NewIdAt(journal, i) && later[i] == journal[i];
      if i < |journal| && NeverReused(later[i].entityType) && later[i].IsTombstone() {
        assert LastWord(journal, i) && journal[i] in journal;
      }
      assert forall j | 0 <= j < |journal| :: journal[j] in journal;
    }
  }

  /** Ids stay accounted for when rows go, workspaces and devices aside. */
  lemma FewerRowsKeepIds(s: Rows, t: Rows, journal: seq<Change>, issued: set<string>)
    requires IdsIssued(s, journal, issued) && LogAnchored(s, journal)
    requires t.Keys <= s.Keys && forall r <- s :: r.table.Workspaces? || r.table.Devices? ==> r in t
    ensures IdsIssued(t, journal, issued) && LogAnchored(t, journal)
  {
  }

  // Changing and removing rows

  /** A note row rewritten in place, its log entry pending. */
  lemma RewriteStep(s: Rows, journal: seq<Change>, issued: set<string>, pending: set<Entity>, row: Row)
    requires Consistent(s, journal, issued, pending)
    requires row.Note? && row.PrimaryKey() in s && s[row.PrimaryKey()].Note?
    requires s[row.PrimaryKey()].workspaceId == row.workspaceId && Resolved(s, row)
    ensures Consistent(s[row.PrimaryKey() := row], journal, issued, pending + {row.Subject()})
  {
    var t := s[row.PrimaryKey() := row];
    forall r | r in t
      ensures Resolved(t, t[r])
    {
      assert Resolved(s, s[r]);
      assert forall x <- Targets(t[r]) :: x in s && t[x].Owner() == s[x].Owner();
    }
    ForestOfSameTags(s, t);
    NamesOfSameFields(s, t);
    RewriteKeepsLog(s, journal, pending, row);
  }

  lemma RewriteKeepsLog(s: Rows, journal: seq<Change>, pending: set<Entity>, row: Row)
    requires LogAgrees(s, journal, pending) && row.Note? && row.PrimaryKey() in s && s[row.PrimaryKey()].Note?
    requires Keyed(s)
    ensures LogAgrees(s[row.PrimaryKey() := row], journal, pending + {row.Subject()})
  {
    var t := s[row.PrimaryKey() := row];
    forall e | e in Replay(journal) && e !in pending + {row.Subject()}
      ensures Described(t, e)
    {
      assert Described(s, e);
      var r :| r in s && IsLogged(s[r]) && s[r].Subject() == e;
      assert s[r].PrimaryKey() == r && s[row.PrimaryKey()].PrimaryKey() == row.PrimaryKey();
      assert r != row.PrimaryKey();
      assert r in t && t[r] == s[r];
    }
  }

  lemma RemoveKeepsOwned(s: Rows, ref: Ref)
    requires Tabular(s) && Resolves(s) && ref in s && (s[ref].NoteTag? || s[ref].NoteLink?)
    ensures Tabular(s - {ref}) && Resolves(s - {ref})
  {
    var t := s - {ref};
    assert s[ref].PrimaryKey() == ref;
    forall r | r in t
      ensures Resolved(t, t[r])
    {
      assert Resolved(s, s[r]);
      forall x | x in Targets(s[r])
        ensures x != ref
      {
        ReferencedTables(s[r], x);
      }
    }
  }

  /** A relation removed, its log entry pending. */
  lemma RemoveStep(s: Rows, journal: seq<Change>, issued: set<string>, pending: set<Entity>, ref: Ref)
    requires Consistent(s, journal, issued, pending) && ref in s && (s[ref].NoteTag? || s[ref].NoteLink?)
    ensures Consistent(s - {ref}, journal, issued, pending + {s[ref].Subject()})
    ensures !Described(s - {ref}, s[ref].Subject())
  {
    var t := s - {ref};
    RemoveKeepsOwned(s, ref);
    ForestOfSameTags(s, t);
    NamesOfSameFields(s, t);
    RemoveKeepsLog(s, journal, pending, ref);
    assert s[ref].PrimaryKey() == ref;
    FewerRowsKeepIds(s, t, journal, issued);
    forall r | r in t && IsLogged(t[r]) && t[r].Subject() == s[ref].Subject()
      ensures false
    {
      SubjectsAreDistinct(s, r, ref);
    }
  }

  lemma RemoveKeepsLog(s: Rows, journal: seq<Change>, pending: set<Entity>, ref: Ref)
    requires LogAgrees(s, journal, pending) && ref in s
    ensures LogAgrees(s - {ref}, journal, pending + {s[ref].Subject()})
  {
    var t := s - {ref};
    forall e | e in Replay(journal) && e !in pending + {s[ref].Subject()}
      ensures Described(t, e)
    {
      assert Described(s, e);
      var r :| r in s && IsLogged(s[r]) && s[r].Subject() == e;
      assert r in t && t[r] == s[r];
    }
  }

  // Deleting a field

  lemma ClearedNoteMatches(s: Rows, journal: seq<Change>, ref: Ref, c: Change, r: Ref)
    requires Keyed(s) && ref in s && s[ref].Field? && NoVisibleUse(s, {ref}) && FieldDeleted(journal + [c], ref.key)
    requires r in Cleared(s, {ref}) && IsLogged(s[r]) && RowAgrees(journal, s[r]) && s[r].Subject() != c.Subject()
    requires c.Subject() == s[ref].Subject()
    ensures RowAgrees(journal + [c], Cleared(s, {ref})[r])
  {
    var before, after := s[r], Cleared(s, {ref})[r];
    ReplayNext(journal, c);
    var p := Replay(journal)[before.Subject()];
    if after == before {
      MatchesLater(journal, c, p, before);
    } else {
      assert RefersTo(s, {ref}, before) && !before.Visible();
      assert p == NotePayload(before) && before == after.(fieldId := Some(ref.key));
    }
  }

  lemma ClearingKeepsOwned(s: Rows, ref: Ref)
    requires Tabular(s) && Resolves(s) && ref in s && s[ref].Field?
    ensures Tabular(Cleared(s, {ref})) && Resolves(Cleared(s, {ref}))
  {
    var t := Cleared(s, {ref});
    assert s[ref].PrimaryKey() == ref;
    forall r | r in t
      ensures t[r].PrimaryKey() == r && t[r].ColonFree() && !t[r].ChangeRow?
    {
      assert s[r].PrimaryKey() == r;
    }
    forall r | r in t
      ensures Resolved(t, t[r])
    {
      assert Resolved(s, s[r]) && t[r].Owner() == s[r].Owner();
      forall x | x in Targets(t[r])
        ensures x in t && t[x].Owner() == s[x].Owner() && x in Targets(s[r])
      {
        ReferencedTables(t[r], x);
      }
    }
  }

  lemma ClearingKeepsForest(s: Rows, ref: Ref)
    requires Forest(s) && FieldNamesUnique(s) && ref in s && s[ref].Field?
    ensures Forest(Cleared(s, {ref})) && FieldNamesUnique(Cleared(s, {ref}))
  {
    var t := Cleared(s, {ref});
    forall r
      ensures Tagged(t, r) == Tagged(s, r)
      ensures Fielded(t, r).Some? ==> Fielded(t, r) == Fielded(s, r)
    {
      assert r in t && t[r] != s[r] ==> s[r].Note? && t[r].Note?;
    }
    ForestOfSameTags(s, t);
    NamesOfSameFields(s, t);
  }

  /** A field no visible note uses can go: the hidden notes that used it lose their
      reference, and the change that says so completes the step. */
  lemma DeleteFieldStep(s: Rows, journal: seq<Change>, issued: set<string>, ref: Ref, c: Change)
    requires Consistent(s, journal, issued, {}) && ref in s && s[ref].Field? && NoVisibleUse(s, {ref})
    requires Recordable(s, journal, issued, c) && c.Subject() == s[ref].Subject() && c.operation.Delete?
    ensures Consistent(Cleared(s, {ref}), journal + [c], issued, {})
  {
    var t := Cleared(s, {ref});
    assert s[ref].PrimaryKey() == ref;
    assert c in journal + [c] && FieldDeleted(journal + [c], ref.key);
    ClearingKeepsOwned(s, ref);
    ClearingKeepsForest(s, ref);
    DeletionKeepsLog(s, journal, ref, c);
    RecordKeepsIds(s, journal, issued, c);
    FewerRowsKeepIds(s, t, journal + [c], issued);
  }

  lemma DeletionKeepsLog(s: Rows, journal: seq<Change>, ref: Ref, c: Change)
    requires Tabular(s) && Resolves(s) && LogAgrees(s, journal, {}) && ref in s && s[ref].Field? &&
             NoVisibleUse(s, {ref})
    requires c.Subject() == s[ref].Subject() && c.operation.Delete? && FieldDeleted(journal + [c], ref.key)
    ensures LogAgrees(Cleared(s, {ref}), journal + [c], {})
  {
    var t := Cleared(s, {ref});
    ReplayNext(journal, c);
    forall r | r in t
      ensures RowAgrees(journal + [c], t[r])
    {
      if IsLogged(s[r]) {
        if s[r].Subject() == s[ref].Subject() {
          SubjectsAreDistinct(s, r, ref);
        }
        assert RowAgrees(journal, s[r]);
        ClearedNoteMatches(s, journal, ref, c, r);
      }
    }
    forall e | e in Replay(journal + [c])
      ensures Described(t, e)
    {
      assert Described(s, e);
      var r :| r in s && IsLogged(s[r]) && s[r].Subject() == e;
      assert r in t && t[r].Subject() == e;
    }
  }
}
