/** The decisions of a comparison told from what the sides hold and what their logs
    say last, row by row and change by change. */
module Verdicts {
  import opened Base
  import opened Tables
  import opened Changes
  import opened Lifecycle
  import opened Diff
  import opened Comparison

  /** The entity a row is spoken of as. */
  function SpokenOf(row: Row): Entity {
    match row
    case Workspace(id, _, _, _, _, _) => Entity(WorkspaceEntity, id)
    case Device(id, _, _, _, _, _, _, _) => Entity(DeviceEntity, id)
    case Field(id, _, _, _) => Entity(FieldEntity, id)
    case Tag(id, _, _, _, _, _, _) => Entity(TagEntity, id)
    case Note(id, _, _, _, _, _, _, _, _, _, _, _) => Entity(NoteEntity, id)
    case NoteRevision(id, _, _, _, _, _, _, _, _) => Entity(NoteRevisionEntity, id)
    case NoteTag(_, note, tag, _) => Entity(NoteTagEntity, note + ":" + tag)
    case NoteLink(id, _, _, _, _, _, _) => Entity(NoteLinkEntity, id)
    case ChangeRow(c) => Entity(OtherEntity("sync_change"), c.id)
  }

  lemma SubjectIsSpokenOf(row: Row)
    ensures row.Subject() == SpokenOf(row)
  {
  }

  /** The primary key of a row. */
  function KeyOf(row: Row): Ref {
    match row
    case Workspace(id, _, _, _, _, _) => Ref(Workspaces, id)
    case Device(id, _, _, _, _, _, _, _) => Ref(Devices, id)
    case Field(id, _, _, _) => Ref(Fields, id)
    case Tag(id, _, _, _, _, _, _) => Ref(Tags, id)
    case Note(id, _, _, _, _, _, _, _, _, _, _, _) => Ref(Notes, id)
    case NoteRevision(id, _, _, _, _, _, _, _, _) => Ref(NoteRevisions, id)
    case NoteTag(home, note, tag, _) => Ref(NoteTags, home + ":" + note + ":" + tag)
    case NoteLink(id, _, _, _, _, _, _) => Ref(NoteLinks, id)
    case ChangeRow(c) => Ref(SyncChanges, c.id)
  }

  lemma PrimaryKeyIsKeyOf(row: Row)
    ensures row.PrimaryKey() == KeyOf(row)
  {
  }

  /** The log speaks of the entity, and last of all deletes, detaches, removes or
      unlinks it. */
  ghost predicate Buried(log: set<Change>, e: Entity) {
    exists c :: IsNewest(log, e, c) && c.operation in {Delete, Detach, Remove, Unlink}
  }

  ghost predicate Silent(log: set<Change>, e: Entity) {
    forall c <- log :: c.Subject() != e
  }

  /** One log speaks of the entity, and the other one not at all or last at an
      earlier time. */
  ghost predicate LaterIn(log: set<Change>, other: set<Change>, e: Entity) {
    exists c :: IsNewest(log, e, c) && forall d :: IsNewest(other, e, d) ==> c.createdAt > d.createdAt
  }

  /** Nobody speaks of the entity, or both last at the same time. */
  ghost predicate Undecided(log: set<Change>, other: set<Change>, e: Entity) {
    || (Silent(log, e) && Silent(other, e))
    || exists c, d :: IsNewest(log, e, c) && IsNewest(other, e, d) && c.createdAt == d.createdAt
  }

  /** The note lost the field its copy has, in nothing else differs from it, and its
      own log buried the field. */
  ghost predicate LostField(log: set<Change>, note: Row, copy: Row) {
    && note.Note? && copy.Note? && note.fieldId.None? && copy.fieldId.Some?
    && note == Note(copy.id, copy.workspaceId, copy.content, copy.role, None, copy.createdAt, copy.updatedAt,
                    copy.archivedAt, copy.deletedAt, copy.currentRevisionId, copy.lastChangeId, copy.conflictStatus)
    && Buried(log, Entity(FieldEntity, copy.fieldId.value))
  }

  lemma IndexTells(s: Rows, e: Entity)
    requires Keyed(s)
    ensures Silent(Log(s), e) <==> e !in Index(Log(s))
    ensures forall c :: IsNewest(Log(s), e, c) <==> Lookup(Index(Log(s)), e) == Some(c)
    ensures Buried(Log(s), e) <==> TombstoneChange(Index(Log(s)), e).Some?
  {
    ChangeIdsAreDistinct(s);
    IndexIsNewest(Log(s), e);
    NewestExists(Log(s), e);
    forall c | IsNewest(Log(s), e, c)
      ensures Newest(Log(s), e) == Some(c)
    {
      NewestIs(Log(s), e, c);
    }
  }

  lemma BurialTells(s: Rows, e: Entity)
    requires Keyed(s)
    ensures Buried(Log(s), e) <==> TombstoneChange(Index(Log(s)), e).Some?
  {
    IndexTells(s, e);
  }

  lemma SilenceTells(s: Rows, e: Entity)
    requires Keyed(s) && Silent(Log(s), e)
    ensures e !in Index(Log(s))
  {
    IndexTells(s, e);
  }

  lemma NewestTells(s: Rows, e: Entity, c: Change)
    requires Keyed(s) && IsNewest(Log(s), e, c)
    ensures Lookup(Index(Log(s)), e) == Some(c)
    ensures Buried(Log(s), e) <==> c.IsTombstone()
  {
    IndexTells(s, e);
  }

  lemma LaterTells(s: Rows, t: Rows, e: Entity)
    requires Keyed(s) && Keyed(t)
    ensures var c, d := Lookup(Index(Log(s)), e), Lookup(Index(Log(t)), e);
            LaterIn(Log(s), Log(t), e) <==> c.Some? && (d.None? || c.value.createdAt > d.value.createdAt)
  {
    IndexTells(s, e);
    IndexTells(t, e);
    var c, d := Lookup(Index(Log(s)), e), Lookup(Index(Log(t)), e);
    if c.Some? && (d.None? || c.value.createdAt > d.value.createdAt) {
      assert IsNewest(Log(s), e, c.value);
    }
    if d.Some? {
      assert IsNewest(Log(t), e, d.value);
    }
  }

  lemma UndecidedTells(s: Rows, t: Rows, e: Entity)
    requires Keyed(s) && Keyed(t)
    ensures var c, d := Lookup(Index(Log(s)), e), Lookup(Index(Log(t)), e);
            Undecided(Log(s), Log(t), e) <==>
            (c.None? && d.None?) || (c.Some? && d.Some? && c.value.createdAt == d.value.createdAt)
  {
    IndexTells(s, e);
    IndexTells(t, e);
    var c, d := Lookup(Index(Log(s)), e), Lookup(Index(Log(t)), e);
    if c.Some? && d.Some? {
      assert IsNewest(Log(s), e, c.value) && IsNewest(Log(t), e, d.value);
    }
  }

  /** Of two logs one is later about an entity, or nothing is decided; this alone
      tells which side a differing row goes to. */
  lemma FreshnessTells(L: Rows, R: Rows, e: Entity)
    requires Keyed(L) && Keyed(R)
    ensures NewerTarget(e, Index(Log(L)), Index(Log(R))) ==
            if LaterIn(Log(L), Log(R), e) then Some(UpsertRemote)
            else if LaterIn(Log(R), Log(L), e) then Some(UpsertLocal) else None
    ensures Undecided(Log(L), Log(R), e) <==> !LaterIn(Log(L), Log(R), e) && !LaterIn(Log(R), Log(L), e)
  {
    LaterTells(L, R, e);
    LaterTells(R, L, e);
    UndecidedTells(L, R, e);
  }

  lemma FieldRuleTells(L: Rows, R: Rows, ref: Ref)
    requires Keyed(L) && Keyed(R) && ref in L && ref in R && L[ref].Note? && R[ref].Note?
    ensures NoteFieldTombstoneAction(L[ref], R[ref], Index(Log(L)), Index(Log(R))) ==
            if LostField(Log(L), L[ref], R[ref]) then Some(UpsertRemote)
            else if LostField(Log(R), R[ref], L[ref]) then Some(UpsertLocal) else None
  {
    if R[ref].fieldId.Some? {
      BurialTells(L, Entity(FieldEntity, R[ref].fieldId.value));
    }
    if L[ref].fieldId.Some? {
      BurialTells(R, Entity(FieldEntity, L[ref].fieldId.value));
    }
  }

  /** Rows that differ: changes contradict each other; a note follows the side that
      buried its field; otherwise the side whose log spoke of the row later wins,
      and when neither did, nothing is decided. */
  lemma DifferenceVerdict(L: Rows, R: Rows, ref: Ref)
    requires Keyed(L) && Keyed(R) && ref in L && ref in R && L[ref] != R[ref]
    ensures var verdict, e := ViewOf(L, R).VerdictAt(ref), SpokenOf(R[ref]);
            if ref.table == SyncChanges then verdict == Clash(FactDiffers)
            else if LostField(Log(L), L[ref], R[ref]) then verdict == Act(UpsertRemote, NoteFollowsFieldTombstone)
            else if LostField(Log(R), R[ref], L[ref]) then verdict == Act(UpsertLocal, NoteFollowsFieldTombstone)
            else if LaterIn(Log(L), Log(R), e) then verdict == Act(UpsertRemote, LocalFactNewer)
            else if LaterIn(Log(R), Log(L), e) then verdict == Act(UpsertLocal, RemoteFactNewer)
            else verdict == Clash(FreshnessUnclear)
  {
    assert L[ref].PrimaryKey() == ref == R[ref].PrimaryKey();
    SubjectIsSpokenOf(R[ref]);
    FreshnessTells(L, R, R[ref].Subject());
    if L[ref].Note? && R[ref].Note? {
      FieldRuleTells(L, R, ref);
    }
  }

  /** Neither side is taken exactly if both logs are silent about the row or last speak
      of it at the same time. */
  lemma UndecidedVerdict(L: Rows, R: Rows, ref: Ref)
    requires Keyed(L) && Keyed(R) && ref in L && ref in R && L[ref] != R[ref] && ref.table != SyncChanges
    requires !LostField(Log(L), L[ref], R[ref]) && !LostField(Log(R), R[ref], L[ref])
    ensures ViewOf(L, R).VerdictAt(ref) == Clash(FreshnessUnclear) <==> Undecided(Log(L), Log(R), SpokenOf(R[ref]))
  {
    DifferenceVerdict(L, R, ref);
    FreshnessTells(L, R, SpokenOf(R[ref]));
  }

  /** A row the remote side lacks: a workspace is sent unless nothing else here
      belongs to it, a change is copied, a field, note tag or note link the remote side
      buried is dropped here, a note is sent even then, and anything else buried there
      is a conflict. */
  lemma MissingRemoteVerdict(L: Rows, R: Rows, ref: Ref)
    requires Keyed(L) && Keyed(R) && ref in L && ref !in R
    ensures var verdict, buried := ViewOf(L, R).VerdictAt(ref), Buried(Log(R), SpokenOf(L[ref]));
            match ref.table
            case Workspaces =>
              if exists r :: r in L && r.table != Workspaces && L[r].Owner() == ref.key
              then verdict == Act(UpsertRemote, RemoteMissing) else verdict == Settled
            case SyncChanges => verdict == Act(SyncChangeRemote, FactMissing)
            case Notes => verdict == Act(UpsertRemote, if buried then SoftDeleteAuthoritative else RemoteMissing)
            case Fields | NoteTags | NoteLinks =>
              verdict == if buried then Act(DeleteLocal, RemoteTombstone) else Act(UpsertRemote, RemoteMissing)
            case Devices | Tags | NoteRevisions =>
              verdict == if buried then Clash(DeleteUnsupported) else Act(UpsertRemote, RemoteMissing)
  {
    if ref.table == Workspaces {
      WorkspaceIsUsed(L, ref.key);
    } else {
      SubjectIsSpokenOf(L[ref]);
      BurialTells(R, L[ref].Subject());
    }
  }

  lemma WorkspaceIsUsed(s: Rows, workspaceId: string)
    requires Keyed(s)
    ensures !WorkspaceEmpty(s, workspaceId) <==>
            exists r :: r in s && r.table != Workspaces && s[r].Owner() == workspaceId
  {
    forall r | r in s
      ensures s[r].Workspace? <==> r.table == Workspaces
    {
      assert s[r].PrimaryKey() == r;
    }
  }

  /** The mirror image for a row the local side lacks; here a workspace always comes. */
  lemma MissingLocalVerdict(L: Rows, R: Rows, ref: Ref)
    requires Keyed(L) && Keyed(R) && ref !in L && ref in R
    ensures var verdict, buried := ViewOf(L, R).VerdictAt(ref), Buried(Log(L), SpokenOf(R[ref]));
            match ref.table
            case Workspaces => verdict == Act(UpsertLocal, LocalMissing)
            case SyncChanges => verdict == Act(SyncChangeLocal, FactMissing)
            case Notes => verdict == Act(UpsertLocal, if buried then SoftDeleteAuthoritative else LocalMissing)
            case Fields | NoteTags | NoteLinks =>
              verdict == if buried then Act(DeleteRemote, LocalTombstone) else Act(UpsertLocal, LocalMissing)
            case Devices | Tags | NoteRevisions =>
              verdict == if buried then Clash(DeleteUnsupported) else Act(UpsertLocal, LocalMissing)
  {
    SubjectIsSpokenOf(R[ref]);
    BurialTells(L, R[ref].Subject());
  }

  // Conflicts

  /** The two rows of a key cannot be reconciled: facts that contradict each other, or
      rows that differ without either log being later or a buried field telling why. */
  ghost predicate Contradicts(L: Rows, R: Rows, ref: Ref)
    requires ref in L && ref in R
  {
    && L[ref] != R[ref]
    && (ref.table != SyncChanges ==>
          && Undecided(Log(L), Log(R), SpokenOf(R[ref]))
          && !LostField(Log(L), L[ref], R[ref]) && !LostField(Log(R), R[ref], L[ref]))
  }

  /** A device, tag or revision one side has and the other side buried. */
  ghost predicate BuriedForGood(s: Rows, other: Rows, ref: Ref)
    requires ref in s
  {
    ref !in other && ref.table in {Devices, Tags, NoteRevisions} && Buried(Log(other), SpokenOf(s[ref]))
  }

  ghost predicate InConflict(L: Rows, R: Rows, ref: Ref) {
    || (ref in L && ref in R && Contradicts(L, R, ref))
    || (ref in L && BuriedForGood(L, R, ref))
    || (ref in R && BuriedForGood(R, L, ref))
  }

  lemma ClashTells(L: Rows, R: Rows, ref: Ref)
    requires Keyed(L) && Keyed(R) && ref in ViewOf(L, R).Keys()
    ensures ViewOf(L, R).VerdictAt(ref).Clash? <==> InConflict(L, R, ref)
  {
    if ref in L && ref in R {
      if L[ref] != R[ref] {
        DifferenceVerdict(L, R, ref);
        if ref.table != SyncChanges && !LostField(Log(L), L[ref], R[ref]) && !LostField(Log(R), R[ref], L[ref]) {
          UndecidedVerdict(L, R, ref);
        }
      }
    } else if ref in L {
      MissingRemoteVerdict(L, R, ref);
    } else {
      MissingLocalVerdict(L, R, ref);
    }
  }

  /** When two sides can be synchronized at all, told from rows and logs. */
  lemma ConflictFreeMeans(L: Rows, R: Rows)
    requires Keyed(L) && Keyed(R)
    ensures ConflictFree(L, R) <==> forall ref :: !InConflict(L, R, ref)
  {
    forall ref | ref in ViewOf(L, R).Keys()
      ensures ViewOf(L, R).VerdictAt(ref).Clash? <==> InConflict(L, R, ref)
    {
      ClashTells(L, R, ref);
    }
  }

  // Change copies

  /** Handling the row of `ref` asks for change `c` of the first side's log to be copied
      to the other side: the newest one about an entity the other log is silent about,
      where both sides have the row alike or one has it and the other did not bury it;
      and the one that buried a field, note tag or note link only the other side has. */
  ghost predicate Copied(s: Rows, other: Rows, ref: Ref, c: Change)
    requires ref in s || ref in other
  {
    var e := SpokenOf(if ref in s then s[ref] else other[ref]);
    && IsNewest(Log(s), e, c) && ref.table !in {Workspaces, SyncChanges}
    && if ref in s then Silent(Log(other), e) && (ref in other ==> s[ref] == other[ref])
       else if Buried(Log(s), e) then ref.table in {Fields, NoteTags, NoteLinks}
       else Silent(Log(other), e)
  }

  lemma CopyBesideRow(v: View, ref: Ref, c: Change)
    requires ref in v.local && ref.table !in {Workspaces, SyncChanges}
    requires ref in v.remote ==> v.local[ref] == v.remote[ref]
    requires var e := v.local[ref].Subject(); Lookup(v.lc, e) == Some(c) && e !in v.rc
    ensures v.CopiesAt(ref) == [Action(SyncChangeRemote, SyncChanges, c.id, FactMissing)]
  {
  }

  lemma CopyWithoutRow(v: View, ref: Ref, c: Change)
    requires ref !in v.local && ref in v.remote && ref.table !in {Workspaces, SyncChanges}
    requires var e := v.remote[ref].Subject();
             Lookup(v.lc, e) == Some(c) && if c.IsTombstone() then DeletesPhysically(ref.table) else e !in v.rc
    ensures v.CopiesAt(ref) == [Action(SyncChangeRemote, SyncChanges, c.id, FactMissing)]
  {
  }

  lemma CopiedToRemote(L: Rows, R: Rows, ref: Ref, c: Change)
    requires Keyed(L) && Keyed(R) && ref in ViewOf(L, R).Keys() && Copied(L, R, ref, c)
    ensures ViewOf(L, R).CopiesAt(ref) == [Action(SyncChangeRemote, SyncChanges, c.id, FactMissing)]
  {
    if ref in L {
      SubjectIsSpokenOf(L[ref]);
      NewestTells(L, L[ref].Subject(), c);
      SilenceTells(R, L[ref].Subject());
      CopyBesideRow(ViewOf(L, R), ref, c);
    } else {
      SubjectIsSpokenOf(R[ref]);
      NewestTells(L, R[ref].Subject(), c);
      if !c.IsTombstone() {
        SilenceTells(R, R[ref].Subject());
      }
      CopyWithoutRow(ViewOf(L, R), ref, c);
    }
  }

  lemma CopiedToLocal(L: Rows, R: Rows, ref: Ref, c: Change)
    requires Keyed(L) && Keyed(R) && ref in ViewOf(L, R).Keys() && Copied(R, L, ref, c)
    ensures ViewOf(L, R).CopiesAt(ref) == [Action(SyncChangeLocal, SyncChanges, c.id, FactMissing)]
  {
    CopiedToRemote(R, L, ref, c);
    MirrorOfCopies(ViewOf(R, L), ref);
    assert Flip(ViewOf(R, L)) == ViewOf(L, R);
  }

  lemma NothingElseCopied(L: Rows, R: Rows, ref: Ref)
    requires Keyed(L) && Keyed(R) && ref in ViewOf(L, R).Keys() && ViewOf(L, R).CopiesAt(ref) != []
    ensures exists c :: Copied(L, R, ref, c) || Copied(R, L, ref, c)
  {
    var v, row := ViewOf(L, R), if ref in L then L[ref] else R[ref];
    var e := row.Subject();
    SubjectIsSpokenOf(row);
    IndexTells(L, e);
    IndexTells(R, e);
    if e in v.lc {
      assert Copied(L, R, ref, v.lc[e]) || v.CopiesAt(ref) != [CopyChange(SyncChangeRemote, v.lc[e].id)];
    }
    if e in v.rc {
      assert Copied(R, L, ref, v.rc[e]) || v.CopiesAt(ref) != [CopyChange(SyncChangeLocal, v.rc[e].id)];
    }
  }

  /** What handling one row asks for: its verdict, and copies of changes. */
  ghost predicate AskedAt(L: Rows, R: Rows, ref: Ref, a: Action)
    requires ref in L || ref in R
  {
    || (ViewOf(L, R).VerdictAt(ref) == Act(a.kind, a.reason) && a.table == ref.table && a.key == ref.key)
    || exists c ::
         || (Copied(L, R, ref, c) && a == Action(SyncChangeRemote, SyncChanges, c.id, FactMissing))
         || (Copied(R, L, ref, c) && a == Action(SyncChangeLocal, SyncChanges, c.id, FactMissing))
  }

  lemma CopyMeansCopied(L: Rows, R: Rows, ref: Ref, a: Action)
    requires Keyed(L) && Keyed(R) && ref in ViewOf(L, R).Keys()
    ensures a in ViewOf(L, R).CopiesAt(ref) <==>
            exists c ::
              || (Copied(L, R, ref, c) && a == Action(SyncChangeRemote, SyncChanges, c.id, FactMissing))
              || (Copied(R, L, ref, c) && a == Action(SyncChangeLocal, SyncChanges, c.id, FactMissing))
  {
    if a in ViewOf(L, R).CopiesAt(ref) {
      NothingElseCopied(L, R, ref);
    }
    forall c | Copied(L, R, ref, c)
      ensures ViewOf(L, R).CopiesAt(ref) == [Action(SyncChangeRemote, SyncChanges, c.id, FactMissing)]
    {
      CopiedToRemote(L, R, ref, c);
    }
    forall c | Copied(R, L, ref, c)
      ensures ViewOf(L, R).CopiesAt(ref) == [Action(SyncChangeLocal, SyncChanges, c.id, FactMissing)]
    {
      CopiedToLocal(L, R, ref, c);
    }
  }

  lemma VerdictAndCopies(v: View, ref: Ref, a: Action)
    ensures a in v.ActionsAt(ref) <==>
            || (v.VerdictAt(ref) == Act(a.kind, a.reason) && a.table == ref.table && a.key == ref.key)
            || a in v.CopiesAt(ref)
  {
  }

  lemma AskedMeansListed(L: Rows, R: Rows, ref: Ref, a: Action)
    requires Keyed(L) && Keyed(R) && ref in ViewOf(L, R).Keys()
    ensures a in ViewOf(L, R).ActionsAt(ref) <==> AskedAt(L, R, ref, a)
  {
    VerdictAndCopies(ViewOf(L, R), ref, a);
    CopyMeansCopied(L, R, ref, a);
  }

  /** The whole action list told from rows and logs: an action is in it exactly if some
      row asks for it. */
  lemma ActionsTell(L: Rows, R: Rows, a: Action)
    requires Keyed(L) && Keyed(R)
    ensures a in ViewOf(L, R).AllActions() <==> exists ref :: (ref in L || ref in R) && AskedAt(L, R, ref, a)
  {
    ActionMember(ViewOf(L, R), a);
    forall ref | ref in ViewOf(L, R).Keys()
      ensures a in ViewOf(L, R).ActionsAt(ref) <==> AskedAt(L, R, ref, a)
    {
      AskedMeansListed(L, R, ref, a);
    }
  }

  /** Execution order: all upserts, then all deletions, then all change copies; within
      a step referenced tables first; within a table by key. */
  lemma ExecutionOrder(a: Action, b: Action)
    ensures a.kind in {UpsertLocal, UpsertRemote} && b.kind !in {UpsertLocal, UpsertRemote} ==> ActionLess(a, b)
    ensures a.kind in {DeleteLocal, DeleteRemote} && b.kind in {SyncChangeLocal, SyncChangeRemote} ==> ActionLess(a, b)
    ensures forall i, j | 0 <= i < j < |TABLES| ::
              a.kind == b.kind && TABLES[i] == a.table && TABLES[j] == b.table ==> ActionLess(a, b)
    ensures a.kind == b.kind && a.table == b.table ==> (ActionLess(a, b) <==> StringLess(a.key, b.key))
    ensures ActionLess(a, b) ==> !ActionLess(b, a)
  {
    assert forall i | 0 <= i < |TABLES| :: WriteOrder(TABLES[i]) == i;
    AtMostIsTotalPreorder(a, b, b);
  }
}
