/** The note store as one side of a synchronization: what its invariant gives the
    comparison, and where the order of the log and the order of time part. */
module Sides {
  import opened Base
  import opened Tables
  import opened Changes
  import opened Lifecycle
  import opened Merge
  import opened Resume
  import opened ForeignKeys
  import opened Ledger
  import opened Database
  import opened Taxonomy
  import TagPaths

  ghost predicate Mentions(journal: seq<Change>, id: string) {
    exists c <- journal :: c.id == id
  }

  ghost function ChangeNamed(journal: seq<Change>, id: string): Change
    requires Mentions(journal, id)
  {
    var c :| c in journal && c.id == id; c
  }

  /** All nine tables of a store. */
  ghost function AsSide(s: Rows, journal: seq<Change>): Rows {
    s + map r | r in (set c <- journal :: Ref(SyncChanges, c.id)) &&
        Mentions(journal, r.key) :: ChangeRow(ChangeNamed(journal, r.key))
  }

  lemma ChangesAreNamed(s: Rows, journal: seq<Change>, c: Change)
    requires LogAnchored(s, journal) && c in journal
    ensures ChangeNamed(journal, c.id) == c
  {
    var d := ChangeNamed(journal, c.id);
    var i :| 0 <= i < |journal| && journal[i] == c;
    var j :| 0 <= j < |journal| && journal[j] == d;
    assert NewIdAt(journal, i) && NewIdAt(journal, j);
  }

  lemma SideAt(s: Rows, journal: seq<Change>, r: Ref)
    requires Tabular(s) && LogAnchored(s, journal)
    ensures !r.table.SyncChanges? ==> Lookup(AsSide(s, journal), r) == Lookup(s, r)
    ensures r.table.SyncChanges? && r in AsSide(s, journal) ==>
              exists c <- journal :: c.id == r.key && AsSide(s, journal)[r] == ChangeRow(c)
  {
    assert r in s ==> s[r].PrimaryKey() == r && !s[r].ChangeRow?;
    if r.table.SyncChanges? && r in AsSide(s, journal) {
      var c := ChangeNamed(journal, r.key);
      assert c in journal && c.id == r.key;
    }
  }

  lemma ChangeAt(s: Rows, journal: seq<Change>, c: Change)
    requires LogAnchored(s, journal) && c in journal
    ensures Lookup(AsSide(s, journal), Ref(SyncChanges, c.id)) == Some(ChangeRow(c))
  {
    ChangesAreNamed(s, journal, c);
  }

  lemma TableRowOfSide(s: Rows, journal: seq<Change>, r: Ref)
    requires Tabular(s) && Resolves(s) && LogAnchored(s, journal) && r in s
    ensures var side := AsSide(s, journal);
            Lookup(side, r) == Some(s[r]) && s[r].PrimaryKey() == r && s[r].ColonFree() && Resolved(side, s[r])
  {
    var side, row := AsSide(s, journal), s[r];
    assert row.PrimaryKey() == r && !row.ChangeRow? && row.ColonFree();
    SideAt(s, journal, r);
    assert Resolved(s, row);
    forall x | x in Targets(row)
      ensures x in s && Lookup(side, x) == Some(s[x])
    {
      TargetsAreTables(row, x);
      SideAt(s, journal, x);
    }
  }

  lemma ChangeOfSide(s: Rows, journal: seq<Change>, c: Change)
    requires Tabular(s) && LogAnchored(s, journal) && c in journal
    ensures var side := AsSide(s, journal);
            Lookup(side, Ref(SyncChanges, c.id)) == Some(ChangeRow(c)) && Resolved(side, ChangeRow(c))
  {
    ChangeAt(s, journal, c);
    forall x | x in Targets(ChangeRow(c))
      ensures x in AsSide(s, journal) && SharedTable(x.table)
    {
      SideAt(s, journal, x);
    }
  }

  lemma SideRow(s: Rows, journal: seq<Change>, r: Ref)
    requires Tabular(s) && Resolves(s) && LogAnchored(s, journal) && r in AsSide(s, journal)
    ensures r in s || exists c <- journal :: r == Ref(SyncChanges, c.id) && AsSide(s, journal)[r] == ChangeRow(c)
    ensures var side := AsSide(s, journal); side[r].PrimaryKey() == r && side[r].ColonFree() && Resolved(side, side[r])
  {
    SideAt(s, journal, r);
    if r in s {
      TableRowOfSide(s, journal, r);
    } else {
      var c :| c in journal && c.id == r.key && AsSide(s, journal)[r] == ChangeRow(c);
      ChangeOfSide(s, journal, c);
    }
  }

  lemma SideLog(s: Rows, journal: seq<Change>, c: Change)
    requires Tabular(s) && Resolves(s) && LogAnchored(s, journal)
    ensures c in Log(AsSide(s, journal)) <==> c in journal
  {
    var side := AsSide(s, journal);
    if c in Log(side) {
      var r :| r in side && side[r].ChangeRow? && side[r].change == c;
      SideRow(s, journal, r);
      if r in s {
        TableRowOfSide(s, journal, r);
      }
    }
    if c in journal {
      ChangeOfSide(s, journal, c);
      assert side[Ref(SyncChanges, c.id)].change == c;
    }
  }

  lemma SideTags(s: Rows, journal: seq<Change>)
    requires Tabular(s) && Resolves(s) && LogAnchored(s, journal) && Forest(s)
    ensures TagsRanked(AsSide(s, journal))
  {
    var side := AsSide(s, journal);
    forall r | r in side && side[r].Tag? && side[r].parentTagId.Some?
      ensures var parent := Ref(Tags, side[r].parentTagId.value);
              parent in side ==> side[parent].Tag? && side[parent].depth < side[r].depth
    {
      SideRow(s, journal, r);
      TableRowOfSide(s, journal, r);
      SideAt(s, journal, Ref(Tags, side[r].parentTagId.value));
      ParentIsHigher(s, r);
    }
  }

  /** Every reachable state of the store is a side the synchronization can rely on:
      soundly keyed, closed under references with note fields in the note's own
      workspace, tags below their parents, and the log exactly the journal. */
  lemma StoreIsASide(s: Rows, journal: seq<Change>, issued: set<string>)
    requires Consistent(s, journal, issued, {})
    ensures var side := AsSide(s, journal);
            && Sound(side) && Resolves(side) && WorkspacesResolve(side) && TagsRanked(side)
            && (forall c :: c in Log(side) <==> c in journal)
  {
    var side := AsSide(s, journal);
    forall r | r in side
      ensures side[r].PrimaryKey() == r && side[r].ColonFree() && Resolved(side, side[r])
      ensures Ref(Workspaces, side[r].Owner()) in side
    {
      SideRow(s, journal, r);
      OwnerResolves(side, r);
    }
    forall c
      ensures c in Log(side) <==> c in journal
    {
      SideLog(s, journal, c);
    }
    SideTags(s, journal);
  }

  lemma ParentIsHigher(s: Rows, r: Ref)
    requires Forest(s) && r in s && s[r].Tag? && s[r].parentTagId.Some?
    ensures var parent := Ref(Tags, s[r].parentTagId.value);
            parent in s && s[parent].Tag? && s[parent].depth == s[r].depth - 1
  {
    var segments := TagPaths.Parse(s[r].path);
    var parent := Ref(Tags, s[r].parentTagId.value);
    assert IsTagNode(s, s[r]);
    assert TagAt(s, parent, s[r].workspaceId, TagPaths.Join(segments[..|segments| - 1]));
    assert IsTagNode(s, s[parent]);
    TagPaths.ParseGivesSegments(s[r].path);
    assert forall segment <- segments[..|segments| - 1] :: segment in segments;
    TagPaths.ParseOfJoin(segments[..|segments| - 1]);
  }

  // Order of the log and order of time

  /** Nothing the log says about the entity of `c` is of a later second, or of the
      same second and a larger id. */
  ghost predicate LatestInTime(journal: seq<Change>, c: Change) {
    forall d <- journal :: d.Subject() == c.Subject() && d != c ==>
      d.createdAt < c.createdAt || (d.createdAt == c.createdAt && StringLess(d.id, c.id))
  }

  /** A deleted field or link is deleted for the comparison too, exactly if the
      deletion is the latest change about it in time, ties decided by the ids. */
  lemma DeletionIsKept(s: Rows, journal: seq<Change>, issued: set<string>, c: Change)
    requires Consistent(s, journal, issued, {}) && c in journal && c.IsTombstone() && NeverReused(c.entityType)
    ensures DeletedIn(Log(AsSide(s, journal)), c.Subject()) <==> LatestInTime(journal, c)
  {
    var log, e := Log(AsSide(s, journal)), c.Subject();
    ChangeIdsOfSide(s, journal, issued);
    forall d
      ensures d in log <==> d in journal
    {
      SideLog(s, journal, d);
    }
    if LatestInTime(journal, c) {
      assert IsNewest(log, e, c);
      NewestIs(log, e, c);
    } else if DeletedIn(log, e) {
      NewestExists(log, e);
      OneTombstone(journal, c, Newest(log, e).value);
    }
  }

  lemma OneTombstone(journal: seq<Change>, c: Change, d: Change)
    requires TombstonesFinal(journal) && c in journal && d in journal && d.Subject() == c.Subject()
    requires c.IsTombstone() && d.IsTombstone() && NeverReused(c.entityType)
    ensures c == d
  {
    var i :| 0 <= i < |journal| && journal[i] == c;
    var j :| 0 <= j < |journal| && journal[j] == d;
    assert LastWord(journal, i) && LastWord(journal, j);
  }

  lemma ChangeIdsOfSide(s: Rows, journal: seq<Change>, issued: set<string>)
    requires Consistent(s, journal, issued, {})
    ensures DistinctIds(Log(AsSide(s, journal)))
  {
    forall c, d | c in Log(AsSide(s, journal)) && d in Log(AsSide(s, journal)) && c.id == d.id
      ensures c == d
    {
      SideLog(s, journal, c);
      SideLog(s, journal, d);
      ChangesAreNamed(s, journal, c);
      ChangesAreNamed(s, journal, d);
    }
  }

  /** A run against a side that still has the row brings a lost deletion back: the
      field is on both sides afterwards. */
  lemma LostDeletionComesBack(s: Rows, journal: seq<Change>, issued: set<string>, R: Rows, field: Row)
    requires Consistent(s, journal, issued, {}) && field.Field? && field.PrimaryKey() !in s
    requires Lookup(R, field.PrimaryKey()) == Some(field) && !DeletedIn(Log(AsSide(s, journal)), field.Subject())
    ensures var v := ViewOf(AsSide(s, journal), R);
            && v.VerdictAt(field.PrimaryKey()) == Act(UpsertLocal, LocalMissing)
            && Lookup(LocalAfter(v), field.PrimaryKey()) == Some(field) == Lookup(RemoteAfter(v), field.PrimaryKey())
  {
    var side := AsSide(s, journal);
    SideAt(s, journal, field.PrimaryKey());
    ChangeIdsOfSide(s, journal, issued);
    IndexIsNewest(Log(side), field.Subject());
    AfterAt(ViewOf(side, R), field.PrimaryKey());
  }

  lemma UsedFieldIsHeld(s: Rows, r: Ref)
    requires Resolves(s) && r in s && s[r].Note? && s[r].fieldId.Some?
    ensures Ref(Fields, s[r].fieldId.value) in s
  {
    assert Resolved(s, s[r]) && Ref(Fields, s[r].fieldId.value) in Targets(s[r]);
  }

  /** A field whose id is new is used by no note. */
  lemma NothingUsesFresh(s: Rows, t: Rows, issued: set<string>, field: Row)
    requires Resolves(s) && field.Field? && field.id !in issued && forall r <- s ::
                                                                     IsMinted(r.table) ==> r.key in issued
    requires forall r <- t :: t[r].Note? ==> Lookup(s, r) == Some(t[r])
    ensures VisibleUses(t, field.workspaceId, field.id) == {}
  {
    forall r | r in t && t[r].Note?
      ensures t[r].fieldId != Some(field.id)
    {
      if t[r].fieldId.Some? {
        UsedFieldIsHeld(s, r);
      }
    }
  }

  /** Of two changes about a new entity the second is the latest if its id is larger. */
  lemma LaterOfTwo(journal: seq<Change>, a: Change, b: Change)
    requires (forall d <- journal :: d.Subject() != b.Subject()) && a.Subject() == b.Subject() && a != b
    requires a.createdAt == b.createdAt
    ensures LatestInTime(journal + [a] + [b], b) <==> StringLess(a.id, b.id)
  {
    var all := journal + [a] + [b];
    assert forall d :: d in all <==> d in journal || d == a || d == b;
  }

  /** A field created and deleted within one second: the deletion counts for the
      comparison exactly if it drew the larger change id. */
  method CreateThenDelete(db: Database, workspaceId: string, name: string, now: int) returns (field: Row)
    requires db.Good({}) && Ref(Workspaces, workspaceId) in db.rows
    requires forall x :: !FieldAt(db.rows, x, workspaceId, name)
    modifies db
    ensures db.Good({}) && field.Field? && field.PrimaryKey() !in db.rows
    ensures var insertId := db.mint(old(db.issued) + {field.id});
            var deleteId := db.mint(old(db.issued) + {field.id, insertId});
            && field.id == db.mint(old(db.issued))
            && (DeletedIn(Log(AsSide(db.rows, db.journal)), field.Subject()) <==> StringLess(insertId, deleteId))
  {
    ghost var s, journal, issued := db.rows, db.journal, db.issued;
    var created := GetOrCreateField(db, workspaceId, name, now, {});
    field := created.value;
    ghost var inserted := FieldInput(field, Insert).Recorded(db.defaults, db.mint(issued + {field.id}), now);
    ghost var more := db.issued;
    assert more == issued + {field.id, inserted.id};
    NothingUsesFresh(s, db.rows, issued, field);
    var gone := DeleteUnusedField(db, workspaceId, field.id, now);
    ghost var deleted := FieldInput(field, Delete).Recorded(db.defaults, db.mint(more), now);
    assert db.journal == journal + [inserted] + [deleted];
    LaterOfTwo(journal, inserted, deleted);
    DeletionIsKept(db.rows, db.journal, db.issued, deleted);
  }

  // A store that loses a deletion

  /** A hexadecimal string of this first digit and at least this length that is not taken. */
  function Free(taken: set<string>, digit: char, n: nat): string {
    var id := [digit] + seq(n, i => 'a');
    if id in taken then Free(taken - {id}, digit, n + 1) else id
  }

  lemma {:induction false} FreeIsFree(taken: set<string>, digit: char, n: nat)
    requires digit == 'a' || digit == 'b'
    ensures var id := Free(taken, digit, n); id !in taken && IsHex(id) && |id| > n && id[0] == digit
    decreases taken
  {
    var id := [digit] + seq(n, i => 'a');
    if id in taken {
      FreeIsFree(taken - {id}, digit, n + 1);
    }
  }

  /** Makes up ids whose second one is larger than the third. */
  function Unlucky(taken: set<string>): string {
    Free(taken, if |taken| == 1 then 'b' else 'a', 0)
  }

  /** A reachable state of the store whose comparison has forgotten a deletion. */
  method ForgottenDeletion(workspace: Row, name: string, now: int) returns (db: Database, field: Row)
    requires workspace.Workspace? && ':' !in workspace.id
    ensures db.Good({}) && field.Field? && field.PrimaryKey() !in db.rows
    ensures field.Subject() !in Replay(db.journal) && !DeletedIn(Log(AsSide(db.rows, db.journal)), field.Subject())
  {
    forall taken
      ensures Unlucky(taken) !in taken && IsHex(Unlucky(taken))
    {
      FreeIsFree(taken, if |taken| == 1 then 'b' else 'a', 0);
    }
    db := new Database([workspace], DEFAULTS, Unlucky);
    OnlyWorkspace(db.rows, workspace, name);
    field := CreateThenDelete(db, workspace.id, name, now);
    UnluckyIds();
    assert {} + {field.id} == {field.id};
    GoneIsNotReplayed(db.rows, db.journal, db.issued, field);
  }

  lemma OnlyWorkspace(s: Rows, workspace: Row, name: string)
    requires Tabular(s) && workspace.Workspace?
    requires forall r :: r in s <==> exists row <- [workspace] :: row.PrimaryKey() == r
    ensures Ref(Workspaces, workspace.id) in s && forall x :: !FieldAt(s, x, workspace.id, name)
  {
    assert workspace in [workspace];
    forall x
      ensures !FieldAt(s, x, workspace.id, name)
    {
      assert x in s ==> s[x].PrimaryKey() == x;
    }
  }

  lemma GoneIsNotReplayed(s: Rows, journal: seq<Change>, issued: set<string>, field: Row)
    requires Consistent(s, journal, issued, {}) && field.Field? && field.PrimaryKey() !in s
    ensures field.Subject() !in Replay(journal)
  {
    forall r | r in s
      ensures s[r].Subject() != field.Subject()
    {
      assert s[r].PrimaryKey() == r;
    }
    assert !Described(s, field.Subject());
  }

  lemma UnluckyIds()
    ensures !StringLess(Unlucky({Unlucky({})}), Unlucky({Unlucky({}), Unlucky({Unlucky({})})}))
  {
    var a := Unlucky({});
    FreeIsFree({}, 'a', 0);
    var b := Unlucky({a});
    FreeIsFree({a}, 'b', 0);
    assert |{a, b}| == 2;
    FreeIsFree({a, b}, 'a', 0);
  }
}
