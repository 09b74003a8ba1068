/** Fields and hierarchical tags: found by name or created, fields deleted when
    nothing visible uses them. */
module Taxonomy {
  import opened Base
  import opened Tables
  import opened Payloads
  import opened ForeignKeys
  import opened Stores
  import opened Ledger
  import opened Database
  import TagPaths

  datatype TaxonomyError = RowNotFound | ForeignKeyFailed

  function FieldInput(field: Row, operation: Operation): SyncChangeInput
    requires field.Field?
  {
    SyncChangeInput(field.workspaceId, FieldEntity, field.id, operation, None, None, FieldPayload(field))
  }

  function TagInput(tag: Row): SyncChangeInput
    requires tag.Tag?
  {
    SyncChangeInput(tag.workspaceId, TagEntity, tag.id, Insert, None, None, TagPayload(tag))
  }

  /** A row inserted and recorded right away leaves nothing pending. */
  lemma InsertedAndRecorded(defaults: Defaults, s: Rows, journal: seq<Change>, issued: set<string>,
                            pending: set<Entity>, row: Row, input: SyncChangeInput, id: string, now: int)
    requires Consistent(s, journal, issued, pending) && Insertable(s, issued, row)
    requires row.Field? || row.Tag? || row.NoteTag? || row.NoteLink?
    requires input.Subject() == row.Subject() && !input.RemovesEntity() && input.payload == PayloadOf(row, None)
    requires input.workspaceId == row.Owner() && id !in issued && IsHex(id)
    requires Speakable(journal, issued, input.Subject())
    ensures Consistent(WithDevice(defaults, s[row.PrimaryKey() := row], input.workspaceId, now),
                       journal + [input.Recorded(defaults, id, now)], issued + {id}, pending)
  {
    var t := s[row.PrimaryKey() := row];
    InsertStep(s, journal, issued, pending, row);
    assert Ref(Workspaces, row.Owner()) in Targets(row);
    InsertedIsTruthful(t, journal, row, input);
    SettlingStep(defaults, t, journal, issued, pending, input, id, now);
  }

  lemma InsertedIsTruthful(t: Rows, journal: seq<Change>, row: Row, input: SyncChangeInput)
    requires Tabular(t) && Resolves(t) && Lookup(t, row.PrimaryKey()) == Some(row)
    requires row.Field? || row.Tag? || row.NoteTag? || row.NoteLink?
    requires input.Subject() == row.Subject() && !input.RemovesEntity() && input.payload == PayloadOf(row, None)
    ensures Truthful(t, journal, input)
  {
    assert Described(t, input.Subject());
    forall r | r in t && IsLogged(t[r]) && t[r].Subject() == input.Subject()
      ensures Matches(journal, input.payload, t[r])
    {
      SubjectsAreDistinct(t, r, row.PrimaryKey());
    }
  }

  method FindField(db: Database, workspaceId: string, name: string) returns (r: Option<Row>)
    requires Keyed(db.rows)
    ensures match r
            case Some(field) => FieldAt(db.rows, field.PrimaryKey(), workspaceId, name) &&
                 db.rows[field.PrimaryKey()] == field
            case None => forall x :: !FieldAt(db.rows, x, workspaceId, name)
  {
    var found := set x | x in db.rows && FieldAt(db.rows, x, workspaceId, name);
    if found == {} {
      forall x
        ensures !FieldAt(db.rows, x, workspaceId, name)
      {
        assert x !in found;
      }
      return None;
    }
    var x :| x in found;
    assert db.rows[x].PrimaryKey() == x;
    r := Some(db.rows[x]);
  }

  /** A field was inserted and recorded, each under the next id made up. */
  ghost predicate FieldCreated(defaults: Defaults, mint: set<string> -> string, s: Rows, journal: seq<Change>,
                               issued: set<string>, t: Rows, later: seq<Change>, next: set<string>, field: Row,
                               now: int)
  {
    && field.Field? && field.createdAt == now && field.id == mint(issued) && field.id !in issued
    && field.PrimaryKey() !in s
    && t == WithDevice(defaults, s[field.PrimaryKey() := field], field.workspaceId, now)
    && var id := mint(issued + {field.id});
       && later == journal + [
            Change(id, field.workspaceId, DefaultDeviceId(defaults, field.workspaceId), FieldEntity, field.id, Insert,
                   None, None, FieldPayload(field), now, Some(now), None)]
       && next == issued + {field.id, id}
  }

  method CreateField(db: Database, workspaceId: string, name: string, now: int, ghost pending: set<Entity>)
    returns (r: Result<Row, TaxonomyError>)
    requires db.Good(pending) && forall x :: !FieldAt(db.rows, x, workspaceId, name)
    modifies db
    ensures db.Good(pending) && old(db.issued) <= db.issued
    ensures r.Failure? <==> Ref(Workspaces, workspaceId) !in old(db.rows)
    ensures r.Failure? ==> db.rows == old(db.rows) && db.journal == old(db.journal)
    ensures r.Success? ==> r.value == Field(r.value.Key(), workspaceId, name, now)
    ensures r.Success? ==>
              FieldCreated(db.defaults, db.mint, old(db.rows), old(db.journal), old(db.issued),
                           db.rows, db.journal, db.issued, r.value, now)
  {
    ghost var s, journal, issued := db.rows, db.journal, db.issued;
    var id := db.NewId();
    var field := Field(id, workspaceId, name, now);
    IssueStep(s, journal, issued, pending, db.issued);
    var ok := db.Insert(field);
    assert Targets(field) == {Ref(Workspaces, workspaceId)};
    if !ok {
      return Failure(ForeignKeyFailed);
    }
    NewFieldIsInsertable(s, journal, issued, pending, field, db.issued);
    FreshIsSpeakable(s, journal, issued, pending, field.Subject(), db.issued);
    var changeId := db.RecordSyncChange(FieldInput(field, Insert), now);
    InsertedAndRecorded(db.defaults, s, journal, issued + {id}, pending, field, FieldInput(field, Insert), changeId,
                        now);
    r := Success(field);
  }

  /** The field of that name; created and recorded when it is not there. */
  method GetOrCreateField(db: Database, workspaceId: string, name: string, now: int, ghost pending: set<Entity>)
    returns (r: Result<Row, TaxonomyError>)
    requires db.Good(pending)
    modifies db
    ensures db.Good(pending) && old(db.issued) <= db.issued
    ensures r.Failure? <==> Ref(Workspaces, workspaceId) !in old(db.rows)
    ensures r.Failure? ==> db.rows == old(db.rows) && db.journal == old(db.journal)
    ensures r.Success? ==>
              FieldAt(db.rows, r.value.PrimaryKey(), workspaceId, name) && db.rows[r.value.PrimaryKey()] == r.value
    ensures r.Success? && r.value.PrimaryKey() in old(db.rows) ==>
              db.rows == old(db.rows) && db.journal == old(db.journal) && db.issued == old(db.issued)
    ensures r.Success? && r.value.PrimaryKey() !in old(db.rows) ==>
              && (forall x :: !FieldAt(old(db.rows), x, workspaceId, name))
              && FieldCreated(db.defaults, db.mint, old(db.rows), old(db.journal), old(db.issued),
                              db.rows, db.journal, db.issued, r.value, now)
  {
    var existing := FindField(db, workspaceId, name);
    if existing.Some? {
      assert Resolved(db.rows, existing.value);
      assert Ref(Workspaces, workspaceId) in Targets(existing.value);
      return Success(existing.value);
    }
    r := CreateField(db, workspaceId, name, now, pending);
  }

  lemma NewFieldIsInsertable(s: Rows, journal: seq<Change>, issued: set<string>, pending: set<Entity>, field: Row,
                             more: set<string>)
    requires Consistent(s, journal, issued, pending) && field.Field? && field.id !in issued &&
             more == issued + {field.id}
    requires Resolved(s, field) && forall x :: !FieldAt(s, x, field.workspaceId, field.name)
    ensures Insertable(s, more, field)
  {
  }

  // Tags

  /** The tags `t` has beyond `s`. */
  ghost function NewTags(s: Rows, t: Rows): set<Ref> {
    set r | r in t && r !in s && r.table.Tags?
  }

  /** From `s` to `t` only tags on the path and default devices were added; every
      new tag has its one change, and there are no other changes. */
  ghost predicate TagsAdded(s: Rows, journal: seq<Change>, t: Rows, later: seq<Change>, workspaceId: string,
                            paths: set<string>)
  {
    && (forall r <- s :: Lookup(t, r) == Some(s[r]))
    && (forall r <- t :: r !in s ==>
          r.table.Devices? || (r.table.Tags? && t[r].Tag? && t[r].workspaceId == workspaceId && t[r].path in paths))
    && journal <= later && |later| - |journal| == |NewTags(s, t)|
    && (forall c <- later[|journal|..] ::
          c.entityType.TagEntity? && c.operation.Insert? && Ref(Tags, c.entityId) in NewTags(s, t))
  }

  lemma NothingAdded(s: Rows, journal: seq<Change>, workspaceId: string, paths: set<string>)
    ensures TagsAdded(s, journal, s, journal, workspaceId, paths)
  {
    assert NewTags(s, s) == {};
  }

  lemma OneTagAdded(defaults: Defaults, s: Rows, journal: seq<Change>, tag: Row, id: string, now: int,
                    paths: set<string>)
    requires tag.Tag? && tag.PrimaryKey() !in s && tag.path in paths
    ensures TagsAdded(s, journal, WithDevice(defaults, s[tag.PrimaryKey() := tag], tag.workspaceId, now),
                      journal + [TagInput(tag).Recorded(defaults, id, now)], tag.workspaceId, paths)
  {
    var t := WithDevice(defaults, s[tag.PrimaryKey() := tag], tag.workspaceId, now);
    assert NewTags(s, t) == {tag.PrimaryKey()};
  }

  lemma TagsAddedTwice(s: Rows, a: seq<Change>, t: Rows, b: seq<Change>, u: Rows, c: seq<Change>, workspaceId: string,
                       paths: set<string>)
    requires TagsAdded(s, a, t, b, workspaceId, paths) && TagsAdded(t, b, u, c, workspaceId, paths)
    ensures TagsAdded(s, a, u, c, workspaceId, paths)
  {
    assert NewTags(s, u) == NewTags(s, t) + NewTags(t, u);
    assert NewTags(s, t) !! NewTags(t, u);
    forall x | x in c[|a|..]
      ensures x.entityType.TagEntity? && x.operation.Insert? && Ref(Tags, x.entityId) in NewTags(s, u)
    {
      var i :| |a| <= i < |c| && c[i] == x;
      if i < |b| {
        assert b[i] == c[i] && b[i] in b[|a|..];
      } else {
        assert c[i] in c[|b|..];
      }
    }
  }

  method FindTag(db: Database, workspaceId: string, path: string) returns (r: Option<Row>)
    requires Keyed(db.rows)
    ensures match r
            case Some(tag) => TagAt(db.rows, tag.PrimaryKey(), workspaceId, path) && db.rows[tag.PrimaryKey()] == tag
            case None => forall x :: !TagAt(db.rows, x, workspaceId, path)
  {
    var found := set x | x in db.rows && TagAt(db.rows, x, workspaceId, path);
    if found == {} {
      forall x
        ensures !TagAt(db.rows, x, workspaceId, path)
      {
        assert x !in found;
      }
      return None;
    }
    var x :| x in found;
    assert db.rows[x].PrimaryKey() == x;
    r := Some(db.rows[x]);
  }

  /** A client path down to its first `n` segments. */
  function Stem(segments: seq<string>, n: nat): string
    requires n <= |segments|
  {
    TagPaths.Join(segments[..n])
  }

  ghost function Stems(segments: seq<string>): set<string> {
    set n | 0 < n <= |segments| :: Stem(segments, n)
  }

  lemma NextStem(segments: seq<string>, n: nat)
    requires TagPaths.AreSegments(segments) && n < |segments|
    ensures Stem(segments, n) == [] <==> n == 0
    ensures Stem(segments, n + 1) == if n == 0 then segments[n] else Stem(segments, n) + "/" + segments[n]
    ensures TagPaths.Parse(Stem(segments, n + 1)) == segments[..n + 1]
  {
    assert segments[..n + 1][..n] == segments[..n];
    assert segments[n] in segments;
    if n == 0 {
      assert segments[..0] == [] && segments[..1] == [segments[0]];
    } else if n == 1 {
      assert segments[..1] == [segments[0]] && segments[0] in segments;
    }
    TagPaths.ParseOfJoin(segments[..n + 1]);
  }

  lemma ParentTag(s: Rows, x: Ref, workspaceId: string, segments: seq<string>) returns (y: Ref)
    requires Forest(s) && TagPaths.AreSegments(segments) && |segments| > 1
    requires TagAt(s, x, workspaceId, TagPaths.Join(segments))
    ensures TagAt(s, y, workspaceId, TagPaths.Join(segments[..|segments| - 1]))
  {
    TagPaths.ParseOfJoin(segments);
    assert IsTagNode(s, s[x]);
    y := Ref(Tags, s[x].parentTagId.value);
  }

  /** In a forest every stem of a tag's path is a tag as well. */
  lemma {:induction false} StemsAreTags(s: Rows, x: Ref, workspaceId: string, segments: seq<string>, n: nat)
    requires Forest(s) && TagPaths.AreSegments(segments) && 0 < n <= |segments|
    requires TagAt(s, x, workspaceId, TagPaths.Join(segments))
    ensures exists y :: TagAt(s, y, workspaceId, Stem(segments, n))
    decreases |segments|
  {
    if n == |segments| {
      assert segments[..n] == segments;
      assert TagAt(s, x, workspaceId, Stem(segments, n));
    } else {
      var init := segments[..|segments| - 1];
      var y := ParentTag(s, x, workspaceId, segments);
      StemsAreTags(s, y, workspaceId, init, n);
      assert init[..n] == segments[..n];
      assert Stem(init, n) == Stem(segments, n);
    }
  }

  /** Inserts a tag row under a new id. */
  method PlaceTag(db: Database, workspaceId: string, segment: string, parent: Option<string>, path: string, depth: nat,
                  now: int)
    returns (ok: bool, tag: Row)
    requires db.Minting()
    modifies db`rows, db`issued
    ensures db.Minting() && tag.Tag? && tag == Tag(tag.id, workspaceId, segment, parent, path, depth, now)
    ensures tag.id !in old(db.issued) && IsHex(tag.id) && db.issued == old(db.issued) + {tag.id}
    ensures ok <==> Resolved(old(db.rows), tag)
    ensures db.rows == if ok then old(db.rows)[tag.PrimaryKey() := tag] else old(db.rows)
  {
    var id := db.NewId();
    tag := Tag(id, workspaceId, segment, parent, path, depth, now);
    ok := db.Insert(tag);
  }

  /** Inserts a tag at its place in the forest and records it. */
  method CreateTag(db: Database, workspaceId: string, segment: string, parent: Option<string>, path: string,
                   depth: nat, now: int, ghost pending: set<Entity>)
    returns (r: Result<Row, TaxonomyError>, ghost changeId: string)
    requires db.Good(pending) && IsTagNode(db.rows, Tag("", workspaceId, segment, parent, path, depth, 0))
    requires forall x :: !TagAt(db.rows, x, workspaceId, path)
    modifies db
    ensures db.Good(pending) && old(db.issued) <= db.issued
    ensures r.Failure? ==> db.rows == old(db.rows) && db.journal == old(db.journal)
    ensures r.Failure? ==> Ref(Workspaces, workspaceId) !in old(db.rows)
    ensures r.Success? ==>
              && r.value.Tag? && r.value == Tag(r.value.id, workspaceId, segment, parent, path, depth, now)
              && r.value.PrimaryKey() !in old(db.rows)
              && db.rows == WithDevice(db.defaults, old(db.rows)[r.value.PrimaryKey() := r.value], workspaceId, now)
              && db.journal == old(db.journal) + [TagInput(r.value).Recorded(db.defaults, changeId, now)]
  {
    ghost var s, journal, issued := db.rows, db.journal, db.issued;
    var ok, tag := PlaceTag(db, workspaceId, segment, parent, path, depth, now);
    if !ok {
      IssueStep(s, journal, issued, pending, db.issued);
      UnanchoredTag(s, tag);
      return Failure(ForeignKeyFailed), "";
    }
    var recorded := db.RecordSyncChange(TagInput(tag), now);
    TagCreated(db.defaults, s, journal, issued, pending, tag, recorded, now);
    return Success(tag), recorded;
  }

  /** One step of the way down: the tag of that path, created below its parent
      when it is not there. */
  method GetOrCreateSegment(db: Database, workspaceId: string, segment: string, parent: Option<string>, path: string,
                            depth: nat, now: int, ghost pending: set<Entity>, ghost paths: set<string>)
    returns (r: Result<Row, TaxonomyError>)
    requires db.Good(pending) && IsTagNode(db.rows, Tag("", workspaceId, segment, parent, path, depth, 0)) &&
             path in paths
    modifies db
    ensures db.Good(pending) && old(db.issued) <= db.issued
    ensures r.Failure? ==> db.rows == old(db.rows) && db.journal == old(db.journal)
    ensures r.Failure? ==> Ref(Workspaces, workspaceId) !in old(db.rows)
    ensures r.Success? ==>
            TagAt(db.rows, r.value.PrimaryKey(), workspaceId, path) && db.rows[r.value.PrimaryKey()] == r.value
    ensures (exists x :: TagAt(old(db.rows), x, workspaceId, path)) ==>
            db.rows == old(db.rows) && db.journal == old(db.journal)
    ensures TagsAdded(old(db.rows), old(db.journal), db.rows, db.journal, workspaceId, paths)
  {
    NothingAdded(db.rows, db.journal, workspaceId, paths);
    var existing := FindTag(db, workspaceId, path);
    if existing.Some? {
      return Success(existing.value);
    }
    ghost var s, journal := db.rows, db.journal;
    ghost var changeId;
    r, changeId := CreateTag(db, workspaceId, segment, parent, path, depth, now, pending);
    if r.Success? {
      OneTagAdded(db.defaults, s, journal, r.value, changeId, now, paths);
    }
  }

  lemma UnanchoredTag(s: Rows, tag: Row)
    requires tag.Tag? && IsTagNode(s, tag) && !Resolved(s, tag)
    ensures Ref(Workspaces, tag.workspaceId) !in s
  {
  }

  /** A tag inserted at its place in the forest and recorded. */
  lemma TagCreated(defaults: Defaults, s: Rows, journal: seq<Change>, issued: set<string>, pending: set<Entity>,
                   tag: Row, id: string, now: int)
    requires Consistent(s, journal, issued, pending) && tag.Tag? && tag.id !in issued && IsHex(tag.id)
    requires IsTagNode(s, tag) && Resolved(s, tag) && forall x :: !TagAt(s, x, tag.workspaceId, tag.path)
    requires id !in issued + {tag.id} && IsHex(id)
    ensures Consistent(WithDevice(defaults, s[tag.PrimaryKey() := tag], tag.workspaceId, now),
                       journal + [TagInput(tag).Recorded(defaults, id, now)], issued + {tag.id} + {id}, pending)
  {
    IssueStep(s, journal, issued, pending, issued + {tag.id});
    InsertedAndRecorded(defaults, s, journal, issued + {tag.id}, pending, tag, TagInput(tag), id, now);
  }

  /** Where the walk down a path stands after `n` segments. */
  ghost predicate WalkedTo(s: Rows, workspaceId: string, segments: seq<string>, n: nat, path: string,
                           parent: Option<string>, leaf: Option<Row>)
    requires n <= |segments|
  {
    && path == Stem(segments, n)
    && if n == 0 then leaf.None? && parent.None?
       else leaf.Some? && leaf.value.Tag? && parent == Some(leaf.value.id) &&
            TagAt(s, Ref(Tags, leaf.value.id), workspaceId, path) && s[Ref(Tags, leaf.value.id)] == leaf.value
  }

  lemma SegmentIsNode(s: Rows, workspaceId: string, segments: seq<string>, n: nat, parent: Option<string>,
                      leaf: Option<Row>, tag: Row)
    requires TagPaths.AreSegments(segments) && n < |segments|
    requires WalkedTo(s, workspaceId, segments, n, Stem(segments, n), parent, leaf)
    requires tag.Tag? && tag == Tag(tag.id, workspaceId, segments[n], parent, Stem(segments, n + 1), n, 0)
    ensures IsTagNode(s, tag) && tag.path in Stems(segments)
  {
    var front := segments[..n + 1];
    NextStem(segments, n);
    assert front[..|front| - 1] == segments[..n] && front[|front| - 1] == segments[n];
    NodeOfSegments(s, workspaceId, front, tag);
  }

  lemma NodeOfSegments(s: Rows, workspaceId: string, segments: seq<string>, tag: Row)
    requires segments != [] && tag.Tag? && tag.workspaceId == workspaceId
    requires tag.path == TagPaths.Join(segments) && TagPaths.Parse(tag.path) == segments
    requires tag.name == segments[|segments| - 1] && tag.depth == |segments| - 1
    requires if |segments| == 1 then tag.parentTagId.None?
             else tag.parentTagId.Some? &&
                  TagAt(s, Ref(Tags, tag.parentTagId.value), workspaceId, TagPaths.Join(segments[..|segments| - 1]))
    ensures IsTagNode(s, tag)
  {
  }

  lemma StepWalked(s: Rows, workspaceId: string, segments: seq<string>, n: nat, path: string, tag: Row)
    requires 0 < n <= |segments| && path == Stem(segments, n)
    requires TagAt(s, tag.PrimaryKey(), workspaceId, path) && s[tag.PrimaryKey()] == tag
    ensures WalkedTo(s, workspaceId, segments, n, path, Some(tag.id), Some(tag))
  {
  }

  lemma WholePath(segments: seq<string>)
    ensures Stem(segments, |segments|) == TagPaths.Join(segments)
  {
    assert segments[..|segments|] == segments;
  }

  /** Walks down a path and creates what is missing. */
  method WalkDown(db: Database, workspaceId: string, segments: seq<string>, now: int, ghost pending: set<Entity>)
    returns (r: Result<Row, TaxonomyError>)
    requires db.Good(pending) && TagPaths.AreSegments(segments)
    modifies db
    ensures db.Good(pending) && old(db.issued) <= db.issued
    ensures r.Failure? <==> segments == [] || Ref(Workspaces, workspaceId) !in old(db.rows)
    ensures r.Failure? ==> db.rows == old(db.rows) && db.journal == old(db.journal)
    ensures r.Success? ==>
              TagAt(db.rows, r.value.PrimaryKey(), workspaceId, Stem(segments, |segments|)) &&
                  db.rows[r.value.PrimaryKey()] == r.value
    ensures (exists x :: TagAt(old(db.rows), x, workspaceId, Stem(segments, |segments|))) ==>
              db.rows == old(db.rows) && db.journal == old(db.journal)
    ensures TagsAdded(old(db.rows), old(db.journal), db.rows, db.journal, workspaceId, Stems(segments))
  {
    var parent: Option<string> := None;
    var path := "";
    var leaf: Option<Row> := None;
    ghost var s, journal, paths := db.rows, db.journal, Stems(segments);
    ghost var there := exists x :: TagAt(s, x, workspaceId, Stem(segments, |segments|));
    NothingAdded(s, journal, workspaceId, paths);
    WalkStarts(s, workspaceId, segments);
    for depth := 0 to |segments|
      invariant db.Good(pending) && old(db.issued) <= db.issued
      invariant WalkedTo(db.rows, workspaceId, segments, depth, path, parent, leaf)
      invariant if depth == 0 then db.rows == s && db.journal == journal else Ref(Workspaces, workspaceId) in s
      invariant there ==> db.rows == s && db.journal == journal
      invariant TagsAdded(s, journal, db.rows, db.journal, workspaceId, paths)
    {
      ghost var t, later := db.rows, db.journal;
      var segment := segments[depth];
      NextStem(segments, depth);
      if path == [] {
        path := segment;
      } else {
        path := path + "/" + segment;
      }
      ghost var wanted := Tag("", workspaceId, segment, parent, path, depth, 0);
      SegmentIsNode(t, workspaceId, segments, depth, parent, leaf, wanted);
      StemThere(s, workspaceId, segments, depth + 1);
      r := GetOrCreateSegment(db, workspaceId, segment, parent, path, depth, now, pending, paths);
      if r.Failure? {
        return;
      }
      TagsAddedTwice(s, journal, t, later, db.rows, db.journal, workspaceId, paths);
      leaf, parent := Some(r.value), Some(r.value.id);
      StepWalked(db.rows, workspaceId, segments, depth + 1, path, r.value);
      WorkspaceOfTag(s, journal, db.rows, db.journal, workspaceId, paths, r.value);
    }
    r := if leaf.Some? then Success(leaf.value) else Failure(RowNotFound);
  }

  /** The tag of a client path, with every missing tag above it. If the tag is
      there already nothing changes; otherwise exactly the missing stems of its
      path are added, each with its one change, and the forest stays a forest. */
  method GetOrCreateTag(db: Database, workspaceId: string, name: string, now: int, ghost pending: set<Entity>)
    returns (r: Result<Row, TaxonomyError>)
    requires db.Good(pending)
    modifies db
    ensures db.Good(pending) && old(db.issued) <= db.issued
    ensures r.Failure? <==> TagPaths.Parse(name) == [] || Ref(Workspaces, workspaceId) !in old(db.rows)
    ensures r.Failure? ==> db.rows == old(db.rows) && db.journal == old(db.journal)
    ensures r.Success? ==>
              && TagAt(db.rows, r.value.PrimaryKey(), workspaceId, TagPaths.Join(TagPaths.Parse(name)))
              && db.rows[r.value.PrimaryKey()] == r.value
    ensures (exists x :: TagAt(old(db.rows), x, workspaceId, TagPaths.Join(TagPaths.Parse(name)))) ==>
              db.rows == old(db.rows) && db.journal == old(db.journal)
    ensures TagsAdded(old(db.rows), old(db.journal), db.rows, db.journal, workspaceId, Stems(TagPaths.Parse(name)))
  {
    var segments := TagPaths.Parse(name);
    TagPaths.ParseGivesSegments(name);
    WholePath(segments);
    r := WalkDown(db, workspaceId, segments, now, pending);
  }

  lemma WalkStarts(s: Rows, workspaceId: string, segments: seq<string>)
    ensures WalkedTo(s, workspaceId, segments, 0, "", None, None)
  {
    assert segments[..0] == [];
  }

  lemma StemThere(s: Rows, workspaceId: string, segments: seq<string>, n: nat)
    requires Forest(s) && TagPaths.AreSegments(segments) && 0 < n <= |segments|
    ensures (exists x :: TagAt(s, x, workspaceId, Stem(segments, |segments|))) ==>
              exists x :: TagAt(s, x, workspaceId, Stem(segments, n))
  {
    if x :| TagAt(s, x, workspaceId, Stem(segments, |segments|)) {
      WholePath(segments);
      StemsAreTags(s, x, workspaceId, segments, n);
    }
  }

  lemma WorkspaceOfTag(s: Rows, journal: seq<Change>, t: Rows, later: seq<Change>, workspaceId: string,
                       paths: set<string>, tag: Row)
    requires Resolves(t) && TagsAdded(s, journal, t, later, workspaceId, paths)
    requires tag.Tag? && tag.workspaceId == workspaceId && tag.PrimaryKey() in t && t[tag.PrimaryKey()] == tag
    ensures Ref(Workspaces, workspaceId) in s
  {
    assert Resolved(t, t[tag.PrimaryKey()]);
    assert Ref(Workspaces, workspaceId) in Targets(tag);
  }

  // Deleting a field

  datatype DeleteFieldError = NotFound(workspaceId: string, fieldId: string) | InUse(fieldId: string, visibleNotes: nat)

  /** The visible notes that use a field. */
  function VisibleUses(s: Rows, workspaceId: string, fieldId: string): set<Ref> {
    set r | r in s && s[r].Visible() && s[r].workspaceId == workspaceId && s[r].fieldId == Some(fieldId)
  }

  function HiddenCleared(s: Rows, workspaceId: string, fieldId: string): Rows {
    map r | r in s ::
      if s[r].Note? && !s[r].Visible() && s[r].workspaceId == workspaceId && s[r].fieldId == Some(fieldId)
      then s[r].(fieldId := None) else s[r]
  }

  lemma UsesAreReferences(s: Rows, field: Row)
    requires field.Field? && Lookup(s, field.PrimaryKey()) == Some(field)
    ensures VisibleUses(s, field.workspaceId, field.id) == {} <==> NoVisibleUse(s, {field.PrimaryKey()})
    ensures NoVisibleUse(s, {field.PrimaryKey()}) ==>
              HiddenCleared(s, field.workspaceId, field.id) - {field.PrimaryKey()} == Cleared(s, {field.PrimaryKey()})
  {
    var uses := VisibleUses(s, field.workspaceId, field.id);
    forall r | r in s && s[r].Visible()
      ensures RefersTo(s, {field.PrimaryKey()}, s[r]) <==> r in uses
    {
    }
    if r :| r in uses {
      assert s[r].Visible() && RefersTo(s, {field.PrimaryKey()}, s[r]);
    }
  }

  lemma DeviceAndClearingCommute(defaults: Defaults, s: Rows, ref: Ref, workspaceId: string, now: int)
    requires ref.table.Fields?
    ensures WithDevice(defaults, Cleared(s, {ref}), workspaceId, now) ==
            Cleared(WithDevice(defaults, s, workspaceId, now), {ref})
    ensures NoVisibleUse(s, {ref}) ==> NoVisibleUse(WithDevice(defaults, s, workspaceId, now), {ref})
  {
    var t := WithDevice(defaults, s, workspaceId, now);
    assert forall row :: RefersTo(t, {ref}, row) <==> RefersTo(s, {ref}, row);
  }

  /** Deletes a field of the workspace unless a visible note uses it; hidden notes
      lose their reference, and the log says what happened. */
  method DeleteUnusedField(db: Database, workspaceId: string, fieldId: string, now: int)
    returns (r: Result<(), DeleteFieldError>)
    requires db.Good({})
    modifies db
    ensures db.Good({})
    ensures var ref := Ref(Fields, fieldId);
            var uses := |VisibleUses(old(db.rows), workspaceId, fieldId)|;
            if ref !in old(db.rows) || old(db.rows)[ref].Owner() != workspaceId then
              r == Failure(NotFound(workspaceId, fieldId)) && db.rows == old(db.rows) && db.journal == old(db.journal)
            else if uses > 0 then
              r == Failure(InUse(fieldId, uses)) && db.rows == old(db.rows) && db.journal == old(db.journal)
            else
              && r.Success? && db.rows == WithDevice(db.defaults, Cleared(old(db.rows), {ref}), workspaceId, now)
              && var id := db.mint(old(db.issued));
                 old(db.rows)[ref].Field? &&
                     db.journal == old(db.journal) + [
                       Change(id, workspaceId, DefaultDeviceId(db.defaults, workspaceId), FieldEntity, fieldId, Delete,
                              None, None, FieldPayload(old(db.rows)[ref]), now, Some(now), None)]
  {
    var ref := Ref(Fields, fieldId);
    if ref !in db.rows || db.rows[ref].Owner() != workspaceId {
      return Failure(NotFound(workspaceId, fieldId));
    }
    var field := db.rows[ref];
    assert field.PrimaryKey() == ref;
    UsesAreReferences(db.rows, field);
    var uses := VisibleUses(db.rows, workspaceId, fieldId);
    if |uses| > 0 {
      return Failure(InUse(fieldId, |uses|));
    }
    assert uses == {};
    ghost var s, journal, issued := db.rows, db.journal, db.issued;
    db.rows := HiddenCleared(db.rows, workspaceId, fieldId);
    db.rows := db.rows - {ref};
    var changeId := db.RecordSyncChange(FieldInput(field, Delete), now);
    FieldGone(db.defaults, s, journal, issued, field, changeId, now);
    r := Success(());
  }

  lemma FieldGone(defaults: Defaults, s: Rows, journal: seq<Change>, issued: set<string>, field: Row, id: string,
                  now: int)
    requires Consistent(s, journal, issued, {}) && field.Field? && Lookup(s, field.PrimaryKey()) == Some(field)
    requires NoVisibleUse(s, {field.PrimaryKey()}) && id !in issued && IsHex(id)
    ensures Consistent(WithDevice(defaults, Cleared(s, {field.PrimaryKey()}), field.workspaceId, now),
                       journal + [FieldInput(field, Delete).Recorded(defaults, id, now)], issued + {id}, {})
  {
    var ref := field.PrimaryKey();
    var t := WithDevice(defaults, s, field.workspaceId, now);
    assert Resolved(s, s[ref]) && Ref(Workspaces, field.workspaceId) in Targets(field);
    DeviceStep(defaults, s, journal, issued, {}, field.workspaceId, now);
    IssueStep(t, journal, issued, {}, issued + {id});
    DeviceAndClearingCommute(defaults, s, ref, field.workspaceId, now);
    SettledIsSpeakable(t, journal, issued + {id}, {}, ref);
    DeleteFieldStep(t, journal, issued + {id}, ref, FieldInput(field, Delete).Recorded(defaults, id, now));
  }
}
