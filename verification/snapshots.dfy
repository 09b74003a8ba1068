/** Snapshots: the nine row lists read from one side, and the part of them that
    a list of actions selects. */
module Snapshots {
  import opened Tables
  import opened Lifecycle

  datatype Snapshot = Snapshot(
    workspaces: seq<Row>, devices: seq<Row>, fields: seq<Row>, tags: seq<Row>, notes: seq<Row>,
    noteRevisions: seq<Row>, noteTags: seq<Row>, noteLinks: seq<Row>, syncChanges: seq<Row>)
  {
    function Of(t: Table): seq<Row> {
      match t
      case Workspaces => workspaces
      case Devices => devices
      case Fields => fields
      case Tags => tags
      case Notes => notes
      case NoteRevisions => noteRevisions
      case NoteTags => noteTags
      case NoteLinks => noteLinks
      case SyncChanges => syncChanges
    }

    /** Only the rows named by an action of one of the given kinds. */
    function SubsetForActions(actions: seq<Action>, kinds: set<ActionKind>): Snapshot {
      Snapshot(
        Selected(workspaces, actions, kinds), Selected(devices, actions, kinds), Selected(fields, actions, kinds),
        Selected(tags, actions, kinds), Selected(notes, actions, kinds), Selected(noteRevisions, actions, kinds),
        Selected(noteTags, actions, kinds), Selected(noteLinks, actions, kinds), Selected(syncChanges, actions, kinds))
    }

    function RowCount(): nat {
      |workspaces| + |devices| + |fields| + |tags| + |notes| + |noteRevisions| + |noteTags| + |noteLinks| +
      |syncChanges|
    }
  }

  predicate HasAction(actions: seq<Action>, kinds: set<ActionKind>, ref: Ref) {
    exists a <- actions :: a.kind in kinds && a.table == ref.table && a.key == ref.key
  }

  function Selected(rows: seq<Row>, actions: seq<Action>, kinds: set<ActionKind>): seq<Row> {
    if rows == [] then []
    else (if HasAction(actions, kinds, rows[0].PrimaryKey()) then [rows[0]] else []) +
         Selected(rows[1..], actions, kinds)
  }

  /** `rows` lists each row of one table exactly once, in some order. */
  ghost predicate Enumerates(rows: seq<Row>, t: Table, s: Rows) {
    && (forall row <- rows :: row.Table() == t && row.PrimaryKey() in s && s[row.PrimaryKey()] == row)
    && (forall i, j :: 0 <= i < j < |rows| ==> rows[i].PrimaryKey() != rows[j].PrimaryKey())
    && (forall r <- s :: r.table == t ==> s[r] in rows)
  }

  /** The snapshot lists exactly the rows of `s`. */
  ghost predicate Reads(snapshot: Snapshot, s: Rows) {
    forall t: Table :: Enumerates(snapshot.Of(t), t, s)
  }

  ghost function Chosen(s: Rows, actions: seq<Action>, kinds: set<ActionKind>): Rows {
    map r | r in s && HasAction(actions, kinds, r) :: s[r]
  }

  lemma {:induction false} SelectedMembers(rows: seq<Row>, actions: seq<Action>, kinds: set<ActionKind>)
    requires forall i, j :: 0 <= i < j < |rows| ==> rows[i].PrimaryKey() != rows[j].PrimaryKey()
    ensures var chosen := Selected(rows, actions, kinds);
            && (forall row :: row in chosen <==> row in rows && HasAction(actions, kinds, row.PrimaryKey()))
            && (forall i, j :: 0 <= i < j < |chosen| ==> chosen[i].PrimaryKey() != chosen[j].PrimaryKey())
  {
    if rows != [] {
      var rest := rows[1..];
      SelectedMembers(rest, actions, kinds);
      assert rows == [rows[0]] + rest;
      assert forall row <- rest :: exists i :: 0 < i < |rows| && rows[i] == row;
    }
  }

  /** A subset for actions reads exactly the rows those actions name. */
  lemma SubsetReads(snapshot: Snapshot, s: Rows, actions: seq<Action>, kinds: set<ActionKind>)
    requires Keyed(s) && Reads(snapshot, s)
    ensures Reads(snapshot.SubsetForActions(actions, kinds), Chosen(s, actions, kinds))
  {
    var subset, chosen := snapshot.SubsetForActions(actions, kinds), Chosen(s, actions, kinds);
    forall t: Table
      ensures Enumerates(subset.Of(t), t, chosen)
    {
      assert Enumerates(snapshot.Of(t), t, s);
      assert subset.Of(t) == Selected(snapshot.Of(t), actions, kinds);
      SelectedMembers(snapshot.Of(t), actions, kinds);
    }
  }

  ghost function Part(s: Rows, t: Table): set<Ref> {
    set r | r in s && r.table == t
  }

  lemma {:induction false} DistinctKeys(rows: seq<Row>)
    requires forall i, j :: 0 <= i < j < |rows| ==> rows[i].PrimaryKey() != rows[j].PrimaryKey()
    ensures |set row <- rows :: row.PrimaryKey()| == |rows|
  {
    if rows != [] {
      var rest := rows[1..];
      DistinctKeys(rest);
      var all, others := set row <- rows :: row.PrimaryKey(), set row <- rest :: row.PrimaryKey();
      assert rows == [rows[0]] + rest;
      assert all == others + {rows[0].PrimaryKey()};
      assert rows[0].PrimaryKey() !in others;
    }
  }

  lemma PartSize(snapshot: Snapshot, s: Rows, t: Table)
    requires Keyed(s) && Reads(snapshot, s)
    ensures |snapshot.Of(t)| == |Part(s, t)|
  {
    var rows := snapshot.Of(t);
    assert Enumerates(rows, t, s);
    DistinctKeys(rows);
    assert Part(s, t) == set row <- rows :: row.PrimaryKey() by {
      forall r | r in Part(s, t)
        ensures r in set row <- rows :: row.PrimaryKey()
      {
        assert s[r] in rows && s[r].PrimaryKey() == r;
      }
    }
  }

  ghost function Below(s: Rows, n: nat): set<Ref> {
    set r | r in s && WriteOrder(r.table) < n
  }

  lemma WriteOrderIsInjective(t: Table, u: Table)
    requires WriteOrder(t) == WriteOrder(u)
    ensures t == u
  {
  }

  lemma BelowNext(s: Rows, t: Table, n: nat)
    requires WriteOrder(t) == n
    ensures |Below(s, n + 1)| == |Below(s, n)| + |Part(s, t)|
  {
    forall u: Table | WriteOrder(u) == n
      ensures u == t
    {
      WriteOrderIsInjective(t, u);
    }
    var below, part := Below(s, n), Part(s, t);
    assert Below(s, n + 1) == below + part;
    assert below !! part;
  }

  lemma PartSizes(s: Rows)
    ensures |s| == |Part(s, Workspaces)| + |Part(s, Devices)| + |Part(s, Fields)| + |Part(s, Tags)| +
                   |Part(s, Notes)| + |Part(s, NoteRevisions)| + |Part(s, NoteTags)| + |Part(s, NoteLinks)| +
                   |Part(s, SyncChanges)|
  {
    BelowNext(s, Workspaces, 0);
    BelowNext(s, Devices, 1);
    BelowNext(s, Fields, 2);
    BelowNext(s, Tags, 3);
    BelowNext(s, Notes, 4);
    BelowNext(s, NoteRevisions, 5);
    BelowNext(s, NoteTags, 6);
    BelowNext(s, NoteLinks, 7);
    BelowNext(s, SyncChanges, 8);
    assert Below(s, 0) == {};
    assert Below(s, 9) == s.Keys;
  }

  /** The row count of a snapshot is the number of keys it reads. */
  lemma RowCountIsSize(snapshot: Snapshot, s: Rows)
    requires Keyed(s) && Reads(snapshot, s)
    ensures snapshot.RowCount() == |s|
  {
    PartSizes(s);
    PartSize(snapshot, s, Workspaces);
    PartSize(snapshot, s, Devices);
    PartSize(snapshot, s, Fields);
    PartSize(snapshot, s, Tags);
    PartSize(snapshot, s, Notes);
    PartSize(snapshot, s, NoteRevisions);
    PartSize(snapshot, s, NoteTags);
    PartSize(snapshot, s, NoteLinks);
    PartSize(snapshot, s, SyncChanges);
  }

  lemma ReadsLog(snapshot: Snapshot, s: Rows)
    requires Keyed(s) && Reads(snapshot, s)
    ensures forall row <- snapshot.syncChanges :: row.ChangeRow?
    ensures (set row | row in snapshot.syncChanges && row.ChangeRow? :: row.change) == Log(s)
  {
    assert Enumerates(snapshot.Of(SyncChanges), SyncChanges, s);
    forall c | c in Log(s)
      ensures exists row <- snapshot.syncChanges :: row.ChangeRow? && row.change == c
    {
      var r :| r in s && s[r].ChangeRow? && s[r].change == c;
      assert s[r].PrimaryKey() == r;
      assert s[r] in snapshot.syncChanges;
    }
  }
}
