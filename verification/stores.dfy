/** The two stores a synchronization writes: the local database, whose writes are
    transactions, and the remote one, which takes one request after the other. */
module Stores {
  import opened Base
  import opened Tables
  import opened Lifecycle
  import opened Snapshots
  import opened Diff
  import opened ForeignKeys

  // Write order of a snapshot

  predicate TagBefore(a: Row, b: Row) {
    a.Tag? && b.Tag? && (a.depth < b.depth || (a.depth == b.depth && StringLess(a.id, b.id)))
  }

  function InsertTag(tag: Row, tags: seq<Row>): seq<Row> {
    if tags == [] || TagBefore(tag, tags[0]) then [tag] + tags
    else [tags[0]] + InsertTag(tag, tags[1..])
  }

  /** Parents before children: tags are written by depth, then id. */
  function SortTags(tags: seq<Row>): seq<Row> {
    if tags == [] then [] else InsertTag(tags[0], SortTags(tags[1..]))
  }

  function TableRows(s: Snapshot, t: Table): seq<Row> {
    if t.Tags? then SortTags(s.tags) else s.Of(t)
  }

  /** The rows of the first `n` tables in the order the local transaction upserts
      them. */
  function Written(s: Snapshot, n: nat): seq<Row>
    requires n <= 9
  {
    if n == 0 then [] else Written(s, n - 1) + TableRows(s, TABLES[n - 1])
  }

  function WriteList(s: Snapshot): seq<Row> {
    Written(s, 9)
  }

  /** The rows after upserting a list, one row after the other. */
  function Upserts(base: Rows, list: seq<Row>): Rows {
    if list == [] then base
    else Upserts(base, list[..|list| - 1])[list[|list| - 1].PrimaryKey() := list[|list| - 1]]
  }

  lemma {:induction false} InsertTagMembers(tag: Row, tags: seq<Row>)
    ensures forall row :: row in InsertTag(tag, tags) <==> row == tag || row in tags
  {
    if tags != [] && !TagBefore(tag, tags[0]) {
      InsertTagMembers(tag, tags[1..]);
      assert tags == [tags[0]] + tags[1..];
    }
  }

  lemma {:induction false} SortTagsMembers(tags: seq<Row>)
    ensures forall row :: row in SortTags(tags) <==> row in tags
  {
    if tags != [] {
      SortTagsMembers(tags[1..]);
      InsertTagMembers(tags[0], SortTags(tags[1..]));
      assert tags == [tags[0]] + tags[1..];
    }
  }

  /** No two different rows of the list share a key. */
  ghost predicate Functional(list: seq<Row>) {
    forall a <- list, b <- list :: a.PrimaryKey() == b.PrimaryKey() ==> a == b
  }

  lemma {:induction false} UpsertsAt(base: Rows, list: seq<Row>, ref: Ref)
    requires Functional(list)
    ensures forall row <- list :: row.PrimaryKey() == ref ==> Lookup(Upserts(base, list), ref) == Some(row)
    ensures (forall row <- list :: row.PrimaryKey() != ref) ==> Lookup(Upserts(base, list), ref) == Lookup(base, ref)
  {
    if list != [] {
      var init, last := list[..|list| - 1], list[|list| - 1];
      assert list == init + [last];
      UpsertsAt(base, init, ref);
    }
  }

  lemma {:induction false} WrittenMembers(s: Snapshot, t: Rows, n: nat)
    requires Keyed(t) && Reads(s, t) && n <= 9
    ensures forall row :: row in Written(s, n) <==> row in t.Values && WriteOrder(row.Table()) < n
  {
    if n > 0 {
      WrittenMembers(s, t, n - 1);
      var u := TABLES[n - 1];
      forall row
        ensures row in Written(s, n) <==> row in t.Values && WriteOrder(row.Table()) < n
      {
        TableMember(s, t, u, row);
        TableInTurn(row.Table(), n - 1);
      }
    }
  }

  lemma TableMember(s: Snapshot, t: Rows, u: Table, row: Row)
    requires Keyed(t) && Reads(s, t)
    ensures row in TableRows(s, u) <==> row in t.Values && row.Table() == u
  {
    assert Enumerates(s.Of(u), u, t);
    SortTagsMembers(s.tags);
    if row in t.Values && row.Table() == u {
      var r :| r in t && t[r] == row;
      assert row.PrimaryKey() == r;
    }
  }

  lemma WriteListMembers(s: Snapshot, t: Rows)
    requires Keyed(t) && Reads(s, t)
    ensures forall row :: row in WriteList(s) <==> row in t.Values
  {
    WrittenMembers(s, t, 9);
    forall row: Row
      ensures WriteOrder(row.Table()) < 9
    {
    }
  }

  /** The write list is one way of adding exactly the snapshot's rows. */
  lemma UpsertsOfSnapshot(base: Rows, s: Snapshot, t: Rows)
    requires Keyed(t) && Reads(s, t)
    ensures Upserts(base, WriteList(s)) == base + t
  {
    WriteListMembers(s, t);
    forall ref
      ensures Lookup(Upserts(base, WriteList(s)), ref) == Lookup(base + t, ref)
    {
      UpsertsAt(base, WriteList(s), ref);
      if ref in t {
        assert t[ref] in t.Values && t[ref].PrimaryKey() == ref;
      }
    }
    MapsEqual(Upserts(base, WriteList(s)), base + t);
  }

  /** No row of the list leaves a reference missing when it is written. */
  ghost predicate Accepted(base: Rows, list: seq<Row>) {
    forall i | 0 <= i < |list| :: KeepsReferences(Upserts(base, list[..i]), Upserts(base, list[..i + 1]))
  }

  ghost predicate EveryPrefix(base: Rows, list: seq<Row>) {
    forall k | 0 <= k <= |list| :: Resolves(Upserts(base, list[..k]))
  }

  /** From rows that resolve, a list is accepted exactly if the rows resolve after
      each of its rows. */
  lemma AcceptedMeansResolving(base: Rows, list: seq<Row>)
    requires Resolves(base)
    ensures Accepted(base, list) <==> EveryPrefix(base, list)
  {
    if Accepted(base, list) {
      forall k | 0 <= k <= |list|
        ensures Resolves(Upserts(base, list[..k]))
      {
        AcceptedPrefixResolves(base, list, k);
      }
    }
    if EveryPrefix(base, list) {
      forall i | 0 <= i < |list|
        ensures KeepsReferences(Upserts(base, list[..i]), Upserts(base, list[..i + 1]))
      {
        KeepingMeansResolving(Upserts(base, list[..i]), Upserts(base, list[..i + 1]));
      }
    }
  }

  lemma {:induction false} AcceptedPrefixResolves(base: Rows, list: seq<Row>, k: nat)
    requires Resolves(base) && Accepted(base, list) && k <= |list|
    ensures Resolves(Upserts(base, list[..k]))
  {
    if k > 0 {
      AcceptedPrefixResolves(base, list, k - 1);
      assert KeepsReferences(Upserts(base, list[..k - 1]), Upserts(base, list[..k - 1 + 1]));
      KeepingMeansResolving(Upserts(base, list[..k - 1]), Upserts(base, list[..k]));
    }
  }

  // Deletions

  datatype StoreError = UnsupportedDelete | FieldInUse(fieldId: string) | ReferenceMissing | Refused

  /** The note points at one of the given fields, in its own workspace. */
  predicate RefersTo(s: Rows, fields: set<Ref>, row: Row) {
    && row.Note? && row.fieldId.Some?
    && var field := Ref(Fields, row.fieldId.value);
       field in fields && field in s && s[field].Owner() == row.workspaceId
  }

  /** Deleting rows clears the field reference of the notes that pointed at them. */
  function Cleared(s: Rows, doomed: set<Ref>): Rows {
    map r | r in s && r !in doomed :: if RefersTo(s, doomed, s[r]) then s[r].(fieldId := None) else s[r]
  }

  /** The rows an action list deletes with actions of one kind. */
  function Doomed(actions: seq<Action>, kind: ActionKind, s: Rows): set<Ref> {
    set r | r in s && HasAction(actions, {kind}, r)
  }

  predicate SupportedDelete(t: Table) {
    t.Fields? || t.NoteTags? || t.NoteLinks?
  }

  function Find(rows: seq<Row>, key: string): (r: Option<Row>)
    ensures r.Some? ==> r.value in rows && r.value.Key() == key
    ensures r.None? ==> forall row <- rows :: row.Key() != key
  {
    if rows == [] then None else if rows[0].Key() == key then Some(rows[0]) else Find(rows[1..], key)
  }

  class LocalStore {
    var rows: Rows

    constructor (rows: Rows)
      ensures this.rows == rows
    {
      this.rows := rows;
    }

    /** Upserts every row of a snapshot, in one transaction: all of them or, if one
        of them leaves a reference missing, none. */
    method WriteTableSnapshot(s: Snapshot) returns (ok: bool)
      modifies this
      ensures ok <==> Accepted(old(rows), WriteList(s))
      ensures rows == if ok then Upserts(old(rows), WriteList(s)) else old(rows)
    {
      var saved, list := rows, WriteList(s);
      for i := 0 to |list|
        invariant rows == Upserts(saved, list[..i])
        invariant forall j | 0 <= j < i :: KeepsReferences(Upserts(saved, list[..j]), Upserts(saved, list[..j + 1]))
      {
        assert list[..i + 1][..i] == list[..i];
        var next := rows[list[i].PrimaryKey() := list[i]];
        assert next == Upserts(saved, list[..i + 1]);
        if !KeepsReferences(rows, next) {
          rows := saved;
          return false;
        }
        rows := next;
      }
      assert list[..|list|] == list;
      ok := true;
    }

    /** Deletes one field: refused while a visible note uses it; otherwise the
        hidden notes that use it lose their reference. */
    method DeleteField(workspaceId: string, id: string) returns (ok: bool)
      requires Lookup(rows, Ref(Fields, id)).Some? && rows[Ref(Fields, id)].Owner() == workspaceId
      modifies this
      ensures ok <==> !exists r :: r in old(rows) && old(rows)[r].Visible() &&
                         RefersTo(old(rows), {Ref(Fields, id)}, old(rows)[r])
      ensures rows == if ok then Cleared(old(rows), {Ref(Fields, id)}) else old(rows)
    {
      var visible := set r | r in rows && rows[r].Visible() && rows[r].workspaceId == workspaceId &&
          rows[r].fieldId == Some(id);
      if |visible| > 0 {
        var r :| r in visible;
        assert RefersTo(rows, {Ref(Fields, id)}, rows[r]);
        return false;
      }
      assert visible == {};
      ghost var before := rows;
      rows := map r | r in rows ::
        if rows[r].Note? && rows[r].workspaceId == workspaceId && rows[r].fieldId == Some(id) && !rows[r].Visible()
        then rows[r].(fieldId := None) else rows[r];
      rows := rows - {Ref(Fields, id)};
      forall r | r in before
        ensures before[r].Visible() ==> !RefersTo(before, {Ref(Fields, id)}, before[r])
      {
        assert r !in visible;
      }
      ok := true;
    }

    method DeleteRow(ref: Ref, row: Row) returns (ok: bool)
      requires Lookup(rows, ref) == Some(row) && row.PrimaryKey() == ref && SupportedDelete(ref.table)
      modifies this
      ensures ok <==> NoVisibleUse(old(rows), {ref})
      ensures rows == if ok then Cleared(old(rows), {ref}) else old(rows)
    {
      if ref.table.Fields? {
        ok := DeleteField(row.Owner(), row.id);
      } else {
        NoFieldNoClearing(rows, ref);
        rows := rows - {ref};
        ok := true;
      }
    }

    /** One delete action; the row is looked up in the snapshot. */
    method ApplyDelete(ref: Ref, s: Snapshot, ghost L: Rows, ghost saved: Rows, ghost doomed: set<Ref>)
      returns (r: Result<(), StoreError>)
      requires Keyed(saved) && Keyed(L) && Reads(s, L) && (ref in L ==> Lookup(saved, ref) == Lookup(L, ref))
      requires rows == Cleared(saved, doomed) && NoVisibleUse(saved, doomed)
      requires forall d <- doomed :: SupportedDelete(d.table)
      modifies this
      ensures var next := doomed + if ref in L then {ref} else {};
              && (r.Success? <==> SupportedDelete(ref.table) && NoVisibleUse(saved, next))
              && (r.Success? ==> rows == Cleared(saved, next))
    {
      if !SupportedDelete(ref.table) {
        return Failure(UnsupportedDelete);
      }
      var row := Find(s.Of(ref.table), ref.key);
      FindReads(s, L, ref);
      if row.Some? && ref in rows {
        ClearedNext(saved, doomed, ref);
        var ok := DeleteRow(ref, row.value);
        return if ok then Success(()) else Failure(FieldInUse(ref.key));
      }
      assert doomed + (if ref in L then {ref} else {}) == doomed;
      r := Success(());
    }

    /** Applies the local deletions of an action list in one transaction: either
        all of them, or none. */
    method DeleteLocalActions(actions: seq<Action>, s: Snapshot, ghost L: Rows) returns (r: Result<(), StoreError>)
      requires Keyed(rows) && Keyed(L) && Reads(s, L)
      requires forall ref <- Doomed(actions, DeleteLocal, L) :: Lookup(rows, ref) == Lookup(L, ref)
      modifies this
      ensures r.Success? <==>
              && (forall a <- actions :: a.kind.DeleteLocal? ==> SupportedDelete(a.table))
              && NoVisibleUse(old(rows), Doomed(actions, DeleteLocal, L))
      ensures rows == if r.Success? then Cleared(old(rows), Doomed(actions, DeleteLocal, L)) else old(rows)
    {
      var saved := rows;
      ghost var doomed: set<Ref> := {};
      NothingCleared(rows);
      for i := 0 to |actions|
        invariant doomed == Doomed(actions[..i], DeleteLocal, L)
        invariant forall a <- actions[..i] :: a.kind.DeleteLocal? ==> SupportedDelete(a.table)
        invariant forall d <- doomed :: SupportedDelete(d.table)
        invariant NoVisibleUse(saved, doomed) && rows == Cleared(saved, doomed)
      {
        DoomedNext(actions, i, DeleteLocal, L);
        if actions[i].kind.DeleteLocal? {
          r := ApplyDelete(Ref(actions[i].table, actions[i].key), s, L, saved, doomed);
          if r.Failure? {
            rows := saved;
            return;
          }
        }
        doomed := Doomed(actions[..i + 1], DeleteLocal, L);
      }
      assert actions[..|actions|] == actions;
      r := Success(());
    }
  }

  /** No visible note uses one of the fields about to be deleted. */
  predicate NoVisibleUse(s: Rows, doomed: set<Ref>) {
    forall r <- s :: s[r].Visible() ==> !RefersTo(s, doomed, s[r])
  }

  lemma NothingCleared(s: Rows)
    ensures Cleared(s, {}) == s && NoVisibleUse(s, {})
  {
  }

  lemma DoomedNext(actions: seq<Action>, i: nat, kind: ActionKind, s: Rows)
    requires i < |actions|
    ensures var ref := Ref(actions[i].table, actions[i].key);
            Doomed(actions[..i + 1], kind, s) ==
            Doomed(actions[..i], kind, s) + if actions[i].kind == kind && ref in s then {ref} else {}
    ensures Doomed(actions[..i + 1], kind, s) <= Doomed(actions, kind, s)
  {
    assert actions[..i + 1] == actions[..i] + [actions[i]];
  }

  lemma FindReads(s: Snapshot, t: Rows, ref: Ref)
    requires Keyed(t) && Reads(s, t)
    ensures Find(s.Of(ref.table), ref.key) == Lookup(t, ref)
  {
    assert Enumerates(s.Of(ref.table), ref.table, t);
    if ref in t {
      assert t[ref] in s.Of(ref.table) && t[ref].PrimaryKey() == ref;
    }
  }

  /** Deleting one more row is deleting the larger set. */
  lemma ClearedNext(s: Rows, doomed: set<Ref>, ref: Ref)
    requires Keyed(s) && ref in s && ref !in doomed && SupportedDelete(ref.table)
    requires forall r <- doomed :: SupportedDelete(r.table)
    ensures Lookup(Cleared(s, doomed), ref) == Some(s[ref]) && s[ref].PrimaryKey() == ref
    ensures Cleared(Cleared(s, doomed), {ref}) == Cleared(s, doomed + {ref})
    ensures NoVisibleUse(s, doomed) ==>
              (NoVisibleUse(Cleared(s, doomed), {ref}) <==> NoVisibleUse(s, doomed + {ref}))
  {
    var t := Cleared(s, doomed);
    forall r | r in t
      ensures RefersTo(s, doomed + {ref}, s[r]) <==> RefersTo(s, doomed, s[r]) || RefersTo(t, {ref}, t[r])
    {
      assert s[r].PrimaryKey() == r;
    }
  }

  lemma NoFieldNoClearing(s: Rows, ref: Ref)
    requires !ref.table.Fields?
    ensures Cleared(s, {ref}) == s - {ref}
  {
  }

  // Reading

  /** Lists the rows of one table. */
  method ReadTable(rows: Rows, t: Table) returns (list: seq<Row>)
    requires Keyed(rows)
    ensures Enumerates(list, t, rows)
  {
    list := [];
    var keys := set r | r in rows && r.table == t;
    while keys != {}
      invariant forall r <- keys :: r in rows && r.table == t
      invariant forall row <- list :: row.Table() == t && row.PrimaryKey() in rows && rows[row.PrimaryKey()] == row
      invariant forall row <- list :: row.PrimaryKey() !in keys
      invariant forall i, j :: 0 <= i < j < |list| ==> list[i].PrimaryKey() != list[j].PrimaryKey()
      invariant forall r <- rows :: r.table == t && r !in keys ==> rows[r] in list
      decreases keys
    {
      var r :| r in keys;
      keys := keys - {r};
      assert rows[r].PrimaryKey() == r;
      list := list + [rows[r]];
    }
  }

  method ReadSnapshot(rows: Rows) returns (s: Snapshot)
    requires Keyed(rows)
    ensures Reads(s, rows)
  {
    var workspaces := ReadTable(rows, Workspaces);
    var devices := ReadTable(rows, Devices);
    var fields := ReadTable(rows, Fields);
    var tags := ReadTable(rows, Tags);
    var notes := ReadTable(rows, Notes);
    var noteRevisions := ReadTable(rows, NoteRevisions);
    var noteTags := ReadTable(rows, NoteTags);
    var noteLinks := ReadTable(rows, NoteLinks);
    var syncChanges := ReadTable(rows, SyncChanges);
    s := Snapshot(workspaces, devices, fields, tags, notes, noteRevisions, noteTags, noteLinks, syncChanges);
    forall t: Table
      ensures Enumerates(s.Of(t), t, rows)
    {
      match t { case _ => }
    }
  }

  const PAGE_SIZE: nat := 1000

  /** One page of the rows a table is served with. */
  function Page(served: seq<Row>, offset: nat): seq<Row>
    requires offset <= |served|
  {
    if offset + PAGE_SIZE <= |served| then served[offset..offset + PAGE_SIZE] else served[offset..]
  }

  /** Fetches page after page until one comes back short; nothing is lost or
      repeated, whatever the number of rows. */
  method FetchTableRows(served: seq<Row>) returns (rows: seq<Row>)
    ensures rows == served
  {
    rows := [];
    var offset := 0;
    while true
      invariant offset <= |served| && rows == served[..offset]
      decreases |served| - offset
    {
      var page := Page(served, offset);
      rows := rows + page;
      if |page| < PAGE_SIZE {
        break;
      }
      offset := offset + PAGE_SIZE;
    }
  }

  class RemoteStore {
    var rows: Rows

    constructor (rows: Rows)
      ensures this.rows == rows
    {
      this.rows := rows;
    }

    /** One request: all rows of a table, or none if a reference would be missing. */
    method UpsertTableRows(batch: seq<Row>, t: Table, ghost s: Rows) returns (ok: bool)
      requires Keyed(s) && Enumerates(batch, t, s)
      modifies this
      ensures ok <==> KeepsReferences(old(rows), old(rows) + RowsOf(s, t))
      ensures rows == if ok then old(rows) + RowsOf(s, t) else old(rows)
    {
      var next := rows;
      for i := 0 to |batch|
        invariant next == Upserts(rows, batch[..i])
      {
        assert batch[..i + 1][..i] == batch[..i];
        next := next[batch[i].PrimaryKey() := batch[i]];
      }
      assert batch[..|batch|] == batch;
      UpsertsOfTable(rows, batch, t, s);
      ok := KeepsReferences(rows, next);
      if ok {
        rows := next;
      }
    }

    /** The request for one table; none is needed for an empty one. */
    method SendTable(s: Snapshot, u: Table, accepted: bool, ghost t: Rows) returns (ok: bool)
      requires Keyed(t) && Reads(s, t)
      modifies this
      ensures rows == if ok then old(rows) + RowsOf(t, u) else old(rows)
      ensures ok ==> KeepsReferences(old(rows), rows)
      ensures accepted && KeepsReferences(old(rows), old(rows) + RowsOf(t, u)) ==> ok
    {
      NothingSent(rows, s, t, u);
      if s.Of(u) == [] {
        return true;
      }
      if !accepted {
        return false;
      }
      assert Enumerates(s.Of(u), u, t);
      ok := UpsertTableRows(s.Of(u), u, t);
    }

    /** Sends one request per non-empty table, in write order, and stops at the
        first one that is not accepted; tells how many tables came through. */
    method UpsertTableSnapshot(s: Snapshot, accepts: Table -> bool, ghost t: Rows) returns (tables: nat)
      requires Keyed(t) && Reads(s, t)
      modifies this
      ensures tables <= 9 && rows == Sent(old(rows), t, tables)
      ensures tables == 9 ==> TablesAccepted(old(rows), t)
      ensures (forall u: Table :: accepts(u)) && TablesAccepted(old(rows), t) ==> tables == 9
    {
      tables := 0;
      while tables < 9
        invariant tables <= 9
        invariant rows == Sent(old(rows), t, tables)
        invariant forall n: nat | n < tables :: KeepsReferences(Sent(old(rows), t, n), Sent(old(rows), t, n + 1))
      {
        var u := TABLES[tables];
        NextTable(old(rows), t, tables);
        var ok := SendTable(s, u, accepts(u), t);
        if !ok {
          return;
        }
        tables := tables + 1;
      }
    }

    /** Sends one request per remote deletion and stops at the first one that is
        not accepted, or that would leave a reference missing. */
    method DeleteRemoteActions(actions: seq<Action>, s: Snapshot, accepts: Ref -> bool, ghost R: Rows)
      returns (r: Result<(), StoreError>, ghost erased: set<Ref>)
      requires Keyed(R) && Reads(s, R) && Keyed(rows)
      modifies this
      ensures erased <= Doomed(actions, DeleteRemote, R) && rows == old(rows) - erased
      ensures r.Success? ==> erased == Doomed(actions, DeleteRemote, R)
      ensures Resolves(old(rows)) && r.Success? ==> Resolves(rows)
      ensures Resolves(old(rows)) && Resolves(old(rows) - Doomed(actions, DeleteRemote, R)) &&
              (forall x :: accepts(x)) &&
              (forall a <- actions :: a.kind.DeleteRemote? ==> SupportedDelete(a.table)) ==>
                r.Success?
    {
      erased := {};
      assert rows - {} == rows;
      for i := 0 to |actions|
        invariant erased == Doomed(actions[..i], DeleteRemote, R) && rows == old(rows) - erased
        invariant Resolves(old(rows)) ==> Resolves(rows)
      {
        DoomedNext(actions, i, DeleteRemote, R);
        if actions[i].kind.DeleteRemote? {
          var ref := Ref(actions[i].table, actions[i].key);
          if !SupportedDelete(ref.table) {
            return Failure(UnsupportedDelete), erased;
          }
          var row := Find(s.Of(ref.table), ref.key);
          FindReads(s, R, ref);
          if row.Some? {
            DeletionInTurn(old(rows), rows, erased, ref, Doomed(actions, DeleteRemote, R));
            if !accepts(ref) || !KeepsReferences(rows, rows - {ref}) {
              return Failure(Refused), erased;
            }
            rows := rows - {ref};
            erased := erased + {ref};
          }
        }
      }
      assert actions[..|actions|] == actions;
      r := Success(());
    }
  }

  lemma UpsertsOfTable(base: Rows, batch: seq<Row>, t: Table, s: Rows)
    requires Keyed(s) && Enumerates(batch, t, s)
    ensures Upserts(base, batch) == base + RowsOf(s, t)
  {
    var part := RowsOf(s, t);
    forall ref
      ensures Lookup(Upserts(base, batch), ref) == Lookup(base + part, ref)
    {
      UpsertsAt(base, batch, ref);
      if ref in part {
        assert s[ref] in batch && s[ref].PrimaryKey() == ref;
      }
    }
    MapsEqual(Upserts(base, batch), base + part);
  }

  ghost function RowsOf(s: Rows, t: Table): Rows {
    map r | r in s && r.table == t :: s[r]
  }

  /** The remote rows once the first `n` tables came through. */
  ghost function Sent(base: Rows, t: Rows, n: nat): Rows {
    base + (map r | r in t && WriteOrder(r.table) < n :: t[r])
  }

  /** No table leaves a reference missing when it is sent. */
  ghost predicate TablesAccepted(base: Rows, t: Rows) {
    forall n: nat | n < 9 :: KeepsReferences(Sent(base, t, n), Sent(base, t, n + 1))
  }

  lemma NextTable(base: Rows, t: Rows, n: nat)
    requires n < 9
    ensures Sent(base, t, n) + RowsOf(t, TABLES[n]) == Sent(base, t, n + 1)
  {
    forall r
      ensures Lookup(Sent(base, t, n) + RowsOf(t, TABLES[n]), r) == Lookup(Sent(base, t, n + 1), r)
    {
      TableInTurn(r.table, n);
    }
    MapsEqual(Sent(base, t, n) + RowsOf(t, TABLES[n]), Sent(base, t, n + 1));
  }

  lemma TableInTurn(u: Table, n: nat)
    requires n < 9
    ensures WriteOrder(u) < n + 1 <==> WriteOrder(u) < n || u == TABLES[n]
  {
  }

  lemma NothingSent(base: Rows, s: Snapshot, t: Rows, u: Table)
    requires Keyed(t) && Reads(s, t)
    ensures s.Of(u) == [] ==> base + RowsOf(t, u) == base && KeepsReferences(base, base)
  {
    assert Enumerates(s.Of(u), u, t);
    forall r | r in t && r.table == u
      ensures s.Of(u) != []
    {
      assert t[r] in s.Of(u);
    }
  }

  /** From tables accepted one by one: the remote rows resolve after each of them. */
  lemma TablesAcceptedMeansResolving(base: Rows, t: Rows)
    requires Resolves(base)
    ensures TablesAccepted(base, t) <==> forall n: nat | n <= 9 :: Resolves(Sent(base, t, n))
  {
    assert Sent(base, t, 0) == base;
    if TablesAccepted(base, t) {
      forall n: nat | n <= 9
        ensures Resolves(Sent(base, t, n))
      {
        AcceptedTablesResolve(base, t, n);
      }
    } else {
      var n: nat :| n < 9 && !KeepsReferences(Sent(base, t, n), Sent(base, t, n + 1));
      if Resolves(Sent(base, t, n)) {
        KeepingMeansResolving(Sent(base, t, n), Sent(base, t, n + 1));
      }
    }
  }

  lemma {:induction false} AcceptedTablesResolve(base: Rows, t: Rows, n: nat)
    requires Resolves(base) && TablesAccepted(base, t) && n <= 9
    ensures Resolves(Sent(base, t, n))
  {
    if n == 0 {
      assert Sent(base, t, 0) == base;
    } else {
      AcceptedTablesResolve(base, t, n - 1);
      assert KeepsReferences(Sent(base, t, n - 1), Sent(base, t, n - 1 + 1));
      KeepingMeansResolving(Sent(base, t, n - 1), Sent(base, t, n));
    }
  }

  /** Only notes point at what is deleted, so the order of deletions does not matter. */
  lemma PartialDeletion(base: Rows, some: set<Ref>, all: set<Ref>)
    requires Resolves(base) && some <= all && (forall d <- all :: SupportedDelete(d.table)) && Keyed(base)
    requires Resolves(base - all)
    ensures Resolves(base - some)
  {
    var t := base - some;
    forall r | r in t
      ensures Resolved(t, t[r])
    {
      forall x | x in Targets(t[r])
        ensures x in t && (SharedTable(x.table) || t[x].Owner() == t[r].Owner())
      {
        assert Resolved(base, base[r]) && base[r].PrimaryKey() == r;
        ReferencedTables(base[r], x);
        assert r !in all ==> Resolved(base - all, (base - all)[r]);
      }
    }
  }

  lemma DeletionInTurn(base: Rows, rows: Rows, erased: set<Ref>, ref: Ref, all: set<Ref>)
    requires rows == base - erased && erased + {ref} <= all
    ensures rows - {ref} == base - (erased + {ref})
    ensures Resolves(rows) ==> (KeepsReferences(rows, rows - {ref}) <==> Resolves(rows - {ref}))
    ensures Keyed(base) && Resolves(base) && Resolves(base - all) && (forall d <- all :: SupportedDelete(d.table)) ==>
              Resolves(rows - {ref})
  {
    if Resolves(rows) {
      KeepingMeansResolving(rows, rows - {ref});
    }
    assert rows - {ref} == base - (erased + {ref});
    if Keyed(base) && Resolves(base) && Resolves(base - all) && forall d <- all :: SupportedDelete(d.table) {
      PartialDeletion(base, erased + {ref}, all);
    }
  }
}
