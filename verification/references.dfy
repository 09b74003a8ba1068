/** Referential safety: whatever row a synchronization writes or deletes next,
    every row keeps the rows it points at. */
module References {
  import opened Base
  import opened Tables
  import opened Changes
  import opened ForeignKeys
  import opened Lifecycle
  import opened Snapshots
  import opened Diff
  import opened Comparison
  import opened Merge
  import opened Resume
  import opened Stores
  import opened Requests

  // The order of the local write

  predicate NotAfter(a: Row, b: Row) {
    || WriteOrder(a.Table()) < WriteOrder(b.Table())
    || (a.Table() == b.Table() &&
        (a.Tag? && b.Tag? ==> a.depth < b.depth || (a.depth == b.depth && !StringLess(b.id, a.id))))
  }

  lemma NotAfterIsTransitive(a: Row, b: Row, c: Row)
    requires a.Tag? && b.Tag? && c.Tag? && NotAfter(a, b) && NotAfter(b, c)
    ensures NotAfter(a, c)
  {
    StringLessTotal(a.id, b.id);
    StringLessTotal(b.id, c.id);
    if StringLess(c.id, a.id) {
      if StringLess(a.id, b.id) {
        StringLessTransitive(c.id, a.id, b.id);
      }
    }
  }

  lemma BeforeIsNotAfter(a: Row, b: Row)
    requires a.Tag? && b.Tag?
    ensures if TagBefore(a, b) then NotAfter(a, b) else NotAfter(b, a)
  {
    if StringLess(a.id, b.id) {
      StringLessAsymmetric(a.id, b.id);
    }
  }

  /** Tables in write order, and tags by depth, then by id. */
  ghost predicate InWriteOrder(list: seq<Row>) {
    forall i, j :: 0 <= i < j < |list| ==> NotAfter(list[i], list[j])
  }

  lemma Joined(a: seq<Row>, b: seq<Row>)
    requires InWriteOrder(a) && InWriteOrder(b)
    requires forall x <- a, y <- b :: WriteOrder(x.Table()) < WriteOrder(y.Table())
    ensures InWriteOrder(a + b)
  {
    forall i, j | 0 <= i < j < |a + b|
      ensures NotAfter((a + b)[i], (a + b)[j])
    {
      if i < |a| <= j {
        assert (a + b)[i] in a && (a + b)[j] in b;
      }
    }
  }

  lemma OneTable(list: seq<Row>, t: Table)
    requires !t.Tags? && forall row <- list :: row.Table() == t
    ensures InWriteOrder(list)
  {
    forall i, j | 0 <= i < j < |list|
      ensures NotAfter(list[i], list[j])
    {
      assert list[i] in list && list[j] in list;
    }
  }

  lemma {:induction false} InsertTagKeepsOrder(tag: Row, tags: seq<Row>)
    requires tag.Tag? && (forall t <- tags :: t.Tag?) && InWriteOrder(tags)
    ensures InWriteOrder(InsertTag(tag, tags))
  {
    if tags != [] {
      var rest := tags[1..];
      assert tags == [tags[0]] + rest;
      BeforeIsNotAfter(tag, tags[0]);
      if TagBefore(tag, tags[0]) {
        assert forall t <- rest :: NotAfter(tags[0], t);
        forall t | t in rest
          ensures NotAfter(tag, t)
        {
          NotAfterIsTransitive(tag, tags[0], t);
        }
        HeadFirst(tag, tags);
      } else {
        assert forall i | 0 <= i < |rest| :: rest[i] == tags[i + 1];
        InsertTagKeepsOrder(tag, rest);
        InsertTagMembers(tag, rest);
        assert forall t <- rest :: NotAfter(tags[0], t);
        HeadFirst(tags[0], InsertTag(tag, rest));
      }
    }
  }

  lemma HeadFirst(head: Row, tail: seq<Row>)
    requires InWriteOrder(tail) && forall t <- tail :: NotAfter(head, t)
    ensures InWriteOrder([head] + tail)
  {
  }

  lemma {:induction false} SortedTagsAreOrdered(tags: seq<Row>)
    requires forall t <- tags :: t.Tag?
    ensures InWriteOrder(SortTags(tags))
  {
    if tags != [] {
      SortedTagsAreOrdered(tags[1..]);
      SortTagsMembers(tags[1..]);
      InsertTagKeepsOrder(tags[0], SortTags(tags[1..]));
    }
  }

  lemma {:induction false} WrittenInOrder(s: Snapshot, t: Rows, n: nat)
    requires Keyed(t) && Reads(s, t) && n <= 9
    ensures InWriteOrder(Written(s, n))
  {
    if n > 0 {
      var u := TABLES[n - 1];
      WrittenInOrder(s, t, n - 1);
      WrittenMembers(s, t, n - 1);
      TableInOrder(s, t, u);
      assert WriteOrder(u) == n - 1;
      forall x, y | x in Written(s, n - 1) && y in TableRows(s, u)
        ensures WriteOrder(x.Table()) < WriteOrder(y.Table())
      {
      }
      Joined(Written(s, n - 1), TableRows(s, u));
    }
  }

  lemma TableInOrder(s: Snapshot, t: Rows, u: Table)
    requires Reads(s, t)
    ensures InWriteOrder(TableRows(s, u))
    ensures forall row <- TableRows(s, u) :: row.Table() == u
  {
    assert Enumerates(s.Of(u), u, t);
    if u.Tags? {
      SortTagsMembers(s.tags);
      SortedTagsAreOrdered(s.tags);
    } else {
      OneTable(s.Of(u), u);
    }
  }

  // Every prefix of the local write

  /** No note about to be pulled points at a field about to be deleted remotely. */
  ghost predicate PulledFieldsStay(v: View) {
    forall r <- Pulled(v) :: Pulled(v)[r].Note? && Pulled(v)[r].fieldId.Some? ==>
      Ref(Fields, Pulled(v)[r].fieldId.value) !in DroppedRemote(v)
  }

  lemma RemoteOnlyVerdict(v: View, x: Ref)
    requires x in v.remote && x !in v.local && !v.VerdictAt(x).Clash?
    ensures TakesRemote(v, x) || (Does(v, x, DeleteRemote) && DeletesPhysically(x.table))
  {
  }

  /** What a pulled row points at is held already or pulled as well. */
  lemma InboundBringsItsReferences(L: Rows, R: Rows, actions: seq<Action>, r: Ref, x: Ref)
    requires Planned(L, R, actions) && AllHeld(L) && AllHeld(R) && PulledFieldsStay(ViewOf(L, R))
    requires r in Chosen(R, actions, TO_LOCAL) && x in Targets(R[r])
    ensures x in L || x in Chosen(R, actions, TO_LOCAL)
  {
    var v := ViewOf(L, R);
    InboundAt(L, R, actions, r);
    assert Held(R, R[r]);
    if Lookup(L, r) == Some(R[r]) {
      assert Held(L, L[r]);
    } else if x !in L {
      ReferencedTables(R[r], x);
      assert Pulled(v)[r] == R[r];
      RemoteOnlyVerdict(v, x);
      InboundAt(L, R, actions, x);
    }
  }

  /** A prefix of the write holds the local rows, overwritten by the rows written so far. */
  lemma PrefixAt(L: Rows, list: seq<Row>, t: Rows, k: nat, ref: Ref)
    requires Keyed(t) && k <= |list| && forall row <- list :: row in t.Values
    ensures ref in L ==> ref in Upserts(L, list[..k])
    ensures forall j | 0 <= j < k :: list[j].PrimaryKey() == ref ==> Lookup(Upserts(L, list[..k]), ref) == Some(list[j])
    ensures ref in Upserts(L, list[..k]) ==>
              Lookup(L, ref) == Some(Upserts(L, list[..k])[ref]) ||
              exists j :: 0 <= j < k && list[j].PrimaryKey() == ref && Upserts(L, list[..k])[ref] == list[j]
  {
    var written := list[..k];
    forall a, b | a in written && b in written && a.PrimaryKey() == b.PrimaryKey()
      ensures a == b
    {
      assert a in list && b in list;
    }
    UpsertsAt(L, written, ref);
    forall j | 0 <= j < k && list[j].PrimaryKey() == ref
      ensures Lookup(Upserts(L, written), ref) == Some(list[j])
    {
      assert list[j] == written[j] && written[j] in written;
    }
    if row :| row in written && row.PrimaryKey() == ref {
      var j :| 0 <= j < k && written[j] == row;
      assert list[j] == row;
    }
  }

  lemma ReferencesComeFirst(list: seq<Row>, t: Rows, i: nat, x: Ref) returns (j: nat)
    requires Keyed(t) && TagsRanked(t) && InWriteOrder(list) && forall row :: row in list <==> row in t.Values
    requires i < |list| && x in Targets(list[i]) && x in t
    ensures j < i && list[j] == t[x]
  {
    assert list[i] in list && t[x] in t.Values;
    j :| 0 <= j < |list| && list[j] == t[x];
    ReferencedTables(list[i], x);
    assert t[x].PrimaryKey() == x;
  }

  /** The row written or held under `r` keeps everything it points at. */
  lemma PrefixKeepsReferences(L: Rows, R: Rows, actions: seq<Action>, list: seq<Row>, k: nat, r: Ref, x: Ref)
    requires Planned(L, R, actions) && AllHeld(L) && AllHeld(R) && TagsRanked(R) && PulledFieldsStay(ViewOf(L, R))
    requires InWriteOrder(list) && k <= |list|
    requires forall row :: row in list <==> row in Chosen(R, actions, TO_LOCAL).Values
    requires r in Upserts(L, list[..k]) && x in Targets(Upserts(L, list[..k])[r])
    ensures x in Upserts(L, list[..k])
  {
    var t := Chosen(R, actions, TO_LOCAL);
    PrefixAt(L, list, t, k, r);
    PrefixAt(L, list, t, k, x);
    var row := Upserts(L, list[..k])[r];
    if Lookup(L, r) == Some(row) {
      assert Held(L, L[r]);
    } else {
      var i :| 0 <= i < k && list[i].PrimaryKey() == r && row == list[i];
      assert list[i] in list;
      InboundBringsItsReferences(L, R, actions, r, x);
      if x !in L {
        var j := ReferencesComeFirst(list, t, i, x);
        assert t[x].PrimaryKey() == x;
      }
    }
  }

  lemma TargetsKeepOwners(L: Rows, R: Rows, actions: seq<Action>, list: seq<Row>, k: nat, r: Ref, x: Ref)
    requires Keyed(L) && Keyed(R) && Resolves(L) && Resolves(R) && OwnersAgree(ViewOf(L, R))
    requires k <= |list| && forall row <- list :: row in Chosen(R, actions, TO_LOCAL).Values
    requires r in Upserts(L, list[..k]) && x in Targets(Upserts(L, list[..k])[r]) && x in Upserts(L, list[..k])
    ensures SharedTable(x.table) || Upserts(L, list[..k])[x].Owner() == Upserts(L, list[..k])[r].Owner()
  {
    var s := Upserts(L, list[..k]);
    HeldOnEitherSide(L, R, actions, list, k, r);
    HeldOnEitherSide(L, R, actions, list, k, x);
    OwnersAcross(ViewOf(L, R), s[r], x, s[x]);
  }

  /** A row of either side and the row it points at, of either side, share their owner. */
  lemma OwnersAcross(v: View, row: Row, x: Ref, target: Row)
    requires Resolves(v.local) && Resolves(v.remote) && OwnersAgree(v) && x in Targets(row)
    requires Lookup(v.local, row.PrimaryKey()) == Some(row) || Lookup(v.remote, row.PrimaryKey()) == Some(row)
    requires Lookup(v.local, x) == Some(target) || Lookup(v.remote, x) == Some(target)
    ensures SharedTable(x.table) || target.Owner() == row.Owner()
  {
    var r := row.PrimaryKey();
    if Lookup(v.local, r) == Some(row) {
      assert Resolved(v.local, v.local[r]);
    } else {
      assert Resolved(v.remote, v.remote[r]);
    }
    assert x in v.local && x in v.remote ==> v.local[x].Owner() == v.remote[x].Owner();
  }

  lemma HeldOnEitherSide(L: Rows, R: Rows, actions: seq<Action>, list: seq<Row>, k: nat, r: Ref)
    requires Keyed(L) && Keyed(R) && k <= |list| && forall row <- list :: row in Chosen(R, actions, TO_LOCAL).Values
    requires r in Upserts(L, list[..k])
    ensures Lookup(L, r) == Some(Upserts(L, list[..k])[r]) || Lookup(R, r) == Some(Upserts(L, list[..k])[r])
  {
    PrefixAt(L, list, Chosen(R, actions, TO_LOCAL), k, r);
    if Lookup(L, r) != Some(Upserts(L, list[..k])[r]) {
      var j :| 0 <= j < k && list[j].PrimaryKey() == r && Upserts(L, list[..k])[r] == list[j];
      assert list[j] in list;
    }
  }

  /** Existence alone, wherever the rows belong: from two sides that hold what their
      rows point at, every row-by-row prefix of the transaction does, if and only if no
      written note points at a field the local side deleted. */
  lemma EveryPrefixHolds(L: Rows, R: Rows, actions: seq<Action>, inbound: Snapshot)
    requires Planned(L, R, actions) && Reads(inbound, Chosen(R, actions, TO_LOCAL))
    requires AllHeld(L) && AllHeld(R) && TagsRanked(R)
    ensures PulledFieldsStay(ViewOf(L, R)) <==>
            forall k | 0 <= k <= |WriteList(inbound)| :: AllHeld(Upserts(L, WriteList(inbound)[..k]))
  {
    var v, list, t := ViewOf(L, R), WriteList(inbound), Chosen(R, actions, TO_LOCAL);
    WrittenInOrder(inbound, t, 9);
    WriteListMembers(inbound, t);
    if PulledFieldsStay(v) {
      forall k | 0 <= k <= |list|
        ensures AllHeld(Upserts(L, list[..k]))
      {
        PrefixHolds(L, R, actions, list, k);
      }
    } else {
      assert list[..|list|] == list;
      UpsertsOfSnapshot(L, inbound, t);
      InboundIsPulled(L, R, actions);
      DanglingField(v);
    }
  }

  lemma PrefixHolds(L: Rows, R: Rows, actions: seq<Action>, list: seq<Row>, k: nat)
    requires Planned(L, R, actions) && AllHeld(L) && AllHeld(R) && TagsRanked(R) && PulledFieldsStay(ViewOf(L, R))
    requires InWriteOrder(list) && k <= |list|
    requires forall row :: row in list <==> row in Chosen(R, actions, TO_LOCAL).Values
    ensures AllHeld(Upserts(L, list[..k]))
  {
    var s := Upserts(L, list[..k]);
    forall r, x | r in s && x in Targets(s[r])
      ensures x in s
    {
      PrefixKeepsReferences(L, R, actions, list, k, r, x);
    }
  }

  /** Referential safety of the local write: from two sides that resolve, every
      row-by-row prefix of the transaction resolves, if and only if no written
      note points at a field the local side deleted. */
  lemma EveryPrefixResolves(L: Rows, R: Rows, actions: seq<Action>, inbound: Snapshot)
    requires Planned(L, R, actions) && Reads(inbound, Chosen(R, actions, TO_LOCAL))
    requires Resolves(L) && Resolves(R) && TagsRanked(R) && OwnersAgree(ViewOf(L, R))
    ensures PulledFieldsStay(ViewOf(L, R)) <==> EveryPrefix(L, WriteList(inbound))
  {
    var v, list, t := ViewOf(L, R), WriteList(inbound), Chosen(R, actions, TO_LOCAL);
    ResolvedIsHeld(L);
    ResolvedIsHeld(R);
    EveryPrefixHolds(L, R, actions, inbound);
    WriteListMembers(inbound, t);
    forall k | 0 <= k <= |list|
      ensures AllHeld(Upserts(L, list[..k])) <==> Resolves(Upserts(L, list[..k]))
    {
      PrefixResolves(L, R, actions, list, k);
    }
  }

  /** While no row moves between workspaces, what is held is held in the right one. */
  lemma PrefixResolves(L: Rows, R: Rows, actions: seq<Action>, list: seq<Row>, k: nat)
    requires Keyed(L) && Keyed(R) && Resolves(L) && Resolves(R) && OwnersAgree(ViewOf(L, R))
    requires k <= |list| && forall row <- list :: row in Chosen(R, actions, TO_LOCAL).Values
    ensures AllHeld(Upserts(L, list[..k])) <==> Resolves(Upserts(L, list[..k]))
  {
    var s := Upserts(L, list[..k]);
    if AllHeld(s) {
      forall r | r in s
        ensures Resolved(s, s[r])
      {
        assert Held(s, s[r]);
        forall x | x in Targets(s[r])
          ensures SharedTable(x.table) || s[x].Owner() == s[r].Owner()
        {
          TargetsKeepOwners(L, R, actions, list, k, r, x);
        }
      }
    } else if Resolves(s) {
      ResolvedIsHeld(s);
    }
  }

  lemma DanglingField(v: View)
    requires !PulledFieldsStay(v)
    ensures !AllHeld(v.local + Pulled(v))
  {
    var r :| r in Pulled(v) && Pulled(v)[r].Note? && Pulled(v)[r].fieldId.Some? &&
             Ref(Fields, Pulled(v)[r].fieldId.value) in DroppedRemote(v);
    var x := Ref(Fields, Pulled(v)[r].fieldId.value);
    VerdictShape(v, x);
    NoteWithoutField(v.local + Pulled(v), r, Pulled(v)[r]);
  }

  // Every table of the remote write

  ghost predicate PushedFieldsStay(v: View) {
    forall r <- Pushed(v) :: Pushed(v)[r].Note? && Pushed(v)[r].fieldId.Some? ==>
      Ref(Fields, Pushed(v)[r].fieldId.value) !in DroppedLocal(v)
  }

  /** A workspace that owns a row is sent: emptiness looks at every other table. */
  lemma LocalOnlyVerdict(v: View, r: Ref, x: Ref)
    requires r in v.local && x in Targets(v.local[r])
    requires x in v.local && x !in v.remote && !v.VerdictAt(x).Clash?
    ensures TakesLocal(v, x) || (Does(v, x, DeleteLocal) && DeletesPhysically(x.table))
  {
    if x.table.Workspaces? {
      assert !v.local[r].Workspace? && v.local[r].Owner() == x.key;
      assert !WorkspaceEmpty(v.local, x.key);
    }
  }

  lemma OutboundBringsItsReferences(v: View, r: Ref, x: Ref)
    requires Keyed(v.local) && Keyed(v.remote) && AllHeld(v.local) && PushedFieldsStay(v)
    requires forall ref <- v.Keys() :: !v.VerdictAt(ref).Clash?
    requires r in Pushed(v) && x in Targets(v.local[r])
    ensures x in v.remote || x in Pushed(v)
  {
    assert Held(v.local, v.local[r]);
    if x !in v.remote {
      LocalOnlyVerdict(v, r, x);
      ReferencedTables(v.local[r], x);
      assert Pushed(v)[r] == v.local[r];
    }
  }

  lemma TablesHold(v: View, n: nat, r: Ref)
    requires Keyed(v.local) && Keyed(v.remote) && AllHeld(v.local) && AllHeld(v.remote) && PushedFieldsStay(v)
    requires forall ref <- v.Keys() :: !v.VerdictAt(ref).Clash?
    requires r in v.remote + PushedTables(v, n)
    ensures Held(v.remote + PushedTables(v, n), (v.remote + PushedTables(v, n))[r])
  {
    var s := v.remote + PushedTables(v, n);
    if r in PushedTables(v, n) {
      forall x | x in Targets(s[r])
        ensures x in s
      {
        OutboundBringsItsReferences(v, r, x);
        ReferencedTables(s[r], x);
        assert s[r].PrimaryKey() == r;
      }
    } else {
      assert Held(v.remote, v.remote[r]);
    }
  }

  lemma TablesKeepReferences(v: View, n: nat, r: Ref)
    requires Keyed(v.local) && Keyed(v.remote) && Resolves(v.local) && Resolves(v.remote)
    requires OwnersAgree(v) && PushedFieldsStay(v) && forall ref <- v.Keys() :: !v.VerdictAt(ref).Clash?
    requires r in v.remote + PushedTables(v, n)
    ensures Resolved(v.remote + PushedTables(v, n), (v.remote + PushedTables(v, n))[r])
  {
    var s := v.remote + PushedTables(v, n);
    ResolvedIsHeld(v.local);
    ResolvedIsHeld(v.remote);
    TablesHold(v, n, r);
    assert s[r].PrimaryKey() == r;
    forall x | x in Targets(s[r])
      ensures SharedTable(x.table) || s[x].Owner() == s[r].Owner()
    {
      OwnersAcross(v, s[r], x, s[x]);
    }
  }

  /** Existence alone, wherever the rows belong: after every table of the request
      sequence the remote side holds what its rows point at, if and only if no written
      note points at a field the remote side deleted. */
  lemma EveryTableHolds(L: Rows, R: Rows)
    requires Keyed(L) && Keyed(R) && ConflictFree(L, R) && AllHeld(L) && AllHeld(R)
    ensures PushedFieldsStay(ViewOf(L, R)) <==> forall n: nat | n <= 9 :: AllHeld(R + PushedTables(ViewOf(L, R), n))
  {
    var v := ViewOf(L, R);
    if PushedFieldsStay(v) {
      forall n: nat, r | n <= 9 && r in R + PushedTables(v, n)
        ensures Held(R + PushedTables(v, n), (R + PushedTables(v, n))[r])
      {
        TablesHold(v, n, r);
      }
    } else {
      DanglingPushedField(v);
    }
  }

  /** Referential safety of the remote write: after every table of the request
      sequence the remote side resolves, if and only if no written note points
      at a field the remote side deleted. */
  lemma EveryTableResolves(L: Rows, R: Rows)
    requires Keyed(L) && Keyed(R) && ConflictFree(L, R)
    requires Resolves(L) && Resolves(R) && OwnersAgree(ViewOf(L, R))
    ensures PushedFieldsStay(ViewOf(L, R)) <==>
            forall n: nat | n <= 9 :: Resolves(R + PushedTables(ViewOf(L, R), n))
  {
    var v := ViewOf(L, R);
    if PushedFieldsStay(v) {
      forall n: nat, r | n <= 9 && r in R + PushedTables(v, n)
        ensures Resolved(R + PushedTables(v, n), (R + PushedTables(v, n))[r])
      {
        TablesKeepReferences(v, n, r);
      }
    } else {
      DanglingPushedField(v);
      if Resolves(R + PushedTables(v, 9)) {
        ResolvedIsHeld(R + PushedTables(v, 9));
      }
    }
  }

  lemma DanglingPushedField(v: View)
    requires !PushedFieldsStay(v)
    ensures !AllHeld(v.remote + PushedTables(v, 9))
  {
    var r :| r in Pushed(v) && Pushed(v)[r].Note? && Pushed(v)[r].fieldId.Some? &&
             Ref(Fields, Pushed(v)[r].fieldId.value) in DroppedLocal(v);
    DroppedFieldIsNowhere(v, Ref(Fields, Pushed(v)[r].fieldId.value));
    NoteWithoutField(v.remote + PushedTables(v, 9), r, Pushed(v)[r]);
  }

  lemma DroppedFieldIsNowhere(v: View, x: Ref)
    requires x in DroppedLocal(v)
    ensures x !in v.remote + PushedTables(v, 9)
  {
    VerdictShape(v, x);
  }

  lemma NoteWithoutField(s: Rows, r: Ref, note: Row)
    requires Lookup(s, r) == Some(note) && note.Note? && note.fieldId.Some? && Ref(Fields, note.fieldId.value) !in s
    ensures !AllHeld(s)
  {
    assert Ref(Fields, note.fieldId.value) in Targets(note);
    assert !Held(s, s[r]);
  }

  // What the stores accept

  /** Both sides keep their references, remote tags sit below their parents, and no
      row moved between workspaces. */
  ghost predicate ClosedSides(v: View) {
    Resolves(v.local) && Resolves(v.remote) && TagsRanked(v.remote) && OwnersAgree(v)
  }

  /** No note written to a side points at a field that is to be deleted there. */
  ghost predicate FieldsStay(v: View) {
    PulledFieldsStay(v) && PushedFieldsStay(v)
  }

  /** The local write is refused exactly if a pulled note points at a field the
      local side deleted. */
  lemma LocalWriteAccepted(L: Rows, R: Rows, actions: seq<Action>, inbound: Snapshot)
    requires Planned(L, R, actions) && Reads(inbound, Chosen(R, actions, TO_LOCAL)) && ClosedSides(ViewOf(L, R))
    ensures Accepted(L, WriteList(inbound)) <==> PulledFieldsStay(ViewOf(L, R))
  {
    AcceptedMeansResolving(L, WriteList(inbound));
    EveryPrefixResolves(L, R, actions, inbound);
  }

  /** The remote tables come through exactly if no sent note points at a field the
      remote side deleted. */
  lemma RemoteWriteAccepted(L: Rows, R: Rows, actions: seq<Action>)
    requires Planned(L, R, actions) && ClosedSides(ViewOf(L, R))
    ensures TablesAccepted(R, Chosen(L, actions, TO_REMOTE)) <==> PushedFieldsStay(ViewOf(L, R))
  {
    var v, sent := ViewOf(L, R), Chosen(L, actions, TO_REMOTE);
    TablesAcceptedMeansResolving(R, sent);
    EveryTableResolves(L, R);
    forall n: nat
      ensures Sent(R, sent, n) == R + PushedTables(v, n)
    {
      OutboundIsPushed(L, R, actions, n);
    }
  }

  /** After the upserts, no local note points at a field that is to be deleted. */
  ghost predicate FieldsFree(v: View) {
    var s := v.local + Pulled(v);
    forall r <- s :: !RefersTo(s, DroppedLocal(v), s[r])
  }

  lemma FreeFieldsAreJustDropped(v: View)
    requires FieldsFree(v)
    ensures Cleared(v.local + Pulled(v), DroppedLocal(v)) == LocalAfter(v)
    ensures NoVisibleUse(v.local + Pulled(v), DroppedLocal(v))
  {
  }

  /** A local note that is to keep a field the remote side deleted is to be sent. */
  lemma StayingFieldsAreFree(v: View)
    requires Keyed(v.local) && Resolves(v.local) && Resolves(v.remote) && PushedFieldsStay(v)
    requires forall ref <- v.Keys() :: !v.VerdictAt(ref).Clash?
    ensures FieldsFree(v)
  {
    var s := v.local + Pulled(v);
    forall r | r in s
      ensures !RefersTo(s, DroppedLocal(v), s[r])
    {
      if RefersTo(s, DroppedLocal(v), s[r]) {
        NoteKeepsField(v, r, Ref(Fields, s[r].fieldId.value));
      }
    }
  }

  lemma NoteKeepsField(v: View, r: Ref, x: Ref)
    requires Keyed(v.local) && Resolves(v.local) && Resolves(v.remote) && r in v.local + Pulled(v) &&
             x in DroppedLocal(v)
    requires !v.VerdictAt(r).Clash?
    requires var row := (v.local + Pulled(v))[r]; row.Note? && row.fieldId.Some? && x == Ref(Fields, row.fieldId.value)
    ensures !PushedFieldsStay(v)
  {
    VerdictShape(v, x);
    VerdictShape(v, r);
    assert r in v.remote ==> Resolved(v.remote, v.remote[r]);
    assert x in Targets((v.local + Pulled(v))[r]);
    assert v.local[r].PrimaryKey() == r;
    assert Pushed(v)[r] == v.local[r];
  }

  // A run that is refused

  /** Field `f` is only remote, with a note that uses it; the local log deleted it. */
  ghost predicate DeletedInUse(L: Rows, R: Rows, w: Row, d: Row, f: Row, n: Row, c: Change) {
    && w.Workspace? && d.Device? && f.Field? && n.Note? && n.fieldId == Some(f.id)
    && d.workspaceId == f.workspaceId == n.workspaceId == w.id
    && c.Subject() == f.Subject() && c.operation.Delete? && c.workspaceId == w.id && c.deviceId == d.id
    && L == map[Ref(Workspaces, w.id) := w, Ref(Devices, d.id) := d, Ref(SyncChanges, c.id) := ChangeRow(c)]
    && R == map[Ref(Workspaces, w.id) := w, Ref(Devices, d.id) := d, Ref(Fields, f.id) := f, Ref(Notes, n.id) := n]
  }

  lemma DeletedInUseFacts(L: Rows, R: Rows, w: Row, d: Row, f: Row, n: Row, c: Change)
    requires DeletedInUse(L, R, w, d, f, n, c)
    ensures Lookup(Index(Log(L)), f.Subject()) == Some(c) && Index(Log(R)) == map[]
  {
    assert L[Ref(SyncChanges, c.id)] == ChangeRow(c) && Log(L) == {c};
    IndexOfOne(c, f.Subject());
    assert Log(R) == {};
  }

  lemma DeletedInUseVerdict(v: View, w: Row, d: Row, f: Row, n: Row, c: Change, r: Ref)
    requires DeletedInUse(v.local, v.remote, w, d, f, n, c) && r in v.Keys()
    requires Lookup(v.lc, f.Subject()) == Some(c) && v.rc == map[]
    ensures !v.VerdictAt(r).Clash? && !Does(v, r, DeleteLocal)
    ensures r == Ref(Fields, f.id) ==> Does(v, r, DeleteRemote)
    ensures r == Ref(Notes, n.id) ==> TakesRemote(v, r)
  {
    assert r in {Ref(Workspaces, w.id), Ref(Devices, d.id), Ref(SyncChanges, c.id), Ref(Fields, f.id),
                 Ref(Notes, n.id)};
  }

  lemma DeletedInUseResolves(L: Rows, R: Rows, w: Row, d: Row, f: Row, n: Row, c: Change)
    requires DeletedInUse(L, R, w, d, f, n, c)
    ensures Keyed(L) && Resolves(L) && Keyed(R) && Resolves(R)
  {
    forall r | r in L
      ensures L[r].PrimaryKey() == r && Resolved(L, L[r])
    {
      assert Targets(L[r]) <= {Ref(Workspaces, w.id), Ref(Devices, d.id)};
    }
    forall r | r in R
      ensures R[r].PrimaryKey() == r && Resolved(R, R[r])
    {
      assert Targets(R[r]) <= {Ref(Workspaces, w.id), Ref(Fields, f.id)};
    }
  }

  lemma DeletedInUseStays(L: Rows, R: Rows, w: Row, d: Row, f: Row, n: Row, c: Change)
    requires DeletedInUse(L, R, w, d, f, n, c)
    ensures TagsRanked(R) && OwnersAgree(ViewOf(L, R))
  {
    assert forall r <- R :: !R[r].Tag?;
    assert forall r <- L :: r in R ==> L[r] == R[r];
  }

  lemma DeletedInUseVerdicts(L: Rows, R: Rows, w: Row, d: Row, f: Row, n: Row, c: Change)
    requires DeletedInUse(L, R, w, d, f, n, c)
    ensures ConflictFree(L, R) && DroppedLocal(ViewOf(L, R)) == {}
    ensures !PulledFieldsStay(ViewOf(L, R))
  {
    var v := ViewOf(L, R);
    DeletedInUseFacts(L, R, w, d, f, n, c);
    forall r | r in v.Keys()
      ensures !v.VerdictAt(r).Clash? && !Does(v, r, DeleteLocal)
      ensures r == Ref(Fields, f.id) ==> Does(v, r, DeleteRemote)
      ensures r == Ref(Notes, n.id) ==> TakesRemote(v, r)
    {
      DeletedInUseVerdict(v, w, d, f, n, c, r);
    }
    assert Pulled(v)[Ref(Notes, n.id)] == n && Ref(Fields, f.id) in DroppedRemote(v);
  }

  lemma NothingDroppedHere(v: View)
    requires DroppedLocal(v) == {}
    ensures FieldsFree(v) && PushedFieldsStay(v)
  {
  }

  /** Such sides are closed, conflict-free and free of local use of a field to be
      deleted here; still the run is refused, as the pulled note has no field here. */
  lemma RefusedForDeletedField(L: Rows, R: Rows, w: Row, d: Row, f: Row, n: Row, c: Change)
    requires DeletedInUse(L, R, w, d, f, n, c)
    ensures ConflictFree(L, R) && ClosedSides(ViewOf(L, R)) && PullSparesUnused(ViewOf(L, R))
    ensures FieldsFree(ViewOf(L, R)) && PushedFieldsStay(ViewOf(L, R)) && !PulledFieldsStay(ViewOf(L, R))
  {
    DeletedInUseVerdicts(L, R, w, d, f, n, c);
    DeletedInUseResolves(L, R, w, d, f, n, c);
    DeletedInUseStays(L, R, w, d, f, n, c);
    SparesUnused(ViewOf(L, R));
    NothingDroppedHere(ViewOf(L, R));
  }

  // Deletions

  /** The local deletion clears what it would leave dangling. */
  lemma ClearingKeepsReferences(s: Rows, doomed: set<Ref>)
    requires Resolves(s) && forall r <- doomed :: SupportedDelete(r.table)
    ensures Resolves(Cleared(s, doomed))
  {
    var t := Cleared(s, doomed);
    forall r | r in t
      ensures Resolved(t, t[r])
    {
      assert Resolved(s, s[r]);
      forall x | x in Targets(t[r])
        ensures x in t && t[x].Owner() == s[x].Owner() && x in Targets(s[r])
      {
        ReferencedTables(t[r], x);
        assert x in Targets(s[r]);
      }
    }
  }

  lemma DeletionsAreSupported(v: View)
    ensures forall d <- DroppedLocal(v) :: SupportedDelete(d.table)
  {
    forall d | d in DroppedLocal(v)
      ensures SupportedDelete(d.table)
    {
      VerdictShape(v, d);
    }
  }

  /** A run whose fields stay leaves two sides that resolve, with no row moved. */
  lemma RunKeepsReferences(L: Rows, R: Rows)
    requires Keyed(L) && Keyed(R) && ConflictFree(L, R) && ClosedSides(ViewOf(L, R)) && FieldsStay(ViewOf(L, R))
    ensures Resolves(LocalAfter(ViewOf(L, R))) && Resolves(RemoteAfter(ViewOf(L, R)))
    ensures OwnersAgree(ViewOf(LocalAfter(ViewOf(L, R)), RemoteAfter(ViewOf(L, R))))
  {
    AfterSidesResolve(ViewOf(L, R));
  }

  lemma AfterSidesResolve(v: View)
    requires Keyed(v.local) && Keyed(v.remote) && ClosedSides(v) && FieldsStay(v)
    requires forall ref <- v.Keys() :: !v.VerdictAt(ref).Clash?
    ensures Resolves(LocalAfter(v)) && Resolves(RemoteAfter(v)) && Agree(LocalAfter(v), RemoteAfter(v))
  {
    PulledRowsResolve(v);
    DeletionsAreSupported(v);
    ClearingKeepsReferences(v.local + Pulled(v), DroppedLocal(v));
    StayingFieldsAreFree(v);
    FreeFieldsAreJustDropped(v);
    SparesUnused(v);
    AfterAgrees(v);
    AgreedSideResolves(LocalAfter(v), RemoteAfter(v));
  }

  lemma SparesUnused(v: View)
    requires ClosedSides(v) && Keyed(v.remote)
    ensures PullSparesUnused(v)
  {
    OwnersResolve(v.remote);
    ResolvedPullSparesUnused(v);
  }

  /** The remote deletions leave no reference missing exactly if no pulled note
      points at a field deleted there. */
  lemma ErasureResolves(v: View)
    requires Keyed(v.local) && Keyed(v.remote) && ClosedSides(v) && PushedFieldsStay(v)
    requires forall ref <- v.Keys() :: !v.VerdictAt(ref).Clash?
    ensures PulledFieldsStay(v) <==> Resolves(v.remote + PushedTables(v, 9) - DroppedRemote(v))
    ensures Resolves(v.remote + PushedTables(v, 9))
  {
    assert PushedTables(v, 9) == Pushed(v);
    forall r | r in v.remote + PushedTables(v, 9)
      ensures Resolved(v.remote + PushedTables(v, 9), (v.remote + PushedTables(v, 9))[r])
    {
      TablesKeepReferences(v, 9, r);
    }
    if PulledFieldsStay(v) {
      AfterSidesResolve(v);
    } else {
      PulledNoteKeepsField(v);
    }
  }

  /** The remote deletions leave no reference missing only if the fields stay. */
  lemma PulledNoteKeepsField(v: View)
    requires !PulledFieldsStay(v) && Keyed(v.remote)
    ensures !Resolves(RemoteAfter(v))
  {
    var r :| r in Pulled(v) && Pulled(v)[r].Note? && Pulled(v)[r].fieldId.Some? &&
             Ref(Fields, Pulled(v)[r].fieldId.value) in DroppedRemote(v);
    var x := Ref(Fields, Pulled(v)[r].fieldId.value);
    VerdictShape(v, r);
    NoteWithoutField(RemoteAfter(v), r, Pulled(v)[r]);
    if Resolves(RemoteAfter(v)) {
      ResolvedIsHeld(RemoteAfter(v));
    }
  }

  lemma PulledRowsResolve(v: View)
    requires Keyed(v.local) && Keyed(v.remote) && Resolves(v.local) && Resolves(v.remote) && OwnersAgree(v)
    requires PulledFieldsStay(v) && forall ref <- v.Keys() :: !v.VerdictAt(ref).Clash?
    ensures Resolves(v.local + Pulled(v))
  {
    var s := v.local + Pulled(v);
    forall r | r in s
      ensures Resolved(s, s[r])
    {
      assert s[r].PrimaryKey() == r;
      forall x | x in Targets(s[r])
        ensures x in s && (SharedTable(x.table) || s[x].Owner() == s[r].Owner())
      {
        PulledTargetsStay(v, r, x);
        OwnersAcross(v, s[r], x, s[x]);
      }
    }
  }

  lemma PulledTargetsStay(v: View, r: Ref, x: Ref)
    requires Keyed(v.local) && Keyed(v.remote) && Resolves(v.local) && Resolves(v.remote)
    requires PulledFieldsStay(v) && forall ref <- v.Keys() :: !v.VerdictAt(ref).Clash?
    requires r in v.local + Pulled(v) && x in Targets((v.local + Pulled(v))[r])
    ensures x in v.local + Pulled(v)
  {
    if r in Pulled(v) {
      assert Resolved(v.remote, v.remote[r]);
      if x !in v.local {
        ReferencedTables(Pulled(v)[r], x);
        RemoteOnlyVerdict(v, x);
      }
    } else {
      assert Resolved(v.local, v.local[r]);
    }
  }

  lemma AgreedSideResolves(A: Rows, B: Rows)
    requires Agree(A, B) && Resolves(A)
    ensures Resolves(B)
  {
    forall r | r in B
      ensures Resolved(B, B[r])
    {
      assert A[r] == B[r] && Resolved(A, A[r]);
      forall x | x in Targets(B[r])
        ensures x in B && B[x] == A[x]
      {
        OnlyUnusedMissing(A, B, r, x);
      }
    }
  }

  lemma OnlyUnusedMissing(A: Rows, B: Rows, r: Ref, x: Ref)
    requires Agree(A, B) && r in B && x in Targets(B[r]) && x in A
    ensures x in B && B[x] == A[x]
  {
    assert A[r] == B[r];
    assert x.table.Workspaces? ==> !A[r].Workspace? && A[r].Owner() == x.key;
  }
}
