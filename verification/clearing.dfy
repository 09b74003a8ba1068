/** Pulls that clear a note's reference to a deleted field: the note is only to be
    sent, so the check of the direction does not see it. */
module Clearing {
  import opened Base
  import opened Tables
  import opened Changes
  import opened Lifecycle
  import opened Comparison
  import opened Merge
  import opened Resume
  import opened Directions
  import opened Stores
  import opened ForeignKeys

  /** What the local side holds after a pull, cleared references included. */
  function LocalCleared(v: View): Rows {
    Cleared(v.local + Pulled(v), DroppedLocal(v))
  }

  /** The pull takes the field away from this note. */
  predicate LosesField(v: View, ref: Ref) {
    ref in v.local + Pulled(v) && RefersTo(v.local + Pulled(v), DroppedLocal(v), (v.local + Pulled(v))[ref])
  }

  function Fieldless(row: Row): Row {
    if row.Note? then row.(fieldId := None) else row
  }

  /** Only a local note that is to be sent loses its field: the remote side has no
      such field any more, and no note that uses it. */
  lemma LoserIsSent(v: View, ref: Ref)
    requires Keyed(v.local) && Keyed(v.remote) && Resolves(v.remote) && LosesField(v, ref)
    requires !v.VerdictAt(ref).Clash?
    ensures Lookup(v.local, ref) == Some((v.local + Pulled(v))[ref]) && TakesLocal(v, ref)
  {
    var row := (v.local + Pulled(v))[ref];
    var x := Ref(Fields, row.fieldId.value);
    VerdictShape(v, x);
    VerdictShape(v, ref);
    assert row.PrimaryKey() == ref;
    if ref in v.remote {
      assert Resolved(v.remote, v.remote[ref]) && x in Targets(row);
      assert v.remote[ref] != row;
    }
  }

  /** ...for its own sake, not because it follows a deleted field. */
  lemma LoserIsFresher(v: View, ref: Ref)
    requires Keyed(v.local) && Keyed(v.remote) && Resolves(v.remote) && LosesField(v, ref)
    requires !v.VerdictAt(ref).Clash?
    ensures v.VerdictAt(ref) != Act(UpsertRemote, NoteFollowsFieldTombstone)
    ensures ref in v.local && ref in v.remote ==>
              && NewerTarget(v.remote[ref].Subject(), v.lc, v.rc) == Some(UpsertRemote)
              && v.remote[ref] != Fieldless(v.local[ref])
  {
    LoserIsSent(v, ref);
    assert v.local[ref].PrimaryKey() == ref;
    if ref in v.remote {
      assert v.remote[ref].PrimaryKey() == ref;
      var x := Ref(Fields, v.local[ref].fieldId.value);
      assert v.local[x].PrimaryKey() == x;
      assert TombstoneChange(v.rc, v.local[x].Subject()).Some?;
    }
  }

  /** Without its field the note is still only to be sent. */
  lemma LoserStaysSent(v: View, q: View, ref: Ref)
    requires Keyed(v.local) && Keyed(v.remote) && Resolves(v.remote) && LosesField(v, ref)
    requires !v.VerdictAt(ref).Clash?
    requires q.remote == v.remote && q.rc == v.rc && ref in v.local
    requires Lookup(q.local, ref) == Some(Fieldless(v.local[ref]))
    requires forall e :: Lookup(q.lc, e) == Newest2(v, e)
    ensures TakesLocal(q, ref)
  {
    LoserIsSent(v, ref);
    LoserIsFresher(v, ref);
    assert v.local[ref].PrimaryKey() == ref;
    if ref in v.remote {
      var e := v.remote[ref].Subject();
      assert Lookup(q.lc, e) == Newest2(v, e);
      FreshnessPersists(v, q, e);
    }
  }

  /** Clearing references changes no other verdict. */
  lemma OthersAsBefore(p: View, q: View, ref: Ref)
    requires p.remote == q.remote && p.lc == q.lc && p.rc == q.rc && p.local.Keys == q.local.Keys
    requires forall r <- p.local :: q.local[r] == p.local[r] || q.local[r] == Fieldless(p.local[r])
    requires Lookup(q.local, ref) == Lookup(p.local, ref)
    ensures q.VerdictAt(ref) == p.VerdictAt(ref)
  {
    assert WorkspaceEmpty(q.local, ref.key) <==> WorkspaceEmpty(p.local, ref.key);
  }

  /** The row of a key with and without clearing. */
  lemma ClearedAt(v: View, ref: Ref)
    requires Keyed(v.local) && Keyed(v.remote)
    ensures Lookup(LocalCleared(v), ref) ==
            if LosesField(v, ref) && ref in LocalAfter(v) then Some(Fieldless(LocalAfter(v)[ref]))
            else Lookup(LocalAfter(v), ref)
    ensures LosesField(v, ref) && ref in LocalAfter(v) ==> LocalAfter(v)[ref].Note?
  {
  }

  lemma SameLog(v: View)
    requires Keyed(v.local) && Keyed(v.remote)
    ensures Log(LocalCleared(v)) == Log(LocalAfter(v))
  {
    var s, t := LocalCleared(v), LocalAfter(v);
    forall c
      ensures c in Log(s) <==> c in Log(t)
    {
      if c in Log(s) {
        var r :| r in s && s[r].ChangeRow? && s[r].change == c;
        assert r in t && t[r] == s[r];
      }
      if c in Log(t) {
        var r :| r in t && t[r].ChangeRow? && t[r].change == c;
        assert r in s && s[r] == t[r];
      }
    }
  }

  lemma LoserVerdict(v: View, p: View, q: View, ref: Ref)
    requires Keyed(v.local) && Keyed(v.remote) && Resolves(v.remote) && !v.VerdictAt(ref).Clash?
    requires Reached(v, AfterPull(), p) && p.local == LocalAfter(v) && q == p.(local := LocalCleared(v))
    requires p.remote == v.remote && ref in p.local && LosesField(v, ref)
    ensures DeletionsSurvivePull(v, ref) && TakesLocal(q, ref)
  {
    SameFacts(v, AfterPull(), p);
    LoserIsSent(v, ref);
    LoserIsFresher(v, ref);
    forall e
      ensures Lookup(q.lc, e) == Newest2(v, e)
    {
      FactPulled(v, p, e);
    }
    ClearedAt(v, ref);
    AfterAt(v, ref);
    LoserStaysSent(v, q, ref);
  }

  lemma KeeperVerdict(v: View, p: View, q: View, ref: Ref)
    requires Keyed(v.local) && Keyed(v.remote)
    requires p.local == LocalAfter(v) && q == p.(local := LocalCleared(v)) && !LosesField(v, ref)
    ensures q.VerdictAt(ref) == p.VerdictAt(ref)
  {
    forall r | r in p.local
      ensures r in q.local && (q.local[r] == p.local[r] || q.local[r] == Fieldless(p.local[r]))
    {
      ClearedAt(v, r);
    }
    ClearedAt(v, ref);
    OthersAsBefore(p, q, ref);
  }

  /** The check after a pull is blind to cleared references: it passes exactly if
      every deletion still to be applied remotely survives, whether or not hidden
      notes lost a field. */
  lemma ClearedPullDirection(L: Rows, R: Rows)
    requires Keyed(L) && Keyed(R) && ConflictFree(L, R) && Resolves(R)
    ensures PullConverged(LocalCleared(ViewOf(L, R)), R) <==> PullSafe(ViewOf(L, R))
  {
    var v := ViewOf(L, R);
    var p, q := ViewOf(LocalAfter(v), R), ViewOf(LocalCleared(v), R);
    PullReaches(L, R);
    SameLog(v);
    LocalKnowsAll(v, p);
    NothingInboundPasses(LocalCleared(v), R);
    ClearedLeaves(v, p, q);
  }

  lemma SentIsNotInbound(q: View, ref: Ref)
    requires TakesLocal(q, ref)
    ensures !Inbound(q, ref)
  {
  }

  lemma LoserAsBefore(v: View, p: View, q: View, ref: Ref)
    requires Keyed(v.local) && Keyed(v.remote) && Resolves(v.remote) && !v.VerdictAt(ref).Clash?
    requires Reached(v, AfterPull(), p) && p.local == LocalAfter(v) && q == p.(local := LocalCleared(v))
    requires p.remote == v.remote && ref in p.Keys() && LosesField(v, ref)
    ensures !Inbound(q, ref) && !Inbound(p, ref)
  {
    LoserIsSent(v, ref);
    AfterAt(v, ref);
    LoserVerdict(v, p, q, ref);
    SentIsNotInbound(q, ref);
    PullVerdict(v, p, ref);
  }

  /** Clearing asks for nothing here, and asks for nothing less. */
  lemma InboundAsBefore(v: View, p: View, q: View, ref: Ref)
    requires Keyed(v.local) && Keyed(v.remote) && Resolves(v.remote)
    requires forall r <- v.Keys() :: !v.VerdictAt(r).Clash?
    requires Reached(v, AfterPull(), p) && p.local == LocalAfter(v) && q == p.(local := LocalCleared(v))
    requires p.remote == v.remote && ref in p.Keys()
    ensures Inbound(q, ref) <==> Inbound(p, ref)
  {
    if LosesField(v, ref) {
      LoserAsBefore(v, p, q, ref);
    } else {
      KeeperVerdict(v, p, q, ref);
    }
  }

  lemma ClearedLeaves(v: View, p: View, q: View)
    requires Keyed(v.local) && Keyed(v.remote) && Resolves(v.remote)
    requires forall ref <- v.Keys() :: !v.VerdictAt(ref).Clash?
    requires Reached(v, AfterPull(), p) && p.local == LocalAfter(v) && q == p.(local := LocalCleared(v))
    requires p.remote == v.remote
    ensures NothingInbound(q) <==> PullSafe(v)
  {
    PullLeaves(v, p);
    assert q.Keys() == p.Keys();
    forall ref | ref in p.Keys()
      ensures Inbound(q, ref) <==> Inbound(p, ref)
    {
      InboundAsBefore(v, p, q, ref);
    }
  }
}
