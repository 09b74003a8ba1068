/** From a list of actions to the rows it selects: the partial snapshots a run
    sends are exactly the rows the verdicts call for, and the reported numbers
    count distinct actions. */
module Requests {
  import opened Base
  import opened Tables
  import opened Lifecycle
  import opened Snapshots
  import opened Diff
  import opened Comparison
  import opened Merge
  import opened Resume
  import opened Directions
  import opened Stores

  const TO_LOCAL: set<ActionKind> := {UpsertLocal, SyncChangeLocal}
  const TO_REMOTE: set<ActionKind> := {UpsertRemote, SyncChangeRemote}

  /** The list is what the comparison of two conflict-free sides produced. */
  ghost predicate Planned(L: Rows, R: Rows, actions: seq<Action>) {
    Keyed(L) && Keyed(R) && ConflictFree(L, R) && multiset(actions) == ViewOf(L, R).AllActions()
  }

  lemma Listed(v: View, actions: seq<Action>, kinds: set<ActionKind>, ref: Ref)
    requires multiset(actions) == v.AllActions()
    ensures HasAction(actions, kinds, ref) <==>
            exists a, p :: p in v.Keys() && a in v.ActionsAt(p) && a.kind in kinds && Ref(a.table, a.key) == ref
  {
    if HasAction(actions, kinds, ref) {
      var a :| a in actions && a.kind in kinds && a.table == ref.table && a.key == ref.key;
      assert a in multiset(actions);
      ActionMember(v, a);
    }
    if a, p :| p in v.Keys() && a in v.ActionsAt(p) && a.kind in kinds && Ref(a.table, a.key) == ref {
      ActionMember(v, a);
      assert a in multiset(actions);
    }
  }

  lemma DoesMeansListed(v: View, actions: seq<Action>, ref: Ref, kind: ActionKind)
    requires multiset(actions) == v.AllActions() && ref in v.Keys() && Does(v, ref, kind)
    ensures HasAction(actions, {kind}, ref)
  {
    VerdictActionIsListed(v, ref);
    assert Action(kind, ref.table, ref.key, v.VerdictAt(ref).reason) in multiset(actions);
  }

  lemma DeletesAreVerdicts(v: View, actions: seq<Action>, ref: Ref, kind: ActionKind)
    requires multiset(actions) == v.AllActions() && (kind.DeleteLocal? || kind.DeleteRemote?)
    ensures HasAction(actions, {kind}, ref) <==> ref in v.Keys() && Does(v, ref, kind)
  {
    Listed(v, actions, {kind}, ref);
    if HasAction(actions, {kind}, ref) {
      var a, p :| p in v.Keys() && a in v.ActionsAt(p) && a.kind in {kind} && Ref(a.table, a.key) == ref;
      VerdictActionIsAtItsKey(v, p, a);
    }
    if ref in v.Keys() && Does(v, ref, kind) {
      DoesMeansListed(v, actions, ref, kind);
    }
  }

  /** The deletions carried out are the ones decided; no other table is ever named. */
  lemma DoomedIsDropped(L: Rows, R: Rows, actions: seq<Action>)
    requires Planned(L, R, actions)
    ensures Doomed(actions, DeleteLocal, L) == DroppedLocal(ViewOf(L, R))
    ensures Doomed(actions, DeleteRemote, R) == DroppedRemote(ViewOf(L, R))
    ensures forall a <- actions :: a.kind.DeleteLocal? || a.kind.DeleteRemote? ==> SupportedDelete(a.table)
  {
    var v := ViewOf(L, R);
    forall ref
      ensures HasAction(actions, {DeleteLocal}, ref) <==> ref in v.Keys() && Does(v, ref, DeleteLocal)
      ensures HasAction(actions, {DeleteRemote}, ref) <==> ref in v.Keys() && Does(v, ref, DeleteRemote)
    {
      DeletesAreVerdicts(v, actions, ref, DeleteLocal);
      DeletesAreVerdicts(v, actions, ref, DeleteRemote);
    }
    forall a | a in actions && (a.kind.DeleteLocal? || a.kind.DeleteRemote?)
      ensures SupportedDelete(a.table)
    {
      assert HasAction(actions, {a.kind}, Ref(a.table, a.key));
      DeletesAreVerdicts(v, actions, Ref(a.table, a.key), a.kind);
      VerdictShape(v, Ref(a.table, a.key));
    }
  }

  /** A row is pulled if it was decided to be, or if it is a change both sides
      know already. */
  lemma InboundAt(L: Rows, R: Rows, actions: seq<Action>, ref: Ref)
    requires Planned(L, R, actions)
    ensures ref in ViewOf(L, R).Keys() && TakesRemote(ViewOf(L, R), ref) ==> HasAction(actions, TO_LOCAL, ref)
    ensures HasAction(actions, TO_LOCAL, ref) ==>
              ref in R && (Lookup(L, ref) == Some(R[ref]) || TakesRemote(ViewOf(L, R), ref))
  {
    var v := ViewOf(L, R);
    Listed(v, actions, TO_LOCAL, ref);
    if HasAction(actions, TO_LOCAL, ref) {
      var a, p :| p in v.Keys() && a in v.ActionsAt(p) && a.kind in TO_LOCAL && Ref(a.table, a.key) == ref;
      if a.kind.UpsertLocal? {
        VerdictActionIsAtItsKey(v, p, a);
        VerdictShape(v, ref);
      } else {
        FactsAgree(L, R);
        LocalCopyOrigin(L, R, p, a);
        FactVerdict(v, ref);
      }
    }
    if ref in v.Keys() && TakesRemote(v, ref) {
      DoesMeansListed(v, actions, ref, v.VerdictAt(ref).kind);
    }
  }

  lemma FactVerdict(v: View, ref: Ref)
    requires ref.table.SyncChanges? && ref in v.Keys() && !v.VerdictAt(ref).Clash?
    ensures ref !in v.local ==> TakesRemote(v, ref)
    ensures ref !in v.remote ==> TakesLocal(v, ref)
    ensures ref in v.local && ref in v.remote ==> v.local[ref] == v.remote[ref]
  {
  }

  lemma OutboundAt(L: Rows, R: Rows, actions: seq<Action>, ref: Ref)
    requires Planned(L, R, actions)
    ensures ref in ViewOf(L, R).Keys() && TakesLocal(ViewOf(L, R), ref) ==> HasAction(actions, TO_REMOTE, ref)
    ensures HasAction(actions, TO_REMOTE, ref) ==>
              ref in L && (Lookup(R, ref) == Some(L[ref]) || TakesLocal(ViewOf(L, R), ref))
  {
    var v := ViewOf(L, R);
    Listed(v, actions, TO_REMOTE, ref);
    if HasAction(actions, TO_REMOTE, ref) {
      var a, p :| p in v.Keys() && a in v.ActionsAt(p) && a.kind in TO_REMOTE && Ref(a.table, a.key) == ref;
      if a.kind.UpsertRemote? {
        VerdictActionIsAtItsKey(v, p, a);
        VerdictShape(v, ref);
      } else {
        FactsAgree(L, R);
        RemoteCopyOrigin(L, R, p, a);
        FactVerdict(v, ref);
      }
    }
    if ref in v.Keys() && TakesLocal(v, ref) {
      DoesMeansListed(v, actions, ref, v.VerdictAt(ref).kind);
    }
  }

  /** The inbound snapshot has the effect of the rows decided to be pulled. */
  lemma InboundIsPulled(L: Rows, R: Rows, actions: seq<Action>)
    requires Planned(L, R, actions)
    ensures L + Chosen(R, actions, TO_LOCAL) == L + Pulled(ViewOf(L, R))
  {
    forall ref
      ensures Lookup(L + Chosen(R, actions, TO_LOCAL), ref) == Lookup(L + Pulled(ViewOf(L, R)), ref)
    {
      InboundAt(L, R, actions, ref);
    }
    MapsEqual(L + Chosen(R, actions, TO_LOCAL), L + Pulled(ViewOf(L, R)));
  }

  /** The same for the tables of the outbound snapshot sent so far. */
  lemma OutboundIsPushed(L: Rows, R: Rows, actions: seq<Action>, n: nat)
    requires Planned(L, R, actions)
    ensures Sent(R, Chosen(L, actions, TO_REMOTE), n) == R + PushedTables(ViewOf(L, R), n)
  {
    var sent := Sent(R, Chosen(L, actions, TO_REMOTE), n);
    forall ref
      ensures Lookup(sent, ref) == Lookup(R + PushedTables(ViewOf(L, R), n), ref)
    {
      OutboundAt(L, R, actions, ref);
    }
    MapsEqual(sent, R + PushedTables(ViewOf(L, R), n));
  }

  // Honest counts

  /** How many entries of a list have one of the kinds, repetitions included. */
  function CountKinds(actions: seq<Action>, kinds: set<ActionKind>): nat {
    if actions == [] then 0
    else CountKinds(actions[..|actions| - 1], kinds) + if actions[|actions| - 1].kind in kinds then 1 else 0
  }

  ghost function OfKinds(actions: seq<Action>, kinds: set<ActionKind>): set<Action> {
    set a <- actions | a.kind in kinds
  }

  lemma {:induction false} CountIsSize(actions: seq<Action>, kinds: set<ActionKind>)
    requires forall a <- actions :: a.kind in kinds ==> multiset(actions)[a] == 1
    ensures CountKinds(actions, kinds) == |OfKinds(actions, kinds)|
  {
    if actions != [] {
      var init, last := actions[..|actions| - 1], actions[|actions| - 1];
      assert actions == init + [last];
      forall a | a in init && a.kind in kinds
        ensures multiset(init)[a] == 1
      {
        assert a in actions && a in multiset(init);
      }
      CountIsSize(init, kinds);
      if last.kind in kinds {
        assert last !in init by {
          assert multiset(actions)[last] == multiset(init)[last] + 1;
          assert last in init <==> last in multiset(init);
        }
        assert OfKinds(actions, kinds) == OfKinds(init, kinds) + {last};
      } else {
        assert OfKinds(actions, kinds) == OfKinds(init, kinds);
      }
    }
  }

  /** A delete action is emitted once. */
  lemma DeletesAreSingle(v: View, a: Action)
    requires a in v.AllActions() && (a.kind.DeleteLocal? || a.kind.DeleteRemote?)
    ensures v.AllActions()[a] == 1
  {
    var ref := Ref(a.table, a.key);
    ActionMember(v, a);
    var p :| p in v.Keys() && a in v.ActionsAt(p);
    VerdictActionIsAtItsKey(v, p, a);
    SumTakesAny(v.Keys(), Bag(v.ActionsAt), ref);
    SumMember(v.Keys() - {ref}, Bag(v.ActionsAt), a);
    forall q | q in v.Keys() - {ref}
      ensures a !in Bag(v.ActionsAt)(q)
    {
      if a in v.ActionsAt(q) {
        VerdictActionIsAtItsKey(v, q, a);
      }
    }
    OneDeleteAt(v, ref, a);
  }

  lemma OneDeleteAt(v: View, ref: Ref, a: Action)
    requires a in v.ActionsAt(ref) && (a.kind.DeleteLocal? || a.kind.DeleteRemote?)
    ensures multiset(v.ActionsAt(ref))[a] == 1
  {
    CopiesAreCopies(v, ref);
    HeadOnce(a, v.CopiesAt(ref));
    assert v.ActionsAt(ref) == [a] + v.CopiesAt(ref);
  }

  lemma CopiesAreCopies(v: View, ref: Ref)
    ensures forall c <- v.CopiesAt(ref) :: ActionOrder(c.kind) == 2
  {
  }

  lemma HeadOnce<T>(x: T, rest: seq<T>)
    requires x !in rest
    ensures multiset([x] + rest)[x] == 1
  {
    assert x in multiset(rest) <==> x in rest;
  }

  function At(a: Action): Ref {
    Ref(a.table, a.key)
  }

  lemma SelectedKeys(actions: seq<Action>, kinds: set<ActionKind>, s: Rows)
    requires forall ref :: HasAction(actions, kinds, ref) ==> ref in s
    ensures (set a <- OfKinds(actions, kinds) :: At(a)) == Chosen(s, actions, kinds).Keys
  {
    forall ref | ref in Chosen(s, actions, kinds)
      ensures ref in set a <- OfKinds(actions, kinds) :: At(a)
    {
      var a :| a in actions && a.kind in kinds && a.table == ref.table && a.key == ref.key;
      assert a in OfKinds(actions, kinds) && At(a) == ref;
    }
    forall a | a in OfKinds(actions, kinds)
      ensures At(a) in Chosen(s, actions, kinds)
    {
      assert HasAction(actions, kinds, At(a));
    }
  }

  lemma {:induction false} DistinctTargets(s: set<Action>)
    requires forall a <- s, b <- s :: At(a) == At(b) ==> a == b
    ensures |set a <- s :: At(a)| == |s|
    decreases s
  {
    if s != {} {
      var x :| x in s;
      DistinctTargets(s - {x});
      assert (set a <- s :: At(a)) == (set a <- s - {x} :: At(a)) + {At(x)};
    }
  }

  lemma SelectionSize(actions: seq<Action>, kinds: set<ActionKind>, s: Rows)
    requires forall ref :: HasAction(actions, kinds, ref) ==> ref in s
    requires forall a <- OfKinds(actions, kinds), b <- OfKinds(actions, kinds) :: At(a) == At(b) ==> a == b
    ensures |OfKinds(actions, kinds)| == |Chosen(s, actions, kinds)|
  {
    DistinctTargets(OfKinds(actions, kinds));
    SelectedKeys(actions, kinds, s);
    assert |Chosen(s, actions, kinds)| == |Chosen(s, actions, kinds).Keys|;
  }

  /** The actions that select rows are as many as the rows they select: one key
      is never selected by two different actions towards the same side. */
  lemma SelectionsAreRows(v: View, actions: seq<Action>, kinds: set<ActionKind>, s: Rows)
    requires multiset(actions) == v.AllActions() && (kinds == TO_LOCAL || kinds == TO_REMOTE)
    requires forall ref :: HasAction(actions, kinds, ref) ==> ref in s
    ensures |OfKinds(actions, kinds)| == |Chosen(s, actions, kinds)|
  {
    forall a, b | a in OfKinds(actions, kinds) && b in OfKinds(actions, kinds) && At(a) == At(b)
      ensures a == b
    {
      SameSelection(v, actions, kinds, a, b);
    }
    SelectionSize(actions, kinds, s);
  }

  lemma SameSelection(v: View, actions: seq<Action>, kinds: set<ActionKind>, a: Action, b: Action)
    requires multiset(actions) == v.AllActions() && (kinds == TO_LOCAL || kinds == TO_REMOTE)
    requires a in actions && b in actions && a.kind in kinds && b.kind in kinds && At(a) == At(b)
    ensures a == b
  {
    SelectionShape(v, actions, a);
    SelectionShape(v, actions, b);
  }

  lemma SelectionShape(v: View, actions: seq<Action>, a: Action)
    requires multiset(actions) == v.AllActions() && a in actions
    ensures if ActionOrder(a.kind) == 2 then a == CopyChange(a.kind, a.key)
            else v.VerdictAt(At(a)) == Act(a.kind, a.reason) && !a.table.SyncChanges?
  {
    assert a in multiset(actions);
    ActionMember(v, a);
    var p :| p in v.Keys() && a in v.ActionsAt(p);
    if ActionOrder(a.kind) == 2 {
      CopyShape(v, p, a);
    } else {
      UpsertShape(v, p, a);
    }
  }

  lemma UpsertShape(v: View, ref: Ref, a: Action)
    requires a in v.ActionsAt(ref) && ActionOrder(a.kind) != 2
    ensures ref == At(a) && v.VerdictAt(ref) == Act(a.kind, a.reason) && !a.table.SyncChanges?
  {
  }

  lemma InboundKeysExist(L: Rows, R: Rows, actions: seq<Action>)
    requires Planned(L, R, actions)
    ensures forall ref :: HasAction(actions, TO_LOCAL, ref) ==> ref in R
    ensures forall ref :: HasAction(actions, TO_REMOTE, ref) ==> ref in L
  {
    forall ref
      ensures HasAction(actions, TO_LOCAL, ref) ==> ref in R
      ensures HasAction(actions, TO_REMOTE, ref) ==> ref in L
    {
      InboundAt(L, R, actions, ref);
      OutboundAt(L, R, actions, ref);
    }
  }

  lemma CountsAdd(v: View, actions: seq<Action>, kinds: set<ActionKind>, drop: ActionKind, s: Rows, snapshot: Snapshot)
    requires multiset(actions) == v.AllActions() && Keyed(s) && Reads(snapshot, Chosen(s, actions, kinds))
    requires (kinds == TO_LOCAL && drop == DeleteLocal) || (kinds == TO_REMOTE && drop == DeleteRemote)
    requires forall ref :: HasAction(actions, kinds, ref) ==> ref in s
    ensures snapshot.RowCount() + CountKinds(actions, {drop}) == |OfKinds(actions, kinds + {drop})|
  {
    RowCountIsSize(snapshot, Chosen(s, actions, kinds));
    SelectionsAreRows(v, actions, kinds, s);
    DeleteCount(v, actions, drop);
    KindsSplit(actions, kinds, drop);
  }

  lemma KindsSplit(actions: seq<Action>, kinds: set<ActionKind>, other: ActionKind)
    requires other !in kinds
    ensures |OfKinds(actions, kinds + {other})| == |OfKinds(actions, kinds)| + |OfKinds(actions, {other})|
  {
    var a, b := OfKinds(actions, kinds), OfKinds(actions, {other});
    assert OfKinds(actions, kinds + {other}) == a + b;
    assert a !! b;
  }

  ghost function LocalActions(v: View): set<Action> {
    set a | a in v.AllActions() && TargetsLocal(a.kind)
  }

  ghost function RemoteActions(v: View): set<Action> {
    set a | a in v.AllActions() && TargetsRemote(a.kind)
  }

  lemma ActionSets(v: View, actions: seq<Action>)
    requires multiset(actions) == v.AllActions()
    ensures LocalActions(v) == OfKinds(actions, TO_LOCAL + {DeleteLocal})
    ensures RemoteActions(v) == OfKinds(actions, TO_REMOTE + {DeleteRemote})
  {
    ListMembers(v, actions);
  }

  /** The reported number of pulled rows is the number of distinct actions that
      target the local side, though a change copy can be requested twice. */
  lemma PulledCountIsHonest(L: Rows, R: Rows, actions: seq<Action>, inbound: Snapshot)
    requires Planned(L, R, actions) && Reads(inbound, Chosen(R, actions, TO_LOCAL))
    ensures inbound.RowCount() + CountKinds(actions, {DeleteLocal}) == |LocalActions(ViewOf(L, R))|
  {
    InboundKeysExist(L, R, actions);
    CountsAdd(ViewOf(L, R), actions, TO_LOCAL, DeleteLocal, R, inbound);
    ActionSets(ViewOf(L, R), actions);
  }

  lemma PushedCountIsHonest(L: Rows, R: Rows, actions: seq<Action>, outbound: Snapshot)
    requires Planned(L, R, actions) && Reads(outbound, Chosen(L, actions, TO_REMOTE))
    ensures outbound.RowCount() + CountKinds(actions, {DeleteRemote}) == |RemoteActions(ViewOf(L, R))|
  {
    InboundKeysExist(L, R, actions);
    CountsAdd(ViewOf(L, R), actions, TO_REMOTE, DeleteRemote, L, outbound);
    ActionSets(ViewOf(L, R), actions);
  }

  lemma ListMembers(v: View, actions: seq<Action>)
    requires multiset(actions) == v.AllActions()
    ensures forall a :: a in v.AllActions() <==> a in actions
  {
    forall a
      ensures a in v.AllActions() <==> a in actions
    {
      assert a in multiset(actions) <==> a in actions;
    }
  }

  lemma DeleteCount(v: View, actions: seq<Action>, kind: ActionKind)
    requires multiset(actions) == v.AllActions() && (kind.DeleteLocal? || kind.DeleteRemote?)
    ensures CountKinds(actions, {kind}) == |OfKinds(actions, {kind})|
  {
    forall a | a in actions && a.kind in {kind}
      ensures multiset(actions)[a] == 1
    {
      assert a in multiset(actions);
      DeletesAreSingle(v, a);
    }
    CountIsSize(actions, {kind});
  }
}
