/** What a comparison says: it is silent exactly on sides that agree, does not
    depend on any iteration order, and treats both sides alike. */
module Comparison {
  import opened Base
  import opened Tables
  import opened Changes
  import opened Lifecycle
  import opened Diff

  ghost predicate ConflictFree(L: Rows, R: Rows) {
    forall ref <- ViewOf(L, R).Keys() :: !ViewOf(L, R).VerdictAt(ref).Clash?
  }

  /** No action and no conflict. */
  ghost predicate Quiet(L: Rows, R: Rows) {
    ViewOf(L, R).AllActions() == multiset{} && ViewOf(L, R).AllConflicts() == multiset{}
  }

  /** The same rows on both sides, apart from local workspaces nothing uses. */
  ghost predicate Agree(L: Rows, R: Rows) {
    && (forall ref <- R :: ref in L && L[ref] == R[ref])
    && (forall ref <- L :: ref in R || (ref.table.Workspaces? && WorkspaceEmpty(L, ref.key)))
  }

  lemma ActionMember(v: View, a: Action)
    ensures a in v.AllActions() <==> exists ref :: ref in v.Keys() && a in v.ActionsAt(ref)
  {
    SumMember(v.Keys(), Bag(v.ActionsAt), a);
    forall ref
      ensures a in Bag(v.ActionsAt)(ref) <==> a in v.ActionsAt(ref)
    {
    }
  }

  lemma ConflictMember(v: View, c: Conflict)
    ensures c in v.AllConflicts() <==> exists ref :: ref in v.Keys() && c in v.ConflictsAt(ref)
  {
    SumMember(v.Keys(), Bag(v.ConflictsAt), c);
    forall ref
      ensures c in Bag(v.ConflictsAt)(ref) <==> c in v.ConflictsAt(ref)
    {
    }
  }

  lemma NoConflictsMeansNoClash(L: Rows, R: Rows)
    ensures ViewOf(L, R).AllConflicts() == multiset{} <==> ConflictFree(L, R)
  {
    var v := ViewOf(L, R);
    if ConflictFree(L, R) {
      forall c
        ensures c !in v.AllConflicts()
      {
        ConflictMember(v, c);
      }
    } else {
      var ref :| ref in v.Keys() && v.VerdictAt(ref).Clash?;
      var c := v.ConflictsAt(ref)[0];
      ConflictMember(v, c);
    }
  }

  lemma SilentOnAgreement(L: Rows, R: Rows, ref: Ref)
    requires Keyed(L) && Keyed(R) && Agree(L, R) && ref in ViewOf(L, R).Keys()
    ensures ViewOf(L, R).ActionsAt(ref) == [] && ViewOf(L, R).ConflictsAt(ref) == []
  {
    forall r | r in L && L[r].ChangeRow?
      ensures r in R
    {
      assert L[r].PrimaryKey() == r;
    }
    assert Log(L) == Log(R);
  }

  lemma SpeaksOnDifference(L: Rows, R: Rows, ref: Ref)
    requires ref in ViewOf(L, R).Keys()
    requires ViewOf(L, R).ActionsAt(ref) == [] && ViewOf(L, R).ConflictsAt(ref) == []
    ensures ref in L
    ensures if ref in R then L[ref] == R[ref] else ref.table.Workspaces? && WorkspaceEmpty(L, ref.key)
  {
  }

  /** The convergence check is exact: nothing to do and nothing unclear if and
      only if both sides hold the same rows, unused local workspaces aside. */
  lemma QuietIffAgree(L: Rows, R: Rows)
    requires Keyed(L) && Keyed(R)
    ensures Quiet(L, R) <==> Agree(L, R)
  {
    var v := ViewOf(L, R);
    if Agree(L, R) {
      forall a
        ensures a !in v.AllActions()
      {
        ActionMember(v, a);
        forall ref | ref in v.Keys() ensures a !in v.ActionsAt(ref) { SilentOnAgreement(L, R, ref); }
      }
      forall c
        ensures c !in v.AllConflicts()
      {
        ConflictMember(v, c);
        forall ref | ref in v.Keys() ensures c !in v.ConflictsAt(ref) { SilentOnAgreement(L, R, ref); }
      }
    }
    if Quiet(L, R) {
      forall ref | ref in v.Keys()
        ensures ref in L
        ensures if ref in R then L[ref] == R[ref] else ref.table.Workspaces? && WorkspaceEmpty(L, ref.key)
      {
        if v.ActionsAt(ref) != [] {
          ActionMember(v, v.ActionsAt(ref)[0]);
        }
        if v.ConflictsAt(ref) != [] {
          ConflictMember(v, v.ConflictsAt(ref)[0]);
        }
        SpeaksOnDifference(L, R, ref);
      }
    }
  }

  // Mirror symmetry

  function MirrorKind(kind: ActionKind): ActionKind {
    match kind
    case UpsertLocal => UpsertRemote
    case UpsertRemote => UpsertLocal
    case DeleteLocal => DeleteRemote
    case DeleteRemote => DeleteLocal
    case SyncChangeLocal => SyncChangeRemote
    case SyncChangeRemote => SyncChangeLocal
  }

  function MirrorReason(reason: Reason): Reason {
    match reason
    case LocalFactNewer => RemoteFactNewer
    case RemoteFactNewer => LocalFactNewer
    case RemoteMissing => LocalMissing
    case LocalMissing => RemoteMissing
    case RemoteTombstone => LocalTombstone
    case LocalTombstone => RemoteTombstone
    case _ => reason
  }

  function MirrorAction(a: Action): Action {
    Action(MirrorKind(a.kind), a.table, a.key, MirrorReason(a.reason))
  }

  function MirrorActions(s: seq<Action>): seq<Action> {
    seq(|s|, i requires 0 <= i < |s| => MirrorAction(s[i]))
  }

  /** The same two sides, seen from the other one. */
  function Flip(v: View): View {
    View(v.remote, v.local, v.rc, v.lc)
  }

  /** The one rule that knows its side: a workspace only the local side has and
      nothing uses. */
  predicate UnusedOnOneSide(v: View, ref: Ref) {
    && ref.table.Workspaces?
    && ((ref in v.local && ref !in v.remote && WorkspaceEmpty(v.local, ref.key)) ||
        (ref in v.remote && ref !in v.local && WorkspaceEmpty(v.remote, ref.key)))
  }

  function MirrorVerdict(v: Verdict): Verdict {
    if v.Act? then Act(MirrorKind(v.kind), MirrorReason(v.reason)) else v
  }

  lemma MirrorFreshness(e: Entity, lc: Latest, rc: Latest)
    ensures Freshness(NewerTarget(e, rc, lc)) == MirrorVerdict(Freshness(NewerTarget(e, lc, rc)))
    ensures MissingEntityChanges(e, rc, lc) == MirrorActions(MissingEntityChanges(e, lc, rc))
  {
  }

  lemma MirrorDifference(t: Table, l: Row, r: Row, lc: Latest, rc: Latest)
    requires l.Subject() == r.Subject()
    ensures OnDifference(t, r, l, rc, lc) == MirrorVerdict(OnDifference(t, l, r, lc, rc))
  {
    MirrorFreshness(r.Subject(), lc, rc);
  }

  lemma MirrorMissing(v: View, ref: Ref)
    requires (ref in v.local) != (ref in v.remote) && !UnusedOnOneSide(v, ref)
    ensures Flip(v).VerdictAt(ref) == MirrorVerdict(v.VerdictAt(ref))
  {
  }

  lemma MirrorOfVerdict(v: View, ref: Ref)
    requires ref in v.Keys() && Sound(v.local) && Sound(v.remote) && !UnusedOnOneSide(v, ref)
    ensures Flip(v).VerdictAt(ref) == MirrorVerdict(v.VerdictAt(ref))
  {
    if ref in v.local && ref in v.remote {
      SameKeySameSubject(v.local[ref], v.remote[ref]);
      MirrorDifference(ref.table, v.local[ref], v.remote[ref], v.lc, v.rc);
    } else {
      MirrorMissing(v, ref);
    }
  }

  lemma MirrorOfCopies(v: View, ref: Ref)
    ensures Flip(v).CopiesAt(ref) == MirrorActions(v.CopiesAt(ref))
  {
    if ref in v.local {
      MirrorFreshness(v.local[ref].Subject(), v.lc, v.rc);
    } else if ref in v.remote {
      MirrorFreshness(v.remote[ref].Subject(), v.lc, v.rc);
    }
  }

  lemma MirrorAt(v: View, ref: Ref)
    requires ref in v.Keys() && Sound(v.local) && Sound(v.remote) && !UnusedOnOneSide(v, ref)
    ensures Flip(v).ActionsAt(ref) == MirrorActions(v.ActionsAt(ref))
    ensures Flip(v).ConflictsAt(ref) == v.ConflictsAt(ref)
  {
    MirrorOfVerdict(v, ref);
    MirrorOfCopies(v, ref);
  }

  lemma UnusedWorkspaceSpeaksForItself(v: View, ref: Ref)
    requires UnusedOnOneSide(v, ref)
    ensures forall a <- v.ActionsAt(ref) :: Ref(a.table, a.key) == ref
    ensures v.ConflictsAt(ref) == []
  {
  }

  lemma MirrorCounts(s: seq<Action>, a: Action)
    ensures multiset(MirrorActions(s))[MirrorAction(a)] == multiset(s)[a]
  {
    if s != [] {
      var last, init := s[|s| - 1], s[..|s| - 1];
      assert s == init + [last];
      assert MirrorActions(s) == MirrorActions(init) + [MirrorAction(last)];
      MirrorCounts(init, a);
    }
  }

  /** Swapping the sides mirrors every action and keeps every conflict. Where
      the sides differ in unused workspaces, that is all that may differ. */
  lemma MirrorSymmetry(L: Rows, R: Rows, a: Action, c: Conflict)
    requires Sound(L) && Sound(R)
    ensures ViewOf(R, L).AllConflicts()[c] == ViewOf(L, R).AllConflicts()[c]
    ensures !UnusedOnOneSide(ViewOf(L, R), Ref(a.table, a.key)) ==>
              ViewOf(R, L).AllActions()[MirrorAction(a)] == ViewOf(L, R).AllActions()[a]
  {
    MirrorSymmetryOfViews(ViewOf(L, R), a, c);
  }

  lemma MirrorSymmetryOfViews(v: View, a: Action, c: Conflict)
    requires Sound(v.local) && Sound(v.remote)
    ensures Flip(v).AllConflicts()[c] == v.AllConflicts()[c]
    ensures !UnusedOnOneSide(v, Ref(a.table, a.key)) ==> Flip(v).AllActions()[MirrorAction(a)] == v.AllActions()[a]
  {
    var w := Flip(v);
    assert v.Keys() == w.Keys();
    forall ref | ref in v.Keys()
      ensures Bag(v.ConflictsAt)(ref)[c] == Bag(w.ConflictsAt)(ref)[c]
      ensures !UnusedOnOneSide(v, Ref(a.table, a.key)) ==>
                Bag(v.ActionsAt)(ref)[a] == Bag(w.ActionsAt)(ref)[MirrorAction(a)]
    {
      if UnusedOnOneSide(v, ref) {
        UnusedWorkspaceSpeaksForItself(v, ref);
        UnusedWorkspaceSpeaksForItself(w, ref);
      } else {
        MirrorAt(v, ref);
        MirrorCounts(v.ActionsAt(ref), a);
      }
    }
    SumCount(v.Keys(), Bag(v.ConflictsAt), Bag(w.ConflictsAt), c, c);
    if !UnusedOnOneSide(v, Ref(a.table, a.key)) {
      SumCount(v.Keys(), Bag(v.ActionsAt), Bag(w.ActionsAt), a, MirrorAction(a));
    }
  }

  // Independence of the iteration order

  /** Every entity lives under one primary key, on either side. */
  ghost predicate OneKeyPerSubject(L: Rows, R: Rows) {
    forall a <- L.Values + R.Values, b <- L.Values + R.Values ::
      a.Subject() == b.Subject() ==> a.PrimaryKey() == b.PrimaryKey()
  }

  lemma VerdictActionIsAtItsKey(v: View, ref: Ref, a: Action)
    requires a in v.ActionsAt(ref) && ActionOrder(a.kind) != 2
    ensures ref == Ref(a.table, a.key) && v.VerdictAt(ref) == Act(a.kind, a.reason)
  {
  }

  /** Where a request to copy a change to the local side can come from: the
      comparison of that change itself, or the newest remote change about the
      row's entity, which the local log does not mention or which deleted it. */
  lemma LocalCopyShape(v: View, ref: Ref, a: Action) returns (e: Entity)
    requires ref in v.Keys() && a in v.ActionsAt(ref) && a.kind.SyncChangeLocal?
    ensures a == CopyChange(SyncChangeLocal, a.key)
    ensures ref.table.SyncChanges? ==> ref in v.remote && ref !in v.local && a.key == ref.key
    ensures !ref.table.SyncChanges? ==>
              && e in v.rc && v.rc[e].id == a.key
              && (e in v.lc ==> ref in v.local && ref !in v.remote && e == v.local[ref].Subject())
  {
    e := if ref in v.remote then v.remote[ref].Subject() else v.local[ref].Subject();
  }

  /** Such a copy names a remote fact; if the local side knows the fact already,
      it is the tombstone of a row only the local side has. */
  lemma LocalCopyOrigin(L: Rows, R: Rows, ref: Ref, a: Action)
    requires Keyed(L) && Keyed(R) && DistinctIds(Log(L) + Log(R))
    requires ref in ViewOf(L, R).Keys() && a in ViewOf(L, R).ActionsAt(ref) && a.kind.SyncChangeLocal?
    ensures a == CopyChange(SyncChangeLocal, a.key)
    ensures Ref(SyncChanges, a.key) in R && R[Ref(SyncChanges, a.key)].ChangeRow?
    ensures Ref(SyncChanges, a.key) in L ==>
              ref in L && ref !in R && R[Ref(SyncChanges, a.key)].change.Subject() == L[ref].Subject()
  {
    var e := LocalCopyShape(ViewOf(L, R), ref, a);
    if ref.table.SyncChanges? {
      assert R[ref].PrimaryKey() == ref;
    } else {
      NamedFact(R, e);
      if Ref(SyncChanges, a.key) in L {
        SharedFact(L, R, a.key);
        ChangeIdsAreDistinct(L);
        NewestExists(Log(L), e);
        IndexIsNewest(Log(L), e);
      }
    }
  }

  lemma SharedFact(L: Rows, R: Rows, id: string)
    requires Keyed(L) && Keyed(R) && DistinctIds(Log(L) + Log(R))
    requires Ref(SyncChanges, id) in L && Ref(SyncChanges, id) in R
    ensures L[Ref(SyncChanges, id)] == R[Ref(SyncChanges, id)]
    ensures L[Ref(SyncChanges, id)].ChangeRow? && L[Ref(SyncChanges, id)].change in Log(L)
  {
    var c, d := L[Ref(SyncChanges, id)], R[Ref(SyncChanges, id)];
    assert c.PrimaryKey() == d.PrimaryKey() == Ref(SyncChanges, id);
    assert c.change in Log(L) && d.change in Log(R);
  }

  /** The newest change about an entity is a row of the log it comes from. */
  lemma NamedFact(s: Rows, e: Entity)
    requires Keyed(s)
    ensures e in Index(Log(s)) ==>
              var c := Index(Log(s))[e];
              c in Log(s) && c.Subject() == e && Lookup(s, Ref(SyncChanges, c.id)) == Some(ChangeRow(c))
  {
    ChangeIdsAreDistinct(s);
    IndexIsNewest(Log(s), e);
    NewestExists(Log(s), e);
    if e in Index(Log(s)) {
      var c := Index(Log(s))[e];
      var r :| r in s && s[r].ChangeRow? && s[r].change == c;
      assert s[r].PrimaryKey() == r;
    }
  }

  lemma RemoteCopyShape(v: View, ref: Ref, a: Action) returns (e: Entity)
    requires ref in v.Keys() && a in v.ActionsAt(ref) && a.kind.SyncChangeRemote?
    ensures a == CopyChange(SyncChangeRemote, a.key)
    ensures ref.table.SyncChanges? ==> ref in v.local && ref !in v.remote && a.key == ref.key
    ensures !ref.table.SyncChanges? ==>
              && e in v.lc && v.lc[e].id == a.key
              && (e in v.rc ==> ref in v.remote && ref !in v.local && e == v.remote[ref].Subject())
  {
    e := if ref in v.remote then v.remote[ref].Subject() else v.local[ref].Subject();
  }

  lemma RemoteCopyOrigin(L: Rows, R: Rows, ref: Ref, a: Action)
    requires Keyed(L) && Keyed(R) && DistinctIds(Log(L) + Log(R))
    requires ref in ViewOf(L, R).Keys() && a in ViewOf(L, R).ActionsAt(ref) && a.kind.SyncChangeRemote?
    ensures a == CopyChange(SyncChangeRemote, a.key)
    ensures Ref(SyncChanges, a.key) in L && L[Ref(SyncChanges, a.key)].ChangeRow?
    ensures Ref(SyncChanges, a.key) in R ==>
              ref in R && ref !in L && L[Ref(SyncChanges, a.key)].change.Subject() == R[ref].Subject()
  {
    var e := RemoteCopyShape(ViewOf(L, R), ref, a);
    if ref.table.SyncChanges? {
      assert L[ref].PrimaryKey() == ref;
    } else {
      NamedFact(L, e);
      if Ref(SyncChanges, a.key) in R {
        SharedFact(R, L, a.key);
        ChangeIdsAreDistinct(R);
        NewestExists(Log(R), e);
        IndexIsNewest(Log(R), e);
      }
    }
  }

  /** A change requested in both directions. */
  ghost predicate CopiedBothWays(v: View, id: string) {
    CopyChange(SyncChangeLocal, id) in v.AllActions() && CopyChange(SyncChangeRemote, id) in v.AllActions()
  }

  /** The same place in the execution order. */
  predicate SortsAlike(a: Action, b: Action) {
    ActionOrder(a.kind) == ActionOrder(b.kind) && a.table == b.table && a.key == b.key
  }

  lemma TiesSortAlike(a: Action, b: Action)
    ensures AtMost(a, b) && AtMost(b, a) <==> SortsAlike(a, b)
  {
    StringLessTotal(a.key, b.key);
    if StringLess(a.key, b.key) {
      StringLessAsymmetric(a.key, b.key);
    }
    WriteOrderIsInjectiveOn(a.table, b.table);
  }

  lemma OneVerdictPerPlace(v: View, p: Ref, a: Action, q: Ref, b: Action)
    requires a in v.ActionsAt(p) && b in v.ActionsAt(q) && SortsAlike(a, b) && ActionOrder(a.kind) != 2
    ensures a == b
  {
    VerdictActionIsAtItsKey(v, p, a);
    VerdictActionIsAtItsKey(v, q, b);
  }

  lemma CopiesDifferInDirection(a: Action, b: Action)
    requires ActionOrder(a.kind) == 2 && SortsAlike(a, b) && a != b
    requires a == CopyChange(a.kind, a.key) && b == CopyChange(b.kind, b.key)
    ensures a.kind.SyncChangeLocal? ==> b == CopyChange(SyncChangeRemote, a.key)
    ensures a.kind.SyncChangeRemote? ==> b == CopyChange(SyncChangeLocal, a.key)
  {
  }

  /** Two different actions tie only as the two copies of one change. */
  lemma TiesAreOpposedCopies(v: View, a: Action, b: Action)
    requires a in v.AllActions() && b in v.AllActions() && AtMost(a, b) && AtMost(b, a) && a != b
    ensures CopiedBothWays(v, a.key)
  {
    TiesSortAlike(a, b);
    var p := ActionPlace(v, a);
    var q := ActionPlace(v, b);
    if ActionOrder(a.kind) != 2 {
      OneVerdictPerPlace(v, p, a, q, b);
    } else {
      CopyShape(v, p, a);
      CopyShape(v, q, b);
      CopiesDifferInDirection(a, b);
    }
  }

  lemma ActionPlace(v: View, a: Action) returns (ref: Ref)
    requires a in v.AllActions()
    ensures ref in v.Keys() && a in v.ActionsAt(ref)
  {
    ActionMember(v, a);
    ref :| ref in v.Keys() && a in v.ActionsAt(ref);
  }

  lemma CopyShape(v: View, ref: Ref, a: Action)
    requires a in v.ActionsAt(ref) && ActionOrder(a.kind) == 2
    ensures a == CopyChange(a.kind, a.key)
  {
  }

  lemma WriteOrderIsInjectiveOn(t: Table, u: Table)
    ensures WriteOrder(t) == WriteOrder(u) ==> t == u
  {
  }

  /** No fact is copied in both directions. */
  lemma NoOpposedCopies(L: Rows, R: Rows, p: Ref, a: Action, q: Ref, b: Action)
    requires Sound(L) && Sound(R) && DistinctIds(Log(L) + Log(R)) && OneKeyPerSubject(L, R)
    requires p in ViewOf(L, R).Keys() && a in ViewOf(L, R).ActionsAt(p) && a.kind.SyncChangeLocal?
    requires q in ViewOf(L, R).Keys() && b in ViewOf(L, R).ActionsAt(q) && b.kind.SyncChangeRemote?
    ensures a.key != b.key
  {
    LocalCopyOrigin(L, R, p, a);
    RemoteCopyOrigin(L, R, q, b);
    if a.key == b.key {
      SharedFact(L, R, a.key);
    }
  }

  lemma SharedIdsAreNotCopiedBothWays(L: Rows, R: Rows, id: string)
    requires Sound(L) && Sound(R) && DistinctIds(Log(L) + Log(R)) && OneKeyPerSubject(L, R)
    ensures !CopiedBothWays(ViewOf(L, R), id)
  {
    var v := ViewOf(L, R);
    var a, b := CopyChange(SyncChangeLocal, id), CopyChange(SyncChangeRemote, id);
    if a in v.AllActions() && b in v.AllActions() {
      ActionMember(v, a);
      ActionMember(v, b);
      var p :| p in v.Keys() && a in v.ActionsAt(p);
      var q :| q in v.Keys() && b in v.ActionsAt(q);
      NoOpposedCopies(L, R, p, a, q, b);
    }
  }

  /** Actions that sort alike are the same. */
  ghost predicate Untied(actions: seq<Action>) {
    forall x, y {:trigger AtMost(x, y)} :: x in actions && y in actions && AtMost(x, y) && AtMost(y, x) ==> x == y
  }

  lemma {:induction false} SortedListsOfOneBag(a: seq<Action>, b: seq<Action>)
    requires Sorted(a) && Sorted(b) && multiset(a) == multiset(b) && Untied(a)
    ensures a == b
  {
    if a == [] {
      assert |multiset(b)| == |b|;
    } else {
      SortedHeadsTie(a, b);
      TailBags(a, b);
      TailIsSorted(a);
      TailIsSorted(b);
      TailIsUntied(a);
      SortedListsOfOneBag(a[1..], b[1..]);
      assert a == [a[0]] + a[1..] && b == [b[0]] + b[1..];
    }
  }

  lemma TailBags<T>(a: seq<T>, b: seq<T>)
    requires a != [] && b != [] && a[0] == b[0] && multiset(a) == multiset(b)
    ensures multiset(a[1..]) == multiset(b[1..])
  {
    assert a == [a[0]] + a[1..] && b == [b[0]] + b[1..];
    forall x
      ensures multiset(a[1..])[x] == multiset(b[1..])[x]
    {
      assert multiset(a)[x] == multiset{a[0]}[x] + multiset(a[1..])[x];
      assert multiset(b)[x] == multiset{b[0]}[x] + multiset(b[1..])[x];
    }
  }

  lemma TailIsSorted(a: seq<Action>)
    requires a != [] && Sorted(a)
    ensures Sorted(a[1..])
  {
  }

  lemma TailIsUntied(a: seq<Action>)
    requires a != [] && Untied(a)
    ensures Untied(a[1..])
  {
  }

  lemma SortedHeadsTie(a: seq<Action>, b: seq<Action>)
    requires Sorted(a) && Sorted(b) && multiset(a) == multiset(b) && a != [] && Untied(a)
    ensures b != [] && a[0] == b[0]
  {
    assert |multiset(a)| == |a| && |multiset(b)| == |b|;
    assert a[0] in multiset(b) && b[0] in multiset(a);
    assert a[0] in b && b[0] in a && a[0] in a;
    HeadIsLeast(a, b[0]);
    HeadIsLeast(b, a[0]);
  }

  lemma HeadIsLeast(a: seq<Action>, x: Action)
    requires Sorted(a) && x in a
    ensures AtMost(a[0], x)
  {
    AtMostIsTotalPreorder(x, x, x);
    var i :| 0 <= i < |a| && a[i] == x;
  }

  /** A list the comparison may return: every action once, in execution order. */
  ghost predicate Listing(v: View, actions: seq<Action>) {
    multiset(actions) == v.AllActions() && Sorted(actions)
  }

  lemma {:induction false} EveryBagIsListed(bag: multiset<Action>) returns (actions: seq<Action>)
    ensures multiset(actions) == bag
    decreases |bag|
  {
    if bag == multiset{} {
      actions := [];
    } else {
      var x :| x in bag;
      var rest := EveryBagIsListed(bag - multiset{x});
      actions := rest + [x];
    }
  }

  lemma SwapKeepsOrder(a: seq<Action>, i: nat, j: nat)
    requires i < |a| && j < |a| && SortsAlike(a[i], a[j]) && Sorted(a)
    ensures Sorted(a[i := a[j]][j := a[i]])
  {
    var b := a[i := a[j]][j := a[i]];
    forall m, n | 0 <= m < n < |b|
      ensures AtMost(b[m], b[n])
    {
      assert SortsAlike(a[m], b[m]) && SortsAlike(a[n], b[n]) && AtMost(a[m], a[n]);
    }
  }

  /** Exchanging the two copies of one change leaves a sorted list of the same actions. */
  lemma OpposedCopiesSwap(v: View, id: string) returns (a: seq<Action>, b: seq<Action>)
    requires CopiedBothWays(v, id)
    ensures Listing(v, a) && Listing(v, b) && a != b
  {
    var x, y := CopyChange(SyncChangeLocal, id), CopyChange(SyncChangeRemote, id);
    var actions := EveryBagIsListed(v.AllActions());
    a := SortActions(actions);
    var i, j := PlaceIn(a, x), PlaceIn(a, y);
    SwapKeepsOrder(a, i, j);
    b := a[i := a[j]][j := a[i]];
    assert multiset(b) == multiset(a);
    assert b[i] == y != a[i];
  }

  ghost function PlaceIn<T(!new)>(a: seq<T>, x: T): (i: nat)
    requires x in multiset(a)
    ensures i < |a| && a[i] == x
  {
    assert x in a;
    var i :| 0 <= i < |a| && a[i] == x;
    i
  }

  /** Any two runs of the comparison, on any row orders and with any hash-map
      iteration orders, produce the same action list, exactly if no change is
      requested in both directions. */
  lemma OrderIndependence(v: View)
    ensures (forall a, b :: Listing(v, a) && Listing(v, b) ==> a == b) <==> forall id :: !CopiedBothWays(v, id)
  {
    if id :| CopiedBothWays(v, id) {
      var a, b := OpposedCopiesSwap(v, id);
    } else {
      forall a, b | Listing(v, a) && Listing(v, b)
        ensures a == b
      {
        ListingIsUntied(v, a);
        SortedListsOfOneBag(a, b);
      }
    }
  }

  lemma ListingIsUntied(v: View, actions: seq<Action>)
    requires Listing(v, actions) && forall id :: !CopiedBothWays(v, id)
    ensures Untied(actions)
  {
    forall x, y | x in actions && y in actions && AtMost(x, y) && AtMost(y, x)
      ensures x == y
    {
      assert x in multiset(actions) && y in multiset(actions);
      if x != y {
        TiesAreOpposedCopies(v, x, y);
      }
    }
  }

  lemma UnsharedFactIsCopied(v: View, ref: Ref, row: Row)
    requires Lookup(v.local, ref) == Some(row) == Lookup(v.remote, ref) && row.Field? && ref.table.Fields?
    ensures var e := row.Subject();
            && (e in v.lc && e !in v.rc ==> CopyChange(SyncChangeRemote, v.lc[e].id) in v.AllActions())
            && (e !in v.lc && e in v.rc ==> CopyChange(SyncChangeLocal, v.rc[e].id) in v.AllActions())
  {
    var copies := MissingEntityChanges(row.Subject(), v.lc, v.rc);
    assert v.ActionsAt(ref) == copies;
    if copies != [] {
      ActionMember(v, copies[0]);
    }
  }

  /** Two rows and one change. */
  function WithFact(f: Row, g: Row, c: Change): Rows {
    map[f.PrimaryKey() := f, g.PrimaryKey() := g, Ref(SyncChanges, c.id) := ChangeRow(c)]
  }

  lemma WithFactHolds(f: Row, g: Row, c: Change)
    requires f.Field? && g.Field? && f.id != g.id
    ensures var s := WithFact(f, g, c);
            && Sound(s) && Log(s) == {c} && s.Values <= {f, g, ChangeRow(c)}
            && Lookup(s, f.PrimaryKey()) == Some(f) && Lookup(s, g.PrimaryKey()) == Some(g)
  {
    var s := WithFact(f, g, c);
    assert s[Ref(SyncChanges, c.id)] == ChangeRow(c);
  }

  lemma IndexSpeaksOfOne(f: Row, g: Row, c: Change)
    requires c.Subject() == f.Subject() != g.Subject()
    ensures Lookup(Index({c}), f.Subject()) == Some(c) && Lookup(Index({c}), g.Subject()) == None
  {
    IndexOfOne(c, f.Subject());
    IndexOfOne(c, g.Subject());
  }

  lemma OneKeyOfFour(f: Row, g: Row, c: Change, d: Change)
    requires f.Field? && g.Field? && f.id != g.id && c.id == d.id
    ensures OneKeyPerSubject(WithFact(f, g, c), WithFact(f, g, d))
  {
    var L, R := WithFact(f, g, c), WithFact(f, g, d);
    WithFactHolds(f, g, c);
    WithFactHolds(f, g, d);
    forall a, b | a in L.Values + R.Values && b in L.Values + R.Values && a.Subject() == b.Subject()
      ensures a.PrimaryKey() == b.PrimaryKey()
    {
      FieldOrFact(f, g, c, d, a);
      FieldOrFact(f, g, c, d, b);
    }
  }

  /** A field or a change is keyed by what its subject names. */
  lemma FieldOrFact(f: Row, g: Row, c: Change, d: Change, a: Row)
    requires f.Field? && g.Field? && a in {f, g, ChangeRow(c), ChangeRow(d)}
    ensures a.Field? || a.ChangeRow?
    ensures a.Subject() == Entity(EntityTypeOf(a.PrimaryKey().table), a.PrimaryKey().key)
  {
  }

  lemma CopiedFromBothLogs(v: View, f: Row, g: Row, c: Change, d: Change)
    requires f.Field? && g.Field? && c.id == d.id
    requires Lookup(v.local, f.PrimaryKey()) == Some(f) == Lookup(v.remote, f.PrimaryKey())
    requires Lookup(v.local, g.PrimaryKey()) == Some(g) == Lookup(v.remote, g.PrimaryKey())
    requires Lookup(v.lc, f.Subject()) == Some(c) && Lookup(v.rc, f.Subject()) == None
    requires Lookup(v.rc, g.Subject()) == Some(d) && Lookup(v.lc, g.Subject()) == None
    ensures CopiedBothWays(v, c.id)
  {
    UnsharedFactIsCopied(v, f.PrimaryKey(), f);
    UnsharedFactIsCopied(v, g.PrimaryKey(), g);
  }

  /** Logs that give one id to changes about two different rows request it in
      both directions: the order of the list is then left open. */
  lemma SharedIdLeavesOrderOpen(f: Row, g: Row, c: Change, d: Change)
    requires f.Field? && g.Field? && f.id != g.id
    requires c.id == d.id && c.Subject() == f.Subject() && d.Subject() == g.Subject()
    ensures var L, R := WithFact(f, g, c), WithFact(f, g, d);
            Sound(L) && Sound(R) && OneKeyPerSubject(L, R) && CopiedBothWays(ViewOf(L, R), c.id)
  {
    WithFactHolds(f, g, c);
    WithFactHolds(f, g, d);
    OneKeyOfFour(f, g, c, d);
    IndexSpeaksOfOne(f, g, c);
    IndexSpeaksOfOne(g, f, d);
    CopiedFromBothLogs(ViewOf(WithFact(f, g, c), WithFact(f, g, d)), f, g, c, d);
  }
}
