/** The newest change about an entity: the fact the whole synchronization
    decides by. Changes are ordered by creation time, ties by change id. */
module Changes {
  import opened Base
  import opened Tables

  predicate Newer(c: Change, d: Change) {
    c.createdAt > d.createdAt || (c.createdAt == d.createdAt && StringLess(d.id, c.id))
  }

  /** A change id names one fact. */
  ghost predicate DistinctIds(log: set<Change>) {
    forall c <- log, d <- log :: c.id == d.id ==> c == d
  }

  ghost predicate IsNewest(log: set<Change>, e: Entity, c: Change) {
    c in log && c.Subject() == e && forall d <- log :: d.Subject() == e && d != c ==> Newer(c, d)
  }

  /** The direct argmax per entity. */
  ghost function Newest(log: set<Change>, e: Entity): Option<Change> {
    if exists c :: IsNewest(log, e, c) then var c :| IsNewest(log, e, c); Some(c) else None
  }

  lemma NewerIsTotal(c: Change, d: Change)
    requires c.id != d.id
    ensures Newer(c, d) <==> !Newer(d, c)
  {
    StringLessTotal(c.id, d.id);
    if StringLess(c.id, d.id) {
      StringLessAsymmetric(c.id, d.id);
    } else {
      StringLessAsymmetric(d.id, c.id);
    }
  }

  lemma NewerIsTransitive(b: Change, c: Change, d: Change)
    requires Newer(b, c) && Newer(c, d)
    ensures Newer(b, d)
  {
    if b.createdAt == d.createdAt {
      StringLessTransitive(d.id, c.id, b.id);
    }
  }

  lemma NewestIs(log: set<Change>, e: Entity, c: Change)
    requires DistinctIds(log) && IsNewest(log, e, c)
    ensures Newest(log, e) == Some(c)
  {
    forall d | IsNewest(log, e, d)
      ensures d == c
    {
      if d != c {
        NewerIsTotal(c, d);
      }
    }
  }

  function MaxChange(c: Option<Change>, d: Option<Change>): Option<Change> {
    if c.None? then d
    else if d.None? || c == d || Newer(c.value, d.value) then c
    else d
  }

  /** The newest change of a union is the newer of the two newest ones. */
  lemma NewestOfUnion(a: set<Change>, b: set<Change>, e: Entity)
    requires DistinctIds(a + b)
    ensures Newest(a + b, e) == MaxChange(Newest(a, e), Newest(b, e))
  {
    NewestExists(a, e);
    NewestExists(b, e);
    var m := MaxChange(Newest(a, e), Newest(b, e));
    if m.Some? {
      forall d | d in a + b && d.Subject() == e && d != m.value
        ensures Newer(m.value, d)
      {
        var top := (if d in a then Newest(a, e) else Newest(b, e)).value;
        if top != m.value {
          NewerIsTotal(top, m.value);
          if d != top {
            NewerIsTransitive(m.value, top, d);
          }
        }
      }
      NewestIs(a + b, e, m.value);
    }
  }

  /** A newest change exists exactly when the log speaks about the entity. */
  lemma {:induction false} NewestExists(log: set<Change>, e: Entity)
    requires DistinctIds(log)
    ensures Newest(log, e).Some? ==> IsNewest(log, e, Newest(log, e).value)
    ensures Newest(log, e).None? <==> forall c <- log :: c.Subject() != e
    decreases log
  {
    if c :| c in log && c.Subject() == e {
      var rest := log - {c};
      NewestExists(rest, e);
      if Newest(rest, e).None? {
        assert IsNewest(log, e, c);
      } else {
        var d := Newest(rest, e).value;
        NewerIsTotal(c, d);
        if Newer(c, d) {
          forall x | x in rest && x.Subject() == e && x != d
            ensures Newer(c, x)
          {
            NewerIsTransitive(c, d, x);
          }
          assert IsNewest(log, e, c);
        } else {
          assert IsNewest(log, e, d);
        }
      }
    }
  }

  ghost function ChangesIn(rows: seq<Row>): set<Change> {
    set row | row in rows && row.ChangeRow? :: row.change
  }

  /** The newest change of every entity the log speaks about. */
  ghost function Index(log: set<Change>): map<Entity, Change> {
    map e | e in (set c <- log :: c.Subject()) && Newest(log, e).Some? :: Newest(log, e).value
  }

  lemma IndexIsNewest(log: set<Change>, e: Entity)
    requires DistinctIds(log)
    ensures Lookup(Index(log), e) == Newest(log, e)
  {
    NewestExists(log, e);
  }

  /** The index of a union of logs is the pointwise maximum of the indexes. */
  lemma IndexOfUnion(a: set<Change>, b: set<Change>, e: Entity)
    requires DistinctIds(a + b)
    ensures Lookup(Index(a + b), e) == MaxChange(Lookup(Index(a), e), Lookup(Index(b), e))
  {
    NewestOfUnion(a, b, e);
    IndexIsNewest(a + b, e);
    IndexIsNewest(a, e);
    IndexIsNewest(b, e);
  }

  /** One pass over the log that keeps the newest change per entity. */
  method LatestChanges(changes: seq<Row>) returns (latest: map<Entity, Change>)
    requires forall row <- changes :: row.ChangeRow?
    requires DistinctIds(ChangesIn(changes))
    ensures latest == Index(ChangesIn(changes))
  {
    latest := map[];
    for i := 0 to |changes|
      invariant latest == Index(ChangesIn(changes[..i]))
    {
      var change := changes[i].change;
      var key := change.Subject();
      if key in latest {
        var current := latest[key];
        if change.createdAt > current.createdAt ||
           (change.createdAt == current.createdAt && StringLess(current.id, change.id))
        {
          latest := latest[key := change];
        }
      } else {
        latest := latest[key := change];
      }
      NextPrefix(changes, i);
      IndexAdds(ChangesIn(changes[..i]), change);
    }
    assert changes[..|changes|] == changes;
  }

  lemma NextPrefix(changes: seq<Row>, i: nat)
    requires i < |changes| && changes[i].ChangeRow?
    ensures ChangesIn(changes[..i + 1]) == ChangesIn(changes[..i]) + {changes[i].change}
    ensures ChangesIn(changes[..i + 1]) <= ChangesIn(changes)
  {
    assert changes[..i + 1] == changes[..i] + [changes[i]];
  }

  /** One more change replaces the entry of its entity if it is newer. */
  lemma IndexAdds(log: set<Change>, c: Change)
    requires DistinctIds(log + {c})
    ensures var e, index := c.Subject(), Index(log);
            Index(log + {c}) == if e in index && !Newer(c, index[e]) then index else index[e := c]
  {
    var e, index := c.Subject(), Index(log);
    var next := if e in index && !Newer(c, index[e]) then index else index[e := c];
    forall f
      ensures Lookup(next, f) == Lookup(Index(log + {c}), f)
    {
      IndexOfUnion(log, {c}, f);
      IndexOfOne(c, f);
      if f == e && e in index && index[e] != c {
        IndexIsNewest(log, e);
        NewestExists(log, e);
        NewerIsTotal(c, index[e]);
      }
    }
    MapsEqual(next, Index(log + {c}));
  }

  lemma IndexOfOne(c: Change, e: Entity)
    ensures Lookup(Index({c}), e) == if c.Subject() == e then Some(c) else None
  {
    NewestExists({c}, e);
    IndexIsNewest({c}, e);
  }
}
