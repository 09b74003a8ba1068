/** Steps that only add rows: everything that was there stays, and every new row
    is recorded by exactly one change. */
module Growth {
  import opened Base
  import opened Tables
  import opened Database
  import opened Taxonomy

  /** The rows `t` has beyond `s`, devices aside. */
  ghost function NewRows(s: Rows, t: Rows): set<Ref> {
    set r | r in t && r !in s && !r.table.Devices?
  }

  ghost predicate Kept(s: Rows, t: Rows) {
    forall r <- s :: Lookup(t, r) == Some(s[r])
  }

  ghost predicate Grown(s: Rows, journal: seq<Change>, t: Rows, later: seq<Change>, workspaceId: string) {
    && Kept(s, t)
    && (forall r <- NewRows(s, t) :: t[r].Owner() == workspaceId)
    && journal <= later && |later| - |journal| == |NewRows(s, t)|
    && (forall c <- later[|journal|..] :: !c.IsTombstone())
  }

  lemma NotGrown(s: Rows, journal: seq<Change>, workspaceId: string)
    ensures Grown(s, journal, s, journal, workspaceId)
  {
    assert NewRows(s, s) == {};
  }

  lemma GrownTwice(s: Rows, a: seq<Change>, t: Rows, b: seq<Change>, u: Rows, c: seq<Change>, workspaceId: string)
    requires Grown(s, a, t, b, workspaceId) && Grown(t, b, u, c, workspaceId)
    ensures Grown(s, a, u, c, workspaceId)
  {
    StillOwing(s, a, t, b, u, c, workspaceId, 0);
  }

  lemma TagsAreGrowth(s: Rows, journal: seq<Change>, t: Rows, later: seq<Change>, workspaceId: string,
                      paths: set<string>)
    requires TagsAdded(s, journal, t, later, workspaceId, paths)
    ensures Grown(s, journal, t, later, workspaceId)
  {
    assert NewRows(s, t) == NewTags(s, t);
  }

  /** One row inserted and recorded. */
  lemma OneRowGrown(defaults: Defaults, s: Rows, journal: seq<Change>, row: Row, input: SyncChangeInput, id: string,
                    now: int)
    requires row.PrimaryKey() !in s && !row.Device? && input.workspaceId == row.Owner()
    requires input.operation.Insert? || input.operation.Attach?
    ensures Grown(s, journal, WithDevice(defaults, s[row.PrimaryKey() := row], row.Owner(), now),
                  journal + [input.Recorded(defaults, id, now)], row.Owner())
  {
    var t := WithDevice(defaults, s[row.PrimaryKey() := row], row.Owner(), now);
    assert NewRows(s, t) == {row.PrimaryKey()};
  }

  /** The same with some new rows whose change is still to come. */
  ghost predicate GrownOwing(s: Rows, journal: seq<Change>, t: Rows, later: seq<Change>, workspaceId: string,
                             owed: nat)
  {
    && Kept(s, t)
    && (forall r <- NewRows(s, t) :: t[r].Owner() == workspaceId)
    && journal <= later && |later| - |journal| + owed == |NewRows(s, t)|
    && (forall c <- later[|journal|..] :: !c.IsTombstone())
  }

  lemma OweOneMore(s: Rows, journal: seq<Change>, t: Rows, later: seq<Change>, workspaceId: string, owed: nat, row: Row)
    requires GrownOwing(s, journal, t, later, workspaceId, owed)
    requires row.PrimaryKey() !in t && row.Owner() == workspaceId && !row.Device?
    ensures GrownOwing(s, journal, t[row.PrimaryKey() := row], later, workspaceId, owed + 1)
  {
    assert NewRows(s, t[row.PrimaryKey() := row]) == NewRows(s, t) + {row.PrimaryKey()};
  }

  lemma StillOwing(s: Rows, a: seq<Change>, t: Rows, b: seq<Change>, u: Rows, c: seq<Change>, workspaceId: string,
                   owed: nat)
    requires GrownOwing(s, a, t, b, workspaceId, owed) && Grown(t, b, u, c, workspaceId)
    ensures GrownOwing(s, a, u, c, workspaceId, owed)
  {
    assert NewRows(s, u) == NewRows(s, t) + NewRows(t, u);
    assert NewRows(s, t) !! NewRows(t, u);
    LaterChanges(a, b, c);
  }

  lemma LaterChanges(a: seq<Change>, b: seq<Change>, c: seq<Change>)
    requires a <= b <= c
    requires (forall x <- b[|a|..] :: !x.IsTombstone()) && forall x <- c[|b|..] :: !x.IsTombstone()
    ensures forall x <- c[|a|..] :: !x.IsTombstone()
  {
    assert c[|a|..] == b[|a|..] + c[|b|..];
  }
}
