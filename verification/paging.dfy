/** Recent notes page by page: following the cursors lists every visible note once,
    newest first. */
module Paging {
  import opened Base
  import opened Tables
  import opened NoteTagging
  import opened NoteLinking
  import opened Ledger

  /** Later update first, then the larger id. */
  predicate RecentBefore(a: Row, b: Row)
    requires a.Note? && b.Note?
  {
    a.updatedAt > b.updatedAt || (a.updatedAt == b.updatedAt && StringLess(b.id, a.id))
  }

  /** The visible notes of a workspace, of one role if asked for. */
  function VisibleNotes(s: Rows, workspaceId: string, role: Option<string>): set<Row> {
    set r | r in s && s[r].Visible() && s[r].workspaceId == workspaceId &&
        (role.Some? ==> s[r].role == role.value) :: s[r]
  }

  ghost predicate AreNotes(notes: set<Row>) {
    && (forall x <- notes :: x.Note?)
    && forall x <- notes, y <- notes :: x.id == y.id ==> x == y
  }

  ghost predicate IsFirst(notes: set<Row>, x: Row) {
    x in notes && x.Note? && forall y <- notes :: y.Note? && (y == x || RecentBefore(x, y))
  }

  ghost predicate InOrder(list: seq<Row>) {
    && (forall x <- list :: x.Note?)
    && forall i, j :: 0 <= i < j < |list| ==> RecentBefore(list[i], list[j])
  }

  ghost function Members(list: seq<Row>): set<Row> {
    set x <- list
  }

  lemma BeforeIsTotal(a: Row, b: Row)
    requires a.Note? && b.Note? && a.id != b.id
    ensures RecentBefore(a, b) <==> !RecentBefore(b, a)
  {
    StringLessTotal(a.id, b.id);
    if StringLess(a.id, b.id) {
      StringLessAsymmetric(a.id, b.id);
    } else {
      StringLessAsymmetric(b.id, a.id);
    }
  }

  lemma BeforeIsIrreflexive(a: Row)
    requires a.Note?
    ensures !RecentBefore(a, a)
  {
    if StringLess(a.id, a.id) {
      StringLessAsymmetric(a.id, a.id);
    }
  }

  lemma BeforeIsTransitive(a: Row, b: Row, c: Row)
    requires a.Note? && b.Note? && c.Note? && RecentBefore(a, b) && RecentBefore(b, c)
    ensures RecentBefore(a, c)
  {
    if a.updatedAt == b.updatedAt == c.updatedAt {
      StringLessTransitive(c.id, b.id, a.id);
    }
  }

  lemma NotesAreDistinct(s: Rows, workspaceId: string, role: Option<string>)
    requires Keyed(s)
    ensures AreNotes(VisibleNotes(s, workspaceId, role))
  {
    var notes := VisibleNotes(s, workspaceId, role);
    forall x, y | x in notes && y in notes && x.id == y.id
      ensures x == y
    {
      var p :| p in s && s[p] == x;
      var q :| q in s && s[q] == y;
      assert s[p].PrimaryKey() == p && s[q].PrimaryKey() == q;
    }
  }

  /** There is one way to list a set of notes in order. */
  lemma {:induction false} OneOrder(a: seq<Row>, b: seq<Row>)
    requires InOrder(a) && InOrder(b) && Members(a) == Members(b)
    ensures a == b
  {
    assert a != [] ==> a[0] in Members(b);
    assert b != [] ==> b[0] in Members(a);
    if a != [] && b != [] {
      var j :| 0 <= j < |b| && b[j] == a[0];
      var i :| 0 <= i < |a| && a[i] == b[0];
      if i != 0 && j != 0 {
        BeforeIsTransitive(a[0], a[i], b[j]);
        BeforeIsIrreflexive(a[0]);
      }
      TailMembers(a);
      TailMembers(b);
      OneOrder(a[1..], b[1..]);
      assert a == [a[0]] + a[1..] && b == [b[0]] + b[1..];
    }
  }

  lemma TailMembers(list: seq<Row>)
    requires InOrder(list) && list != []
    ensures InOrder(list[1..]) && Members(list[1..]) == Members(list) - {list[0]}
  {
    BeforeIsIrreflexive(list[0]);
    assert forall i | 0 <= i < |list| - 1 :: list[1..][i] == list[i + 1];
    assert list == [list[0]] + list[1..];
  }

  /** Sorts the way the query does. */
  method ListInOrder(notes: set<Row>) returns (list: seq<Row>)
    requires AreNotes(notes)
    ensures InOrder(list) && Members(list) == notes
  {
    list := [];
    var rest := notes;
    while rest != {}
      invariant rest <= notes && InOrder(list) && Members(list) == notes - rest
      invariant forall x <- list, y <- rest :: RecentBefore(x, y)
      decreases rest
    {
      var first := FirstOf(rest);
      rest := rest - {first};
      Appended(list, first);
      list := list + [first];
    }
  }

  lemma Appended(list: seq<Row>, x: Row)
    requires InOrder(list) && x.Note? && forall y <- list :: RecentBefore(y, x)
    ensures InOrder(list + [x]) && Members(list + [x]) == Members(list) + {x}
  {
  }

  method FirstOf(notes: set<Row>) returns (first: Row)
    requires AreNotes(notes) && notes != {}
    ensures IsFirst(notes, first)
  {
    first :| first in notes;
    var rest := notes - {first};
    while rest != {}
      invariant rest <= notes && IsFirst(notes - rest, first)
      decreases rest
    {
      var x :| x in rest;
      rest := rest - {x};
      BeforeIsTotal(x, first);
      if RecentBefore(x, first) {
        forall y | y in notes - rest && y != x
          ensures RecentBefore(x, y)
        {
          if y != first {
            BeforeIsTransitive(x, first, y);
          }
        }
        first := x;
      }
    }
    assert notes - rest == notes;
  }

  // One page

  predicate IsFullUuid(id: string) {
    Utf8Length(id) == 32 && forall c <- id :: IsHexDigit(c)
  }

  /** A negative limit is no limit, as in the query language. */
  function Limited(list: seq<Row>, limit: int): seq<Row> {
    if 0 <= limit < |list| then list[..limit] else list
  }

  function CursorNote(s: Rows, workspaceId: string, id: string): Option<Row> {
    var ref := Ref(Notes, id);
    if ref in s && s[ref].Visible() && s[ref].workspaceId == workspaceId then Some(s[ref]) else None
  }

  /** Why a cursor is refused. */
  function BadCursor(s: Rows, workspaceId: string, cursor: Option<string>): Option<NoteError> {
    if cursor.None? then None
    else if !IsFullUuid(cursor.value) then Some(Validation)
    else if CursorNote(s, workspaceId, cursor.value).None? then Some(RecordNotFound)
    else None
  }

  /** The notes a page is taken from: all of them, or those after the cursor. */
  function Eligible(s: Rows, workspaceId: string, cursor: Option<string>, role: Option<string>): set<Row> {
    var notes := VisibleNotes(s, workspaceId, role);
    if cursor.None? then notes
    else
      var at := CursorNote(s, workspaceId, cursor.value);
      set x | x in notes && x.Note? && at.Some? && at.value.Note? && RecentBefore(at.value, x)
  }

  /** Later updates first, the larger id first among updates of one second. */
  ghost predicate NewestFirst(list: seq<Row>) {
    forall i, j :: 0 <= i < j < |list| ==>
      && list[i].Note? && list[j].Note?
      && (list[i].updatedAt > list[j].updatedAt ||
          (list[i].updatedAt == list[j].updatedAt && StringLess(list[j].id, list[i].id)))
  }

  /** A visible note of the workspace, of the role if one is given, and after the
      cursor if there is one: updated earlier, or in the same second with a smaller id. */
  ghost predicate AskedFor(s: Rows, workspaceId: string, cursor: Option<string>, role: Option<string>, x: Row) {
    && x.Note? && x.workspaceId == workspaceId && x.archivedAt.None? && x.deletedAt.None?
    && (role.Some? ==> x.role == role.value)
    && (cursor.Some? ==>
          var at := Lookup(s, Ref(Notes, cursor.value));
          && at.Some? && at.value.Note?
          && (x.updatedAt < at.value.updatedAt ||
              (x.updatedAt == at.value.updatedAt && StringLess(x.id, cursor.value))))
  }

  lemma EligibleIsAskedFor(s: Rows, workspaceId: string, cursor: Option<string>, role: Option<string>, r: Ref)
    requires Keyed(s) && r in s && BadCursor(s, workspaceId, cursor).None?
    ensures s[r] in Eligible(s, workspaceId, cursor, role) <==> AskedFor(s, workspaceId, cursor, role, s[r])
  {
    if cursor.Some? {
      assert s[Ref(Notes, cursor.value)].PrimaryKey() == Ref(Notes, cursor.value);
    }
  }

  lemma OrderMeansNewestFirst(list: seq<Row>)
    requires InOrder(list)
    ensures NewestFirst(list)
  {
    forall i, j | 0 <= i < j < |list|
      ensures list[i].Note? && list[j].Note? && RecentBefore(list[i], list[j])
    {
      assert list[i] in list && list[j] in list;
    }
  }

  lemma PageMembers(s: Rows, workspaceId: string, cursor: Option<string>, role: Option<string>, list: seq<Row>,
                    limit: int, x: Row)
    requires Keyed(s) && BadCursor(s, workspaceId, cursor).None?
    requires Members(list) == Eligible(s, workspaceId, cursor, role) && x in Limited(list, limit)
    ensures x.Note? && Lookup(s, Ref(Notes, x.id)) == Some(x) && AskedFor(s, workspaceId, cursor, role, x)
  {
    assert x in list && x in Members(list);
    var r :| r in s && s[r] == x;
    assert s[r].PrimaryKey() == r;
    EligibleIsAskedFor(s, workspaceId, cursor, role, r);
  }

  /** A note that is asked for and left out comes after everything on a full page. */
  lemma LeftOutComesLater(list: seq<Row>, limit: int, y: Row)
    requires InOrder(list) && y in Members(list) && y !in Limited(list, limit)
    ensures |Limited(list, limit)| == limit && NewestFirst(Limited(list, limit) + [y])
  {
    var page := Limited(list, limit);
    var j :| 0 <= j < |list| && list[j] == y;
    assert forall k | 0 <= k < |page| :: page[k] in page && page[k] == list[k];
    assert InOrder(page + [y]);
    OrderMeansNewestFirst(page + [y]);
  }

  predicate Has32Digits(id: string) {
    |id| == 32 && Hexadecimal(id)
  }

  lemma FullUuidTells(id: string)
    ensures IsFullUuid(id) <==> Has32Digits(id)
  {
    if Hexadecimal(id) {
      HexIsAscii(id);
    }
  }

  /** The next notes, newest first: all that are asked for, or as many as the limit
      allows. The cursor must be 32 hexadecimal digits and name a visible note of the
      workspace. */
  method ListRecentNotes(s: Rows, workspaceId: string, limit: int, cursor: Option<string>, role: Option<string>)
    returns (r: Result<seq<Row>, NoteError>)
    requires Keyed(s)
    ensures BadCursor(s, workspaceId, cursor) == if r.Failure? then Some(r.error) else None
    ensures if cursor.None? then r.Success? else r == Failure(Validation) <==> !Has32Digits(cursor.value)
    ensures r.Failure? ==> r.error == Validation || r.error == RecordNotFound
    ensures cursor.Some? && Has32Digits(cursor.value) ==>
              var at := Lookup(s, Ref(Notes, cursor.value));
              r.Success? <==> at.Some? && AskedFor(s, workspaceId, None, None, at.value)
    ensures r.Success? ==>
              exists list :: InOrder(list) && Members(list) == Eligible(s, workspaceId, cursor, role) &&
                  r.value == Limited(list, limit)
    ensures r.Success? ==> NewestFirst(r.value) && (limit >= 0 ==> |r.value| <= limit)
    ensures r.Success? ==> forall x <- r.value ::
              x.Note? && Lookup(s, Ref(Notes, x.id)) == Some(x) && AskedFor(s, workspaceId, cursor, role, x)
    ensures r.Success? ==> forall q <- s :: AskedFor(s, workspaceId, cursor, role, s[q]) && s[q] !in r.value ==>
              |r.value| == limit && NewestFirst(r.value + [s[q]])
  {
    if cursor.Some? {
      FullUuidTells(cursor.value);
    }
    var bad := BadCursor(s, workspaceId, cursor);
    if bad.Some? {
      return Failure(bad.value);
    }
    NotesAreDistinct(s, workspaceId, role);
    var list := ListInOrder(Eligible(s, workspaceId, cursor, role));
    r := Success(Limited(list, limit));
    PageTells(s, workspaceId, cursor, role, list, limit);
  }

  lemma PageTells(s: Rows, workspaceId: string, cursor: Option<string>, role: Option<string>, list: seq<Row>,
                  limit: int)
    requires Keyed(s) && BadCursor(s, workspaceId, cursor).None?
    requires InOrder(list) && Members(list) == Eligible(s, workspaceId, cursor, role)
    ensures NewestFirst(Limited(list, limit))
    ensures forall x <- Limited(list, limit) ::
              x.Note? && Lookup(s, Ref(Notes, x.id)) == Some(x) && AskedFor(s, workspaceId, cursor, role, x)
    ensures forall q <- s :: AskedFor(s, workspaceId, cursor, role, s[q]) && s[q] !in Limited(list, limit) ==>
              |Limited(list, limit)| == limit && NewestFirst(Limited(list, limit) + [s[q]])
  {
    OrderMeansNewestFirst(list);
    forall x | x in Limited(list, limit)
      ensures x.Note? && Lookup(s, Ref(Notes, x.id)) == Some(x) && AskedFor(s, workspaceId, cursor, role, x)
    {
      PageMembers(s, workspaceId, cursor, role, list, limit, x);
    }
    forall q | q in s && AskedFor(s, workspaceId, cursor, role, s[q]) && s[q] !in Limited(list, limit)
      ensures |Limited(list, limit)| == limit && NewestFirst(Limited(list, limit) + [s[q]])
    {
      EligibleIsAskedFor(s, workspaceId, cursor, role, q);
      LeftOutComesLater(list, limit, s[q]);
    }
  }

  // All pages

  lemma AllAreListed(s: Rows, workspaceId: string, role: Option<string>, all: seq<Row>)
    requires Keyed(s) && InOrder(all) && Members(all) == VisibleNotes(s, workspaceId, role)
    ensures NewestFirst(all)
    ensures forall x :: x in all <==>
              x.Note? && Lookup(s, Ref(Notes, x.id)) == Some(x) && AskedFor(s, workspaceId, None, role, x)
  {
    OrderMeansNewestFirst(all);
    forall x
      ensures x in all <==>
              x.Note? && Lookup(s, Ref(Notes, x.id)) == Some(x) && AskedFor(s, workspaceId, None, role, x)
    {
      assert x in all <==> x in Members(all);
      if x in all {
        PageMembers(s, workspaceId, None, role, all, |all|, x);
      } else if x.Note? && Lookup(s, Ref(Notes, x.id)) == Some(x) {
        EligibleIsAskedFor(s, workspaceId, None, role, Ref(Notes, x.id));
      }
    }
  }

  /** After the note at a position come exactly the later ones. */
  lemma RestAfterCursor(s: Rows, workspaceId: string, role: Option<string>, all: seq<Row>, k: nat)
    requires Keyed(s) && InOrder(all) && Members(all) == VisibleNotes(s, workspaceId, role) && k < |all|
    ensures CursorNote(s, workspaceId, all[k].id) == Some(all[k])
    ensures InOrder(all[k + 1..]) && Members(all[k + 1..]) == Eligible(s, workspaceId, Some(all[k].id), role)
  {
    assert all[k] in Members(all);
    var p :| p in s && s[p] == all[k];
    assert s[p].PrimaryKey() == p;
    var rest := all[k + 1..];
    assert forall i | 0 <= i < |rest| :: rest[i] == all[k + 1 + i];
    forall x
      ensures x in Members(rest) <==> x in Members(all) && x.Note? && RecentBefore(all[k], x)
    {
      if x in Members(all) && x.Note? && RecentBefore(all[k], x) {
        var i :| 0 <= i < |all| && all[i] == x;
        BeforeIsIrreflexive(x);
        if i < k {
          BeforeIsTransitive(x, all[k], x);
        }
        assert rest[i - k - 1] == x;
      }
    }
  }

  /** The cursor a client holds after the first `k` notes. */
  function CursorAfter(all: seq<Row>, k: nat): Option<string>
    requires k <= |all| && forall x <- all :: x.Note?
  {
    if k == 0 then None else Some(all[k - 1].id)
  }

  /** What the store says to the cursor after the first `k` notes. */
  lemma EligibleRest(s: Rows, workspaceId: string, role: Option<string>, all: seq<Row>, k: nat)
    requires Keyed(s) && InOrder(all) && Members(all) == VisibleNotes(s, workspaceId, role) && k <= |all|
    ensures BadCursor(s, workspaceId, CursorAfter(all, k)) ==
            if k > 0 && !IsFullUuid(all[k - 1].id) then Some(Validation) else None
    ensures InOrder(all[k..]) && Members(all[k..]) == Eligible(s, workspaceId, CursorAfter(all, k), role)
  {
    if k == 0 {
      assert all[0..] == all;
    } else {
      RestAfterCursor(s, workspaceId, role, all, k - 1);
    }
  }

  /** Where the page after the first `k` notes ends. */
  function PageEnd(all: seq<Row>, k: nat, limit: int): nat
    requires k <= |all| && limit >= 1
  {
    if k + limit <= |all| then k + limit else |all|
  }

  /** Every page is the next stretch of the whole list. */
  lemma NextPage(all: seq<Row>, k: nat, list: seq<Row>, page: seq<Row>, limit: int)
    requires InOrder(all) && k <= |all| && limit >= 1 && InOrder(list) && InOrder(all[k..])
    requires Members(list) == Members(all[k..]) && page == Limited(list, limit)
    ensures k + |page| == PageEnd(all, k, limit) && all[..k] + page == all[..k + |page|]
    ensures page != [] ==> page[|page| - 1] == all[k + |page| - 1]
  {
    OneOrder(list, all[k..]);
  }

  /** From the first `k` notes on, the last id of every page can serve as a cursor. */
  ghost predicate Turns(all: seq<Row>, k: nat, limit: int)
    requires k <= |all| && limit >= 1 && forall x <- all :: x.Note?
    decreases |all| - k
  {
    && (k > 0 ==> IsFullUuid(all[k - 1].id))
    && (k < |all| ==> Turns(all, PageEnd(all, k, limit), limit))
  }

  /** One page of the whole list, or the refusal of the cursor before it. */
  method PageAfter(s: Rows, workspaceId: string, limit: int, role: Option<string>, cursor: Option<string>,
                   ghost all: seq<Row>, ghost k: nat)
    returns (page: Result<seq<Row>, NoteError>)
    requires Keyed(s) && InOrder(all) && Members(all) == VisibleNotes(s, workspaceId, role) && k <= |all| && limit >= 1
    requires cursor == CursorAfter(all, k)
    ensures page.Failure? <==> k > 0 && !IsFullUuid(all[k - 1].id)
    ensures page.Failure? ==> page.error == Validation
    ensures page.Success? ==>
              && k + |page.value| == PageEnd(all, k, limit) && all[..k] + page.value == all[..k + |page.value|]
              && (page.value != [] ==> page.value[|page.value| - 1] == all[k + |page.value| - 1])
  {
    EligibleRest(s, workspaceId, role, all, k);
    page := ListRecentNotes(s, workspaceId, limit, cursor, role);
    if page.Success? {
      ghost var list :| InOrder(list) && Members(list) == Eligible(s, workspaceId, cursor, role) &&
          page.value == Limited(list, limit);
      NextPage(all, k, list, page.value, limit);
    }
  }

  /** Follows the cursors from the first page until a page comes back empty: all
      visible notes once, newest first, exactly if the last id of every page is a
      full one; otherwise the page after it is refused. */
  method FollowCursors(s: Rows, workspaceId: string, limit: int, role: Option<string>)
    returns (r: Result<seq<Row>, NoteError>)
    requires Keyed(s) && limit >= 1
    ensures r.Success? ==>
              InOrder(r.value) && Members(r.value) == VisibleNotes(s, workspaceId, role) && Turns(r.value, 0, limit)
    ensures r.Success? ==> NewestFirst(r.value)
    ensures r.Success? ==> forall x :: x in r.value <==>
              x.Note? && Lookup(s, Ref(Notes, x.id)) == Some(x) && AskedFor(s, workspaceId, None, role, x)
    ensures r.Failure? ==>
              && r.error == Validation
              && exists all ::
                   InOrder(all) && Members(all) == VisibleNotes(s, workspaceId, role) && !Turns(all, 0, limit)
  {
    NotesAreDistinct(s, workspaceId, role);
    ghost var all := ListInOrder(VisibleNotes(s, workspaceId, role));
    var notes: seq<Row> := [];
    var cursor: Option<string> := None;
    while true
      invariant |notes| <= |all| && notes == all[..|notes|] && cursor == CursorAfter(all, |notes|)
      invariant Turns(all, 0, limit) == Turns(all, |notes|, limit)
      decreases |all| - |notes|
    {
      var page := PageAfter(s, workspaceId, limit, role, cursor, all, |notes|);
      if page.Failure? {
        return Failure(page.error);
      }
      if page.value == [] {
        break;
      }
      notes := notes + page.value;
      cursor := Some(page.value[|page.value| - 1].id);
    }
    assert notes == all;
    AllAreListed(s, workspaceId, role, all);
    r := Success(notes);
  }

  /** In a store whose ids all have 32 digits every cursor is accepted. */
  lemma {:induction false} FullIdsTurn(s: Rows, journal: seq<Change>, issued: set<string>, workspaceId: string,
                                       role: Option<string>, all: seq<Row>, k: nat, limit: int)
    requires Consistent(s, journal, issued, {}) && forall id <- issued :: |id| == 32
    requires InOrder(all) && Members(all) == VisibleNotes(s, workspaceId, role) && k <= |all| && limit >= 1
    ensures Turns(all, k, limit)
    decreases |all| - k
  {
    if k > 0 {
      assert all[k - 1] in Members(all);
      var p :| p in s && s[p] == all[k - 1];
      assert s[p].PrimaryKey() == p;
      HexIsAscii(all[k - 1].id);
    }
    if k < |all| {
      FullIdsTurn(s, journal, issued, workspaceId, role, all, PageEnd(all, k, limit), limit);
    }
  }
}
