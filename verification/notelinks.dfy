/** Links between notes: resolved by id prefix, inserted and replaced, each with
    its log entry. */
module NoteLinking {
  import opened Base
  import opened Tables
  import opened Payloads
  import opened ForeignKeys
  import opened Ledger
  import opened Database
  import opened Taxonomy
  import opened Growth
  import opened NoteTagging

  // Note references

  function Utf8Length(s: string): nat {
    if s == [] then 0
    else
      var n := s[0] as int;
      (if n < 0x80 then 1 else if n < 0x800 then 2 else if n < 0x10000 then 3 else 4) + Utf8Length(s[1..])
  }

  predicate IsHexDigit(c: char) {
    '0' <= c <= '9' || 'a' <= c <= 'f' || 'A' <= c <= 'F'
  }

  function Lower(c: char): char {
    if 'A' <= c <= 'Z' then (c as int + 32) as char else c
  }

  function InvalidReference(noteRef: string): Option<NoteError> {
    if Utf8Length(noteRef) < 4 then Some(NoteReferenceTooShort)
    else if !forall c <- noteRef :: IsHexDigit(c) then Some(InvalidNoteReference)
    else None
  }

  /** The id starts with the reference, whatever the case of its letters. */
  predicate StartsWith(id: string, noteRef: string) {
    |noteRef| <= |id| && forall i | 0 <= i < |noteRef| :: Lower(id[i]) == Lower(noteRef[i])
  }

  /** The same character, or a Latin letter in the other case. */
  predicate SameButCase(c: char, d: char) {
    || c == d
    || ('a' <= c <= 'z' && d as int == c as int - 32)
    || ('A' <= c <= 'Z' && d as int == c as int + 32)
  }

  lemma StartMeansPrefix(id: string, noteRef: string)
    ensures StartsWith(id, noteRef) <==>
            |noteRef| <= |id| && forall i | 0 <= i < |noteRef| :: SameButCase(id[i], noteRef[i])
  {
    if |noteRef| <= |id| {
      forall i | 0 <= i < |noteRef|
        ensures Lower(id[i]) == Lower(noteRef[i]) <==> SameButCase(id[i], noteRef[i])
      {
        var c, d := id[i], noteRef[i];
        assert Lower(c) as int == if 'A' <= c <= 'Z' then c as int + 32 else c as int;
        assert Lower(d) as int == if 'A' <= d <= 'Z' then d as int + 32 else d as int;
      }
    }
  }

  predicate Hexadecimal(s: string) {
    forall c <- s :: '0' <= c <= '9' || 'a' <= c <= 'f' || 'A' <= c <= 'F'
  }

  lemma {:induction false} HexIsAscii(s: string)
    requires Hexadecimal(s)
    ensures Utf8Length(s) == |s|
  {
    if s != [] {
      assert s == [s[0]] + s[1..] && s[0] in s;
      assert forall c <- s[1..] :: c in s;
      HexIsAscii(s[1..]);
    }
  }

  /** The length counts bytes: those of the parts together, and one to four for one
      character. */
  lemma {:induction false} BytesOf(a: string, b: string)
    ensures Utf8Length(a + b) == Utf8Length(a) + Utf8Length(b)
    ensures |a| == 1 ==> Utf8Length(a) == if a[0] as int < 0x80 then 1 else if a[0] as int < 0x800 then 2
                                          else if a[0] as int < 0x10000 then 3 else 4
  {
    if a == [] {
      assert a + b == b;
    } else {
      assert (a + b)[1..] == a[1..] + b;
      BytesOf(a[1..], b);
    }
  }

  /** A reference is at least four hexadecimal digits; what is too short is told before
      what has other characters. */
  lemma ReferenceErrors(noteRef: string)
    ensures InvalidReference(noteRef) == None <==> |noteRef| >= 4 && Hexadecimal(noteRef)
    ensures InvalidReference(noteRef) == Some(NoteReferenceTooShort) <==> Utf8Length(noteRef) < 4
    ensures InvalidReference(noteRef) in {None, Some(NoteReferenceTooShort), Some(InvalidNoteReference)}
  {
    assert Hexadecimal(noteRef) <==> forall c <- noteRef :: IsHexDigit(c);
    if Hexadecimal(noteRef) {
      HexIsAscii(noteRef);
    }
  }

  /** The visible notes of a workspace a reference may mean. */
  function Candidates(s: Rows, workspaceId: string, noteRef: string): set<Ref> {
    set r | r in s && s[r].Visible() && s[r].workspaceId == workspaceId && StartsWith(s[r].id, noteRef)
  }

  /** What references see of a row: the workspace and id of a visible note. */
  function Face(s: Rows, r: Ref): Option<(string, string)> {
    if r in s && s[r].Visible() then Some((s[r].workspaceId, s[r].id)) else None
  }

  ghost predicate SameFaces(s: Rows, t: Rows) {
    forall r {:trigger Face(t, r)} :: Face(t, r) == Face(s, r)
  }

  lemma SameFacesSameMeaning(s: Rows, t: Rows, workspaceId: string, noteRef: string)
    requires SameFaces(s, t)
    ensures Candidates(t, workspaceId, noteRef) == Candidates(s, workspaceId, noteRef)
  {
    forall r
      ensures r in Candidates(t, workspaceId, noteRef) <==> r in Candidates(s, workspaceId, noteRef)
    {
      assert Face(t, r) == Face(s, r);
    }
  }

  function Resolution(s: Rows, workspaceId: string, noteRef: string): Option<NoteError> {
    if InvalidReference(noteRef).Some? then InvalidReference(noteRef)
    else if |Candidates(s, workspaceId, noteRef)| == 0 then Some(RecordNotFound)
    else if |Candidates(s, workspaceId, noteRef)| > 1 then Some(AmbiguousNoteReference)
    else None
  }

  /** The reference may mean this note. */
  predicate MayMean(s: Rows, workspaceId: string, noteRef: string, r: Ref) {
    && r in s && s[r].Note? && s[r].archivedAt.None? && s[r].deletedAt.None? && s[r].workspaceId == workspaceId
    && |noteRef| <= |s[r].id| && forall i | 0 <= i < |noteRef| :: SameButCase(s[r].id[i], noteRef[i])
  }

  lemma CandidateMayBeMeant(s: Rows, workspaceId: string, noteRef: string, r: Ref)
    ensures r in Candidates(s, workspaceId, noteRef) <==> MayMean(s, workspaceId, noteRef, r)
  {
    if r in s && s[r].Note? {
      StartMeansPrefix(s[r].id, noteRef);
    }
  }

  /** A reference of at least four hexadecimal digits is resolved exactly if it may mean
      one note and no other; it is unknown if it may mean none, and otherwise ambiguous. */
  lemma ResolutionTells(s: Rows, workspaceId: string, noteRef: string)
    requires |noteRef| >= 4 && Hexadecimal(noteRef)
    ensures var resolution := Resolution(s, workspaceId, noteRef);
            && (resolution == Some(RecordNotFound) <==> forall r :: !MayMean(s, workspaceId, noteRef, r))
            && (resolution == None <==>
                exists r :: MayMean(s, workspaceId, noteRef, r) &&
                  forall q :: MayMean(s, workspaceId, noteRef, q) ==> q == r)
            && resolution in {None, Some(RecordNotFound), Some(AmbiguousNoteReference)}
  {
    var all := Candidates(s, workspaceId, noteRef);
    ReferenceErrors(noteRef);
    forall r
      ensures r in all <==> MayMean(s, workspaceId, noteRef, r)
    {
      CandidateMayBeMeant(s, workspaceId, noteRef, r);
    }
    SizeTells(all);
  }

  lemma SizeTells<T(!new)>(all: set<T>)
    ensures |all| == 0 <==> forall r :: r !in all
    ensures |all| == 1 <==> exists r :: r in all && forall q :: q in all ==> q == r
  {
    if r :| r in all {
      assert |all - {r}| == |all| - 1;
      if |all| == 1 {
        OnlyOne(all, r);
      } else {
        var q :| q in all - {r};
      }
      if x :| x in all && forall q :: q in all ==> q == x {
        assert all == {x};
      }
    }
  }

  /** The one visible note a reference means. */
  method GetNoteByRef(db: Database, workspaceId: string, noteRef: string) returns (r: Result<Row, NoteError>)
    requires Keyed(db.rows)
    ensures Resolution(db.rows, workspaceId, noteRef) == if r.Failure? then Some(r.error) else None
    ensures r.Success? ==>
              && r.value.Visible() && Lookup(db.rows, Ref(Notes, r.value.id)) == Some(r.value)
              && NoteIn(db.rows, workspaceId, r.value.id)
              && Candidates(db.rows, workspaceId, noteRef) == {Ref(Notes, r.value.id)}
  {
    var invalid := InvalidReference(noteRef);
    if invalid.Some? {
      return Failure(invalid.value);
    }
    var notes := Candidates(db.rows, workspaceId, noteRef);
    if |notes| == 0 {
      return Failure(RecordNotFound);
    }
    if |notes| > 1 {
      return Failure(AmbiguousNoteReference);
    }
    var x :| x in notes;
    OnlyOne(notes, x);
    assert db.rows[x].PrimaryKey() == x;
    r := Success(db.rows[x]);
  }

  lemma OnlyOne<T>(s: set<T>, x: T)
    requires |s| == 1 && x in s
    ensures s == {x}
  {
    assert |s - {x}| == 0;
    assert s == s - {x} + {x};
  }

  // Links

  datatype NoteLinkInput = NoteLinkInput(targetNoteRef: string, anchorText: Option<string>, position: Option<int>)

  function LinkInput(link: Row, operation: Operation): SyncChangeInput
    requires link.NoteLink?
  {
    SyncChangeInput(link.workspaceId, NoteLinkEntity, link.id, operation, None, None, NoteLinkPayload(link))
  }

  predicate IsLinkFrom(row: Row, workspaceId: string, noteId: string) {
    row.NoteLink? && row.workspaceId == workspaceId && row.sourceNoteId == noteId
  }

  function LinksFrom(s: Rows, workspaceId: string, noteId: string): set<Ref> {
    set r | r in s && IsLinkFrom(s[r], workspaceId, noteId)
  }

  /** Nothing but default devices and the links of one note differ. */
  ghost predicate OnlyLinking(s: Rows, t: Rows, workspaceId: string, noteId: string) {
    && (forall r <- s :: !IsLinkFrom(s[r], workspaceId, noteId) ==> Lookup(t, r) == Some(s[r]))
    && (forall r <- t :: Lookup(s, r) == Some(t[r]) || r.table.Devices? || IsLinkFrom(t[r], workspaceId, noteId))
  }

  lemma OnlyLinkingTwice(s: Rows, t: Rows, u: Rows, workspaceId: string, noteId: string)
    requires OnlyLinking(s, t, workspaceId, noteId) && OnlyLinking(t, u, workspaceId, noteId)
    ensures OnlyLinking(s, u, workspaceId, noteId)
  {
    forall r | r in u
      ensures Lookup(s, r) == Some(u[r]) || r.table.Devices? || IsLinkFrom(u[r], workspaceId, noteId)
    {
      if Lookup(t, r) == Some(u[r]) {
        assert Lookup(s, r) == Some(t[r]) || r.table.Devices? || IsLinkFrom(t[r], workspaceId, noteId);
      }
    }
  }

  /** Links do not change what references mean. */
  lemma LinkingKeepsNotes(s: Rows, t: Rows, workspaceId: string, noteId: string, noteRef: string)
    requires OnlyLinking(s, t, workspaceId, noteId) && Keyed(s) && Keyed(t)
    ensures Candidates(t, workspaceId, noteRef) == Candidates(s, workspaceId, noteRef)
    ensures Resolution(t, workspaceId, noteRef) == Resolution(s, workspaceId, noteRef)
    ensures forall id :: NoteIn(s, workspaceId, id) ==> NoteIn(t, workspaceId, id)
  {
    forall r | r in t && t[r].Visible()
      ensures r in s && s[r] == t[r]
    {
      assert t[r].PrimaryKey() == r;
      assert r in s ==> s[r].PrimaryKey() == r;
    }
  }

  lemma LinkInserted(defaults: Defaults, s: Rows, journal: seq<Change>, issued: set<string>, pending: set<Entity>,
                     link: Row, id: string, now: int)
    requires Consistent(s, journal, issued, pending) && link.NoteLink? && link.id !in issued && IsHex(link.id)
    requires NoteIn(s, link.workspaceId, link.sourceNoteId) && NoteIn(s, link.workspaceId, link.targetNoteId)
    requires id !in issued + {link.id} && IsHex(id)
    ensures Consistent(WithDevice(defaults, s[link.PrimaryKey() := link], link.workspaceId, now),
                       journal + [LinkInput(link, Attach).Recorded(defaults, id, now)], issued + {link.id} +
                           {id}, pending)
    ensures link.PrimaryKey() !in s
  {
    WorkspaceOfNote(s, link.workspaceId, link.sourceNoteId);
    IssueStep(s, journal, issued, pending, issued + {link.id});
    assert Resolved(s, link);
    FreshIsSpeakable(s, journal, issued, pending, link.Subject(), issued + {link.id});
    InsertedAndRecorded(defaults, s, journal, issued + {link.id}, pending, link, LinkInput(link, Attach), id, now);
  }

  lemma LinkAdded(defaults: Defaults, s: Rows, link: Row, now: int)
    requires link.NoteLink? && link.PrimaryKey() !in s
    ensures var t := WithDevice(defaults, s[link.PrimaryKey() := link], link.workspaceId, now);
            && LinksFrom(t, link.workspaceId, link.sourceNoteId) ==
               LinksFrom(s, link.workspaceId, link.sourceNoteId) + {link.PrimaryKey()}
            && OnlyLinking(s, t, link.workspaceId, link.sourceNoteId) && Kept(s, t)
            && Lookup(t, link.PrimaryKey()) == Some(link)
  {
    var t := WithDevice(defaults, s[link.PrimaryKey() := link], link.workspaceId, now);
    assert IsLinkFrom(t[link.PrimaryKey()], link.workspaceId, link.sourceNoteId);
  }

  /** The reference means a visible note other than this one. */
  predicate Linkable(s: Rows, workspaceId: string, noteId: string, noteRef: string) {
    Resolution(s, workspaceId, noteRef).None? && Candidates(s, workspaceId, noteRef) != {Ref(Notes, noteId)}
  }

  /** Inserts one link to the visible note its reference means, never to the note
      itself, and records it. */
  method InsertNoteLink(db: Database, workspaceId: string, noteId: string, link: NoteLinkInput, now: int,
                        ghost pending: set<Entity>)
    returns (r: Result<Row, NoteError>)
    requires db.Good(pending) && NoteIn(db.rows, workspaceId, noteId)
    modifies db
    ensures db.Good(pending) && old(db.issued) <= db.issued
    ensures r.Success? <==> Linkable(old(db.rows), workspaceId, noteId, link.targetNoteRef)
    ensures r.Failure? ==> db.rows == old(db.rows) && db.journal == old(db.journal)
    ensures r.Success? ==>
              && r.value.NoteLink? && r.value.PrimaryKey() !in old(db.rows) &&
                 Lookup(db.rows, r.value.PrimaryKey()) == Some(r.value)
              && r.value == NoteLink(r.value.id, workspaceId, noteId, r.value.targetNoteId, link.anchorText,
                                     link.position, now)
              && Candidates(old(db.rows), workspaceId, link.targetNoteRef) == {Ref(Notes, r.value.targetNoteId)}
              && LinksFrom(db.rows, workspaceId, noteId) ==
                 LinksFrom(old(db.rows), workspaceId, noteId) + {r.value.PrimaryKey()}
    ensures OnlyLinking(old(db.rows), db.rows, workspaceId, noteId)
    ensures Grown(old(db.rows), old(db.journal), db.rows, db.journal, workspaceId)
  {
    NotGrown(db.rows, db.journal, workspaceId);
    var target := GetNoteByRef(db, workspaceId, link.targetNoteRef);
    if target.Failure? {
      return Failure(target.error);
    }
    if target.value.id == noteId {
      return Failure(Validation);
    }
    ghost var s, journal, issued := db.rows, db.journal, db.issued;
    var id := db.NewId();
    var row := NoteLink(id, workspaceId, noteId, target.value.id, link.anchorText, link.position, now);
    db.rows := db.rows[row.PrimaryKey() := row];
    var changeId := db.RecordSyncChange(LinkInput(row, Attach), now);
    LinkInserted(db.defaults, s, journal, issued, pending, row, changeId, now);
    LinkAdded(db.defaults, s, row, now);
    OneRowGrown(db.defaults, s, journal, row, LinkInput(row, Attach), changeId, now);
    r := Success(row);
  }

  /** The links made for the first inputs. */
  ghost predicate AreLinksFor(s: Rows, workspaceId: string, noteId: string, inputs: seq<NoteLinkInput>,
                              links: seq<Row>, now: int)
  {
    && |links| <= |inputs|
    && forall i | 0 <= i < |links| ::
         && links[i].NoteLink?
         && links[i] == NoteLink(links[i].id, workspaceId, noteId, links[i].targetNoteId, inputs[i].anchorText,
                                 inputs[i].position, now)
         && links[i].targetNoteId != noteId
         && Candidates(s, workspaceId, inputs[i].targetNoteRef) == {Ref(Notes, links[i].targetNoteId)}
  }

  ghost function KeysOf(rows: seq<Row>): set<Ref> {
    set row <- rows :: row.PrimaryKey()
  }

  lemma OneMoreKey(rows: seq<Row>, row: Row)
    ensures KeysOf(rows + [row]) == KeysOf(rows) + {row.PrimaryKey()}
  {
    assert row in rows + [row];
  }

  lemma OneMoreLink(s: Rows, workspaceId: string, noteId: string, inputs: seq<NoteLinkInput>, links: seq<Row>,
                    link: Row, now: int)
    requires |links| < |inputs| && AreLinksFor(s, workspaceId, noteId, inputs, links, now)
    requires link.NoteLink? && link.targetNoteId != noteId
    requires var input := inputs[|links|];
             && link == NoteLink(link.id, workspaceId, noteId, link.targetNoteId, input.anchorText, input.position, now)
             && Candidates(s, workspaceId, input.targetNoteRef) == {Ref(Notes, link.targetNoteId)}
    ensures AreLinksFor(s, workspaceId, noteId, inputs, links + [link], now)
  {
  }

  lemma LinkableStays(s: Rows, t: Rows, workspaceId: string, noteId: string, noteRef: string)
    requires OnlyLinking(s, t, workspaceId, noteId) && Keyed(s) && Keyed(t)
    ensures Linkable(t, workspaceId, noteId, noteRef) == Linkable(s, workspaceId, noteId, noteRef)
    ensures Candidates(t, workspaceId, noteRef) == Candidates(s, workspaceId, noteRef)
    ensures NoteIn(s, workspaceId, noteId) ==> NoteIn(t, workspaceId, noteId)
  {
    LinkingKeepsNotes(s, t, workspaceId, noteId, noteRef);
  }

  /** The first references all mean other visible notes. */
  ghost predicate AllLinkable(s: Rows, workspaceId: string, noteId: string, inputs: seq<NoteLinkInput>, n: nat) {
    n <= |inputs| && forall j | 0 <= j < n :: Linkable(s, workspaceId, noteId, inputs[j].targetNoteRef)
  }

  lemma SameFacesLinkable(s: Rows, t: Rows, workspaceId: string, noteId: string, inputs: seq<NoteLinkInput>)
    requires SameFaces(s, t)
    ensures AllLinkable(t, workspaceId, noteId, inputs, |inputs|) ==
            AllLinkable(s, workspaceId, noteId, inputs, |inputs|)
  {
    forall i | 0 <= i < |inputs|
      ensures Linkable(t, workspaceId, noteId, inputs[i].targetNoteRef) ==
              Linkable(s, workspaceId, noteId, inputs[i].targetNoteRef)
    {
      SameFacesSameMeaning(s, t, workspaceId, inputs[i].targetNoteRef);
    }
  }

  lemma OneMoreLinkable(s: Rows, workspaceId: string, noteId: string, inputs: seq<NoteLinkInput>, n: nat)
    requires n < |inputs| && AllLinkable(s, workspaceId, noteId, inputs, n)
    requires Linkable(s, workspaceId, noteId, inputs[n].targetNoteRef)
    ensures AllLinkable(s, workspaceId, noteId, inputs, n + 1)
  {
  }

  /** From `s` to `t` exactly these links of the note were added. */
  ghost predicate LinksAdded(s: Rows, journal: seq<Change>, t: Rows, later: seq<Change>, workspaceId: string,
                             noteId: string, links: seq<Row>)
  {
    && LinksFrom(t, workspaceId, noteId) == LinksFrom(s, workspaceId, noteId) + KeysOf(links)
    && (forall link <- links :: Lookup(t, link.PrimaryKey()) == Some(link))
    && OnlyLinking(s, t, workspaceId, noteId) && Grown(s, journal, t, later, workspaceId)
  }

  lemma OneMoreAdded(s: Rows, a: seq<Change>, t: Rows, b: seq<Change>, u: Rows, c: seq<Change>, workspaceId: string,
                     noteId: string, links: seq<Row>, link: Row)
    requires LinksAdded(s, a, t, b, workspaceId, noteId, links)
    requires LinksFrom(u, workspaceId, noteId) == LinksFrom(t, workspaceId, noteId) + {link.PrimaryKey()}
    requires Lookup(u, link.PrimaryKey()) == Some(link) && OnlyLinking(t, u, workspaceId, noteId) &&
             Grown(t, b, u, c, workspaceId)
    ensures LinksAdded(s, a, u, c, workspaceId, noteId, links + [link])
  {
    OnlyLinkingTwice(s, t, u, workspaceId, noteId);
    GrownTwice(s, a, t, b, u, c, workspaceId);
    OneMoreKey(links, link);
    forall l | l in links + [link]
      ensures Lookup(u, l.PrimaryKey()) == Some(l)
    {
      if l in links {
        assert Lookup(t, l.PrimaryKey()) == Some(l);
      }
    }
  }

  /** Inserts all links, or fails at the first reference that means no other
      visible note. */
  method InsertNoteLinks(db: Database, workspaceId: string, noteId: string, inputs: seq<NoteLinkInput>, now: int,
                         ghost pending: set<Entity>)
    returns (r: Result<seq<Row>, NoteError>)
    requires db.Good(pending) && NoteIn(db.rows, workspaceId, noteId)
    modifies db
    ensures db.Good(pending) && old(db.issued) <= db.issued && old(db.journal) <= db.journal
    ensures r.Success? <==> AllLinkable(old(db.rows), workspaceId, noteId, inputs, |inputs|)
    ensures r.Success? ==>
              && |r.value| == |inputs| && AreLinksFor(old(db.rows), workspaceId, noteId, inputs, r.value, now)
              && LinksAdded(old(db.rows), old(db.journal), db.rows, db.journal, workspaceId, noteId, r.value)
  {
    var links: seq<Row> := [];
    ghost var s, journal := db.rows, db.journal;
    NotGrown(s, journal, workspaceId);
    for i := 0 to |inputs|
      invariant db.Good(pending) && old(db.issued) <= db.issued
      invariant |links| == i && AreLinksFor(s, workspaceId, noteId, inputs, links, now)
      invariant AllLinkable(s, workspaceId, noteId, inputs, i)
      invariant LinksAdded(s, journal, db.rows, db.journal, workspaceId, noteId, links)
    {
      ghost var t, later := db.rows, db.journal;
      LinkableStays(s, t, workspaceId, noteId, inputs[i].targetNoteRef);
      var link := InsertNoteLink(db, workspaceId, noteId, inputs[i], now, pending);
      if link.Failure? {
        return Failure(link.error);
      }
      OneMoreLinkable(s, workspaceId, noteId, inputs, i);
      OneMoreAdded(s, journal, t, later, db.rows, db.journal, workspaceId, noteId, links, link.value);
      OneMoreLink(s, workspaceId, noteId, inputs, links, link.value, now);
      links := links + [link.value];
    }
    r := Success(links);
  }

  // Replacing

  lemma LinkRemoved(defaults: Defaults, s: Rows, journal: seq<Change>, issued: set<string>, pending: set<Entity>,
                    ref: Ref, id: string, now: int)
    requires Consistent(s, journal, issued, pending) && ref in s && s[ref].NoteLink? && id !in issued && IsHex(id)
    requires NotesPending(pending)
    ensures Consistent(WithDevice(defaults, s - {ref}, s[ref].workspaceId, now),
                       journal + [LinkInput(s[ref], Detach).Recorded(defaults, id, now)], issued + {id}, pending)
  {
    var link, input := s[ref], LinkInput(s[ref], Detach);
    assert link.PrimaryKey() == ref && ref.key in issued;
    assert Resolved(s, link) && Ref(Workspaces, link.workspaceId) in Targets(link);
    SettledIsSpeakable(s, journal, issued, pending, ref);
    RemoveStep(s, journal, issued, pending, ref);
    SettlingStep(defaults, s - {ref}, journal, issued, pending, input, id, now);
  }

  lemma LinkDropped(defaults: Defaults, s: Rows, ref: Ref, workspaceId: string, noteId: string, now: int)
    requires Keyed(s) && ref in LinksFrom(s, workspaceId, noteId)
    ensures var t := WithDevice(defaults, s - {ref}, workspaceId, now);
            LinksFrom(t, workspaceId, noteId) == LinksFrom(s, workspaceId, noteId) - {ref} &&
                OnlyLinking(s, t, workspaceId, noteId)
  {
    var t := WithDevice(defaults, s - {ref}, workspaceId, now);
    assert s[ref].PrimaryKey() == ref;
  }

  method RemoveLink(db: Database, workspaceId: string, noteId: string, ref: Ref, now: int, ghost pending: set<Entity>)
    requires db.Good(pending) && ref in LinksFrom(db.rows, workspaceId, noteId)
    modifies db
    ensures db.Good(pending) && old(db.issued) <= db.issued && old(db.journal) <= db.journal
    ensures LinksFrom(db.rows, workspaceId, noteId) == LinksFrom(old(db.rows), workspaceId, noteId) - {ref}
    ensures OnlyLinking(old(db.rows), db.rows, workspaceId, noteId)
  {
    ghost var s, journal, issued := db.rows, db.journal, db.issued;
    var link := db.rows[ref];
    db.rows := db.rows - {ref};
    var id := db.RecordSyncChange(LinkInput(link, Detach), now);
    LinkRemoved(db.defaults, s, journal, issued, pending, ref, id, now);
    LinkDropped(db.defaults, s, ref, workspaceId, noteId, now);
  }

  method RemoveLinks(db: Database, workspaceId: string, noteId: string, now: int, ghost pending: set<Entity>)
    requires db.Good(pending)
    modifies db
    ensures db.Good(pending) && old(db.issued) <= db.issued && old(db.journal) <= db.journal
    ensures LinksFrom(db.rows, workspaceId, noteId) == {} && OnlyLinking(old(db.rows), db.rows, workspaceId, noteId)
  {
    ghost var s := db.rows;
    var rest := LinksFrom(db.rows, workspaceId, noteId);
    while rest != {}
      invariant db.Good(pending) && old(db.issued) <= db.issued && old(db.journal) <= db.journal
      invariant LinksFrom(db.rows, workspaceId, noteId) == rest && OnlyLinking(s, db.rows, workspaceId, noteId)
      decreases rest
    {
      var ref :| ref in rest;
      rest := rest - {ref};
      ghost var t := db.rows;
      RemoveLink(db, workspaceId, noteId, ref, now, pending);
      OnlyLinkingTwice(s, t, db.rows, workspaceId, noteId);
    }
  }

  lemma AllLinkableStays(s: Rows, t: Rows, workspaceId: string, noteId: string, inputs: seq<NoteLinkInput>,
                         links: seq<Row>, now: int)
    requires OnlyLinking(s, t, workspaceId, noteId) && Keyed(s) && Keyed(t)
    ensures AllLinkable(t, workspaceId, noteId, inputs, |inputs|) ==
            AllLinkable(s, workspaceId, noteId, inputs, |inputs|)
    ensures AreLinksFor(t, workspaceId, noteId, inputs, links, now) ==
            AreLinksFor(s, workspaceId, noteId, inputs, links, now)
  {
    forall i | 0 <= i < |inputs|
      ensures Linkable(t, workspaceId, noteId, inputs[i].targetNoteRef) ==
              Linkable(s, workspaceId, noteId, inputs[i].targetNoteRef)
      ensures Candidates(t, workspaceId, inputs[i].targetNoteRef) == Candidates(s, workspaceId, inputs[i].targetNoteRef)
    {
      LinkableStays(s, t, workspaceId, noteId, inputs[i].targetNoteRef);
    }
  }

  /** Makes the outgoing links of a note exactly the given ones. */
  method ReplaceNoteLinks(db: Database, workspaceId: string, noteId: string, inputs: seq<NoteLinkInput>, now: int,
                          ghost pending: set<Entity>)
    returns (r: Result<seq<Row>, NoteError>)
    requires db.Good(pending) && NoteIn(db.rows, workspaceId, noteId)
    modifies db
    ensures db.Good(pending) && old(db.issued) <= db.issued && old(db.journal) <= db.journal
    ensures r.Success? <==> AllLinkable(old(db.rows), workspaceId, noteId, inputs, |inputs|)
    ensures r.Success? ==>
              && |r.value| == |inputs| && AreLinksFor(old(db.rows), workspaceId, noteId, inputs, r.value, now)
              && LinksFrom(db.rows, workspaceId, noteId) == KeysOf(r.value)
              && (forall link <- r.value :: Lookup(db.rows, link.PrimaryKey()) == Some(link))
              && OnlyLinking(old(db.rows), db.rows, workspaceId, noteId)
  {
    ghost var s := db.rows;
    RemoveLinks(db, workspaceId, noteId, now, pending);
    ghost var t := db.rows;
    LinkableStays(s, t, workspaceId, noteId, "");
    r := InsertNoteLinks(db, workspaceId, noteId, inputs, now, pending);
    AllLinkableStays(s, t, workspaceId, noteId, inputs, if r.Success? then r.value else [], now);
    if r.Success? {
      OnlyLinkingTwice(s, t, db.rows, workspaceId, noteId);
    }
  }
}
