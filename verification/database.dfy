/** The local database the note store works on: tables, the change log in
    recording order, and the ids handed out so far. */
module Database {
  import opened Base
  import opened Tables
  import opened Lifecycle
  import opened Payloads
  import opened ForeignKeys
  import opened Ledger

  datatype Defaults = Defaults(workspaceId: string, deviceId: string, deviceName: string, platform: string)

  const DEFAULTS := Defaults("00000000-0000-4000-8000-000000000300", "local-backend", "Local Backend", "backend")

  function WithoutDashes(s: string): string {
    if s == [] then [] else (if s[0] == '-' then [] else [s[0]]) + WithoutDashes(s[1..])
  }

  /** The device local changes of a workspace are recorded under. */
  function DefaultDeviceId(defaults: Defaults, workspaceId: string): string {
    if workspaceId == defaults.workspaceId then defaults.deviceId
    else
      var plain := WithoutDashes(workspaceId);
      defaults.deviceId + "-" + (if |plain| <= 8 then plain else plain[..8])
  }

  lemma {:induction false} WithoutDashesOf(s: string)
    requires '-' !in s
    ensures WithoutDashes(s) == s
  {
    if s != [] {
      assert s == [s[0]] + s[1..];
      WithoutDashesOf(s[1..]);
    }
  }

  /** Dashes go, the rest stays in order. */
  lemma {:induction false} DashesGo(a: string, b: string)
    ensures WithoutDashes(a + ("-" + b)) == WithoutDashes(a) + WithoutDashes(b)
  {
    if a == [] {
      assert a + ("-" + b) == "-" + b && ("-" + b)[1..] == b;
    } else {
      assert (a + ("-" + b))[1..] == a[1..] + ("-" + b);
      DashesGo(a[1..], b);
    }
  }

  /** The default workspace has the default device; any other one has a device named
      after the first eight characters of its id, dashes aside. */
  lemma DefaultDeviceTells(defaults: Defaults, a: string, rest: string)
    requires |a| == 8 && '-' !in a
    ensures DefaultDeviceId(defaults, defaults.workspaceId) == defaults.deviceId
    ensures a + "-" + rest != defaults.workspaceId ==>
              DefaultDeviceId(defaults, a + "-" + rest) == defaults.deviceId + "-" + a
    ensures a != defaults.workspaceId ==> DefaultDeviceId(defaults, a) == defaults.deviceId + "-" + a
  {
    DashesGo(a, rest);
    WithoutDashesOf(a);
    assert a + "-" + rest == a + ("-" + rest);
    assert (a + WithoutDashes(rest))[..8] == a;
  }

  /** The tables once the default device of a workspace is there. */
  function WithDevice(defaults: Defaults, s: Rows, workspaceId: string, now: int): Rows {
    var id := DefaultDeviceId(defaults, workspaceId);
    if Ref(Devices, id) in s then s
    else s[Ref(Devices, id) := Device(id, workspaceId, defaults.deviceName, defaults.platform, now, None, true, None)]
  }

  datatype SyncChangeInput = SyncChangeInput(
    workspaceId: string, entityType: EntityType, entityId: string, operation: Operation,
    baseRevisionId: Option<string>, newRevisionId: Option<string>, payload: Payload)
  {
    function Subject(): Entity {
      Entity(entityType, entityId)
    }

    function Recorded(defaults: Defaults, id: string, now: int): Change {
      Change(id, workspaceId, DefaultDeviceId(defaults, workspaceId), entityType, entityId, operation,
             baseRevisionId, newRevisionId, payload, now, Some(now), None)
    }

    predicate RemovesEntity() {
      (operation.Delete? || operation.Detach? || operation.Remove? || operation.Unlink?) && DeletableKind(entityType)
    }
  }

  /** What the input says is what the tables show. */
  ghost predicate Truthful(s: Rows, journal: seq<Change>, input: SyncChangeInput) {
    if input.RemovesEntity() then !Described(s, input.Subject())
    else
      && Described(s, input.Subject())
      && forall r <- s :: IsLogged(s[r]) && s[r].Subject() == input.Subject() ==> Matches(journal, input.payload, s[r])
  }

  /** Only notes and their revisions are recorded later than written. */
  ghost predicate NotesPending(pending: set<Entity>) {
    forall e <- pending :: e.kind.NoteEntity? || e.kind.NoteRevisionEntity?
  }

  class Database {
    var rows: Rows
    var journal: seq<Change>
    var issued: set<string>
    const defaults: Defaults
    /** The next id, given the ids made up before. Nothing is assumed but that it is
        new and hexadecimal: any supply of random ids without repetition is one. */
    const mint: set<string> -> string

    ghost predicate Minting()
      reads this
    {
      (forall id <- issued :: IsHex(id)) && forall taken :: mint(taken) !in taken && IsHex(mint(taken))
    }

    /** Tables and log fit together, entities being written aside. */
    ghost predicate Good(pending: set<Entity>)
      reads this
    {
      Minting() && Consistent(rows, journal, issued, pending) && NotesPending(pending)
    }

    constructor (workspaces: seq<Row>, defaults: Defaults, mint: set<string> -> string)
      requires forall row <- workspaces :: row.Workspace? && ':' !in row.id
      requires forall taken :: mint(taken) !in taken && IsHex(mint(taken))
      ensures Good({}) && journal == [] && issued == {} && this.defaults == defaults && this.mint == mint
      ensures forall r :: r in rows <==> exists row <- workspaces :: row.PrimaryKey() == r
    {
      var start: Rows := map r | r in (set row <- workspaces :: row.PrimaryKey()) :: First(workspaces, r);
      rows, journal, issued := start, [], {};
      this.defaults, this.mint := defaults, mint;
      new;
      FirstIsThere(workspaces);
      assert Consistent(start, [], {}, {});
    }

    method NewId() returns (id: string)
      requires Minting()
      modifies this`issued
      ensures id == mint(old(issued)) && id !in old(issued) && IsHex(id) && issued == old(issued) + {id} && Minting()
    {
      id := mint(issued);
      issued := issued + {id};
    }

    /** Makes sure the default device exists and appends one change. */
    method RecordSyncChange(input: SyncChangeInput, now: int) returns (id: string)
      requires Minting()
      modifies this
      ensures id == mint(old(issued)) && id !in old(issued) && issued == old(issued) + {id} && Minting()
      ensures rows == WithDevice(defaults, old(rows), input.workspaceId, now)
      ensures journal == old(journal) + [input.Recorded(defaults, id, now)]
      ensures journal[|old(journal)|] ==
              Change(id, input.workspaceId, DefaultDeviceId(defaults, input.workspaceId), input.entityType,
                     input.entityId, input.operation, input.baseRevisionId, input.newRevisionId, input.payload, now,
                     Some(now), None)
      ensures var device := Ref(Devices, DefaultDeviceId(defaults, input.workspaceId));
              && (forall r :: r != device || r in old(rows) ==> Lookup(rows, r) == Lookup(old(rows), r))
              && (device !in old(rows) ==>
                    Lookup(rows, device) == Some(Device(device.key, input.workspaceId, defaults.deviceName,
                                                        defaults.platform, now, None, true, None)))
    {
      var deviceId := DefaultDeviceId(defaults, input.workspaceId);
      if Ref(Devices, deviceId) !in rows {
        rows := rows[Ref(Devices, deviceId) :=
                       Device(deviceId, input.workspaceId, defaults.deviceName, defaults.platform, now, None, true,
                              None)];
      }
      id := NewId();
      journal := journal + [input.Recorded(defaults, id, now)];
    }

    /** Inserts a row, if every row it points at is there. */
    method Insert(row: Row) returns (ok: bool)
      modifies this`rows
      ensures ok <==> Resolved(old(rows), row)
      ensures rows == if ok then old(rows)[row.PrimaryKey() := row] else old(rows)
    {
      ok := Resolved(rows, row);
      if ok {
        rows := rows[row.PrimaryKey() := row];
      }
    }
  }

  function First(rows: seq<Row>, r: Ref): Row
    requires exists row <- rows :: row.PrimaryKey() == r
  {
    if rows[0].PrimaryKey() == r then rows[0] else First(rows[1..], r)
  }

  lemma {:induction false} FirstIsThere(rows: seq<Row>)
    ensures forall r | exists row <- rows :: row.PrimaryKey() == r ::
              First(rows, r) in rows && First(rows, r).PrimaryKey() == r
  {
    if rows != [] {
      FirstIsThere(rows[1..]);
      assert rows == [rows[0]] + rows[1..];
    }
  }

  lemma DeviceStep(defaults: Defaults, s: Rows, journal: seq<Change>, issued: set<string>, pending: set<Entity>,
                   workspaceId: string, now: int)
    requires Consistent(s, journal, issued, pending) && Ref(Workspaces, workspaceId) in s
    ensures Consistent(WithDevice(defaults, s, workspaceId, now), journal, issued, pending)
  {
    var id := DefaultDeviceId(defaults, workspaceId);
    if Ref(Devices, id) !in s {
      var row := Device(id, workspaceId, defaults.deviceName, defaults.platform, now, None, true, None);
      InsertStep(s, journal, issued, pending, row);
    }
  }

  lemma DeviceKeepsTruth(defaults: Defaults, s: Rows, journal: seq<Change>, input: SyncChangeInput, now: int, c: Change)
    requires Truthful(s, journal, input) && c.Subject() == input.Subject() && c.operation == input.operation
    requires c.payload == input.payload
    ensures Reports(WithDevice(defaults, s, input.workspaceId, now), journal + [c], c)
  {
    var t := WithDevice(defaults, s, input.workspaceId, now);
    assert forall r <- t :: IsLogged(t[r]) ==> r in s && t[r] == s[r];
    if input.RemovesEntity() {
      assert !Described(t, c.Subject());
    } else {
      var d :| d in s && IsLogged(s[d]) && s[d].Subject() == input.Subject();
      assert d in t && t[d] == s[d];
      forall r | r in t && IsLogged(t[r]) && t[r].Subject() == c.Subject()
        ensures Matches(journal + [c], c.payload, t[r])
      {
        MatchesLater(journal, c, c.payload, t[r]);
      }
    }
  }

  /** Recording a truthful change settles its entity. */
  lemma TruthfulStep(defaults: Defaults, s: Rows, journal: seq<Change>, issued: set<string>, pending: set<Entity>,
                     input: SyncChangeInput, id: string, now: int)
    requires Consistent(s, journal, issued, pending) && Ref(Workspaces, input.workspaceId) in s
    requires Truthful(s, journal, input) && id !in issued && IsHex(id)
    requires Speakable(journal, issued, input.Subject())
    ensures Consistent(WithDevice(defaults, s, input.workspaceId, now), journal + [input.Recorded(defaults, id, now)],
                       issued + {id}, pending - {input.Subject()})
  {
    var c := input.Recorded(defaults, id, now);
    DeviceStep(defaults, s, journal, issued, pending, input.workspaceId, now);
    IssueStep(WithDevice(defaults, s, input.workspaceId, now), journal, issued, pending, issued + {id});
    DeviceKeepsTruth(defaults, s, journal, input, now, c);
    RecordStep(WithDevice(defaults, s, input.workspaceId, now), journal, issued + {id}, pending, c);
  }

  lemma SmallerPending(s: Rows, journal: seq<Change>, issued: set<string>, pending: set<Entity>, more: set<Entity>)
    requires Consistent(s, journal, issued, pending) && pending <= more
    ensures Consistent(s, journal, issued, more)
  {
  }

  /** The same, when nothing else was pending for that entity. */
  lemma SettlingStep(defaults: Defaults, s: Rows, journal: seq<Change>, issued: set<string>, pending: set<Entity>,
                     input: SyncChangeInput, id: string, now: int)
    requires Consistent(s, journal, issued, pending + {input.Subject()}) && Ref(Workspaces, input.workspaceId) in s
    requires Truthful(s, journal, input) && id !in issued && IsHex(id)
    requires Speakable(journal, issued, input.Subject())
    ensures Consistent(WithDevice(defaults, s, input.workspaceId, now), journal + [input.Recorded(defaults, id, now)],
                       issued + {id}, pending)
  {
    TruthfulStep(defaults, s, journal, issued, pending + {input.Subject()}, input, id, now);
    SmallerPending(WithDevice(defaults, s, input.workspaceId, now), journal + [input.Recorded(defaults, id, now)],
                   issued + {id}, pending + {input.Subject()} - {input.Subject()}, pending);
  }
}
