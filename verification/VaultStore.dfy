/**
 The multi-tenant vault tables of internal/vault/vault.go. Every statement is scoped by owner; ids of
 new rows, clock readings and encryption nonces are inputs.
 */
module VaultStore {
  import opened Text

  datatype VaultRow = VaultRow(owner: string, name: string, description: string, created: int, updated: int)
  datatype EntryRow = EntryRow(
    vault: string, path: string, kind: string, value: string, metadata: map<string, string>, tags: seq<string>,
    totp: Option<string>, created: int, updated: int)

  datatype Db = Db(vaults: map<string, VaultRow>, entries: map<string, EntryRow>)

  /** The application's encryption box: opening undoes sealing, whatever the nonce. */
  datatype Box = Box(seal: (string, int) -> string, open: string -> Option<string>)

  ghost predicate Lawful(box: Box) {
    forall v, n :: box.open(box.seal(v, n)) == Some(v)
  }

  predicate SameSlot(a: EntryRow, b: EntryRow) {
    a.vault == b.vault && a.path == b.path
  }

  /** FOREIGN KEY (vault_id) and UNIQUE (vault_id, path). */
  ghost predicate Valid(db: Db) {
    && (forall e :: e in db.entries ==> db.entries[e].vault in db.vaults)
    && (forall e, f :: e in db.entries && f in db.entries && SameSlot(db.entries[e], db.entries[f]) ==> e == f)
  }

  // ---- one owner's view -----------------------------------------------------------------------

  predicate OwnsVault(db: Db, owner: string, id: string) {
    id in db.vaults && db.vaults[id].owner == owner
  }

  predicate OwnsEntry(db: Db, owner: string, id: string) {
    id in db.entries && OwnsVault(db, owner, db.entries[id].vault)
  }

  function VaultsOf(db: Db, owner: string): map<string, VaultRow> {
    map v | v in db.vaults && db.vaults[v].owner == owner :: db.vaults[v]
  }

  function EntriesOf(db: Db, owner: string): map<string, EntryRow> {
    map e | e in db.entries && OwnsVault(db, owner, db.entries[e].vault) :: db.entries[e]
  }

  /** The rows of one owner, as a database of its own. */
  function Owned(db: Db, owner: string): Db {
    Db(VaultsOf(db, owner), EntriesOf(db, owner))
  }

  // ---- the oldest vault -----------------------------------------------------------------------

  /** ORDER BY created_at ASC; equal stamps are ordered by id here, which PostgreSQL leaves open. */
  predicate Older(vaults: map<string, VaultRow>, a: string, b: string)
    requires a in vaults && b in vaults
  {
    vaults[a].created < vaults[b].created || (vaults[a].created == vaults[b].created && (a == b || Less(a, b)))
  }

  predicate IsOldest(vaults: map<string, VaultRow>, id: string) {
    id in vaults && forall other :: other in vaults ==> Older(vaults, id, other)
  }

  lemma OlderIsTotalOrder(vaults: map<string, VaultRow>, a: string, b: string, c: string)
    requires a in vaults && b in vaults && c in vaults
    ensures Older(vaults, a, b) || Older(vaults, b, a)
    ensures Older(vaults, a, b) && Older(vaults, b, c) ==> Older(vaults, a, c)
  {
    LessTotal(a, b);
    if Less(a, b) && Less(b, c) { LessTransitive(a, b, c); }
  }

  lemma OldestExists(vaults: map<string, VaultRow>, among: set<string>) returns (id: string)
    requires among != {} && forall v :: v in among ==> v in vaults
    ensures id in among && forall other :: other in among ==> Older(vaults, id, other)
    decreases |among|
  {
    var v :| v in among;
    if among == {v} {
      id := v;
    } else {
      var rest := OldestExists(vaults, among - {v});
      OlderIsTotalOrder(vaults, v, rest, rest);
      id := if Older(vaults, v, rest) then v else rest;
      forall other | other in among ensures Older(vaults, id, other) {
        if other != v { assert Older(vaults, rest, other); }
        OlderIsTotalOrder(vaults, id, rest, other);
      }
    }
  }

  lemma OldestUnique(vaults: map<string, VaultRow>)
    ensures forall a, b :: IsOldest(vaults, a) && IsOldest(vaults, b) ==> a == b
  {
    forall a, b | IsOldest(vaults, a) && IsOldest(vaults, b) ensures a == b {
      LessTotal(a, b);
    }
  }

  function Oldest(vaults: map<string, VaultRow>): (id: string)
    requires vaults != map[]
    ensures IsOldest(vaults, id)
  {
    assert exists id :: IsOldest(vaults, id) by {
      var id := OldestExists(vaults, vaults.Keys);
      assert IsOldest(vaults, id);
    }
    OldestUnique(vaults);
    var id :| IsOldest(vaults, id);
    id
  }

  // ---- operations -----------------------------------------------------------------------------

  datatype Error = NameRequired | PathRequired | NotFound | Forbidden | Duplicate | Undecryptable

  datatype EntryInput = EntryInput(
    vaultId: string, path: string, kind: string, value: string, metadata: map<string, string>, tags: seq<string>)

  /** What a listing shows of an entry: never the value. */
  datatype EntryView = EntryView(
    vault: string, path: string, kind: string, metadata: map<string, string>, tags: seq<string>, hasTotp: bool,
    created: int, updated: int)

  function View(e: EntryRow): EntryView {
    EntryView(e.vault, e.path, e.kind, e.metadata, e.tags, e.totp.Some? && e.totp.value != "", e.created, e.updated)
  }

  datatype Op =
    | CreateVault(name: string, description: string, id: string, now: int)
    | UpdateVault(vaultId: string, name: string, description: string, now: int)
    | DeleteVault(vaultId: string)
    | ListVaults(scope: seq<string>)
    | GetVault(vaultId: string)
    | CreateEntry(input: EntryInput, id: string, spareVaultId: string, nonce: int, now: int)
    | UpdateEntry(entryId: string, input: EntryInput, nonce: int, now: int)
    | DeleteEntry(entryId: string)
    | ListEntries(inVault: string, scope: seq<string>)
    | GetEntry(entryId: string)
    | RevealEntry(entryId: string)

  datatype Result =
    | Done
    | OneVault(id: string, vault: VaultRow)
    | OneEntry(entryId: string, entry: EntryView)
    | Vaults(vaults: map<string, VaultRow>)
    | Entries(entries: map<string, EntryView>)
    | Value(value: string)
    | Failed(error: Error)

  datatype Outcome = Outcome(db: Db, result: Result)

  predicate PathTaken(db: Db, vault: string, path: string, except: string) {
    exists e :: e in db.entries && e != except && db.entries[e].vault == vault && db.entries[e].path == path
  }

  function Kind(input: EntryInput): string {
    if Trim(input.kind) == "" then "login" else Trim(input.kind)
  }

  // The four statements that change a table.
  function PutVault(db: Db, id: string, row: VaultRow): Db {
    Db(db.vaults[id := row], db.entries)
  }

  /** ON DELETE CASCADE takes the vault's entries along. */
  function DropVault(db: Db, id: string): Db {
    Db(db.vaults - {id}, map e | e in db.entries && db.entries[e].vault != id :: db.entries[e])
  }

  function PutEntry(db: Db, id: string, row: EntryRow): Db {
    Db(db.vaults, db.entries[id := row])
  }

  function DropEntry(db: Db, id: string): Db {
    Db(db.vaults, db.entries - {id})
  }

  function InsertVault(db: Db, owner: string, id: string, name: string, description: string, now: int): Db {
    PutVault(db, id, VaultRow(owner, name, description, now, now))
  }

  /** The vault a new entry goes to; without one, the owner's oldest, or a new "Principal". */
  function Destination(db: Db, owner: string, op: Op): (r: (Db, Option<string>))
    requires op.CreateEntry?
  {
    var wanted := Trim(op.input.vaultId);
    if wanted != "" then (db, if OwnsVault(db, owner, wanted) then Some(wanted) else None)
    else if VaultsOf(db, owner) != map[] then (db, Some(Oldest(VaultsOf(db, owner))))
    else (InsertVault(db, owner, op.spareVaultId, "Principal", "Cofre principal", op.now), Some(op.spareVaultId))
  }

  function InsertEntry(box: Box, db: Db, vault: string, op: Op): Outcome
    requires op.CreateEntry?
  {
    var path := Trim(op.input.path);
    var row := EntryRow(vault, path, Kind(op.input), box.seal(op.input.value, op.nonce), op.input.metadata,
                        op.input.tags,
                        None, op.now, op.now);
    if PathTaken(db, vault, path, op.id) then Outcome(db, Failed(Duplicate))
    else Outcome(PutEntry(db, op.id, row), OneEntry(op.id, View(row)))
  }

  function Rewritten(box: Box, row: EntryRow, op: Op): EntryRow
    requires op.UpdateEntry?
  {
    row.(path := Trim(op.input.path), kind := Kind(op.input), metadata := op.input.metadata, tags := op.input.tags,
         value := if Trim(op.input.value) != "" then box.seal(op.input.value, op.nonce)
                  else row.value, updated := op.now)
  }

  function Listed(db: Db, owner: string, inVault: string, scope: seq<string>): map<string, EntryView> {
    map e | e in db.entries && OwnsVault(db, owner, db.entries[e].vault)
            && (if Trim(inVault) != "" then db.entries[e].vault == inVault
                else scope == [] || db.entries[e].vault in scope)
          :: View(db.entries[e])
  }

  /** One call of the service on behalf of `owner`. */
  function Step(box: Box, db: Db, owner: string, op: Op): Outcome {
    match op
    case CreateVault(name, description, id, now) =>
      if Trim(name) == "" then Outcome(db, Failed(NameRequired))
      else
        var db' := InsertVault(db, owner, id, Trim(name), Trim(description), now);
        Outcome(db', OneVault(id, db'.vaults[id]))
    case UpdateVault(id, name, description, now) =>
      if Trim(name) == "" then Outcome(db, Failed(NameRequired))
      else if !OwnsVault(db, owner, id) then Outcome(db, Failed(NotFound))
      else
        var row := db.vaults[id].(name := Trim(name), description := Trim(description), updated := now);
        Outcome(PutVault(db, id, row), OneVault(id, row))
    case DeleteVault(id) =>
      if !OwnsVault(db, owner, id) then Outcome(db, Failed(NotFound))
      else Outcome(DropVault(db, id), Done)
    case ListVaults(scope) =>
      Outcome(db, Vaults(map v | v in db.vaults && db.vaults[v].owner == owner
                         && (scope == [] || v in scope) :: db.vaults[v]))
    case GetVault(id) =>
      Outcome(db, if OwnsVault(db, owner, id) then OneVault(id, db.vaults[id]) else Failed(NotFound))
    case CreateEntry(input, _, _, _, _) =>
      if Trim(input.path) == "" then Outcome(db, Failed(PathRequired))
      else
        var (db', vault) := Destination(db, owner, op);
        if vault.None? then Outcome(db, Failed(Forbidden)) else InsertEntry(box, db', vault.value, op)
    case UpdateEntry(id, input, _, _) =>
      if Trim(input.path) == "" then Outcome(db, Failed(PathRequired))
      else if !OwnsEntry(db, owner, id) then Outcome(db, Failed(NotFound))
      else if PathTaken(db, db.entries[id].vault, Trim(input.path), id) then Outcome(db, Failed(Duplicate))
      else
        var row := Rewritten(box, db.entries[id], op);
        Outcome(PutEntry(db, id, row), OneEntry(id, View(row)))
    case DeleteEntry(id) =>
      if !OwnsEntry(db, owner, id) then Outcome(db, Failed(NotFound)) else Outcome(DropEntry(db, id), Done)
    case ListEntries(inVault, scope) =>
      Outcome(db, Entries(Listed(db, owner, inVault, scope)))
    case GetEntry(id) =>
      Outcome(db, if OwnsEntry(db, owner, id) then OneEntry(id, View(db.entries[id])) else Failed(NotFound))
    case RevealEntry(id) =>
      if !OwnsEntry(db, owner, id) then Outcome(db, Failed(NotFound))
      else
        match box.open(db.entries[id].value)
        case None => Outcome(db, Failed(Undecryptable))
        case Some(value) => Outcome(db, Value(value))
  }

  /** The random ids of a call are not in use. */
  ghost predicate Fresh(db: Db, op: Op) {
    match op
    case CreateVault(_, _, id, _) => id !in db.vaults
    case CreateEntry(_, id, spare, _, _) => id !in db.entries && spare !in db.vaults
    case _ => true
  }

  // ---- what every call keeps ------------------------------------------------------------------

  lemma DropVaultValid(db: Db, id: string)
    requires Valid(db)
    ensures Valid(DropVault(db, id))
  {
  }

  lemma PutEntryValid(db: Db, id: string, row: EntryRow)
    requires Valid(db) && row.vault in db.vaults && !PathTaken(db, row.vault, row.path, id)
    ensures Valid(PutEntry(db, id, row))
  {
  }

  lemma StepValid(box: Box, db: Db, owner: string, op: Op)
    requires Valid(db) && Fresh(db, op)
    ensures Valid(Step(box, db, owner, op).db)
  {
    if op.CreateEntry? {
      var (db', vault) := Destination(db, owner, op);
      DestinationOwned(db, owner, op);
      if vault.Some? { InsertEntryValid(box, db', vault.value, op); }
    } else if op.DeleteVault? {
      DropVaultValid(db, op.vaultId);
    } else if op.UpdateEntry? && OwnsEntry(db, owner, op.entryId) {
      var row := Rewritten(box, db.entries[op.entryId], op);
      if !PathTaken(db, row.vault, row.path, op.entryId) { PutEntryValid(db, op.entryId, row); }
    }
  }

  lemma DestinationOwned(db: Db, owner: string, op: Op)
    requires op.CreateEntry? && Valid(db) && Fresh(db, op)
    ensures var (db', vault) := Destination(db, owner, op);
            Valid(db') && db'.entries == db.entries && (vault.Some? ==> OwnsVault(db', owner, vault.value))
  {
  }

  lemma InsertEntryValid(box: Box, db: Db, vault: string, op: Op)
    requires op.CreateEntry? && Valid(db) && op.id !in db.entries && vault in db.vaults
    ensures Valid(InsertEntry(box, db, vault, op).db)
  {
  }

  // ---- noninterference ------------------------------------------------------------------------

  /** The view of `viewer` after a statement on behalf of `owner`: unchanged, or changed by the same statement. */
  lemma PutVaultOwned(db: Db, owner: string, viewer: string, id: string, row: VaultRow)
    requires Valid(db) && row.owner == owner && (id in db.vaults ==> db.vaults[id].owner == owner)
    ensures Owned(PutVault(db, id, row), viewer)
         == if viewer == owner then PutVault(Owned(db, owner), id, row) else Owned(db, viewer)
  {
    var after := PutVault(db, id, row);
    assert VaultsOf(after, viewer) == if viewer == owner then VaultsOf(db, owner)[id := row] else VaultsOf(db, viewer);
    PutVaultEntries(db, owner, viewer, id, row);
  }

  lemma PutVaultEntries(db: Db, owner: string, viewer: string, id: string, row: VaultRow)
    requires Valid(db) && row.owner == owner && (id in db.vaults ==> db.vaults[id].owner == owner)
    ensures EntriesOf(PutVault(db, id, row), viewer) == EntriesOf(db, viewer)
  {
    var after := PutVault(db, id, row);
    assert forall v :: v in db.vaults ==> OwnsVault(after, viewer, v) == OwnsVault(db, viewer, v);
  }

  lemma DropVaultOwned(db: Db, owner: string, viewer: string, id: string)
    requires Valid(db) && OwnsVault(db, owner, id)
    ensures Owned(DropVault(db, id), viewer) == if viewer == owner then DropVault(Owned(db, owner), id)
                                                else Owned(db, viewer)
  {
    if viewer == owner { DropOwnVault(db, owner, id); } else { DropForeignVault(db, owner, viewer, id); }
  }

  lemma DropOwnVault(db: Db, owner: string, id: string)
    requires Valid(db) && OwnsVault(db, owner, id)
    ensures Owned(DropVault(db, id), owner) == DropVault(Owned(db, owner), id)
  {
    assert VaultsOf(DropVault(db, id), owner) == VaultsOf(db, owner) - {id};
    DropOwnEntries(db, owner, id);
  }

  lemma DropOwnEntries(db: Db, owner: string, id: string)
    requires Valid(db) && OwnsVault(db, owner, id)
    ensures EntriesOf(DropVault(db, id), owner) == DropVault(Owned(db, owner), id).entries
  {
    forall e | e in db.entries
      ensures OwnsVault(DropVault(db, id), owner, db.entries[e].vault)
              <==> db.entries[e].vault != id && OwnsVault(db, owner, db.entries[e].vault)
    {
    }
  }

  lemma DropForeignVault(db: Db, owner: string, viewer: string, id: string)
    requires Valid(db) && OwnsVault(db, owner, id) && viewer != owner
    ensures Owned(DropVault(db, id), viewer) == Owned(db, viewer)
  {
    assert VaultsOf(DropVault(db, id), viewer) == VaultsOf(db, viewer);
    assert EntriesOf(DropVault(db, id), viewer) == EntriesOf(db, viewer);
  }

  lemma PutEntryOwned(db: Db, owner: string, viewer: string, id: string, row: EntryRow)
    requires Valid(db) && OwnsVault(db, owner, row.vault) && (id in db.entries ==> OwnsEntry(db, owner, id))
    ensures Owned(PutEntry(db, id, row), viewer)
         == if viewer == owner then PutEntry(Owned(db, owner), id, row) else Owned(db, viewer)
  {
    assert VaultsOf(PutEntry(db, id, row), viewer) == VaultsOf(db, viewer);
    if viewer == owner { PutOwnEntry(db, owner, id, row); } else { PutForeignEntry(db, owner, viewer, id, row); }
  }

  lemma PutOwnEntry(db: Db, owner: string, id: string, row: EntryRow)
    requires OwnsVault(db, owner, row.vault)
    ensures EntriesOf(PutEntry(db, id, row), owner) == EntriesOf(db, owner)[id := row]
  {
    var after := PutEntry(db, id, row);
    assert forall v :: OwnsVault(after, owner, v) == OwnsVault(db, owner, v);
  }

  lemma PutForeignEntry(db: Db, owner: string, viewer: string, id: string, row: EntryRow)
    requires OwnsVault(db, owner, row.vault) && (id in db.entries ==> OwnsEntry(db, owner, id)) && viewer != owner
    ensures EntriesOf(PutEntry(db, id, row), viewer) == EntriesOf(db, viewer)
  {
    var after := PutEntry(db, id, row);
    assert forall v :: OwnsVault(after, viewer, v) == OwnsVault(db, viewer, v);
  }

  lemma DropEntryOwned(db: Db, owner: string, viewer: string, id: string)
    requires Valid(db) && OwnsEntry(db, owner, id)
    ensures Owned(DropEntry(db, id), viewer) == if viewer == owner then DropEntry(Owned(db, owner), id)
                                                else Owned(db, viewer)
  {
    assert VaultsOf(DropEntry(db, id), viewer) == VaultsOf(db, viewer);
    if viewer == owner { DropOwnEntry(db, owner, id); } else { DropForeignEntry(db, owner, viewer, id); }
  }

  lemma DropOwnEntry(db: Db, owner: string, id: string)
    ensures EntriesOf(DropEntry(db, id), owner) == EntriesOf(db, owner) - {id}
  {
    var after := DropEntry(db, id);
    assert forall v :: OwnsVault(after, owner, v) == OwnsVault(db, owner, v);
  }

  lemma DropForeignEntry(db: Db, owner: string, viewer: string, id: string)
    requires OwnsEntry(db, owner, id) && viewer != owner
    ensures EntriesOf(DropEntry(db, id), viewer) == EntriesOf(db, viewer)
  {
    var after := DropEntry(db, id);
    assert forall v :: OwnsVault(after, viewer, v) == OwnsVault(db, viewer, v);
  }

  /** A call by one owner leaves every row of every other owner as it was. */
  lemma OthersUntouched(box: Box, db: Db, owner: string, op: Op, other: string)
    requires Valid(db) && Fresh(db, op) && other != owner
    ensures Owned(Step(box, db, owner, op).db, other) == Owned(db, other)
  {
    match op {
      case CreateVault(name, description, id, now) =>
        PutVaultOwned(db, owner, other, id, VaultRow(owner, Trim(name), Trim(description), now, now));
      case UpdateVault(id, name, description, now) =>
        if OwnsVault(db, owner, id) {
          PutVaultOwned(db, owner, other, id,
                        db.vaults[id].(name := Trim(name), description := Trim(description), updated := now));
        }
      case DeleteVault(id) => if OwnsVault(db, owner, id) { DropVaultOwned(db, owner, other, id); }
      case CreateEntry(_, _, _, _, _) => CreateEntryOwned(box, db, owner, op, other);
      case UpdateEntry(id, _, _, _) =>
        if OwnsEntry(db, owner, id) { PutEntryOwned(db, owner, other, id, Rewritten(box, db.entries[id], op)); }
      case DeleteEntry(id) => if OwnsEntry(db, owner, id) { DropEntryOwned(db, owner, other, id); }
      case _ =>
    }
  }

  lemma DestinationView(db: Db, owner: string, op: Op, viewer: string)
    requires op.CreateEntry? && Valid(db) && Fresh(db, op)
    ensures Owned(Destination(db, owner, op).0, viewer)
         == if viewer == owner then Destination(Owned(db, owner), owner, op).0 else Owned(db, viewer)
    ensures Destination(Owned(db, owner), owner, op).1 == Destination(db, owner, op).1
  {
    assert VaultsOf(Owned(db, owner), owner) == VaultsOf(db, owner);
    PutVaultOwned(db, owner, viewer, op.spareVaultId, VaultRow(owner, "Principal", "Cofre principal", op.now, op.now));
  }

  lemma InsertEntryView(box: Box, db: Db, owner: string, vault: string, op: Op, viewer: string)
    requires op.CreateEntry? && Valid(db) && op.id !in db.entries && OwnsVault(db, owner, vault)
    ensures Owned(InsertEntry(box, db, vault, op).db, viewer)
         == if viewer == owner then InsertEntry(box, Owned(db, owner), vault, op).db else Owned(db, viewer)
    ensures InsertEntry(box, Owned(db, owner), vault, op).result == InsertEntry(box, db, vault, op).result
  {
    var path := Trim(op.input.path);
    PathTakenOwned(db, owner, vault, path, op.id);
    PutEntryOwned(db, owner, viewer, op.id,
      EntryRow(vault, path, Kind(op.input), box.seal(op.input.value, op.nonce), op.input.metadata, op.input.tags, None,
               op.now, op.now));
  }

  lemma PathTakenOwned(db: Db, owner: string, vault: string, path: string, except: string)
    requires OwnsVault(db, owner, vault)
    ensures PathTaken(Owned(db, owner), vault, path, except) == PathTaken(db, vault, path, except)
  {
    if PathTaken(db, vault, path, except) {
      var e :| e in db.entries && e != except && db.entries[e].vault == vault && db.entries[e].path == path;
      assert e in EntriesOf(db, owner);
    }
  }

  lemma CreateEntryOwned(box: Box, db: Db, owner: string, op: Op, viewer: string)
    requires op.CreateEntry? && Valid(db) && Fresh(db, op)
    ensures Owned(Step(box, db, owner, op).db, viewer)
         == if viewer == owner then Step(box, Owned(db, owner), owner, op).db else Owned(db, viewer)
    ensures Step(box, Owned(db, owner), owner, op).result == Step(box, db, owner, op).result
  {
    var (db', vault) := Destination(db, owner, op);
    DestinationOwned(db, owner, op);
    DestinationView(db, owner, op, viewer);
    DestinationView(db, owner, op, owner);
    if vault.Some? {
      InsertEntryView(box, db', owner, vault.value, op, viewer);
      InsertEntryView(box, db', owner, vault.value, op, owner);
    }
  }

  /** A call's result and the owner's next rows depend on the owner's own rows only. */
  lemma OwnRowsDecide(box: Box, db: Db, owner: string, op: Op)
    requires Valid(db) && Fresh(db, op)
    ensures Owned(Step(box, db, owner, op).db, owner) == Step(box, Owned(db, owner), owner, op).db
    ensures Step(box, db, owner, op).result == Step(box, Owned(db, owner), owner, op).result
  {
    match op {
      case CreateVault(name, description, id, now) =>
        PutVaultOwned(db, owner, owner, id, VaultRow(owner, Trim(name), Trim(description), now, now));
      case UpdateVault(id, name, description, now) =>
        if OwnsVault(db, owner, id) {
          PutVaultOwned(db, owner, owner, id,
                        db.vaults[id].(name := Trim(name), description := Trim(description), updated := now));
        }
      case DeleteVault(id) => if OwnsVault(db, owner, id) { DropVaultOwned(db, owner, owner, id); }
      case CreateEntry(_, _, _, _, _) => CreateEntryOwned(box, db, owner, op, owner);
      case UpdateEntry(_, _, _, _) => UpdateEntryDecided(box, db, owner, op);
      case DeleteEntry(id) => if OwnsEntry(db, owner, id) { DropEntryOwned(db, owner, owner, id); }
      case _ => ReadDecided(box, db, owner, op);
    }
  }

  lemma UpdateEntryDecided(box: Box, db: Db, owner: string, op: Op)
    requires op.UpdateEntry? && Valid(db)
    ensures Owned(Step(box, db, owner, op).db, owner) == Step(box, Owned(db, owner), owner, op).db
    ensures Step(box, db, owner, op).result == Step(box, Owned(db, owner), owner, op).result
  {
    var id := op.entryId;
    assert OwnsEntry(Owned(db, owner), owner, id) == OwnsEntry(db, owner, id);
    if OwnsEntry(db, owner, id) {
      PathTakenOwned(db, owner, db.entries[id].vault, Trim(op.input.path), id);
      PutEntryOwned(db, owner, owner, id, Rewritten(box, db.entries[id], op));
    }
  }

  lemma ReadDecided(box: Box, db: Db, owner: string, op: Op)
    requires op.ListVaults? || op.GetVault? || op.ListEntries? || op.GetEntry? || op.RevealEntry?
    ensures Step(box, db, owner, op).db == db
    ensures Step(box, db, owner, op).result == Step(box, Owned(db, owner), owner, op).result
  {
    if op.ListEntries? {
      assert Listed(Owned(db, owner), owner, op.inVault, op.scope) == Listed(db, owner, op.inVault, op.scope);
    }
  }

  // ---- runs -----------------------------------------------------------------------------------

  datatype Request = Request(owner: string, op: Op)

  function Run(box: Box, db: Db, requests: seq<Request>): Db
    decreases |requests|
  {
    if requests == [] then db
    else Run(box, Step(box, db, requests[0].owner, requests[0].op).db, requests[1..])
  }

  /** What `owner` sees of a run: the results of the owner's own calls, in order. */
  function Seen(box: Box, db: Db, requests: seq<Request>, owner: string): seq<Result>
    decreases |requests|
  {
    if requests == [] then []
    else
      var next := Step(box, db, requests[0].owner, requests[0].op);
      (if requests[0].owner == owner then [next.result] else []) + Seen(box, next.db, requests[1..], owner)
  }

  function Only(requests: seq<Request>, owner: string): seq<Request> {
    if requests == [] then []
    else (if requests[0].owner == owner then [requests[0]] else []) + Only(requests[1..], owner)
  }

  ghost predicate FreshRun(box: Box, db: Db, requests: seq<Request>)
    decreases |requests|
  {
    requests == [] ||
    (Fresh(db, requests[0].op) && FreshRun(box, Step(box, db, requests[0].owner, requests[0].op).db, requests[1..]))
  }

  /**
   Noninterference: in any interleaving of calls by any owners, an owner ends with the rows, and has seen the
   results, of a run in which the other owners and their rows never existed.
   */
  lemma {:induction false} OthersCouldBeAbsent(box: Box, db: Db, requests: seq<Request>, owner: string)
    requires Valid(db) && FreshRun(box, db, requests)
    ensures Owned(Run(box, db, requests), owner) == Run(box, Owned(db, owner), Only(requests, owner))
    ensures Seen(box, db, requests, owner) == Seen(box, Owned(db, owner), Only(requests, owner), owner)
    ensures Valid(Run(box, db, requests))
    decreases |requests|
  {
    if requests != [] {
      var first, rest := requests[0], requests[1..];
      var next := Step(box, db, first.owner, first.op).db;
      StepValid(box, db, first.owner, first.op);
      OthersCouldBeAbsent(box, next, rest, owner);
      if first.owner == owner {
        OwnRowsDecide(box, db, owner, first.op);
        assert ([first] + Only(rest, owner))[1..] == Only(rest, owner);
      } else {
        OthersUntouched(box, db, first.owner, first.op, owner);
        assert Only(requests, owner) == Only(rest, owner);
      }
    }
  }

  predicate ReadsId(op: Op, id: string) {
    match op
    case UpdateVault(v, _, _, _) => v == id
    case DeleteVault(v) => v == id
    case GetVault(v) => v == id
    case UpdateEntry(e, _, _, _) => e == id
    case DeleteEntry(e) => e == id
    case GetEntry(e) => e == id
    case RevealEntry(e) => e == id
    case _ => false
  }

  /** Asking for a row of somebody else is answered as asking for a row that is not there. */
  lemma ForeignIsMissing(box: Box, db: Db, owner: string, op: Op, id: string)
    requires Valid(db) && ReadsId(op, id) && !OwnsVault(db, owner, id) && !OwnsEntry(db, owner, id)
    ensures Step(box, db, owner, op).db == db && Step(box, db, owner, op).result.Failed?
    ensures Step(box, db, owner, op).result == Step(box, Db(map[], map[]), owner, op).result
  {
  }

  /** The owner's entry holds the sealed value. */
  predicate HoldsSealed(box: Box, db: Db, owner: string, id: string, value: string, nonce: int) {
    OwnsEntry(db, owner, id) && db.entries[id].value == box.seal(value, nonce)
  }

  lemma SealedIsRevealed(box: Box, db: Db, owner: string, id: string, value: string, nonce: int)
    requires Lawful(box) && HoldsSealed(box, db, owner, id, value, nonce)
    ensures Step(box, db, owner, RevealEntry(id)).result == Value(value)
  {
  }

  lemma CreateHoldsSealed(box: Box, db: Db, owner: string, op: Op)
    requires Valid(db) && Fresh(db, op) && op.CreateEntry?
    ensures var after := Step(box, db, owner, op);
            after.result.OneEntry? ==> HoldsSealed(box, after.db, owner, op.id, op.input.value, op.nonce)
  {
    DestinationOwned(db, owner, op);
  }

  lemma UpdateHoldsSealed(box: Box, db: Db, owner: string, op: Op)
    requires Valid(db) && op.UpdateEntry? && Trim(op.input.value) != ""
    ensures var after := Step(box, db, owner, op);
            after.result.OneEntry? ==> HoldsSealed(box, after.db, owner, op.entryId, op.input.value, op.nonce)
  {
  }

  /** What a call stored is what a later reveal gives back, under any nonce. */
  lemma StoredValueIsRevealed(box: Box, db: Db, owner: string, op: Op, id: string)
    requires Lawful(box) && Valid(db) && Fresh(db, op)
    requires (op.CreateEntry? && op.id == id) || (op.UpdateEntry? && op.entryId == id && Trim(op.input.value) != "")
    ensures var after := Step(box, db, owner, op);
            after.result.OneEntry? ==> Step(box, after.db, owner, RevealEntry(id)).result == Value(op.input.value)
  {
    var after := Step(box, db, owner, op);
    if op.CreateEntry? { CreateHoldsSealed(box, db, owner, op); } else { UpdateHoldsSealed(box, db, owner, op); }
    if after.result.OneEntry? { SealedIsRevealed(box, after.db, owner, id, op.input.value, op.nonce); }
  }
}
