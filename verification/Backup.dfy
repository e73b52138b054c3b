/**
 Export and restore of one account (internal/backup/backup.go) over the five owner tables. Columns that
 no key mentions are one opaque value per row; JSON and the encrypted envelope are outside.
 */
module Backup {
  import opened Seqs
  import opened Text

  datatype KeyRow = KeyRow(owner: string, data: string)
  datatype VaultRow = VaultRow(owner: string, data: string)
  datatype EntryRow = EntryRow(vault: string, path: string, data: string)
  datatype HistoryRow = HistoryRow(owner: string, data: string)
  datatype AuditRow = AuditRow(key: Option<string>, owner: Option<string>, data: string)

  type Table<R> = map<string, R>

  datatype Db = Db(
    users: set<string>, keys: Table<KeyRow>, vaults: Table<VaultRow>, entries: Table<EntryRow>,
    backups: Table<HistoryRow>, audits: Table<AuditRow>)

  predicate SameSlot(a: EntryRow, b: EntryRow) { a.vault == b.vault && a.path == b.path }

  /** The foreign keys and the unique key of the migrations. */
  ghost predicate Valid(db: Db) {
    && (forall k :: k in db.keys ==> db.keys[k].owner in db.users)
    && (forall v :: v in db.vaults ==> db.vaults[v].owner in db.users)
    && (forall e :: e in db.entries ==> db.entries[e].vault in db.vaults)
    && (forall e, f :: e in db.entries && f in db.entries && SameSlot(db.entries[e], db.entries[f]) ==> e == f)
    && (forall b :: b in db.backups ==> db.backups[b].owner in db.users)
    && (forall a :: a in db.audits && db.audits[a].key.Some? ==> db.audits[a].key.value in db.keys)
    && (forall a :: a in db.audits && db.audits[a].owner.Some? ==> db.audits[a].owner.value in db.users)
  }

  /** Audit rows that name a key carry that key's owner, as they are recorded; a restore may break this. */
  ghost predicate AuditsShareOwner(db: Db) {
    forall a :: a in db.audits && db.audits[a].key.Some? ==>
      db.audits[a].key.value in db.keys && db.audits[a].owner == Some(db.keys[db.audits[a].key.value].owner)
  }

  /** An audit row outside the owner's names one of the owner's keys. */
  predicate NamesKeyOf(db: Db, owner: string, row: AuditRow) {
    row.owner != Some(owner) && row.key.Some? && row.key.value in db.keys && db.keys[row.key.value].owner == owner
  }

  predicate NoForeignAudit(db: Db, owner: string) {
    forall a :: a in db.audits ==> !NamesKeyOf(db, owner, db.audits[a])
  }

  // ---- one owner's rows -----------------------------------------------------------------------

  function Own<R(!new)>(t: Table<R>, mine: R -> bool): Table<R> {
    map id | id in t && mine(t[id]) :: t[id]
  }

  function Rest<R(!new)>(t: Table<R>, mine: R -> bool): Table<R> {
    map id | id in t && !mine(t[id]) :: t[id]
  }

  function KeyOf(owner: string): KeyRow -> bool { (r: KeyRow) => r.owner == owner }
  function VaultOf(owner: string): VaultRow -> bool { (r: VaultRow) => r.owner == owner }
  function HistoryOf(owner: string): HistoryRow -> bool { (r: HistoryRow) => r.owner == owner }
  function AuditOf(owner: string): AuditRow -> bool { (r: AuditRow) => r.owner == Some(owner) }

  /** Entries have no owner of their own: they belong to their vault's. */
  function EntryOf(vaults: Table<VaultRow>, owner: string): EntryRow -> bool {
    (r: EntryRow) => r.vault in vaults && vaults[r.vault].owner == owner
  }

  function KeysOf(db: Db, owner: string): Table<KeyRow> { Own(db.keys, KeyOf(owner)) }
  function VaultsOf(db: Db, owner: string): Table<VaultRow> { Own(db.vaults, VaultOf(owner)) }
  function EntriesOf(db: Db, owner: string): Table<EntryRow> { Own(db.entries, EntryOf(db.vaults, owner)) }
  function BackupsOf(db: Db, owner: string): Table<HistoryRow> { Own(db.backups, HistoryOf(owner)) }
  function AuditsOf(db: Db, owner: string): Table<AuditRow> { Own(db.audits, AuditOf(owner)) }

  /** Everything that is not the owner's. */
  function Others(db: Db, owner: string): Db {
    Db(db.users, Rest(db.keys, KeyOf(owner)), Rest(db.vaults, VaultOf(owner)),
       Rest(db.entries, EntryOf(db.vaults, owner)), Rest(db.backups, HistoryOf(owner)), Rest(db.audits, AuditOf(owner)))
  }

  /** Adding rows of one's own to the others' rows gives a table whose two parts are these. */
  lemma PartsOfUnion<R(!new)>(rest: Table<R>, added: Table<R>, mine: R -> bool)
    requires rest.Keys !! added.Keys
    requires forall id :: id in rest ==> !mine(rest[id])
    requires forall id :: id in added ==> mine(added[id])
    ensures Own(rest + added, mine) == added
    ensures Rest(rest + added, mine) == rest
  {
  }

  lemma PartsMakeWhole<R(!new)>(t: Table<R>, mine: R -> bool)
    ensures Rest(t, mine) + Own(t, mine) == t
    ensures Rest(t, mine).Keys !! Own(t, mine).Keys
  {
  }

  // ---- the restore document -------------------------------------------------------------------

  type Rows<R> = seq<(string, R)>

  datatype Document = Document(
    keys: Rows<KeyRow>, vaults: Rows<VaultRow>, entries: Rows<EntryRow>, backups: Rows<HistoryRow>,
    audits: Rows<AuditRow>)

  /** A listing of a table: every row once, in any order. */
  ghost predicate Lists<R(!new)>(rows: Rows<R>, t: Table<R>) {
    && (forall i, j :: 0 <= i < j < |rows| ==> rows[i].0 != rows[j].0)
    && (forall i :: 0 <= i < |rows| ==> rows[i].0 in t && t[rows[i].0] == rows[i].1)
    && (forall id :: id in t ==> exists i :: 0 <= i < |rows| && rows[i].0 == id)
  }

  /** What `collect` gathers for an owner. */
  ghost predicate Collected(doc: Document, db: Db, owner: string) {
    && Lists(doc.keys, KeysOf(db, owner)) && Lists(doc.vaults, VaultsOf(db, owner))
    && Lists(doc.entries, EntriesOf(db, owner))
    && Lists(doc.backups, BackupsOf(db, owner)) && Lists(doc.audits, AuditsOf(db, owner))
  }

  function TableOf<R>(rows: Rows<R>): Table<R> {
    if rows == [] then map[]
    else
      var last := rows[|rows| - 1];
      TableOf(Front(rows))[last.0 := last.1]
  }

  lemma {:induction false} TableMember<R>(rows: Rows<R>, id: string)
    ensures id in TableOf(rows) <==> exists i :: 0 <= i < |rows| && rows[i].0 == id
  {
    if rows != [] {
      TableMember(Front(rows), id);
      if i :| 0 <= i < |rows| && rows[i].0 == id {
        if i < |rows| - 1 { assert Front(rows)[i].0 == id; }
      }
      if i :| 0 <= i < |Front(rows)| && Front(rows)[i].0 == id { assert rows[i].0 == id; }
    }
  }

  lemma {:induction false} ListingIsTable<R(!new)>(rows: Rows<R>, t: Table<R>)
    requires Lists(rows, t)
    ensures TableOf(rows) == t
  {
    if rows != [] {
      var front, last := Front(rows), rows[|rows| - 1];
      var u := t - {last.0};
      forall id | id in u ensures exists i :: 0 <= i < |front| && front[i].0 == id {
        var i :| 0 <= i < |rows| && rows[i].0 == id;
        assert front[i].0 == id;
      }
      ListingIsTable(front, u);
      assert t == u[last.0 := last.1];
    } else {
      assert t.Keys == {};
    }
  }

  /** `SELECT * ...` of one table into a list of rows. */
  method Scan<R(!new)>(t: Table<R>) returns (rows: Rows<R>)
    ensures Lists(rows, t)
  {
    rows := [];
    var left := t.Keys;
    while left != {}
      invariant left <= t.Keys
      invariant forall i, j :: 0 <= i < j < |rows| ==> rows[i].0 != rows[j].0
      invariant forall i :: 0 <= i < |rows| ==> rows[i].0 in t && rows[i].0 !in left && t[rows[i].0] == rows[i].1
      invariant forall id :: id in t && id !in left ==> exists i :: 0 <= i < |rows| && rows[i].0 == id
      decreases |left|
    {
      var id :| id in left;
      ghost var before := rows;
      rows := rows + [(id, t[id])];
      left := left - {id};
      forall x | x in t && x !in left ensures exists i :: 0 <= i < |rows| && rows[i].0 == x {
        if x == id {
          assert rows[|before|].0 == id;
        } else {
          var i :| 0 <= i < |before| && before[i].0 == x;
          assert rows[i].0 == x;
        }
      }
    }
  }

  // ---- inserting ------------------------------------------------------------------------------

  /** INSERT row by row: a used id or a failing constraint stops the whole list. */
  function InsertRows<R>(t: Table<R>, rows: Rows<R>, accepts: (Table<R>, R) -> bool): Option<Table<R>> {
    if rows == [] then Some(t)
    else
      var before := InsertRows(t, Front(rows), accepts);
      var (id, row) := rows[|rows| - 1];
      if before.None? || id in before.value || !accepts(before.value, row) then None
      else Some(before.value[id := row])
  }

  lemma {:induction false} FailedPrefix<R>(t: Table<R>, rows: Rows<R>, n: nat, accepts: (Table<R>, R) -> bool)
    requires n <= |rows| && InsertRows(t, rows[..n], accepts).None?
    ensures InsertRows(t, rows, accepts).None?
    decreases |rows|
  {
    if n < |rows| {
      assert Front(rows)[..n] == rows[..n];
      FailedPrefix(t, Front(rows), n, accepts);
    } else {
      assert rows[..n] == rows;
    }
  }

  method InsertAll<R>(t: Table<R>, rows: Rows<R>, accepts: (Table<R>, R) -> bool) returns (r: Option<Table<R>>)
    ensures r == InsertRows(t, rows, accepts)
  {
    var current := t;
    for i := 0 to |rows|
      invariant InsertRows(t, rows[..i], accepts) == Some(current)
    {
      assert Front(rows[..i + 1]) == rows[..i];
      var (id, row) := rows[i];
      if id in current || !accepts(current, row) {
        FailedPrefix(t, rows, i + 1, accepts);
        return None;
      }
      current := current[id := row];
    }
    assert rows[..|rows|] == rows;
    return Some(current);
  }

  lemma {:induction false} InsertedIsUnion<R(!new)>(t: Table<R>, rows: Rows<R>, accepts: (Table<R>, R) -> bool)
    requires InsertRows(t, rows, accepts).Some?
    ensures InsertRows(t, rows, accepts).value == t + TableOf(rows)
    ensures forall i :: 0 <= i < |rows| ==> rows[i].0 !in t
  {
    if rows != [] {
      InsertedIsUnion(t, Front(rows), accepts);
      forall i | 0 <= i < |rows| ensures rows[i].0 !in t {
        if i < |rows| - 1 { assert Front(rows)[i] == rows[i]; }
      }
    }
  }

  ghost predicate NewIds<R>(t: Table<R>, rows: Rows<R>) {
    && (forall i, j :: 0 <= i < j < |rows| ==> rows[i].0 != rows[j].0)
    && (forall i :: 0 <= i < |rows| ==> rows[i].0 !in t)
  }

  ghost predicate AcceptedAt<R>(t: Table<R>, rows: Rows<R>, accepts: (Table<R>, R) -> bool, i: nat)
    requires i < |rows|
  {
    accepts(t + TableOf(rows[..i]), rows[i].1)
  }

  /** A list goes in whole when its ids are new and distinct and every prefix leaves the next row acceptable. */
  lemma {:induction false} InsertSucceeds<R(!new)>(t: Table<R>, rows: Rows<R>, accepts: (Table<R>, R) -> bool)
    requires NewIds(t, rows) && forall i :: 0 <= i < |rows| ==> AcceptedAt(t, rows, accepts, i)
    ensures InsertRows(t, rows, accepts) == Some(t + TableOf(rows))
  {
    if rows == [] {
      assert t + TableOf(rows) == t;
    } else {
      var front, n := Front(rows), |rows| - 1;
      forall i | 0 <= i < |front| ensures AcceptedAt(t, front, accepts, i) {
        assert AcceptedAt(t, rows, accepts, i);
        assert front[..i] == rows[..i];
      }
      InsertSucceeds(t, front, accepts);
      assert AcceptedAt(t, rows, accepts, n) && rows[..n] == front;
      LastIdIsNew(t, rows);
      var before := t + TableOf(front);
      assert InsertRows(t, front, accepts) == Some(before);
      assert accepts(before, rows[n].1) && rows[n].0 !in before;
      assert t + TableOf(rows) == before[rows[n].0 := rows[n].1];
    }
  }

  lemma LastIdIsNew<R>(t: Table<R>, rows: Rows<R>)
    requires rows != [] && NewIds(t, rows)
    ensures rows[|rows| - 1].0 !in t + TableOf(Front(rows))
  {
    TableMember(Front(rows), rows[|rows| - 1].0);
  }

  // ---- deleting and restoring -----------------------------------------------------------------

  /** The five DELETEs; deleting keys sets key references of remaining audit rows to NULL. */
  function Cleared(db: Db, owner: string): Db {
    var rest := Others(db, owner);
    rest.(audits := map a | a in rest.audits :: Detached(rest.audits[a], rest.keys))
  }

  function Detached(row: AuditRow, keys: Table<KeyRow>): AuditRow {
    if row.key.Some? && row.key.value !in keys then row.(key := None) else row
  }

  // Every restored row of these tables gets the restoring owner.
  function OwnKey(owner: string): KeyRow -> KeyRow { (r: KeyRow) => r.(owner := owner) }
  function OwnVaultRow(owner: string): VaultRow -> VaultRow { (r: VaultRow) => r.(owner := owner) }
  function OwnHistory(owner: string): HistoryRow -> HistoryRow { (r: HistoryRow) => r.(owner := owner) }
  function OwnAudit(owner: string): AuditRow -> AuditRow { (r: AuditRow) => r.(owner := Some(owner)) }

  function Mapped<R>(rows: Rows<R>, f: R -> R): (m: Rows<R>)
    ensures |m| == |rows|
    ensures forall i :: 0 <= i < |rows| ==> m[i] == (rows[i].0, f(rows[i].1))
  {
    seq(|rows|, i requires 0 <= i < |rows| => (rows[i].0, f(rows[i].1)))
  }

  function MappedTable<R>(t: Table<R>, f: R -> R): Table<R> {
    map id | id in t :: f(t[id])
  }

  lemma MappedLists<R(!new)>(rows: Rows<R>, t: Table<R>, f: R -> R)
    requires Lists(rows, t)
    ensures Lists(Mapped(rows, f), MappedTable(t, f))
  {
    forall id | id in t ensures exists i :: 0 <= i < |rows| && Mapped(rows, f)[i].0 == id {
      var i :| 0 <= i < |rows| && rows[i].0 == id;
      assert Mapped(rows, f)[i].0 == id;
    }
  }

  // The constraints an INSERT of each table is checked against.
  function AcceptsKey(users: set<string>): (Table<KeyRow>, KeyRow) -> bool {
    (t: Table<KeyRow>, r: KeyRow) => r.owner in users
  }

  function AcceptsVault(users: set<string>): (Table<VaultRow>, VaultRow) -> bool {
    (t: Table<VaultRow>, r: VaultRow) => r.owner in users
  }

  function AcceptsEntry(vaults: Table<VaultRow>): (Table<EntryRow>, EntryRow) -> bool {
    (t: Table<EntryRow>, r: EntryRow) => r.vault in vaults && forall e :: e in t ==> !SameSlot(t[e], r)
  }

  function AcceptsHistory(users: set<string>): (Table<HistoryRow>, HistoryRow) -> bool {
    (t: Table<HistoryRow>, r: HistoryRow) => r.owner in users
  }

  function AcceptsAudit(users: set<string>, keys: Table<KeyRow>): (Table<AuditRow>, AuditRow) -> bool {
    (t: Table<AuditRow>, r: AuditRow) => (r.key.Some? ==> r.key.value in keys)
      && (r.owner.Some? ==> r.owner.value in users)
  }

  /** The INSERTs of a document on a cleared database; None when any of them fails. */
  function Refilled(db: Db, owner: string, doc: Document): Option<Db> {
    var keys := InsertRows(db.keys, Mapped(doc.keys, OwnKey(owner)), AcceptsKey(db.users));
    if keys.None? then None else
    var vaults := InsertRows(db.vaults, Mapped(doc.vaults, OwnVaultRow(owner)), AcceptsVault(db.users));
    if vaults.None? then None else
    var entries := InsertRows(db.entries, doc.entries, AcceptsEntry(vaults.value));
    if entries.None? then None else
    var backups := InsertRows(db.backups, Mapped(doc.backups, OwnHistory(owner)), AcceptsHistory(db.users));
    if backups.None? then None else
    var audits := InsertRows(db.audits, Mapped(doc.audits, OwnAudit(owner)), AcceptsAudit(db.users, keys.value));
    if audits.None? then None else
    Some(Db(db.users, keys.value, vaults.value, entries.value, backups.value, audits.value))
  }

  /** The history row, written after the commit; a used id leaves it out. */
  function WithRecord(db: Db, recordId: string, owner: string, data: string): Db {
    if recordId in db.backups then db else db.(backups := db.backups[recordId := HistoryRow(owner, data)])
  }

  /** The whole transaction, and the history row that a committed restore leaves. */
  function Restored(db: Db, owner: string, doc: Document, recordId: string, data: string): Option<Db> {
    match Refilled(Cleared(db, owner), owner, doc)
    case None => None
    case Some(after) => Some(WithRecord(after, recordId, owner, data))
  }

  // ---- the service ----------------------------------------------------------------------------

  class Database {
    const users: set<string>
    var keys: Table<KeyRow>
    var vaults: Table<VaultRow>
    var entries: Table<EntryRow>
    var backups: Table<HistoryRow>
    var audits: Table<AuditRow>

    function Tables(): Db
      reads this
    {
      Db(users, keys, vaults, entries, backups, audits)
    }

    constructor (db: Db)
      ensures Tables() == db
    {
      users, keys, vaults, entries, backups, audits := db.users, db.keys, db.vaults, db.entries, db.backups, db.audits;
    }

    method Collect(owner: string) returns (doc: Document)
      ensures Collected(doc, Tables(), owner)
    {
      var k := Scan(KeysOf(Tables(), owner));
      var v := Scan(VaultsOf(Tables(), owner));
      var e := Scan(EntriesOf(Tables(), owner));
      var b := Scan(BackupsOf(Tables(), owner));
      var a := Scan(AuditsOf(Tables(), owner));
      return Document(k, v, e, b, a);
    }

    /** DELETE in the order of the foreign keys. */
    method DeleteAll(owner: string)
      modifies this
      ensures Tables() == Cleared(old(Tables()), owner)
    {
      audits := Rest(audits, AuditOf(owner));
      backups := Rest(backups, HistoryOf(owner));
      entries := Rest(entries, EntryOf(vaults, owner));
      vaults := Rest(vaults, VaultOf(owner));
      keys := Rest(keys, KeyOf(owner));
      DetachAudits();
    }

    /** ON DELETE SET NULL of the audit rows' key. */
    method DetachAudits()
      modifies this`audits
      ensures audits == map a | a in old(audits) :: Detached(old(audits)[a], keys)
    {
      audits := map a | a in audits :: Detached(audits[a], keys);
    }

    method InsertTables(owner: string, doc: Document) returns (ok: bool)
      modifies this
      ensures ok <==> Refilled(old(Tables()), owner, doc).Some?
      ensures ok ==> Tables() == Refilled(old(Tables()), owner, doc).value
    {
      var k := InsertAll(keys, Mapped(doc.keys, OwnKey(owner)), AcceptsKey(users));
      if k.None? { return false; }
      keys := k.value;
      var v := InsertAll(vaults, Mapped(doc.vaults, OwnVaultRow(owner)), AcceptsVault(users));
      if v.None? { return false; }
      vaults := v.value;
      var e := InsertAll(entries, doc.entries, AcceptsEntry(vaults));
      if e.None? { return false; }
      entries := e.value;
      var b := InsertAll(backups, Mapped(doc.backups, OwnHistory(owner)), AcceptsHistory(users));
      if b.None? { return false; }
      backups := b.value;
      var a := InsertAll(audits, Mapped(doc.audits, OwnAudit(owner)), AcceptsAudit(users, keys));
      if a.None? { return false; }
      audits := a.value;
      return true;
    }

    /** A failing insert rolls everything back; a committed restore adds its history row. */
    method Restore(owner: string, doc: Document, recordId: string, data: string) returns (ok: bool)
      modifies this
      ensures ok <==> Restored(old(Tables()), owner, doc, recordId, data).Some?
      ensures Tables() == if ok then Restored(old(Tables()), owner, doc, recordId, data).value else old(Tables())
    {
      var saved := Tables();
      DeleteAll(owner);
      ok := InsertTables(owner, doc);
      if !ok {
        keys, vaults, entries, backups, audits := saved.keys, saved.vaults, saved.entries, saved.backups, saved.audits;
        return;
      }
      if recordId !in backups { backups := backups[recordId := HistoryRow(owner, data)]; }
    }
  }

  // ---- restore undoes export ------------------------------------------------------------------

  /** No id of the collected rows is in use by somebody else, and the history id is new. */
  ghost predicate NoClash(source: Db, from: string, db: Db, owner: string, recordId: string) {
    && KeysOf(source, from).Keys !! Others(db, owner).keys.Keys
    && VaultsOf(source, from).Keys !! Others(db, owner).vaults.Keys
    && EntriesOf(source, from).Keys !! Others(db, owner).entries.Keys
    && BackupsOf(source, from).Keys !! Others(db, owner).backups.Keys
    && AuditsOf(source, from).Keys !! Others(db, owner).audits.Keys
    && recordId !in db.backups && recordId !in BackupsOf(source, from)
  }

  /** Every key that an audit row of `from` names is restored with it or somebody else's in `db`. */
  ghost predicate KeysAtHand(source: Db, from: string, db: Db, owner: string) {
    var audits := AuditsOf(source, from);
    forall a :: a in audits && audits[a].key.Some? ==>
      audits[a].key.value in KeysOf(source, from) || audits[a].key.value in Others(db, owner).keys
  }

  /** The database that holds the others' rows of `db` and, re-owned, the rows `from` had in `source`. */
  function Merged(source: Db, from: string, db: Db, owner: string): Db {
    var rest := Cleared(db, owner);
    Db(db.users,
       rest.keys + MappedTable(KeysOf(source, from), OwnKey(owner)),
       rest.vaults + MappedTable(VaultsOf(source, from), OwnVaultRow(owner)),
       rest.entries + EntriesOf(source, from),
       rest.backups + MappedTable(BackupsOf(source, from), OwnHistory(owner)),
       rest.audits + MappedTable(AuditsOf(source, from), OwnAudit(owner)))
  }

  /** The five deletes keep every key; of the others' rows they change audit rows that name a deleted key. */
  lemma ClearedValid(db: Db, owner: string)
    requires Valid(db)
    ensures Valid(Cleared(db, owner))
    ensures Cleared(db, owner).(audits := Others(db, owner).audits) == Others(db, owner)
  {
  }

  lemma ClearedShares(db: Db, owner: string)
    requires Valid(db) && AuditsShareOwner(db)
    ensures AuditsShareOwner(Cleared(db, owner)) && NoForeignAudit(db, owner)
  {
  }

  lemma ClearedAudits(db: Db, owner: string)
    requires Valid(db)
    ensures Cleared(db, owner).audits == Others(db, owner).audits <==> NoForeignAudit(db, owner)
  {
    var rest, cleared := Others(db, owner), Cleared(db, owner);
    if a :| a in db.audits && NamesKeyOf(db, owner, db.audits[a]) {
      assert a in rest.audits && cleared.audits[a] != rest.audits[a];
    }
    if NoForeignAudit(db, owner) {
      forall a | a in rest.audits ensures cleared.audits[a] == rest.audits[a] {
        assert !NamesKeyOf(db, owner, db.audits[a]);
      }
    }
  }

  lemma PlainInsert<R(!new)>(t: Table<R>, rows: Rows<R>, listed: Table<R>, accepts: (Table<R>, R) -> bool)
    requires Lists(rows, listed) && t.Keys !! listed.Keys
    requires forall u, id :: id in listed ==> accepts(u, listed[id])
    ensures InsertRows(t, rows, accepts) == Some(t + listed)
  {
    ListingIsTable(rows, listed);
    forall i | 0 <= i < |rows| ensures AcceptedAt(t, rows, accepts, i) {
      assert rows[i].0 in listed;
    }
    InsertSucceeds(t, rows, accepts);
  }

  /** Entries of a collected document fit: their vaults are restored first, and no slot is taken. */
  lemma EntriesFit(source: Db, from: string, rest: Db, vaults: Table<VaultRow>, rows: Rows<EntryRow>)
    requires Valid(source) && Valid(rest) && Lists(rows, EntriesOf(source, from))
    requires EntriesOf(source, from).Keys !! rest.entries.Keys && VaultsOf(source, from).Keys !! rest.vaults.Keys
    requires vaults.Keys == rest.vaults.Keys + VaultsOf(source, from).Keys
    ensures InsertRows(rest.entries, rows, AcceptsEntry(vaults)) == Some(rest.entries + EntriesOf(source, from))
  {
    ListingIsTable(rows, EntriesOf(source, from));
    forall i | 0 <= i < |rows| ensures AcceptedAt(rest.entries, rows, AcceptsEntry(vaults), i) {
      EntryFits(source, from, rest, rows, i);
      assert rows[i].1.vault in VaultsOf(source, from);
    }
    InsertSucceeds(rest.entries, rows, AcceptsEntry(vaults));
  }

  lemma EntryFits(source: Db, from: string, rest: Db, rows: Rows<EntryRow>, i: nat)
    requires i < |rows| && Valid(source) && Valid(rest) && Lists(rows, EntriesOf(source, from))
    requires VaultsOf(source, from).Keys !! rest.vaults.Keys
    ensures forall e :: e in rest.entries + TableOf(rows[..i]) ==>
              !SameSlot((rest.entries + TableOf(rows[..i]))[e], rows[i].1)
  {
    var t := rest.entries + TableOf(rows[..i]);
    forall e | e in t ensures !SameSlot(t[e], rows[i].1) {
      TableMember(rows[..i], e);
      if e in TableOf(rows[..i]) {
        TableValue(rows[..i], e);
        var k :| 0 <= k < |rows[..i]| && rows[..i][k] == (e, t[e]);
        assert rows[k].0 != rows[i].0 && rows[k].1 == t[e];
      } else {
        assert t[e].vault in rest.vaults && rows[i].1.vault in VaultsOf(source, from);
      }
    }
  }

  lemma {:induction false} TableValue<R(!new)>(rows: Rows<R>, id: string)
    requires id in TableOf(rows)
    ensures exists k :: 0 <= k < |rows| && rows[k] == (id, TableOf(rows)[id])
  {
    var last := rows[|rows| - 1];
    if last.0 == id {
      assert rows[|rows| - 1] == (id, TableOf(rows)[id]);
    } else {
      TableValue(Front(rows), id);
      var k :| 0 <= k < |Front(rows)| && Front(rows)[k] == (id, TableOf(Front(rows))[id]);
      assert rows[k] == (id, TableOf(rows)[id]);
    }
  }

  /** Five lists that go in one after the other make the refilled database. */
  lemma RefilledBy(db: Db, owner: string, doc: Document, after: Db)
    requires after.users == db.users
    requires InsertRows(db.keys, Mapped(doc.keys, OwnKey(owner)), AcceptsKey(db.users)) == Some(after.keys)
    requires InsertRows(db.vaults, Mapped(doc.vaults, OwnVaultRow(owner)), AcceptsVault(db.users)) == Some(after.vaults)
    requires InsertRows(db.entries, doc.entries, AcceptsEntry(after.vaults)) == Some(after.entries)
    requires InsertRows(db.backups, Mapped(doc.backups, OwnHistory(owner)), AcceptsHistory(db.users))
             == Some(after.backups)
    requires InsertRows(db.audits, Mapped(doc.audits, OwnAudit(owner)), AcceptsAudit(db.users, after.keys))
             == Some(after.audits)
    ensures Refilled(db, owner, doc) == Some(after)
  {
  }

  lemma CollectedGoIn(source: Db, from: string, db: Db, owner: string, doc: Document, recordId: string)
    requires Valid(source) && Collected(doc, source, from) && KeysAtHand(source, from, db, owner)
    requires Valid(Cleared(db, owner)) && owner in db.users && NoClash(source, from, db, owner, recordId)
    ensures Refilled(Cleared(db, owner), owner, doc) == Some(Merged(source, from, db, owner))
  {
    var rest, merged := Cleared(db, owner), Merged(source, from, db, owner);
    KeysGoIn(source, from, db, owner, doc.keys);
    VaultsGoIn(source, from, db, owner, doc.vaults);
    EntriesFit(source, from, rest, merged.vaults, doc.entries);
    BackupsGoIn(source, from, db, owner, doc.backups);
    AuditsGoIn(source, from, db, owner, doc.audits);
    RefilledBy(rest, owner, doc, merged);
  }

  lemma {:induction false} AllAccepted<R(!new)>(t: Table<R>, rows: Rows<R>, accepts: (Table<R>, R) -> bool, i: nat)
    requires InsertRows(t, rows, accepts).Some? && i < |rows|
    ensures exists u :: accepts(u, rows[i].1)
  {
    if i < |rows| - 1 {
      AllAccepted(t, Front(rows), accepts, i);
      assert Front(rows)[i] == rows[i];
    }
  }

  lemma MissingKeyFails(source: Db, from: string, db: Db, owner: string, doc: Document, recordId: string)
    requires Collected(doc, source, from) && owner in db.users && NoClash(source, from, db, owner, recordId)
    requires Refilled(Cleared(db, owner), owner, doc).Some?
    ensures KeysAtHand(source, from, db, owner)
  {
    KeysGoIn(source, from, db, owner, doc.keys);
    var audits, accepts := AuditsOf(source, from), AcceptsAudit(db.users, Merged(source, from, db, owner).keys);
    forall a | a in audits && audits[a].key.Some?
      ensures audits[a].key.value in KeysOf(source, from) || audits[a].key.value in Others(db, owner).keys
    {
      var i :| 0 <= i < |doc.audits| && doc.audits[i].0 == a;
      AllAccepted(Cleared(db, owner).audits, Mapped(doc.audits, OwnAudit(owner)), accepts, i);
    }
  }

  /**
   Restoring a collected document succeeds exactly when the keys its audit rows name are at hand, and then
   leaves what the deletes left of the others' rows plus exactly the collected ones, re-owned.
   */
  lemma RestoreIsInverse(source: Db, from: string, db: Db, owner: string, doc: Document, recordId: string, data: string)
    requires Valid(source) && Collected(doc, source, from)
    requires Valid(db) && owner in db.users && NoClash(source, from, db, owner, recordId)
    ensures Restored(db, owner, doc, recordId, data)
         == if KeysAtHand(source, from, db, owner) then
              Some(WithRecord(Merged(source, from, db, owner), recordId, owner, data))
            else None
  {
    ClearedValid(db, owner);
    if KeysAtHand(source, from, db, owner) {
      CollectedGoIn(source, from, db, owner, doc, recordId);
    } else if Refilled(Cleared(db, owner), owner, doc).Some? {
      MissingKeyFails(source, from, db, owner, doc, recordId);
    }
  }

  lemma KeysGoIn(source: Db, from: string, db: Db, owner: string, rows: Rows<KeyRow>)
    requires Lists(rows, KeysOf(source, from)) && owner in db.users
             && KeysOf(source, from).Keys !! Others(db, owner).keys.Keys
    ensures InsertRows(Cleared(db, owner).keys, Mapped(rows, OwnKey(owner)), AcceptsKey(db.users))
         == Some(Merged(source, from, db, owner).keys)
  {
    MappedLists(rows, KeysOf(source, from), OwnKey(owner));
    PlainInsert(Cleared(db, owner).keys, Mapped(rows, OwnKey(owner)), MappedTable(KeysOf(source, from), OwnKey(owner)),
                AcceptsKey(db.users));
  }

  lemma VaultsGoIn(source: Db, from: string, db: Db, owner: string, rows: Rows<VaultRow>)
    requires Lists(rows, VaultsOf(source, from)) && owner in db.users
             && VaultsOf(source, from).Keys !! Others(db, owner).vaults.Keys
    ensures InsertRows(Cleared(db, owner).vaults, Mapped(rows, OwnVaultRow(owner)), AcceptsVault(db.users))
         == Some(Merged(source, from, db, owner).vaults)
  {
    MappedLists(rows, VaultsOf(source, from), OwnVaultRow(owner));
    PlainInsert(Cleared(db, owner).vaults, Mapped(rows, OwnVaultRow(owner)),
                MappedTable(VaultsOf(source, from), OwnVaultRow(owner)), AcceptsVault(db.users));
  }

  lemma BackupsGoIn(source: Db, from: string, db: Db, owner: string, rows: Rows<HistoryRow>)
    requires Lists(rows, BackupsOf(source, from)) && owner in db.users
             && BackupsOf(source, from).Keys !! Others(db, owner).backups.Keys
    ensures InsertRows(Cleared(db, owner).backups, Mapped(rows, OwnHistory(owner)), AcceptsHistory(db.users))
         == Some(Merged(source, from, db, owner).backups)
  {
    MappedLists(rows, BackupsOf(source, from), OwnHistory(owner));
    PlainInsert(Cleared(db, owner).backups, Mapped(rows, OwnHistory(owner)),
                MappedTable(BackupsOf(source, from), OwnHistory(owner)), AcceptsHistory(db.users));
  }

  lemma AuditsGoIn(source: Db, from: string, db: Db, owner: string, rows: Rows<AuditRow>)
    requires Lists(rows, AuditsOf(source, from)) && owner in db.users
             && AuditsOf(source, from).Keys !! Others(db, owner).audits.Keys
    requires KeysAtHand(source, from, db, owner)
    ensures InsertRows(Cleared(db, owner).audits, Mapped(rows, OwnAudit(owner)),
                       AcceptsAudit(db.users, Merged(source, from, db, owner).keys))
         == Some(Merged(source, from, db, owner).audits)
  {
    MappedLists(rows, AuditsOf(source, from), OwnAudit(owner));
    AuditsFit(source, from, db, owner);
    PlainInsert(Cleared(db, owner).audits, Mapped(rows, OwnAudit(owner)),
                MappedTable(AuditsOf(source, from), OwnAudit(owner)),
                AcceptsAudit(db.users, Merged(source, from, db, owner).keys));
  }

  lemma AuditsFit(source: Db, from: string, db: Db, owner: string)
    requires KeysAtHand(source, from, db, owner) && owner in db.users
    ensures var audits := MappedTable(AuditsOf(source, from), OwnAudit(owner));
            forall u, id :: id in audits ==> AcceptsAudit(db.users, Merged(source, from, db, owner).keys)(u, audits[id])
  {
  }

  lemma MergedOwned(source: Db, from: string, db: Db, owner: string, recordId: string)
    requires NoClash(source, from, db, owner, recordId)
    ensures var merged, rest := Merged(source, from, db, owner), Cleared(db, owner);
            && KeysOf(merged, owner) == MappedTable(KeysOf(source, from), OwnKey(owner))
            && Others(merged, owner).keys == rest.keys
            && VaultsOf(merged, owner) == MappedTable(VaultsOf(source, from), OwnVaultRow(owner))
            && Others(merged, owner).vaults == rest.vaults
  {
    var rest := Cleared(db, owner);
    PartsOfUnion(rest.keys, MappedTable(KeysOf(source, from), OwnKey(owner)), KeyOf(owner));
    PartsOfUnion(rest.vaults, MappedTable(VaultsOf(source, from), OwnVaultRow(owner)), VaultOf(owner));
  }

  lemma MergedHistory(source: Db, from: string, db: Db, owner: string, recordId: string)
    requires NoClash(source, from, db, owner, recordId)
    ensures var merged, rest := Merged(source, from, db, owner), Cleared(db, owner);
            && AuditsOf(merged, owner) == MappedTable(AuditsOf(source, from), OwnAudit(owner))
            && Others(merged, owner).audits == rest.audits
            && BackupsOf(merged, owner) == MappedTable(BackupsOf(source, from), OwnHistory(owner))
            && Others(merged, owner).backups == rest.backups
  {
    var rest := Cleared(db, owner);
    PartsOfUnion(rest.audits, MappedTable(AuditsOf(source, from), OwnAudit(owner)), AuditOf(owner));
    PartsOfUnion(rest.backups, MappedTable(BackupsOf(source, from), OwnHistory(owner)), HistoryOf(owner));
  }

  lemma MergedEntries(source: Db, from: string, db: Db, owner: string, recordId: string)
    requires Valid(source) && Valid(db) && NoClash(source, from, db, owner, recordId)
    ensures var merged := Merged(source, from, db, owner);
            EntriesOf(merged, owner) == EntriesOf(source, from)
              && Others(merged, owner).entries == Others(db, owner).entries
  {
    var merged, rest := Merged(source, from, db, owner), Cleared(db, owner);
    var mine := EntryOf(merged.vaults, owner);
    forall e | e in EntriesOf(source, from) ensures mine(EntriesOf(source, from)[e]) {
      assert source.entries[e].vault in VaultsOf(source, from);
    }
    forall e | e in rest.entries ensures !mine(rest.entries[e]) {
      assert db.entries[e].vault in rest.vaults;
    }
    PartsOfUnion(rest.entries, EntriesOf(source, from), mine);
  }

  lemma RecordOnly(db: Db, recordId: string, owner: string, data: string)
    requires recordId !in db.backups
    ensures var after := WithRecord(db, recordId, owner, data);
            && Others(after, owner) == Others(db, owner)
            && BackupsOf(after, owner) == BackupsOf(db, owner)[recordId := HistoryRow(owner, data)]
  {
    var after := WithRecord(db, recordId, owner, data);
    assert Others(after, owner).backups == Others(db, owner).backups;
  }

  lemma MergedValid(source: Db, from: string, db: Db, owner: string, recordId: string)
    requires Valid(source) && Valid(db) && KeysAtHand(source, from, db, owner)
    requires owner in db.users && NoClash(source, from, db, owner, recordId)
    ensures Valid(Merged(source, from, db, owner))
  {
    ClearedValid(db, owner);
    MergedOwners(source, from, db, owner);
    MergedVaults(source, from, db, owner);
    MergedSlots(source, from, db, owner, recordId);
    MergedAudits(source, from, db, owner);
  }

  lemma UnionKeeps<R(!new)>(a: Table<R>, b: Table<R>, good: R -> bool)
    requires (forall id :: id in a ==> good(a[id])) && (forall id :: id in b ==> good(b[id]))
    ensures forall id :: id in a + b ==> good((a + b)[id])
  {
  }

  /** Owner columns refer to users of the merged database. */
  lemma MergedOwners(source: Db, from: string, db: Db, owner: string)
    requires Valid(Cleared(db, owner)) && owner in db.users
    ensures var merged := Merged(source, from, db, owner);
            && (forall k :: k in merged.keys ==> merged.keys[k].owner in db.users)
            && (forall v :: v in merged.vaults ==> merged.vaults[v].owner in db.users)
            && (forall b :: b in merged.backups ==> merged.backups[b].owner in db.users)
            && (forall a :: a in merged.audits && merged.audits[a].owner.Some? ==>
                  merged.audits[a].owner.value in db.users)
  {
    var rest := Cleared(db, owner);
    UnionKeeps(rest.keys, MappedTable(KeysOf(source, from), OwnKey(owner)), (r: KeyRow) => r.owner in db.users);
    UnionKeeps(rest.vaults, MappedTable(VaultsOf(source, from), OwnVaultRow(owner)),
               (r: VaultRow) => r.owner in db.users);
    UnionKeeps(rest.backups, MappedTable(BackupsOf(source, from), OwnHistory(owner)),
               (r: HistoryRow) => r.owner in db.users);
    UnionKeeps(rest.audits, MappedTable(AuditsOf(source, from), OwnAudit(owner)),
               (r: AuditRow) => r.owner.Some? ==> r.owner.value in db.users);
  }

  /** Every entry of the merged database has its vault. */
  lemma MergedVaults(source: Db, from: string, db: Db, owner: string)
    requires Valid(source) && Valid(Cleared(db, owner))
    ensures var merged := Merged(source, from, db, owner);
            forall e :: e in merged.entries ==> merged.entries[e].vault in merged.vaults
  {
    var merged := Merged(source, from, db, owner);
    forall e | e in merged.entries ensures merged.entries[e].vault in merged.vaults {
      SlotSide(source, from, Cleared(db, owner), merged.entries, e);
    }
  }

  lemma MergedSlots(source: Db, from: string, db: Db, owner: string, recordId: string)
    requires Valid(source) && Valid(Cleared(db, owner)) && NoClash(source, from, db, owner, recordId)
    ensures var entries := Merged(source, from, db, owner).entries;
            forall e, f :: e in entries && f in entries && SameSlot(entries[e], entries[f]) ==> e == f
  {
    var entries, added, rest := Merged(source, from, db, owner).entries, EntriesOf(source, from), Cleared(db, owner);
    forall e, f | e in entries && f in entries && SameSlot(entries[e], entries[f]) ensures e == f {
      SlotSide(source, from, rest, entries, e);
      SlotSide(source, from, rest, entries, f);
    }
  }

  /** An entry's vault tells which side it comes from. */
  lemma SlotSide(source: Db, from: string, rest: Db, entries: Table<EntryRow>, e: string)
    requires Valid(source) && Valid(rest) && entries == rest.entries + EntriesOf(source, from) && e in entries
    ensures if e in EntriesOf(source, from) then
              entries[e] == source.entries[e] && entries[e].vault in VaultsOf(source, from)
            else e in rest.entries && entries[e] == rest.entries[e] && entries[e].vault in rest.vaults
  {
  }

  /** Every key that an audit row of the merged database names is there. */
  lemma MergedAudits(source: Db, from: string, db: Db, owner: string)
    requires Valid(Cleared(db, owner)) && KeysAtHand(source, from, db, owner)
    ensures var merged := Merged(source, from, db, owner);
            forall a :: a in merged.audits && merged.audits[a].key.Some? ==> merged.audits[a].key.value in merged.keys
  {
  }

  lemma SharedAtHand(source: Db, from: string, db: Db, owner: string)
    requires AuditsShareOwner(source)
    ensures KeysAtHand(source, from, db, owner)
  {
  }

  lemma MergedShares(source: Db, from: string, db: Db, owner: string, recordId: string)
    requires AuditsShareOwner(source) && AuditsShareOwner(Cleared(db, owner))
             && NoClash(source, from, db, owner, recordId)
    ensures AuditsShareOwner(Merged(source, from, db, owner))
  {
    var merged, rest := Merged(source, from, db, owner), Cleared(db, owner);
    forall a | a in merged.audits && merged.audits[a].key.Some?
      ensures merged.audits[a].key.value in merged.keys
           && merged.audits[a].owner == Some(merged.keys[merged.audits[a].key.value].owner)
    {
      var k := merged.audits[a].key.value;
      if a in AuditsOf(source, from) {
        assert k in KeysOf(source, from);
      } else {
        assert rest.audits[a] == merged.audits[a] && k in rest.keys;
        assert k !in KeysOf(source, from);
      }
    }
  }

  /** The owner's rows after the restore are those of `from`, re-owned, and one history row. */
  ghost predicate HasRowsOf(after: Db, owner: string, source: Db, from: string, recordId: string, data: string) {
    && KeysOf(after, owner) == MappedTable(KeysOf(source, from), OwnKey(owner))
    && VaultsOf(after, owner) == MappedTable(VaultsOf(source, from), OwnVaultRow(owner))
    && EntriesOf(after, owner) == EntriesOf(source, from)
    && BackupsOf(after, owner)
       == MappedTable(BackupsOf(source, from), OwnHistory(owner))[recordId := HistoryRow(owner, data)]
    && AuditsOf(after, owner) == MappedTable(AuditsOf(source, from), OwnAudit(owner))
  }

  /**
   Restoring a collected document, in any database where its ids are not in use by others: it succeeds exactly
   when the keys its audit rows name are at hand; then the owner ends with exactly the collected rows,
   re-owned, plus one history row; all other rows are as the deletes leave them; every foreign and unique key
   holds.
   */
  lemma RestoreUndoesExport(
      source: Db, from: string, db: Db, owner: string, doc: Document, recordId: string, data: string)
    requires Valid(source) && Collected(doc, source, from)
    requires Valid(db) && owner in db.users && NoClash(source, from, db, owner, recordId)
    ensures var r := Restored(db, owner, doc, recordId, data);
            && (r.Some? <==> KeysAtHand(source, from, db, owner))
            && (r.Some? ==> HasRowsOf(r.value, owner, source, from, recordId, data)
                            && Others(r.value, owner) == Cleared(db, owner) && Valid(r.value))
    ensures AuditsShareOwner(source) ==> KeysAtHand(source, from, db, owner)
  {
    RestoreIsInverse(source, from, db, owner, doc, recordId, data);
    if AuditsShareOwner(source) { SharedAtHand(source, from, db, owner); }
    if KeysAtHand(source, from, db, owner) { RecordedMerge(source, from, db, owner, recordId, data); }
  }

  lemma RecordedMerge(source: Db, from: string, db: Db, owner: string, recordId: string, data: string)
    requires Valid(source) && Valid(db) && KeysAtHand(source, from, db, owner)
    requires owner in db.users && NoClash(source, from, db, owner, recordId)
    ensures var after := WithRecord(Merged(source, from, db, owner), recordId, owner, data);
            && HasRowsOf(after, owner, source, from, recordId, data)
            && Others(after, owner) == Cleared(db, owner) && Valid(after)
  {
    MergedOwned(source, from, db, owner, recordId);
    MergedHistory(source, from, db, owner, recordId);
    MergedEntries(source, from, db, owner, recordId);
    MergedValid(source, from, db, owner, recordId);
    var merged := Merged(source, from, db, owner);
    assert recordId !in merged.backups;
    RecordOnly(merged, recordId, owner, data);
    RecordValid(merged, recordId, owner, data);
  }

  lemma RecordValid(db: Db, recordId: string, owner: string, data: string)
    requires Valid(db) && owner in db.users
    ensures Valid(WithRecord(db, recordId, owner, data))
  {
  }

  /**
   Audit rows that share their key's owner, as recorded, do so after the restore, and then no other row changes at
   all.
   */
  lemma RestoreKeepsSharedOwners(
      source: Db, from: string, db: Db, owner: string, doc: Document, recordId: string, data: string)
    requires Valid(source) && AuditsShareOwner(source) && Collected(doc, source, from)
    requires Valid(db) && AuditsShareOwner(db) && owner in db.users && NoClash(source, from, db, owner, recordId)
    ensures var r := Restored(db, owner, doc, recordId, data);
            r.Some? && AuditsShareOwner(r.value) && Others(r.value, owner) == Others(db, owner)
  {
    RestoreUndoesExport(source, from, db, owner, doc, recordId, data);
    RestoreIsInverse(source, from, db, owner, doc, recordId, data);
    ClearedValid(db, owner);
    ClearedShares(db, owner);
    ClearedAudits(db, owner);
    MergedShares(source, from, db, owner, recordId);
  }

  /**
   An account can always be restored from its own current export, and the database is then unchanged but for the
   new history row, exactly when no audit row of somebody else names one of its keys.
   */
  lemma RestoreInPlace(db: Db, owner: string, doc: Document, recordId: string, data: string)
    requires Valid(db) && owner in db.users && Collected(doc, db, owner) && recordId !in db.backups
    ensures Restored(db, owner, doc, recordId, data).Some?
    ensures Restored(db, owner, doc, recordId, data) == Some(WithRecord(db, recordId, owner, data))
            <==> NoForeignAudit(db, owner)
  {
    RestoreIsInverse(db, owner, db, owner, doc, recordId, data);
    MergedWithItself(db, owner);
    MergedAuditsSame(db, owner);
    ClearedAudits(db, owner);
    var merged := Merged(db, owner, db, owner);
    assert WithRecord(merged, recordId, owner, data).audits == merged.audits
           && WithRecord(db, recordId, owner, data).audits == db.audits;
  }

  lemma RestWithOwn<R(!new)>(t: Table<R>, mine: R -> bool, f: R -> R)
    requires forall id :: id in t && mine(t[id]) ==> f(t[id]) == t[id]
    ensures Rest(t, mine) + MappedTable(Own(t, mine), f) == t
  {
  }

  lemma MergedWithItself(db: Db, owner: string)
    requires Valid(db)
    ensures Merged(db, owner, db, owner).(audits := db.audits) == db
  {
    RestWithOwn(db.keys, KeyOf(owner), OwnKey(owner));
    RestWithOwn(db.vaults, VaultOf(owner), OwnVaultRow(owner));
    RestWithOwn(db.backups, HistoryOf(owner), OwnHistory(owner));
    PartsMakeWhole(db.entries, EntryOf(db.vaults, owner));
  }

  lemma MergedAuditsSame(db: Db, owner: string)
    requires Valid(db)
    ensures Merged(db, owner, db, owner).audits == db.audits <==> Cleared(db, owner).audits == Others(db, owner).audits
  {
    var own := MappedTable(AuditsOf(db, owner), OwnAudit(owner));
    RestWithOwn(db.audits, AuditOf(owner), OwnAudit(owner));
    SameRest(Cleared(db, owner).audits, Others(db, owner).audits, own);
  }

  lemma SameRest<R(!new)>(a: Table<R>, b: Table<R>, own: Table<R>)
    requires a.Keys == b.Keys && b.Keys !! own.Keys
    ensures a + own == b + own <==> a == b
  {
    if a + own == b + own {
      forall id | id in a ensures a[id] == b[id] {
        assert (a + own)[id] == (b + own)[id];
      }
    }
  }

  // ---- documents from elsewhere ---------------------------------------------------------------

  /** Every entry of the document belongs to a vault of the document. */
  ghost predicate ReferenceClosed(doc: Document) {
    forall i :: 0 <= i < |doc.entries| ==> doc.entries[i].1.vault in TableOf(doc.vaults)
  }

  lemma {:induction false} InsertedRow<R(!new)>(t: Table<R>, rows: Rows<R>, accepts: (Table<R>, R) -> bool, i: nat)
    requires InsertRows(t, rows, accepts).Some? && i < |rows|
    ensures rows[i].0 in InsertRows(t, rows, accepts).value
    ensures InsertRows(t, rows, accepts).value[rows[i].0] == rows[i].1
  {
    if i < |rows| - 1 {
      InsertedRow(t, Front(rows), accepts, i);
      assert Front(rows)[i] == rows[i];
    }
  }

  /** Rows of one's own added to others' rows leave the others' part as it was. */
  lemma InsertedRest<R(!new)>(t: Table<R>, rows: Rows<R>, accepts: (Table<R>, R) -> bool, mine: R -> bool)
    requires InsertRows(t, rows, accepts).Some?
    requires forall id :: id in t ==> !mine(t[id])
    requires forall i :: 0 <= i < |rows| ==> mine(rows[i].1)
    ensures Rest(InsertRows(t, rows, accepts).value, mine) == t
  {
    InsertedIsUnion(t, rows, accepts);
    var added := TableOf(rows);
    forall id | id in added ensures id !in t && mine(added[id]) {
      TableValue(rows, id);
    }
    PartsOfUnion(t, added, mine);
  }

  lemma {:induction false} MappedKeys<R(!new)>(rows: Rows<R>, f: R -> R)
    ensures TableOf(Mapped(rows, f)).Keys == TableOf(rows).Keys
  {
    if rows != [] {
      assert Front(Mapped(rows, f)) == Mapped(Front(rows), f);
      MappedKeys(Front(rows), f);
    }
  }

  /** After the vault inserts the owner has exactly the vaults of the document. */
  lemma VaultsOfDocument(rest: Table<VaultRow>, owner: string, rows: Rows<VaultRow>, users: set<string>, v: string)
    requires forall id :: id in rest ==> rest[id].owner != owner
    requires InsertRows(rest, Mapped(rows, OwnVaultRow(owner)), AcceptsVault(users)).Some?
    ensures var vaults := InsertRows(rest, Mapped(rows, OwnVaultRow(owner)), AcceptsVault(users)).value;
            v in vaults && vaults[v].owner == owner <==> v in TableOf(rows)
  {
    InsertedIsUnion(rest, Mapped(rows, OwnVaultRow(owner)), AcceptsVault(users));
    MappedKeys(rows, OwnVaultRow(owner));
    if v in TableOf(rows) { TableValue(Mapped(rows, OwnVaultRow(owner)), v); }
  }

  /**
   Whatever the document, a restore leaves the others' keys, vaults, history and audit rows as the deletes do: an
   audit row that names a key of the restoring owner loses that name, and nothing else changes.
   */
  lemma OthersKept(db: Db, owner: string, doc: Document)
    requires Refilled(Cleared(db, owner), owner, doc).Some?
    ensures var after := Refilled(Cleared(db, owner), owner, doc).value;
            Others(after, owner).(entries := Others(db, owner).entries) == Cleared(db, owner)
    ensures forall a :: a in Others(db, owner).audits ==>
              Cleared(db, owner).audits[a] == Detached(db.audits[a], Others(db, owner).keys)
  {
    var rest := Cleared(db, owner);
    var keys := InsertRows(rest.keys, Mapped(doc.keys, OwnKey(owner)), AcceptsKey(rest.users)).value;
    InsertedRest(rest.keys, Mapped(doc.keys, OwnKey(owner)), AcceptsKey(rest.users), KeyOf(owner));
    InsertedRest(rest.vaults, Mapped(doc.vaults, OwnVaultRow(owner)), AcceptsVault(rest.users), VaultOf(owner));
    InsertedRest(rest.backups, Mapped(doc.backups, OwnHistory(owner)), AcceptsHistory(rest.users), HistoryOf(owner));
    InsertedRest(rest.audits, Mapped(doc.audits, OwnAudit(owner)), AcceptsAudit(rest.users, keys), AuditOf(owner));
  }

  lemma OthersEntriesKept(rest: Table<EntryRow>, vaults: Table<VaultRow>, owner: string, doc: Document)
    requires InsertRows(rest, doc.entries, AcceptsEntry(vaults)).Some?
    requires forall e :: e in rest ==> !EntryOf(vaults, owner)(rest[e])
    requires forall v :: v in vaults && vaults[v].owner == owner <==> v in TableOf(doc.vaults)
    ensures Rest(InsertRows(rest, doc.entries, AcceptsEntry(vaults)).value, EntryOf(vaults, owner)) == rest
            <==> ReferenceClosed(doc)
  {
    var after := InsertRows(rest, doc.entries, AcceptsEntry(vaults)).value;
    if ReferenceClosed(doc) {
      InsertedRest(rest, doc.entries, AcceptsEntry(vaults), EntryOf(vaults, owner));
    } else {
      var i :| 0 <= i < |doc.entries| && doc.entries[i].1.vault !in TableOf(doc.vaults);
      InsertedRow(rest, doc.entries, AcceptsEntry(vaults), i);
      InsertedIsUnion(rest, doc.entries, AcceptsEntry(vaults));
      assert doc.entries[i].0 in Rest(after, EntryOf(vaults, owner));
    }
  }

  /**
   A restore that succeeds leaves every other account untouched exactly when each entry of the document names
   a vault of the document and no audit row of somebody else names a key of the restoring owner: an entry that
   names somebody else's vault is added to that vault, since entries are the one table whose rows are not
   re-owned, and deleting a key sets the audit rows that name it to NULL, whoever's they are.
   */
  lemma OthersUntouchedExactlyWhenClosed(db: Db, owner: string, doc: Document, recordId: string, data: string)
    requires Valid(db) && Restored(db, owner, doc, recordId, data).Some?
    ensures Others(Restored(db, owner, doc, recordId, data).value, owner) == Others(db, owner)
       <==> ReferenceClosed(doc) && NoForeignAudit(db, owner)
  {
    var rest := Cleared(db, owner);
    var after := Refilled(rest, owner, doc).value;
    ClearedValid(db, owner);
    ClearedAudits(db, owner);
    OthersKept(db, owner, doc);
    forall v ensures v in after.vaults && after.vaults[v].owner == owner <==> v in TableOf(doc.vaults) {
      VaultsOfDocument(rest.vaults, owner, doc.vaults, rest.users, v);
    }
    OthersEntriesStayTheirs(rest, after, owner, doc);
    OthersEntriesKept(rest.entries, after.vaults, owner, doc);
    RecordLeavesOthers(after, recordId, owner, data);
  }

  lemma OthersEntriesStayTheirs(rest: Db, after: Db, owner: string, doc: Document)
    requires Valid(rest) && Refilled(rest, owner, doc) == Some(after)
             && Rest(after.vaults, VaultOf(owner)) == rest.vaults
    ensures forall e :: e in rest.entries ==> !EntryOf(after.vaults, owner)(rest.entries[e])
  {
    forall e | e in rest.entries ensures !EntryOf(after.vaults, owner)(rest.entries[e]) {
      assert rest.entries[e].vault in Rest(after.vaults, VaultOf(owner));
    }
  }

  lemma RecordLeavesOthers(db: Db, recordId: string, owner: string, data: string)
    ensures Others(WithRecord(db, recordId, owner, data), owner) == Others(db, owner)
  {
    assert Others(WithRecord(db, recordId, owner, data), owner).backups == Others(db, owner).backups;
  }

  // ---- what any restore keeps -----------------------------------------------------------------

  lemma {:induction false} InsertedGood<R(!new)>(
      t: Table<R>, rows: Rows<R>, accepts: (Table<R>, R) -> bool, good: R -> bool)
    requires InsertRows(t, rows, accepts).Some?
    requires forall u, r :: accepts(u, r) ==> good(r)
    requires forall id :: id in t ==> good(t[id])
    ensures var after := InsertRows(t, rows, accepts).value; forall id :: id in after ==> good(after[id])
  {
    if rows != [] { InsertedGood(t, Front(rows), accepts, good); }
  }

  ghost predicate SlotsUnique(entries: Table<EntryRow>) {
    forall e, f :: e in entries && f in entries && SameSlot(entries[e], entries[f]) ==> e == f
  }

  lemma {:induction false} InsertedSlots(t: Table<EntryRow>, rows: Rows<EntryRow>, vaults: Table<VaultRow>)
    requires SlotsUnique(t) && InsertRows(t, rows, AcceptsEntry(vaults)).Some?
    ensures SlotsUnique(InsertRows(t, rows, AcceptsEntry(vaults)).value)
  {
    if rows != [] { InsertedSlots(t, Front(rows), vaults); }
  }

  lemma RefilledEntries(db: Db, owner: string, doc: Document, after: Db)
    requires Valid(db) && Refilled(db, owner, doc) == Some(after)
    ensures (forall e :: e in after.entries ==> after.entries[e].vault in after.vaults) && SlotsUnique(after.entries)
  {
    InsertedIsUnion(db.vaults, Mapped(doc.vaults, OwnVaultRow(owner)), AcceptsVault(db.users));
    InsertedGood(db.entries, doc.entries, AcceptsEntry(after.vaults), (r: EntryRow) => r.vault in after.vaults);
    InsertedSlots(db.entries, doc.entries, after.vaults);
  }

  lemma RefilledAudits(db: Db, owner: string, doc: Document, after: Db)
    requires Valid(db) && Refilled(db, owner, doc) == Some(after)
    ensures forall a :: a in after.audits ==>
              && (after.audits[a].key.Some? ==> after.audits[a].key.value in after.keys)
              && (after.audits[a].owner.Some? ==> after.audits[a].owner.value in after.users)
  {
    InsertedIsUnion(db.keys, Mapped(doc.keys, OwnKey(owner)), AcceptsKey(db.users));
    var good := (r: AuditRow) => (r.key.Some? ==> r.key.value in after.keys)
      && (r.owner.Some? ==> r.owner.value in after.users);
    InsertedGood(db.audits, Mapped(doc.audits, OwnAudit(owner)), AcceptsAudit(db.users, after.keys), good);
  }

  lemma RefilledOwners(db: Db, owner: string, doc: Document, after: Db)
    requires Valid(db) && Refilled(db, owner, doc) == Some(after)
    ensures (forall k :: k in after.keys ==> after.keys[k].owner in after.users)
    ensures (forall v :: v in after.vaults ==> after.vaults[v].owner in after.users)
    ensures (forall b :: b in after.backups ==> after.backups[b].owner in after.users)
  {
    InsertedGood(db.keys, Mapped(doc.keys, OwnKey(owner)), AcceptsKey(db.users), (r: KeyRow) => r.owner in db.users);
    InsertedGood(db.vaults, Mapped(doc.vaults, OwnVaultRow(owner)), AcceptsVault(db.users),
                 (r: VaultRow) => r.owner in db.users);
    InsertedGood(db.backups, Mapped(doc.backups, OwnHistory(owner)), AcceptsHistory(db.users),
                 (r: HistoryRow) => r.owner in db.users);
  }

  /** Whatever the document, a restore keeps every foreign and unique key. */
  lemma RestoreKeepsKeys(db: Db, owner: string, doc: Document, recordId: string, data: string)
    requires Valid(db) && owner in db.users && Restored(db, owner, doc, recordId, data).Some?
    ensures Valid(Restored(db, owner, doc, recordId, data).value)
  {
    ClearedValid(db, owner);
    var after := Refilled(Cleared(db, owner), owner, doc).value;
    RefilledOwners(Cleared(db, owner), owner, doc, after);
    RefilledEntries(Cleared(db, owner), owner, doc, after);
    RefilledAudits(Cleared(db, owner), owner, doc, after);
    RecordValid(after, recordId, owner, data);
  }

  // ---- two restores that reach another account ------------------------------------------------

  /** A document of one audit row that names a key. */
  function AuditDocument(id: string, key: string): Document {
    Document([], [], [], [], [(id, AuditRow(Some(key), None, ""))])
  }

  const EMPTY: Document := Document([], [], [], [], [])

  lemma AuditGoesIn(db: Db, owner: string, id: string, key: string)
    requires owner in db.users && key in db.keys && id !in db.audits
    ensures Refilled(db, owner, AuditDocument(id, key))
         == Some(db.(audits := db.audits[id := AuditRow(Some(key), Some(owner), "")]))
  {
    var doc := AuditDocument(id, key);
    var rows := Mapped(doc.audits, OwnAudit(owner));
    assert rows == [(id, AuditRow(Some(key), Some(owner), ""))] && Front(rows) == [];
    assert InsertRows(db.audits, rows, AcceptsAudit(db.users, db.keys))
           == Some(db.audits[id := AuditRow(Some(key), Some(owner), "")]);
    NothingGoesIn(db, owner, doc);
    RefilledBy(db, owner, doc, db.(audits := db.audits[id := AuditRow(Some(key), Some(owner), "")]));
  }

  lemma NothingGoesIn(db: Db, owner: string, doc: Document)
    requires doc.keys == [] && doc.vaults == [] && doc.entries == [] && doc.backups == []
    ensures InsertRows(db.keys, Mapped(doc.keys, OwnKey(owner)), AcceptsKey(db.users)) == Some(db.keys)
    ensures InsertRows(db.vaults, Mapped(doc.vaults, OwnVaultRow(owner)), AcceptsVault(db.users)) == Some(db.vaults)
    ensures InsertRows(db.entries, doc.entries, AcceptsEntry(db.vaults)) == Some(db.entries)
    ensures InsertRows(db.backups, Mapped(doc.backups, OwnHistory(owner)), AcceptsHistory(db.users)) == Some(db.backups)
    ensures doc == EMPTY ==> Refilled(db, owner, doc) == Some(db)
  {
    if doc == EMPTY { RefilledBy(db, owner, doc, db); }
  }

  lemma AuditPlanted(db: Db, a: string, b: string, key: string, id: string, first: string)
    requires Valid(db) && a in db.users && a != b && key in db.keys && db.keys[key].owner == b && id !in db.audits
    ensures var one := Restored(db, a, AuditDocument(id, key), first, "");
            one.Some? && Valid(one.value) && id in one.value.audits && NamesKeyOf(one.value, b, one.value.audits[id])
  {
    AuditGoesIn(Cleared(db, a), a, id, key);
    RestoreKeepsKeys(db, a, AuditDocument(id, key), first, "");
  }

  lemma EmptyRestoreDetaches(db: Db, b: string, id: string, second: string)
    requires Valid(db) && id in db.audits && NamesKeyOf(db, b, db.audits[id])
    ensures ReferenceClosed(EMPTY)
    ensures var two := Restored(db, b, EMPTY, second, ""); two.Some? && Others(two.value, b) != Others(db, b)
  {
    NothingGoesIn(Cleared(db, b), b, EMPTY);
    OthersUntouchedExactlyWhenClosed(db, b, EMPTY, second, "");
  }

  /**
   From every database: `a` restores a document of one audit row that names a key of `b`, and when `b` then restores
   even an empty document, that row of `a` loses its key. Neither document has an entry.
   */
  lemma TwoRestoresReachOther(db: Db, a: string, b: string, key: string, id: string, first: string, second: string)
    requires Valid(db) && a in db.users && b in db.users && a != b
    requires key in db.keys && db.keys[key].owner == b && id !in db.audits
    ensures ReferenceClosed(AuditDocument(id, key)) && ReferenceClosed(EMPTY)
    ensures var one := Restored(db, a, AuditDocument(id, key), first, "");
            one.Some? && Valid(one.value)
            && var two := Restored(one.value, b, EMPTY, second, "");
               two.Some? && Others(two.value, b) != Others(one.value, b)
  {
    AuditPlanted(db, a, b, key, id, first);
    EmptyRestoreDetaches(Restored(db, a, AuditDocument(id, key), first, "").value, b, id, second);
  }

  // ---- one restore that reaches another account -----------------------------------------------

  // Here "a" restores a document with an entry that names a vault of "b".
  function SharedDb(): Db {
    Db({"a", "b"}, map[], map["v" := VaultRow("b", "")], map[], map[], map[])
  }

  function StrayDocument(): Document { Document([], [], [("e", EntryRow("v", "p", ""))], [], []) }

  lemma SharedDbIsOthers()
    ensures Valid(SharedDb()) && AuditsShareOwner(SharedDb()) && Others(SharedDb(), "a") == SharedDb()
  {
    var db := SharedDb();
    assert "b" != "a";
    assert Rest(db.vaults, VaultOf("a")) == db.vaults;
    assert Rest(db.entries, EntryOf(db.vaults, "a")) == db.entries;
  }

  lemma StrayEntryGoesIn()
    ensures Refilled(SharedDb(), "a", StrayDocument())
            == Some(SharedDb().(entries := map["e" := EntryRow("v", "p", "")]))
  {
    var db, rows := SharedDb(), StrayDocument().entries;
    assert Front(rows) == [] && db.entries == map[];
    RefilledBy(db, "a", StrayDocument(), db.(entries := map["e" := EntryRow("v", "p", "")]));
  }

  /** The restore succeeds and the other account has changed. */
  lemma StrayEntryLandsAtOther()
    ensures Restored(SharedDb(), "a", StrayDocument(), "r", "").Some?
    ensures Others(Restored(SharedDb(), "a", StrayDocument(), "r", "").value, "a") != Others(SharedDb(), "a")
  {
    var db, doc := SharedDb(), StrayDocument();
    SharedDbIsOthers();
    assert Cleared(db, "a") == db;
    StrayEntryGoesIn();
    assert doc.entries[0].1.vault !in TableOf(doc.vaults);
    OthersUntouchedExactlyWhenClosed(db, "a", doc, "r", "");
  }
}
