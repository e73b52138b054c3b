/**
 Export and restore (internal/backup/backup.go) seen on the vault and entry tables with all their columns, for the
 API keys that may ask for them. The other three tables enter as one bit: whether their rows go in.
 */
module VaultBackup {
  import opened Seqs
  import opened Text
  import opened VaultStore
  import Backup

  /** The vault and entry rows of a restore document. */
  datatype RowDocument = RowDocument(vaults: Backup.Rows<VaultRow>, entries: Backup.Rows<EntryRow>)

  function IsOf(owner: string): VaultRow -> bool { (r: VaultRow) => r.owner == owner }

  function InVaultOf(db: Db, owner: string): EntryRow -> bool { (r: EntryRow) => OwnsVault(db, owner, r.vault) }

  /** The deletes. */
  function Cleared(db: Db, owner: string): Db {
    Db(Backup.Rest(db.vaults, IsOf(owner)), Backup.Rest(db.entries, InVaultOf(db, owner)))
  }

  function Reowned(owner: string): VaultRow -> VaultRow { (r: VaultRow) => r.(owner := owner) }

  function AcceptsVault(): (map<string, VaultRow>, VaultRow) -> bool { (t: map<string, VaultRow>, r: VaultRow) => true }

  function AcceptsEntry(vaults: map<string, VaultRow>): (map<string, EntryRow>, EntryRow) -> bool {
    (t: map<string, EntryRow>, r: EntryRow) => r.vault in vaults && forall e :: e in t ==> !SameSlot(t[e], r)
  }

  /** The inserts; entries are not re-owned. */
  function Refilled(db: Db, owner: string, doc: RowDocument): Option<Db> {
    var vaults := Backup.InsertRows(db.vaults, Backup.Mapped(doc.vaults, Reowned(owner)), AcceptsVault());
    if vaults.None? then None else
    var entries := Backup.InsertRows(db.entries, doc.entries, AcceptsEntry(vaults.value));
    if entries.None? then None else Some(Db(vaults.value, entries.value))
  }

  /** The transaction: the owner's rows are replaced, or nothing happens. */
  function Restored(db: Db, owner: string, doc: RowDocument, othersGoIn: bool): Option<Db> {
    if othersGoIn then Refilled(Cleared(db, owner), owner, doc) else None
  }

  // ---- keys -----------------------------------------------------------------------------------

  ghost predicate SlotsUnique(entries: map<string, EntryRow>) {
    forall e, f :: e in entries && f in entries && SameSlot(entries[e], entries[f]) ==> e == f
  }

  lemma {:induction false} EntriesKept(
      t: map<string, EntryRow>, rows: Backup.Rows<EntryRow>, vaults: map<string, VaultRow>)
    requires SlotsUnique(t) && forall e :: e in t ==> t[e].vault in vaults
    requires Backup.InsertRows(t, rows, AcceptsEntry(vaults)).Some?
    ensures var after := Backup.InsertRows(t, rows, AcceptsEntry(vaults)).value;
            SlotsUnique(after) && forall e :: e in after ==> after[e].vault in vaults
  {
    if rows != [] { EntriesKept(t, Front(rows), vaults); }
  }

  lemma RestoredValid(db: Db, owner: string, doc: RowDocument, othersGoIn: bool)
    requires Valid(db) && Restored(db, owner, doc, othersGoIn).Some?
    ensures Valid(Restored(db, owner, doc, othersGoIn).value)
  {
    var rest, after := Cleared(db, owner), Restored(db, owner, doc, othersGoIn).value;
    Backup.InsertedIsUnion(rest.vaults, Backup.Mapped(doc.vaults, Reowned(owner)), AcceptsVault());
    forall e | e in rest.entries ensures rest.entries[e].vault in after.vaults {
      assert rest.entries[e].vault in rest.vaults;
    }
    EntriesKept(rest.entries, doc.entries, after.vaults);
  }

  // ---- the same restore -----------------------------------------------------------------------

  /**
   How the columns that no key mentions are written into one value; the owner and the slot have columns of their
   own.
   */
  datatype Columns = Columns(vault: VaultRow -> string, entry: EntryRow -> string)

  ghost predicate Proper(c: Columns) {
    forall r, owner :: c.vault(Reowned(owner)(r)) == c.vault(r)
  }

  function VaultColumns(c: Columns): VaultRow -> Backup.VaultRow {
    (r: VaultRow) => Backup.VaultRow(r.owner, c.vault(r))
  }

  function EntryColumns(c: Columns): EntryRow -> Backup.EntryRow {
    (r: EntryRow) => Backup.EntryRow(r.vault, r.path, c.entry(r))
  }

  function TableAs<R, S>(t: map<string, R>, f: R -> S): map<string, S> {
    map id | id in t :: f(t[id])
  }

  function RowsAs<R, S>(rows: Backup.Rows<R>, f: R -> S): (m: Backup.Rows<S>)
    ensures |m| == |rows|
    ensures forall i :: 0 <= i < |rows| ==> m[i] == (rows[i].0, f(rows[i].1))
  {
    seq(|rows|, i requires 0 <= i < |rows| => (rows[i].0, f(rows[i].1)))
  }

  /** The five tables of Backup, with these vaults and entries. */
  function AsBackup(db: Db, c: Columns, others: Backup.Db): Backup.Db {
    others.(vaults := TableAs(db.vaults, VaultColumns(c)), entries := TableAs(db.entries, EntryColumns(c)))
  }

  function AsDocument(doc: RowDocument, c: Columns, others: Backup.Document): Backup.Document {
    others.(vaults := RowsAs(doc.vaults, VaultColumns(c)), entries := RowsAs(doc.entries, EntryColumns(c)))
  }

  lemma {:induction false} InsertAs<R(!new), S(!new)>(
      t: map<string, R>, rows: Backup.Rows<R>, f: R -> S, accepts: (map<string, R>, R) -> bool,
      accepts': (map<string, S>, S) -> bool)
    requires forall u, i :: 0 <= i < |rows| ==> accepts(u, rows[i].1) == accepts'(TableAs(u, f), f(rows[i].1))
    ensures var r, r' := Backup.InsertRows(t, rows, accepts),
            Backup.InsertRows(TableAs(t, f), RowsAs(rows, f), accepts');
            (r.Some? <==> r'.Some?) && (r.Some? ==> r'.value == TableAs(r.value, f))
  {
    if rows != [] {
      assert Front(RowsAs(rows, f)) == RowsAs(Front(rows), f);
      InsertAs(t, Front(rows), f, accepts, accepts');
      var before := Backup.InsertRows(t, Front(rows), accepts);
      if before.Some? {
        var last := rows[|rows| - 1];
        assert accepts(before.value, last.1) == accepts'(TableAs(before.value, f), f(last.1));
        assert TableAs(before.value, f)[last.0 := f(last.1)] == TableAs(before.value[last.0 := last.1], f);
      }
    }
  }

  lemma RestAs<R(!new), S(!new)>(t: map<string, R>, f: R -> S, mine: R -> bool, mine': S -> bool)
    requires forall id :: id in t ==> mine(t[id]) == mine'(f(t[id]))
    ensures Backup.Rest(TableAs(t, f), mine') == TableAs(Backup.Rest(t, mine), f)
  {
  }

  lemma ClearedAs(db: Db, owner: string, c: Columns, others: Backup.Db)
    ensures var cleared := Backup.Cleared(AsBackup(db, c, others), owner);
            && cleared.vaults == TableAs(Cleared(db, owner).vaults, VaultColumns(c))
            && cleared.entries == TableAs(Cleared(db, owner).entries, EntryColumns(c))
            && cleared.users == others.users
  {
    var whole := AsBackup(db, c, others);
    RestAs(db.vaults, VaultColumns(c), IsOf(owner), Backup.VaultOf(owner));
    RestAs(db.entries, EntryColumns(c), InVaultOf(db, owner), Backup.EntryOf(whole.vaults, owner));
  }

  lemma VaultsAs(rest: Db, owner: string, doc: RowDocument, c: Columns, users: set<string>)
    requires Proper(c) && owner in users
    ensures var r := Backup.InsertRows(rest.vaults, Backup.Mapped(doc.vaults, Reowned(owner)), AcceptsVault());
            var r' := Backup.InsertRows(
                        TableAs(rest.vaults, VaultColumns(c)),
                        Backup.Mapped(RowsAs(doc.vaults, VaultColumns(c)), Backup.OwnVaultRow(owner)),
                          Backup.AcceptsVault(users));
            (r.Some? <==> r'.Some?) && (r.Some? ==> r'.value == TableAs(r.value, VaultColumns(c)))
  {
    var rows := Backup.Mapped(doc.vaults, Reowned(owner));
    InsertAs(rest.vaults, rows, VaultColumns(c), AcceptsVault(), Backup.AcceptsVault(users));
    assert RowsAs(rows, VaultColumns(c))
           == Backup.Mapped(RowsAs(doc.vaults, VaultColumns(c)), Backup.OwnVaultRow(owner));
  }

  lemma EntriesAs(rest: Db, rows: Backup.Rows<EntryRow>, vaults: map<string, VaultRow>, c: Columns)
    ensures var r := Backup.InsertRows(rest.entries, rows, AcceptsEntry(vaults));
            var r' := Backup.InsertRows(TableAs(rest.entries, EntryColumns(c)), RowsAs(rows, EntryColumns(c)),
                                        Backup.AcceptsEntry(TableAs(vaults, VaultColumns(c))));
            (r.Some? <==> r'.Some?) && (r.Some? ==> r'.value == TableAs(r.value, EntryColumns(c)))
  {
    var accepts, accepts' := AcceptsEntry(vaults), Backup.AcceptsEntry(TableAs(vaults, VaultColumns(c)));
    forall u: map<string, EntryRow>, i | 0 <= i < |rows|
      ensures accepts(u, rows[i].1) == accepts'(TableAs(u, EntryColumns(c)), EntryColumns(c)(rows[i].1))
    {
      SameAcceptance(u, rows[i].1, vaults, c);
    }
    InsertAs(rest.entries, rows, EntryColumns(c), accepts, accepts');
  }

  lemma SameAcceptance(u: map<string, EntryRow>, row: EntryRow, vaults: map<string, VaultRow>, c: Columns)
    ensures AcceptsEntry(vaults)(u, row)
         == Backup.AcceptsEntry(TableAs(vaults, VaultColumns(c)))(TableAs(u, EntryColumns(c)), EntryColumns(c)(row))
  {
    var u' := TableAs(u, EntryColumns(c));
    assert forall e :: e in u ==> SameSlot(u[e], row) == Backup.SameSlot(u'[e], EntryColumns(c)(row));
    if e :| e in u && SameSlot(u[e], row) { assert e in u' && Backup.SameSlot(u'[e], EntryColumns(c)(row)); }
    if e :| e in u' && Backup.SameSlot(u'[e], EntryColumns(c)(row)) { assert e in u && SameSlot(u[e], row); }
  }

  /** The rows of the key, history and audit tables go in. */
  predicate OthersGoIn(db: Backup.Db, owner: string, doc: Backup.Document) {
    var keys := Backup.InsertRows(db.keys, Backup.Mapped(doc.keys, Backup.OwnKey(owner)), Backup.AcceptsKey(db.users));
    && keys.Some?
    && Backup.InsertRows(db.backups, Backup.Mapped(doc.backups, Backup.OwnHistory(owner)),
                         Backup.AcceptsHistory(db.users)).Some?
    && Backup.InsertRows(db.audits, Backup.Mapped(doc.audits, Backup.OwnAudit(owner)),
                         Backup.AcceptsAudit(db.users, keys.value)).Some?
  }

  lemma RefilledParts(db: Backup.Db, owner: string, doc: Backup.Document)
    ensures var r := Backup.Refilled(db, owner, doc);
            var vaults := Backup.InsertRows(db.vaults, Backup.Mapped(doc.vaults, Backup.OwnVaultRow(owner)),
                                            Backup.AcceptsVault(db.users));
            && (r.Some? <==> OthersGoIn(db, owner, doc) && vaults.Some?
                             && Backup.InsertRows(db.entries, doc.entries, Backup.AcceptsEntry(vaults.value)).Some?)
            && (r.Some? ==> r.value.vaults == vaults.value
                            && Some(r.value.entries)
                               == Backup.InsertRows(db.entries, doc.entries, Backup.AcceptsEntry(vaults.value)))
  {
  }

  /** Whatever the other tables hold and however columns are written, this is the restore of the five tables. */
  lemma RestoreIsBackupRestore(
      db: Db, owner: string, doc: RowDocument, c: Columns, others: Backup.Db, rest: Backup.Document, recordId: string,
      data: string)
    requires Proper(c) && owner in others.users
    ensures var whole, document := AsBackup(db, c, others), AsDocument(doc, c, rest);
            var r := Backup.Restored(whole, owner, document, recordId, data);
            var r' := Restored(db, owner, doc, OthersGoIn(Backup.Cleared(whole, owner), owner, document));
            && (r.Some? <==> r'.Some?)
            && (r.Some? ==> r.value.vaults == TableAs(r'.value.vaults, VaultColumns(c))
                            && r.value.entries == TableAs(r'.value.entries, EntryColumns(c)))
  {
    var whole, document := AsBackup(db, c, others), AsDocument(doc, c, rest);
    var cleared := Cleared(db, owner);
    ClearedAs(db, owner, c, others);
    RefilledParts(Backup.Cleared(whole, owner), owner, document);
    VaultsAs(cleared, owner, doc, c, others.users);
    var vaults := Backup.InsertRows(cleared.vaults, Backup.Mapped(doc.vaults, Reowned(owner)), AcceptsVault());
    if vaults.Some? { EntriesAs(cleared, doc.entries, vaults.value, c); }
  }
}
