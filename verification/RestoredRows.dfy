/** Every row of the five tables after a restore (internal/backup/backup.go), column by column. */
module RestoredRows {
  import opened Seqs
  import opened Text
  import opened Backup

  // Whose a row is.
  predicate KeyIs(db: Db, id: string, owner: string) { id in db.keys && db.keys[id].owner == owner }

  predicate VaultIs(db: Db, id: string, owner: string) { id in db.vaults && db.vaults[id].owner == owner }

  predicate EntryIs(db: Db, id: string, owner: string) { id in db.entries && VaultIs(db, db.entries[id].vault, owner) }

  predicate HistoryIs(db: Db, id: string, owner: string) { id in db.backups && db.backups[id].owner == owner }

  predicate AuditIs(db: Db, id: string, owner: string) { id in db.audits && db.audits[id].owner == Some(owner) }

  /**
   A table after a restore, from the rows before it and those of the account that was exported: the rows that are not
   `mine` stay, each as `kept` says, and the rows `taken` come in, each as `made` says.
   */
  ghost predicate TableAfter<R(!new)>(
      before: Table<R>, mine: R -> bool, kept: R -> R, source: Table<R>, taken: R -> bool, made: R -> R,
      after: Table<R>)
  {
    && (forall id :: id in after <==> (id in before && !mine(before[id])) || (id in source && taken(source[id])))
    && (forall id :: id in after ==>
          after[id] == if id in source && taken(source[id]) then made(source[id]) else kept(before[id]))
  }

  /** Rows put together under other ids, with the parts of the model's functions in place of the plain ones. */
  lemma MergedTable<R(!new)>(
      rest: Table<R>, before: Table<R>, mine: R -> bool, kept: R -> R, source: Table<R>, own: R -> bool, f: R -> R,
      taken: R -> bool, made: R -> R)
    requires rest.Keys !! Own(source, own).Keys
    requires forall r :: own(r) == taken(r) && f(r) == made(r)
    requires forall id :: id in rest <==> id in before && !mine(before[id])
    requires forall id :: id in rest ==> rest[id] == kept(before[id])
    ensures TableAfter(before, mine, kept, source, taken, made, rest + MappedTable(Own(source, own), f))
  {
  }

  lemma MergedKeys(source: Db, from: string, db: Db, owner: string)
    requires Own(source.keys, KeyOf(from)).Keys !! Rest(db.keys, KeyOf(owner)).Keys
    ensures TableAfter(db.keys, (r: KeyRow) => r.owner == owner, (r: KeyRow) => r,
                       source.keys, (r: KeyRow) => r.owner == from, (r: KeyRow) => KeyRow(owner, r.data),
                       Rest(db.keys, KeyOf(owner)) + MappedTable(Own(source.keys, KeyOf(from)), OwnKey(owner)))
  {
    MergedTable(Rest(db.keys, KeyOf(owner)), db.keys, (r: KeyRow) => r.owner == owner, (r: KeyRow) => r,
                source.keys, KeyOf(from), OwnKey(owner),
                (r: KeyRow) => r.owner == from, (r: KeyRow) => KeyRow(owner, r.data));
  }

  lemma MergedVaults(source: Db, from: string, db: Db, owner: string)
    requires Own(source.vaults, VaultOf(from)).Keys !! Rest(db.vaults, VaultOf(owner)).Keys
    ensures TableAfter(db.vaults, (r: VaultRow) => r.owner == owner, (r: VaultRow) => r,
                       source.vaults, (r: VaultRow) => r.owner == from, (r: VaultRow) => VaultRow(owner, r.data),
                       Rest(db.vaults, VaultOf(owner))
                       + MappedTable(Own(source.vaults, VaultOf(from)), OwnVaultRow(owner)))
  {
    MergedTable(Rest(db.vaults, VaultOf(owner)), db.vaults, (r: VaultRow) => r.owner == owner, (r: VaultRow) => r,
                source.vaults, VaultOf(from), OwnVaultRow(owner),
                (r: VaultRow) => r.owner == from, (r: VaultRow) => VaultRow(owner, r.data));
  }

  lemma MergedEntries(source: Db, from: string, db: Db, owner: string)
    requires Own(source.entries, EntryOf(source.vaults, from)).Keys !! Rest(db.entries, EntryOf(db.vaults, owner)).Keys
    ensures TableAfter(db.entries, (r: EntryRow) => VaultIs(db, r.vault, owner), (r: EntryRow) => r,
                       source.entries, (r: EntryRow) => VaultIs(source, r.vault, from), (r: EntryRow) => r,
                       Rest(db.entries, EntryOf(db.vaults, owner))
                       + Own(source.entries, EntryOf(source.vaults, from)))
  {
    var same := (r: EntryRow) => r;
    var own := Own(source.entries, EntryOf(source.vaults, from));
    assert MappedTable(own, same) == own;
    MergedTable(Rest(db.entries, EntryOf(db.vaults, owner)), db.entries,
                (r: EntryRow) => VaultIs(db, r.vault, owner), same,
                source.entries, EntryOf(source.vaults, from), same,
                (r: EntryRow) => VaultIs(source, r.vault, from), same);
  }

  lemma MergedHistory(source: Db, from: string, db: Db, owner: string)
    requires Own(source.backups, HistoryOf(from)).Keys !! Rest(db.backups, HistoryOf(owner)).Keys
    ensures TableAfter(db.backups, (r: HistoryRow) => r.owner == owner, (r: HistoryRow) => r,
                       source.backups, (r: HistoryRow) => r.owner == from, (r: HistoryRow) => HistoryRow(owner, r.data),
                       Rest(db.backups, HistoryOf(owner))
                       + MappedTable(Own(source.backups, HistoryOf(from)), OwnHistory(owner)))
  {
    MergedTable(Rest(db.backups, HistoryOf(owner)), db.backups, (r: HistoryRow) => r.owner == owner,
                (r: HistoryRow) => r, source.backups, HistoryOf(from), OwnHistory(owner),
                (r: HistoryRow) => r.owner == from, (r: HistoryRow) => HistoryRow(owner, r.data));
  }

  /** An audit row of somebody else, without a key that the owner loses. */
  function Unlinked(db: Db, owner: string, row: AuditRow): AuditRow {
    AuditRow(if row.key.Some? && KeyIs(db, row.key.value, owner) then None else row.key, row.owner, row.data)
  }

  lemma MergedAuditRows(source: Db, from: string, db: Db, owner: string)
    requires Valid(db) && AuditsOf(source, from).Keys !! Cleared(db, owner).audits.Keys
    ensures TableAfter(db.audits, (r: AuditRow) => r.owner == Some(owner), (r: AuditRow) => Unlinked(db, owner, r),
                       source.audits, (r: AuditRow) => r.owner == Some(from),
                       (r: AuditRow) => AuditRow(r.key, Some(owner), r.data),
                       Cleared(db, owner).audits + MappedTable(Own(source.audits, AuditOf(from)), OwnAudit(owner)))
  {
    var rest := Cleared(db, owner).audits;
    forall a | a in rest ensures rest[a] == Unlinked(db, owner, db.audits[a]) {
      ClearedAuditRow(db, owner, a);
    }
    MergedTable(rest, db.audits, (r: AuditRow) => r.owner == Some(owner), (r: AuditRow) => Unlinked(db, owner, r),
                source.audits, AuditOf(from), OwnAudit(owner), (r: AuditRow) => r.owner == Some(from),
                (r: AuditRow) => AuditRow(r.key, Some(owner), r.data));
  }

  lemma ClearedAuditRow(db: Db, owner: string, a: string)
    requires Valid(db) && a in db.audits && !AuditIs(db, a, owner)
    ensures a in Cleared(db, owner).audits
    ensures Cleared(db, owner).audits[a] == Unlinked(db, owner, db.audits[a])
  {
    var row := db.audits[a];
    if row.key.Some? { assert row.key.value in Others(db, owner).keys <==> !KeyIs(db, row.key.value, owner); }
  }

  /** Keys, vaults, entries and audit rows of `after`, in terms of the rows before and of the exported account. */
  ghost predicate RowsAfter(source: Db, from: string, db: Db, owner: string, after: Db) {
    && TableAfter(db.keys, (r: KeyRow) => r.owner == owner, (r: KeyRow) => r,
                  source.keys, (r: KeyRow) => r.owner == from, (r: KeyRow) => KeyRow(owner, r.data), after.keys)
    && TableAfter(db.vaults, (r: VaultRow) => r.owner == owner, (r: VaultRow) => r,
                  source.vaults, (r: VaultRow) => r.owner == from, (r: VaultRow) => VaultRow(owner, r.data),
                  after.vaults)
    && TableAfter(db.entries, (r: EntryRow) => VaultIs(db, r.vault, owner), (r: EntryRow) => r,
                  source.entries, (r: EntryRow) => VaultIs(source, r.vault, from), (r: EntryRow) => r, after.entries)
    && TableAfter(db.audits, (r: AuditRow) => r.owner == Some(owner), (r: AuditRow) => Unlinked(db, owner, r),
                  source.audits, (r: AuditRow) => r.owner == Some(from),
                  (r: AuditRow) => AuditRow(r.key, Some(owner), r.data), after.audits)
  }

  /** The history, without its newest row. */
  ghost predicate HistoryAfter(source: Db, from: string, db: Db, owner: string, backups: Table<HistoryRow>) {
    TableAfter(db.backups, (r: HistoryRow) => r.owner == owner, (r: HistoryRow) => r,
               source.backups, (r: HistoryRow) => r.owner == from, (r: HistoryRow) => HistoryRow(owner, r.data),
               backups)
  }

  lemma MergedRowsAre(source: Db, from: string, db: Db, owner: string, recordId: string)
    requires Valid(db) && NoClash(source, from, db, owner, recordId)
    ensures RowsAfter(source, from, db, owner, Merged(source, from, db, owner))
    ensures HistoryAfter(source, from, db, owner, Merged(source, from, db, owner).backups)
  {
    MergedKeys(source, from, db, owner);
    MergedVaults(source, from, db, owner);
    MergedEntries(source, from, db, owner);
    MergedHistory(source, from, db, owner);
    MergedAuditRows(source, from, db, owner);
  }

  /**
   A restore that commits leaves exactly these rows: of every table the others' rows and the collected ones, under the
   restoring owner, with their data, paths and keys as they were; and one history row more.
   */
  lemma RestoredRowsAre(
      source: Db, from: string, db: Db, owner: string, doc: Document, recordId: string, data: string)
    requires Valid(source) && Collected(doc, source, from) && KeysAtHand(source, from, db, owner)
    requires Valid(db) && owner in db.users && NoClash(source, from, db, owner, recordId)
    ensures var r := Restored(db, owner, doc, recordId, data);
            && r.Some? && r.value.users == db.users && RowsAfter(source, from, db, owner, r.value)
            && recordId in r.value.backups && r.value.backups[recordId] == HistoryRow(owner, data)
            && HistoryAfter(source, from, db, owner, r.value.backups - {recordId})
  {
    RestoreIsInverse(source, from, db, owner, doc, recordId, data);
    MergedRowsAre(source, from, db, owner, recordId);
    RecordedLast(Merged(source, from, db, owner), recordId, owner, data);
  }

  lemma RecordedLast(db: Db, recordId: string, owner: string, data: string)
    requires recordId !in db.backups
    ensures var after := WithRecord(db, recordId, owner, data);
            && after == db.(backups := after.backups) && after.backups - {recordId} == db.backups
            && recordId in after.backups && after.backups[recordId] == HistoryRow(owner, data)
  {
  }

  // ---- which documents commit -----------------------------------------------------------------

  lemma {:induction false} InsertedOneByOne<R(!new)>(
      t: Table<R>, rows: Rows<R>, accepts: (Table<R>, R) -> bool)
    requires InsertRows(t, rows, accepts).Some?
    ensures NewIds(t, rows) && forall i :: 0 <= i < |rows| ==> AcceptedAt(t, rows, accepts, i)
  {
    if rows != [] {
      var front, n := Front(rows), |rows| - 1;
      InsertedOneByOne(t, front, accepts);
      InsertedIsUnion(t, front, accepts);
      forall i | 0 <= i < |rows| ensures AcceptedAt(t, rows, accepts, i) {
        if i < n {
          assert AcceptedAt(t, front, accepts, i) && front[..i] == rows[..i];
        } else {
          assert rows[..n] == front;
        }
      }
      forall i | 0 <= i < n ensures rows[i].0 != rows[n].0 {
        InsertedRow(t, front, accepts, i);
        assert front[i] == rows[i];
      }
    }
  }

  /** A list goes in exactly when its ids are new and distinct and every row is acceptable after those before it. */
  lemma InsertsExactlyWhen<R(!new)>(t: Table<R>, rows: Rows<R>, accepts: (Table<R>, R) -> bool)
    ensures InsertRows(t, rows, accepts).Some? <==>
            NewIds(t, rows) && forall i :: 0 <= i < |rows| ==> AcceptedAt(t, rows, accepts, i)
  {
    if InsertRows(t, rows, accepts).Some? { InsertedOneByOne(t, rows, accepts); }
    if NewIds(t, rows) && forall i :: 0 <= i < |rows| ==> AcceptedAt(t, rows, accepts, i) {
      InsertSucceeds(t, rows, accepts);
    }
  }

  /** Distinct ids, of which nobody else has one. */
  ghost predicate FreeIds<R>(rows: Rows<R>, taken: string -> bool) {
    && (forall i, j :: 0 <= i < j < |rows| ==> rows[i].0 != rows[j].0)
    && (forall i :: 0 <= i < |rows| ==> !taken(rows[i].0))
  }

  ghost predicate HasRow<R>(rows: Rows<R>, id: string) { exists i :: 0 <= i < |rows| && rows[i].0 == id }

  ghost predicate IdsFit(db: Db, owner: string, doc: Document) {
    && FreeIds(doc.keys, (id: string) => id in db.keys && !KeyIs(db, id, owner))
    && FreeIds(doc.vaults, (id: string) => id in db.vaults && !VaultIs(db, id, owner))
    && FreeIds(doc.entries, (id: string) => id in db.entries && !EntryIs(db, id, owner))
    && FreeIds(doc.backups, (id: string) => id in db.backups && !HistoryIs(db, id, owner))
    && FreeIds(doc.audits, (id: string) => id in db.audits && !AuditIs(db, id, owner))
  }

  /** The vault of every entry is in the document or somebody else's, and no name in it is taken. */
  ghost predicate EntriesAccepted(db: Db, owner: string, doc: Document) {
    && (forall i :: 0 <= i < |doc.entries| ==>
          var v := doc.entries[i].1.vault; (v in db.vaults && !VaultIs(db, v, owner)) || HasRow(doc.vaults, v))
    && (forall i, j :: 0 <= i < j < |doc.entries| ==> !SameSlot(doc.entries[i].1, doc.entries[j].1))
    && (forall i, e :: 0 <= i < |doc.entries| && e in db.entries && !EntryIs(db, e, owner) ==>
          !SameSlot(db.entries[e], doc.entries[i].1))
  }

  /** Every key an audit row names is in the document or somebody else's. */
  ghost predicate AuditsAccepted(db: Db, owner: string, doc: Document) {
    forall i :: 0 <= i < |doc.audits| && doc.audits[i].1.key.Some? ==>
      var k := doc.audits[i].1.key.value; (k in db.keys && !KeyIs(db, k, owner)) || HasRow(doc.keys, k)
  }

  lemma PlainRows<R(!new)>(t: Table<R>, rows: Rows<R>, accepts: (Table<R>, R) -> bool, f: R -> R, taken: string -> bool)
    requires forall u, i :: 0 <= i < |rows| ==> accepts(u, f(rows[i].1))
    requires forall id :: id in t <==> taken(id)
    ensures InsertRows(t, Mapped(rows, f), accepts).Some? <==> FreeIds(rows, taken)
    ensures InsertRows(t, Mapped(rows, f), accepts).Some? ==>
              forall id :: id in InsertRows(t, Mapped(rows, f), accepts).value <==> taken(id) || HasRow(rows, id)
  {
    InsertsExactlyWhen(t, Mapped(rows, f), accepts);
    if InsertRows(t, Mapped(rows, f), accepts).Some? {
      InsertedIsUnion(t, Mapped(rows, f), accepts);
      MappedKeys(rows, f);
      forall id ensures id in TableOf(rows) <==> HasRow(rows, id) { TableMember(rows, id); }
    }
  }

  lemma SlotsFree(rest: Table<EntryRow>, vaults: Table<VaultRow>, rows: Rows<EntryRow>, i: nat)
    requires i < |rows| && NewIds(rest, rows)
    ensures AcceptedAt(rest, rows, AcceptsEntry(vaults), i) <==>
            && rows[i].1.vault in vaults
            && (forall e :: e in rest ==> !SameSlot(rest[e], rows[i].1))
            && (forall j :: 0 <= j < i ==> !SameSlot(rows[j].1, rows[i].1))
  {
    var t := rest + TableOf(rows[..i]);
    forall e | e in TableOf(rows[..i]) ensures exists j :: 0 <= j < i && rows[j] == (e, t[e]) {
      TableValue(rows[..i], e);
      var j :| 0 <= j < |rows[..i]| && rows[..i][j] == (e, TableOf(rows[..i])[e]);
      assert rows[j] == (e, t[e]);
    }
    forall j | 0 <= j < i ensures rows[j].0 in t && t[rows[j].0] == rows[j].1 {
      assert rows[..i][j] == rows[j];
      TableMember(rows[..i], rows[j].0);
      TableValue(rows[..i], rows[j].0);
    }
    assert forall e :: e in TableOf(rows[..i]) ==> e !in rest;
  }

  lemma EntryRowsGoIn(rest: Table<EntryRow>, vaults: Table<VaultRow>, rows: Rows<EntryRow>)
    ensures InsertRows(rest, rows, AcceptsEntry(vaults)).Some? <==>
            && NewIds(rest, rows)
            && (forall i :: 0 <= i < |rows| ==> rows[i].1.vault in vaults)
            && (forall i, e :: 0 <= i < |rows| && e in rest ==> !SameSlot(rest[e], rows[i].1))
            && (forall j, i :: 0 <= j < i < |rows| ==> !SameSlot(rows[j].1, rows[i].1))
  {
    InsertsExactlyWhen(rest, rows, AcceptsEntry(vaults));
    if NewIds(rest, rows) {
      forall i | 0 <= i < |rows|
        ensures AcceptedAt(rest, rows, AcceptsEntry(vaults), i) <==>
                && rows[i].1.vault in vaults && (forall e :: e in rest ==> !SameSlot(rest[e], rows[i].1))
                && (forall j :: 0 <= j < i ==> !SameSlot(rows[j].1, rows[i].1))
      {
        SlotsFree(rest, vaults, rows, i);
      }
    }
  }

  lemma ClearedIds(db: Db, owner: string)
    requires Valid(db)
    ensures var rest := Cleared(db, owner);
            && rest.users == db.users
            && (forall id :: id in rest.keys <==> id in db.keys && !KeyIs(db, id, owner))
            && (forall id :: id in rest.vaults <==> id in db.vaults && !VaultIs(db, id, owner))
            && (forall id :: id in rest.entries <==> id in db.entries && !EntryIs(db, id, owner))
            && (forall id :: id in rest.entries ==> rest.entries[id] == db.entries[id])
            && (forall id :: id in rest.backups <==> id in db.backups && !HistoryIs(db, id, owner))
            && (forall id :: id in rest.audits <==> id in db.audits && !AuditIs(db, id, owner))
  {
  }

  lemma KeysAndVaultsGoIn(db: Db, owner: string, doc: Document)
    requires Valid(db) && owner in db.users
    ensures var rest := Cleared(db, owner);
            var keys := InsertRows(rest.keys, Mapped(doc.keys, OwnKey(owner)), AcceptsKey(db.users));
            && (keys.Some? <==> FreeIds(doc.keys, (id: string) => id in db.keys && !KeyIs(db, id, owner)))
            && (keys.Some? ==> forall id ::
                  id in keys.value <==> (id in db.keys && !KeyIs(db, id, owner)) || HasRow(doc.keys, id))
    ensures var rest := Cleared(db, owner);
            var vaults := InsertRows(rest.vaults, Mapped(doc.vaults, OwnVaultRow(owner)), AcceptsVault(db.users));
            && (vaults.Some? <==> FreeIds(doc.vaults, (id: string) => id in db.vaults && !VaultIs(db, id, owner)))
            && (vaults.Some? ==> forall id ::
                  id in vaults.value <==> (id in db.vaults && !VaultIs(db, id, owner)) || HasRow(doc.vaults, id))
  {
    ClearedIds(db, owner);
    PlainRows(Cleared(db, owner).keys, doc.keys, AcceptsKey(db.users), OwnKey(owner),
              (id: string) => id in db.keys && !KeyIs(db, id, owner));
    PlainRows(Cleared(db, owner).vaults, doc.vaults, AcceptsVault(db.users), OwnVaultRow(owner),
              (id: string) => id in db.vaults && !VaultIs(db, id, owner));
  }

  lemma HistoryGoesIn(db: Db, owner: string, doc: Document)
    requires Valid(db) && owner in db.users
    ensures InsertRows(Cleared(db, owner).backups, Mapped(doc.backups, OwnHistory(owner)),
                       AcceptsHistory(db.users)).Some?
            <==> FreeIds(doc.backups, (id: string) => id in db.backups && !HistoryIs(db, id, owner))
  {
    ClearedIds(db, owner);
    PlainRows(Cleared(db, owner).backups, doc.backups, AcceptsHistory(db.users), OwnHistory(owner),
              (id: string) => id in db.backups && !HistoryIs(db, id, owner));
  }

  lemma AuditsGoInExactly(db: Db, owner: string, doc: Document, keys: Table<KeyRow>)
    requires Valid(db) && owner in db.users
    ensures InsertRows(Cleared(db, owner).audits, Mapped(doc.audits, OwnAudit(owner)),
                       AcceptsAudit(db.users, keys)).Some?
            <==> && FreeIds(doc.audits, (id: string) => id in db.audits && !AuditIs(db, id, owner))
                 && forall i :: 0 <= i < |doc.audits| && doc.audits[i].1.key.Some? ==> doc.audits[i].1.key.value in keys
  {
    ClearedIds(db, owner);
    var rows, accepts := Mapped(doc.audits, OwnAudit(owner)), AcceptsAudit(db.users, keys);
    InsertsExactlyWhen(Cleared(db, owner).audits, rows, accepts);
    forall i | 0 <= i < |rows|
      ensures AcceptedAt(Cleared(db, owner).audits, rows, accepts, i)
              <==> (doc.audits[i].1.key.Some? ==> doc.audits[i].1.key.value in keys)
    {
    }
  }

  lemma EntriesGoInExactly(db: Db, owner: string, doc: Document, vaults: Table<VaultRow>)
    requires Valid(db)
    requires forall id ::
               id in vaults <==> (id in db.vaults && !VaultIs(db, id, owner)) || HasRow(doc.vaults, id)
    ensures InsertRows(Cleared(db, owner).entries, doc.entries, AcceptsEntry(vaults)).Some?
            <==> FreeIds(doc.entries, (id: string) => id in db.entries && !EntryIs(db, id, owner))
                 && EntriesAccepted(db, owner, doc)
  {
    ClearedIds(db, owner);
    EntryRowsGoIn(Cleared(db, owner).entries, vaults, doc.entries);
    EntryIdsNew(db, owner, doc);
  }

  lemma EntryIdsNew(db: Db, owner: string, doc: Document)
    requires Valid(db)
    ensures NewIds(Cleared(db, owner).entries, doc.entries)
            <==> FreeIds(doc.entries, (id: string) => id in db.entries && !EntryIs(db, id, owner))
  {
    ClearedIds(db, owner);
  }

  /**
   Exactly which documents a restore commits: those whose ids are distinct and nobody else's, whose entries have their
   vault and a free name in it, and whose audit rows have their key. Every other document leaves the database alone.
   */
  lemma CommitsExactlyWhen(db: Db, owner: string, doc: Document, recordId: string, data: string)
    requires Valid(db) && owner in db.users
    ensures Restored(db, owner, doc, recordId, data).Some? <==>
            IdsFit(db, owner, doc) && EntriesAccepted(db, owner, doc) && AuditsAccepted(db, owner, doc)
  {
    var rest := Cleared(db, owner);
    var keys := InsertRows(rest.keys, Mapped(doc.keys, OwnKey(owner)), AcceptsKey(db.users));
    var vaults := InsertRows(rest.vaults, Mapped(doc.vaults, OwnVaultRow(owner)), AcceptsVault(db.users));
    RefilledWhenAllGoIn(rest, owner, doc);
    KeysAndVaultsGoIn(db, owner, doc);
    HistoryGoesIn(db, owner, doc);
    if keys.Some? && vaults.Some? {
      AuditsGoInExactly(db, owner, doc, keys.value);
      EntriesGoInExactly(db, owner, doc, vaults.value);
      assert (forall i :: 0 <= i < |doc.audits| && doc.audits[i].1.key.Some? ==>
                doc.audits[i].1.key.value in keys.value) <==> AuditsAccepted(db, owner, doc);
    }
  }

  lemma RefilledWhenAllGoIn(db: Db, owner: string, doc: Document)
    ensures var keys := InsertRows(db.keys, Mapped(doc.keys, OwnKey(owner)), AcceptsKey(db.users));
            var vaults := InsertRows(db.vaults, Mapped(doc.vaults, OwnVaultRow(owner)), AcceptsVault(db.users));
            Refilled(db, owner, doc).Some? <==>
            && keys.Some? && vaults.Some?
            && InsertRows(db.entries, doc.entries, AcceptsEntry(vaults.value)).Some?
            && InsertRows(db.backups, Mapped(doc.backups, OwnHistory(owner)), AcceptsHistory(db.users)).Some?
            && InsertRows(db.audits, Mapped(doc.audits, OwnAudit(owner)), AcceptsAudit(db.users, keys.value)).Some?
  {
  }
}
