/**
 Exactly when each call of internal/vault/vault.go succeeds, and every row it leaves, column by column.
 */
module StoreEffects {
  import opened Text
  import opened VaultStore

  /** The entry is in a vault of the caller. */
  predicate Mine(db: Db, owner: string, id: string) {
    && id in db.entries && db.entries[id].vault in db.vaults && db.vaults[db.entries[id].vault].owner == owner
  }

  /** Another entry of the vault has the path. */
  ghost predicate NameTaken(db: Db, vault: string, path: string, id: string) {
    exists e :: e in db.entries && e != id && db.entries[e].vault == vault && db.entries[e].path == path
  }

  ghost predicate SameVaults(before: Db, after: Db) { after.vaults == before.vaults }

  ghost predicate SameEntries(before: Db, after: Db) { after.entries == before.entries }

  /** Only this entry may differ. */
  ghost predicate OnlyEntry(before: Db, after: Db, id: string) {
    && SameVaults(before, after)
    && (forall e :: e != id ==> (e in after.entries <==> e in before.entries))
    && (forall e :: e != id && e in before.entries ==> after.entries[e] == before.entries[e])
  }

  /** Only this vault may differ. */
  ghost predicate OnlyVault(before: Db, after: Db, id: string) {
    && SameEntries(before, after)
    && (forall v :: v != id ==> (v in after.vaults <==> v in before.vaults))
    && (forall v :: v != id && v in before.vaults ==> after.vaults[v] == before.vaults[v])
  }

  /** A refused call says why and changes nothing. */
  ghost predicate Refused(before: Db, o: Outcome, error: Error) { o == Outcome(before, Failed(error)) }

  function KindOf(input: EntryInput): string { if Trim(input.kind) != "" then Trim(input.kind) else "login" }

  // ---- entries --------------------------------------------------------------------------------

  /**
   An edit succeeds exactly for a path, an entry of the caller and a name that no other entry of its vault has. It
   changes path, kind, metadata, tags and time to what was asked; vault, second factor and creation time stay; and a
   blank value leaves the stored secret as it is, where any other is sealed.
   */
  lemma EntryEdited(box: Box, db: Db, owner: string, id: string, input: EntryInput, nonce: int, now: int)
    ensures var o := Step(box, db, owner, UpdateEntry(id, input, nonce, now));
            var path := Trim(input.path);
            if path == "" then Refused(db, o, PathRequired)
            else if !Mine(db, owner, id) then Refused(db, o, NotFound)
            else if NameTaken(db, db.entries[id].vault, path, id) then Refused(db, o, Duplicate)
            else
              && OnlyEntry(db, o.db, id) && id in o.db.entries && o.result == OneEntry(id, View(o.db.entries[id]))
              && var was, row := db.entries[id], o.db.entries[id];
                 && row.path == path && row.kind == KindOf(input) && row.metadata == input.metadata
                 && row.tags == input.tags && row.updated == now
                 && row.vault == was.vault && row.totp == was.totp && row.created == was.created
                 && row.value == if Trim(input.value) == "" then was.value else box.seal(input.value, nonce)
  {
  }

  /** What the owner is shown of an entry's secret. */
  function Revealed(box: Box, db: Db, owner: string, id: string): Result {
    Step(box, db, owner, RevealEntry(id)).result
  }

  /** An edit without a value keeps the secret that every owner is shown of every entry, this one included. */
  lemma BlankValueKeepsSecret(
      box: Box, db: Db, owner: string, id: string, input: EntryInput, nonce: int, now: int, viewer: string, e: string)
    requires Trim(input.value) == ""
    ensures Revealed(box, Step(box, db, owner, UpdateEntry(id, input, nonce, now)).db, viewer, e)
            == Revealed(box, db, viewer, e)
  {
    EntryEdited(box, db, owner, id, input, nonce, now);
  }

  /** A new value is what the owner is shown afterwards. */
  lemma NewValueIsShown(box: Box, db: Db, owner: string, id: string, input: EntryInput, nonce: int, now: int)
    requires Lawful(box) && Trim(input.value) != ""
    ensures var o := Step(box, db, owner, UpdateEntry(id, input, nonce, now));
            o.result.OneEntry? ==> Revealed(box, o.db, owner, id) == Value(input.value)
  {
    EntryEdited(box, db, owner, id, input, nonce, now);
  }

  /** The vault the owner has longest; of equals the one with the smaller id. */
  ghost predicate IsEldest(db: Db, owner: string, v: string) {
    && v in db.vaults && db.vaults[v].owner == owner
    && forall u :: u in db.vaults && db.vaults[u].owner == owner && u != v ==>
         db.vaults[v].created < db.vaults[u].created || (db.vaults[v].created == db.vaults[u].created && Less(v, u))
  }

  ghost predicate HasVault(db: Db, owner: string) { exists v :: v in db.vaults && db.vaults[v].owner == owner }

  /**
   Where a new entry goes: into the vault that was named, if it is the owner's; without a name into the owner's oldest;
   and if there is none into a new vault "Principal".
   */
  ghost predicate GoesTo(db: Db, owner: string, vaultId: string, spare: string, v: string) {
    if Trim(vaultId) != "" then v == Trim(vaultId) && v in db.vaults && db.vaults[v].owner == owner
    else if HasVault(db, owner) then IsEldest(db, owner, v)
    else v == spare
  }

  lemma OldestIsEldest(db: Db, owner: string)
    requires HasVault(db, owner)
    ensures VaultsOf(db, owner) != map[] && forall v :: IsEldest(db, owner, v) <==> v == Oldest(VaultsOf(db, owner))
  {
    var mine := VaultsOf(db, owner);
    var w :| w in db.vaults && db.vaults[w].owner == owner;
    assert w in mine;
    var oldest := Oldest(mine);
    forall u | u in db.vaults && db.vaults[u].owner == owner && u != oldest
      ensures db.vaults[oldest].created < db.vaults[u].created
              || (db.vaults[oldest].created == db.vaults[u].created && Less(oldest, u))
    {
      assert u in mine && Older(mine, oldest, u);
    }
    assert IsEldest(db, owner, oldest);
    forall v | IsEldest(db, owner, v) ensures v == oldest {
      LessTotal(v, oldest);
    }
  }

  lemma DestinationMeans(db: Db, owner: string, op: Op)
    requires op.CreateEntry? && op.spareVaultId !in db.vaults
    ensures var (db', vault) := Destination(db, owner, op);
            && (forall v :: GoesTo(db, owner, op.input.vaultId, op.spareVaultId, v) <==> vault == Some(v))
            && db' == if Trim(op.input.vaultId) == "" && !HasVault(db, owner) then
                        Db(db.vaults[op.spareVaultId :=
                             VaultRow(owner, "Principal", "Cofre principal", op.now, op.now)], db.entries)
                      else db
  {
    if HasVault(db, owner) {
      OldestIsEldest(db, owner);
    } else {
      assert VaultsOf(db, owner) == map[];
    }
  }

  /** The row of a new entry. */
  function NewRow(box: Box, vault: string, input: EntryInput, nonce: int, now: int): EntryRow {
    EntryRow(vault, Trim(input.path), KindOf(input), box.seal(input.value, nonce), input.metadata, input.tags,
             None, now, now)
  }

  /** Exactly when an entry is created, where, and with which columns; a vault is made only for an owner without one. */
  lemma EntryCreated(box: Box, db: Db, owner: string, op: Op, v: string)
    requires op.CreateEntry? && Valid(db) && Fresh(db, op)
    ensures var o, path := Step(box, db, owner, op), Trim(op.input.path);
            var goes := GoesTo(db, owner, op.input.vaultId, op.spareVaultId, v);
            && (path == "" ==> Refused(db, o, PathRequired))
            && (path != "" && Trim(op.input.vaultId) != "" && v == Trim(op.input.vaultId) && !goes ==>
                  Refused(db, o, Forbidden))
            && (path != "" && goes && NameTaken(db, v, path, op.id) ==> o.result == Failed(Duplicate))
            && (path != "" && goes && !NameTaken(db, v, path, op.id) ==>
                  && o.result == OneEntry(op.id, View(NewRow(box, v, op.input, op.nonce, op.now)))
                  && o.db.entries == db.entries[op.id := NewRow(box, v, op.input, op.nonce, op.now)])
            && o.db.vaults == (if path != "" && Trim(op.input.vaultId) == "" && !HasVault(db, owner) then
                                 db.vaults[op.spareVaultId :=
                                   VaultRow(owner, "Principal", "Cofre principal", op.now, op.now)]
                               else db.vaults)
            && (!o.result.OneEntry? ==> o.db.entries == db.entries)
  {
    DestinationMeans(db, owner, op);
    var path := Trim(op.input.path);
    var (db', vault) := Destination(db, owner, op);
    if path != "" && vault == Some(v) {
      assert PathTaken(db', v, path, op.id) == NameTaken(db, v, path, op.id);
    }
  }

  /** Only an entry of the caller is deleted, and alone. */
  lemma EntryDeleted(box: Box, db: Db, owner: string, id: string)
    ensures var o := Step(box, db, owner, DeleteEntry(id));
            if !Mine(db, owner, id) then Refused(db, o, NotFound)
            else o.result == Done && id !in o.db.entries && OnlyEntry(db, o.db, id)
  {
  }

  /** Exactly the caller's entries are shown and revealed, each as its row has it. */
  lemma EntryRead(box: Box, db: Db, owner: string, id: string)
    ensures Step(box, db, owner, GetEntry(id))
            == Outcome(db, if Mine(db, owner, id) then OneEntry(id, View(db.entries[id])) else Failed(NotFound))
    ensures Revealed(box, db, owner, id)
            == if !Mine(db, owner, id) then Failed(NotFound)
               else if box.open(db.entries[id].value).None? then Failed(Undecryptable)
               else Value(box.open(db.entries[id].value).value)
  {
  }

  /** What is shown of a row: never its value, and of the second factor only whether there is one. */
  ghost predicate Shows(view: EntryView, row: EntryRow) {
    && view.vault == row.vault && view.path == row.path && view.kind == row.kind && view.metadata == row.metadata
    && view.tags == row.tags && view.created == row.created && view.updated == row.updated
    && (view.hasTotp <==> exists secret :: row.totp == Some(secret) && secret != "")
  }

  /** A listing holds exactly the caller's entries: of the named vault, else of the scope, else of all vaults. */
  lemma EntriesListed(box: Box, db: Db, owner: string, vault: string, scope: seq<string>)
    ensures var o := Step(box, db, owner, ListEntries(vault, scope));
            && o.db == db && o.result.Entries?
            && forall e :: && (e in o.result.entries <==>
                                 && Mine(db, owner, e)
                                 && (Trim(vault) != "" ==> db.entries[e].vault == vault)
                                 && (Trim(vault) == "" && scope != [] ==> db.entries[e].vault in scope))
                           && (e in o.result.entries ==> Shows(o.result.entries[e], db.entries[e]))
  {
  }

  // ---- vaults ---------------------------------------------------------------------------------

  /** A vault is created under the caller with trimmed name and description, exactly when the name is not blank. */
  lemma VaultCreated(box: Box, db: Db, owner: string, id: string, name: string, description: string, now: int)
    ensures var o, row := Step(box, db, owner, CreateVault(name, description, id, now)),
                          VaultRow(owner, Trim(name), Trim(description), now, now);
            if Trim(name) == "" then Refused(db, o, NameRequired)
            else o.result == OneVault(id, row) && OnlyVault(db, o.db, id) && id in o.db.vaults && o.db.vaults[id] == row
  {
  }

  /** A vault of the caller gets the new name, description and time; owner and creation time stay. */
  lemma VaultEdited(box: Box, db: Db, owner: string, id: string, name: string, description: string, now: int)
    ensures var o := Step(box, db, owner, UpdateVault(id, name, description, now));
            if Trim(name) == "" then Refused(db, o, NameRequired)
            else if !(id in db.vaults && db.vaults[id].owner == owner) then Refused(db, o, NotFound)
            else
              var row := VaultRow(owner, Trim(name), Trim(description), db.vaults[id].created, now);
              o.result == OneVault(id, row) && OnlyVault(db, o.db, id) && id in o.db.vaults && o.db.vaults[id] == row
  {
  }

  /** A vault of the caller goes with exactly its entries. */
  lemma VaultDeleted(box: Box, db: Db, owner: string, id: string)
    ensures var o := Step(box, db, owner, DeleteVault(id));
            if !(id in db.vaults && db.vaults[id].owner == owner) then Refused(db, o, NotFound)
            else
              && o.result == Done
              && (forall v :: v in o.db.vaults <==> v in db.vaults && v != id)
              && (forall v :: v in o.db.vaults ==> o.db.vaults[v] == db.vaults[v])
              && (forall e :: e in o.db.entries <==> e in db.entries && db.entries[e].vault != id)
              && (forall e :: e in o.db.entries ==> o.db.entries[e] == db.entries[e])
  {
  }

  /** A listing holds exactly the caller's vaults of the scope. */
  lemma VaultsListed(box: Box, db: Db, owner: string, scope: seq<string>)
    ensures var o := Step(box, db, owner, ListVaults(scope));
            && o.db == db && o.result.Vaults?
            && forall v :: && (v in o.result.vaults <==> v in db.vaults && db.vaults[v].owner == owner
                                                         && (scope == [] || v in scope))
                           && (v in o.result.vaults ==> o.result.vaults[v] == db.vaults[v])
  {
  }
}
