/** The service of internal/vault/vault.go: two tables updated in place, call by call. */
module VaultService {
  import opened Text
  import opened VaultStore
  import opened ApiScope
  import HostMatch

  lemma DefaultNamesAreTrimmed()
    ensures Trim("Principal") == "Principal" && Trim("Cofre principal") == "Cofre principal"
  {
    TrimFixpoint("Principal");
    TrimFixpoint("Cofre principal");
  }

  /** Every other owner's vaults and entries are as before. */
  ghost predicate OthersSame(before: Db, after: Db, owner: string) {
    forall other :: other != owner ==> Owned(after, other) == Owned(before, other)
  }

  lemma StepOthersSame(box: Box, db: Db, owner: string, op: Op)
    requires Valid(db) && Fresh(db, op)
    ensures OthersSame(db, Step(box, db, owner, op).db, owner)
  {
    forall other | other != owner ensures Owned(Step(box, db, owner, op).db, other) == Owned(db, other) {
      OthersUntouched(box, db, owner, op, other);
    }
  }

  class Service {
    const box: Box
    var vaults: map<string, VaultRow>
    var entries: map<string, EntryRow>

    /** The tables as one value. */
    function Tables(): Db
      reads this
    {
      Db(vaults, entries)
    }

    constructor (box: Box)
      ensures this.box == box && Tables() == Db(map[], map[]) && Valid(Tables())
    {
      this.box := box;
      vaults, entries := map[], map[];
    }

    method CreateVault(owner: string, name: string, description: string, id: string, now: int) returns (r: Result)
      requires id !in vaults
      modifies this
      ensures Outcome(Tables(), r) == Step(box, old(Tables()), owner, Op.CreateVault(name, description, id, now))
      ensures Valid(old(Tables())) ==> OthersSame(old(Tables()), Tables(), owner)
    {
      if Valid(Tables()) { StepOthersSame(box, Tables(), owner, Op.CreateVault(name, description, id, now)); }
      var trimmed := Trim(name);
      if trimmed == "" { return Failed(NameRequired); }
      vaults := vaults[id := VaultRow(owner, trimmed, Trim(description), now, now)];
      r := GetVault(owner, id);
    }

    method GetVault(owner: string, id: string) returns (r: Result)
      ensures Outcome(Tables(), r) == Step(box, Tables(), owner, Op.GetVault(id))
    {
      if id !in vaults || vaults[id].owner != owner { return Failed(NotFound); }
      return OneVault(id, vaults[id]);
    }

    method UpdateVault(owner: string, id: string, name: string, description: string, now: int) returns (r: Result)
      modifies this
      ensures Outcome(Tables(), r) == Step(box, old(Tables()), owner, Op.UpdateVault(id, name, description, now))
      ensures Valid(old(Tables())) ==> OthersSame(old(Tables()), Tables(), owner)
    {
      if Valid(Tables()) { StepOthersSame(box, Tables(), owner, Op.UpdateVault(id, name, description, now)); }
      var trimmed := Trim(name);
      if trimmed == "" { return Failed(NameRequired); }
      if id !in vaults || vaults[id].owner != owner { return Failed(NotFound); }
      vaults := vaults[id := vaults[id].(name := trimmed, description := Trim(description), updated := now)];
      r := GetVault(owner, id);
    }

    /** DELETE, with the cascade to the vault's entries. */
    method DeleteVault(owner: string, id: string) returns (r: Result)
      modifies this
      ensures Outcome(Tables(), r) == Step(box, old(Tables()), owner, Op.DeleteVault(id))
      ensures Valid(old(Tables())) ==> OthersSame(old(Tables()), Tables(), owner)
    {
      if Valid(Tables()) { StepOthersSame(box, Tables(), owner, Op.DeleteVault(id)); }
      if id !in vaults || vaults[id].owner != owner { return Failed(NotFound); }
      vaults := vaults - {id};
      entries := map e | e in entries && entries[e].vault != id :: entries[e];
      return Done;
    }

    method OwnsVault(owner: string, id: string) returns (owns: bool)
      ensures owns == VaultStore.OwnsVault(Tables(), owner, id)
    {
      return id in vaults && vaults[id].owner == owner;
    }

    /** The first part of CreateEntry: the named vault, else the oldest one, else a new "Principal". */
    method DestinationVault(owner: string, ghost op: Op, wanted: string, spareVaultId: string, now: int)
      returns (vault: Option<string>)
      requires op.CreateEntry? && wanted == Trim(op.input.vaultId) && spareVaultId == op.spareVaultId && now == op.now
      requires spareVaultId !in vaults
      modifies this
      ensures (Tables(), vault) == Destination(old(Tables()), owner, op)
    {
      if wanted != "" {
        var owns := OwnsVault(owner, wanted);
        return if owns then Some(wanted) else None;
      }
      var mine := VaultsOf(Tables(), owner);
      if mine != map[] { return Some(Oldest(mine)); }
      DefaultNamesAreTrimmed();
      var _ := CreateVault(owner, "Principal", "Cofre principal", spareVaultId, now);
      return Some(spareVaultId);
    }

    method CreateEntry(owner: string, input: EntryInput, id: string, spareVaultId: string, nonce: int, now: int)
      returns (r: Result)
      requires Valid(Tables()) && id !in entries && spareVaultId !in vaults
      modifies this
      ensures Valid(Tables())
      ensures Outcome(Tables(), r)
           == Step(box, old(Tables()), owner, Op.CreateEntry(input, id, spareVaultId, nonce, now))
      ensures OthersSame(old(Tables()), Tables(), owner)
    {
      StepOthersSame(box, Tables(), owner, Op.CreateEntry(input, id, spareVaultId, nonce, now));
      ghost var op := Op.CreateEntry(input, id, spareVaultId, nonce, now);
      StepValid(box, Tables(), owner, op);
      var path := Trim(input.path);
      if path == "" { return Failed(PathRequired); }
      var kind := Trim(input.kind);
      if kind == "" { kind := "login"; }
      var vault := DestinationVault(owner, op, Trim(input.vaultId), spareVaultId, now);
      if vault.None? { return Failed(Forbidden); }
      var sealed := box.seal(input.value, nonce);
      if PathTaken(Tables(), vault.value, path, id) { return Failed(Duplicate); }
      entries := entries[id := EntryRow(vault.value, path, kind, sealed, input.metadata, input.tags, None, now, now)];
      return OneEntry(id, View(entries[id]));
    }

    method UpdateEntry(owner: string, id: string, input: EntryInput, nonce: int, now: int) returns (r: Result)
      modifies this
      ensures Outcome(Tables(), r) == Step(box, old(Tables()), owner, Op.UpdateEntry(id, input, nonce, now))
      ensures Valid(old(Tables())) ==> OthersSame(old(Tables()), Tables(), owner)
    {
      if Valid(Tables()) { StepOthersSame(box, Tables(), owner, Op.UpdateEntry(id, input, nonce, now)); }
      var path := Trim(input.path);
      if path == "" { return Failed(PathRequired); }
      var kind := Trim(input.kind);
      if kind == "" { kind := "login"; }
      if !OwnsEntry(Tables(), owner, id) { return Failed(NotFound); }
      if PathTaken(Tables(), entries[id].vault, path, id) { return Failed(Duplicate); }
      var row := entries[id].(path := path, kind := kind, metadata := input.metadata, tags := input.tags,
                              updated := now);
      if Trim(input.value) != "" { row := row.(value := box.seal(input.value, nonce)); }
      entries := entries[id := row];
      return OneEntry(id, View(row));
    }

    method DeleteEntry(owner: string, id: string) returns (r: Result)
      modifies this
      ensures Outcome(Tables(), r) == Step(box, old(Tables()), owner, Op.DeleteEntry(id))
      ensures Valid(old(Tables())) ==> OthersSame(old(Tables()), Tables(), owner)
    {
      if Valid(Tables()) { StepOthersSame(box, Tables(), owner, Op.DeleteEntry(id)); }
      if !OwnsEntry(Tables(), owner, id) { return Failed(NotFound); }
      entries := entries - {id};
      return Done;
    }

    method RevealEntry(owner: string, id: string) returns (r: Result)
      ensures Outcome(Tables(), r) == Step(box, Tables(), owner, Op.RevealEntry(id))
      ensures r.Value? ==> OwnsEntry(Tables(), owner, id) && box.open(entries[id].value) == Some(r.value)
    {
      if !OwnsEntry(Tables(), owner, id) { return Failed(NotFound); }
      var plain := box.open(entries[id].value);
      if plain.None? { return Failed(Undecryptable); }
      return Value(plain.value);
    }

    // ---- handlers for API keys ------------------------------------------------------------------

    method ApiGetEntry(key: Key, id: string) returns (r: Result)
      ensures Outcome(Tables(), r) == ApiStep(box, Tables(), key, Op.RevealEntry(id))
      ensures r.Value? && "" !in entries ==> OwnsEntry(Tables(), key.owner, id) && CanAccess(key, entries[id].vault)
    {
      var found := OwnsEntry(Tables(), key.owner, id);
      var vault := if found then entries[id].vault else "";
      if !CanAccess(key, vault) { return Failed(Forbidden); }
      r := RevealEntry(key.owner, if found then id else "");
    }

    method ApiCreateEntry(key: Key, input: EntryInput, id: string, spareVaultId: string, nonce: int, now: int)
      returns (r: Result)
      requires Valid(Tables()) && id !in entries && spareVaultId !in vaults
      modifies this
      ensures Valid(Tables())
      ensures Outcome(Tables(), r)
              == ApiStep(box, old(Tables()), key, Op.CreateEntry(input, id, spareVaultId, nonce, now))
      ensures OthersSame(old(Tables()), Tables(), key.owner)
    {
      if !CanAccess(key, input.vaultId) { return Failed(Forbidden); }
      r := CreateEntry(key.owner, input, id, spareVaultId, nonce, now);
    }

    method ApiUpdateEntry(key: Key, id: string, input: EntryInput, nonce: int, now: int) returns (r: Result)
      modifies this
      ensures Outcome(Tables(), r) == ApiStep(box, old(Tables()), key, Op.UpdateEntry(id, input, nonce, now))
      ensures Valid(old(Tables())) ==> OthersSame(old(Tables()), Tables(), key.owner)
    {
      if !OwnsEntry(Tables(), key.owner, id) { return Failed(NotFound); }
      if !CanAccess(key, entries[id].vault) { return Failed(Forbidden); }
      r := UpdateEntry(key.owner, id, input, nonce, now);
    }

    method ApiDeleteEntry(key: Key, id: string) returns (r: Result)
      modifies this
      ensures Outcome(Tables(), r) == ApiStep(box, old(Tables()), key, Op.DeleteEntry(id))
      ensures Valid(old(Tables())) ==> OthersSame(old(Tables()), Tables(), key.owner)
    {
      if !OwnsEntry(Tables(), key.owner, id) { return Failed(NotFound); }
      if !CanAccess(key, entries[id].vault) { return Failed(Forbidden); }
      r := DeleteEntry(key.owner, id);
    }

    /** listEntries: the owner's rows, in the order the database gives them. */
    method ListInOrder(owner: string, order: seq<string>) returns (listed: seq<HostMatch.Entry>)
      ensures listed == Listings(Tables(), owner, order)
    {
      listed := [];
      for i := 0 to |order|
        invariant listed + Listings(Tables(), owner, order[i..]) == Listings(Tables(), owner, order)
      {
        assert order[i..][0] == order[i] && order[i..][1..] == order[i + 1..];
        if OwnsEntry(Tables(), owner, order[i]) { listed := listed + [Listing(order[i], entries[order[i]])]; }
      }
    }

    /** The matches of a host, cut down in place to the key's scope. */
    method MatchInScope(key: Key, host: string, hostname: string -> string, order: seq<string>)
      returns (hits: seq<HostMatch.Match>)
      ensures hits == Hits(Tables(), key, host, hostname, order)
    {
      var listed := ListInOrder(key.owner, order);
      var all := HostMatch.MatchEntries(listed, host, hostname);
      var matches := new HostMatch.Match[|all|](i requires 0 <= i < |all| => all[i]);
      assert matches[..] == all;
      var n := HostMatch.KeepInScope(matches, key.scope);
      hits := matches[..n];
    }

    method RevealHits(owner: string, hits: seq<HostMatch.Match>, withValues: bool) returns (found: seq<Found>)
      ensures found == Reveal(box, Tables(), owner, hits, withValues)
    {
      found := [];
      for i := 0 to |hits|
        invariant |found| == i
        invariant forall k :: 0 <= k < i ==> found[k] == Reveal(box, Tables(), owner, hits, withValues)[k]
      {
        var value := "";
        if withValues {
          var plain := RevealEntry(owner, hits[i].entry.id);
          if plain.Value? { value := plain.value; }
        }
        found := found + [Found(hits[i], value)];
      }
    }

    /** GET /api/v1/entries/match: one answer of the run's match step; nothing is written. */
    method ApiMatchEntries(key: Key, url: string, hostname: string -> string, order: seq<string>, withValues: bool)
      returns (r: Reply)
      ensures (Tables(), r) == Served(box, Tables(), key, MatchUrl(url, hostname, order, withValues))
      ensures r.Matches? && key.scope != [] ==> forall f :: f in r.found ==> FoundInScope(Tables(), key.scope, f)
    {
      var target := Trim(url);
      if target == "" { return UrlRequired; }
      var hits := MatchInScope(key, hostname(target), hostname, order);
      var found := RevealHits(key.owner, hits, withValues);
      if key.scope != [] { MatchConfined(box, Tables(), key, MatchUrl(url, hostname, order, withValues)); }
      return Matches(found);
    }

    /** GET /api/v1/entries/{id}/code of the authenticator. */
    method ApiCurrentCode(key: Key, id: string, generate: string -> Option<string>) returns (r: Reply)
      ensures (Tables(), r) == Served(box, Tables(), key, CurrentCode(id, generate))
      ensures r.Code? ==> OwnsEntry(Tables(), key.owner, r.entry) && CanAccess(key, entries[r.entry].vault)
    {
      var found := OwnsEntry(Tables(), key.owner, id);
      if !found { return Plain(Failed(NotFound)); }
      if !CanAccess(key, entries[id].vault) { return Plain(Failed(Forbidden)); }
      var stored := entries[id].totp;
      if stored.None? || stored.value == "" { return Plain(Failed(NotFound)); }
      var secret := box.open(stored.value);
      if secret.None? { return CodeFailed; }
      var code := generate(secret.value);
      if code.None? { return CodeFailed; }
      return Code(id, code.value);
    }
  }
}
