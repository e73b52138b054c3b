/**
 Exactly what an API key gets from each route under /api/v1: nothing without the route's permission, and with it what
 its owner would get, as far as its scope goes (internal/vault/vault.go, internal/authenticator, cmd/server).
 */
module RouteAnswers {
  import opened Text
  import opened VaultStore
  import opened ApiScope
  import opened StoreEffects
  import opened Seqs
  import HostMatch

  /** The key may look into the vault: it is named in the scope, or no scope is given. */
  ghost predicate Sees(key: Key, vault: string) {
    |key.scope| == 0 || exists i :: 0 <= i < |key.scope| && key.scope[i] == vault
  }

  /** What a route asks for. */
  ghost predicate Permits(key: Key, call: Call) {
    match call
    case Ask(op) =>
      (match op
       case ListVaults(_) => "vaults:read" in key.permissions
       case GetVault(_) => "vaults:read" in key.permissions
       case ListEntries(_, _) => "entries:read" in key.permissions
       case RevealEntry(_) => "entries:read" in key.permissions
       case CreateEntry(_, _, _, _, _) => "entries:write" in key.permissions
       case UpdateEntry(_, _, _, _) => "entries:write" in key.permissions
       case DeleteEntry(_) => "entries:write" in key.permissions
       case _ => true)
    case MatchUrl(_, _, _, _) => "entries:read" in key.permissions
    case CurrentCode(_, _) => "entries:read" in key.permissions
    case ExportBackup(_) => "backup:create" in key.permissions
    case RestoreBackup(_, _) => "backup:restore" in key.permissions
  }

  /** Without its permission a route does nothing and says only that. */
  lemma PermissionDecides(box: Box, db: Db, key: Key, call: Call)
    ensures CallStep(box, db, key, call) == if Permits(key, call) then Served(box, db, key, call) else (db, Denied)
    ensures Permits(key, call) ==> CallStep(box, db, key, call).1 != Denied
  {
    assert "vaults:read" != "" && "entries:read" != "" && "entries:write" != "" && "backup:create" != ""
           && "backup:restore" != "";
  }

  /** The routes of one entry: in a vault the key sees they answer as to the owner, in another they refuse. */
  lemma EntryRoutes(box: Box, db: Db, key: Key, op: Op, id: string)
    requires op == RevealEntry(id) || op == DeleteEntry(id) || (op.UpdateEntry? && op.entryId == id)
    ensures var o := ApiStep(box, db, key, op);
            && (Mine(db, key.owner, id) && Sees(key, db.entries[id].vault) ==> o == Step(box, db, key.owner, op))
            && (Mine(db, key.owner, id) && !Sees(key, db.entries[id].vault) ==> Refused(db, o, Forbidden))
            && (!Mine(db, key.owner, id) && !op.RevealEntry? ==> Refused(db, o, NotFound))
            && (!Mine(db, key.owner, id) && op.RevealEntry? ==>
                  if Sees(key, "") then o == Step(box, db, key.owner, RevealEntry("")) else Refused(db, o, Forbidden))
  {
  }

  /** A vault is shown, and an entry made, as for the owner when the key sees the vault that the request names. */
  lemma VaultRoutes(box: Box, db: Db, key: Key, op: Op)
    requires op.GetVault? || op.CreateEntry?
    ensures var o, vault := ApiStep(box, db, key, op), if op.GetVault? then op.vaultId else op.input.vaultId;
            if Sees(key, vault) then o == Step(box, db, key.owner, op) else Refused(db, o, Forbidden)
  {
  }

  /** The listings hold exactly the owner's vaults and entries that the key sees; another vault's is refused. */
  lemma ListRoutes(box: Box, db: Db, key: Key, vault: string, scope: seq<string>)
    ensures var o := ApiStep(box, db, key, ListVaults(scope));
            && o.db == db && o.result.Vaults?
            && forall v :: v in o.result.vaults <==> v in db.vaults && db.vaults[v].owner == key.owner && Sees(key, v)
    ensures var o := ApiStep(box, db, key, ListEntries(vault, scope));
            if vault != "" && !Sees(key, vault) then Refused(db, o, Forbidden)
            else
              && o.db == db && o.result.Entries?
              && forall e :: e in o.result.entries <==>
                   && Mine(db, key.owner, e)
                   && if Trim(vault) != "" then db.entries[e].vault == vault else Sees(key, db.entries[e].vault)
  {
    VaultsListed(box, db, key.owner, key.scope);
    EntriesListed(box, db, key.owner, vault, key.scope);
  }

  /** A code is made of the stored secret of an entry in a vault the key sees, and of nothing else. */
  lemma CodeRoute(box: Box, db: Db, key: Key, id: string, generate: string -> Option<string>, code: string)
    ensures var (after, reply) := Served(box, db, key, CurrentCode(id, generate));
            && after == db
            && (reply.Code? && reply.code == code <==>
                && Mine(db, key.owner, id) && Sees(key, db.entries[id].vault)
                && exists stored, secret ::
                     && db.entries[id].totp == Some(stored) && stored != "" && box.open(stored) == Some(secret)
                     && generate(secret) == Some(code))
            && (reply.Code? ==> reply.entry == id)
            && (!Mine(db, key.owner, id) ==> reply == Plain(Failed(NotFound)))
            && (Mine(db, key.owner, id) && !Sees(key, db.entries[id].vault) ==> reply == Plain(Failed(Forbidden)))
  {
  }

  /** A hit carries the owner's value of its entry, when values are asked for and it opens, and else none. */
  lemma MatchRoute(box: Box, db: Db, key: Key, call: Call)
    requires call.MatchUrl?
    ensures var (after, reply) := Served(box, db, key, call);
            && after == db
            && (Trim(call.url) == "" <==> reply == UrlRequired)
            && (Trim(call.url) != "" ==>
                  && reply.Matches?
                  && forall f :: f in reply.found ==>
                       && Mine(db, key.owner, f.hit.entry.id) && Sees(key, db.entries[f.hit.entry.id].vault)
                       && f.value == (match Revealed(box, db, key.owner, f.hit.entry.id)
                                      case Value(value) => if call.withValues then value else ""
                                      case _ => ""))
  {
    var host := call.hostname(Trim(call.url));
    if Trim(call.url) != "" {
      var hits := Hits(db, key, host, call.hostname, call.order);
      forall f | f in Served(box, db, key, call).1.found
        ensures Mine(db, key.owner, f.hit.entry.id) && Sees(key, db.entries[f.hit.entry.id].vault)
      {
        assert f.hit in hits;
        HitMember(db, key, host, call.hostname, call.order, f.hit);
      }
    }
  }

  /** The best match comes first, and among equals the smaller name. */
  lemma MatchesRanked(box: Box, db: Db, key: Key, call: Call, i: nat, j: nat)
    requires call.MatchUrl? && Served(box, db, key, call).1.Matches?
    requires i < j < |Served(box, db, key, call).1.found|
    ensures var found := Served(box, db, key, call).1.found;
            && found[j].hit.score <= found[i].hit.score
            && (found[j].hit.score == found[i].hit.score ==>
                  !Less(found[j].hit.entry.path, found[i].hit.entry.path))
  {
    var host := call.hostname(Trim(call.url));
    var entries := Listings(db, key.owner, call.order);
    var hits := Hits(db, key, host, call.hostname, call.order);
    HostMatch.ScopedMatchesAreMatchesOfTheScope(entries, key.scope, host, call.hostname);
    HostMatch.StableSortSorted(
      HostMatch.Candidates(Filter(entries, HostMatch.EntryInScope(key.scope)), host, call.hostname));
    HostMatch.SortedIsRanked(hits);
    assert HostMatch.Ranked(hits);
  }

  /** An export holds exactly the owner's vaults and their entries, whatever the scope. */
  lemma ExportRoute(box: Box, db: Db, key: Key, password: string)
    ensures var (after, reply) := Served(box, db, key, ExportBackup(password));
            && after == db && reply.Exported? && reply.password == password
            && (forall v :: v in reply.rows.vaults <==> v in db.vaults && db.vaults[v].owner == key.owner)
            && (forall v :: v in reply.rows.vaults ==> reply.rows.vaults[v] == db.vaults[v])
            && (forall e :: e in reply.rows.entries <==> Mine(db, key.owner, e))
            && (forall e :: e in reply.rows.entries ==> reply.rows.entries[e] == db.entries[e])
  {
  }
}
