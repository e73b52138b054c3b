/**
 API keys on the vault tables: the permission and scope checks of the routes under /api/v1, those of
 internal/vault/vault.go, of the authenticator and of the backups alike.
 */
module ApiScope {
  import opened Text
  import opened Seqs
  import opened VaultStore
  import HostMatch
  import VaultBackup

  datatype Key = Key(owner: string, scope: seq<string>, permissions: set<string>)

  /** CanAccessVault: an empty scope means every vault of the owner. */
  predicate CanAccess(key: Key, vault: string) {
    key.scope == [] || vault in key.scope
  }

  /** The vault of an entry as the handlers read it: blank when the entry is not the owner's. */
  function VaultSeen(db: Db, owner: string, entry: string): string {
    if OwnsEntry(db, owner, entry) then db.entries[entry].vault else ""
  }

  /** One request with an API key; operations without a route are answered as missing. */
  function ApiStep(box: Box, db: Db, key: Key, op: Op): Outcome {
    match op
    case ListVaults(_) => Step(box, db, key.owner, ListVaults(key.scope))
    case GetVault(id) =>
      if !CanAccess(key, id) then Outcome(db, Failed(Forbidden)) else Step(box, db, key.owner, op)
    case ListEntries(inVault, _) =>
      if inVault != "" && !CanAccess(key, inVault) then Outcome(db, Failed(Forbidden))
      else Step(box, db, key.owner, ListEntries(inVault, key.scope))
    case RevealEntry(id) =>
      if !CanAccess(key, VaultSeen(db, key.owner, id)) then Outcome(db, Failed(Forbidden))
      else Step(box, db, key.owner, RevealEntry(if OwnsEntry(db, key.owner, id) then id else ""))
    case CreateEntry(input, _, _, _, _) =>
      if !CanAccess(key, input.vaultId) then Outcome(db, Failed(Forbidden)) else Step(box, db, key.owner, op)
    case UpdateEntry(id, _, _, _) =>
      if !OwnsEntry(db, key.owner, id) then Outcome(db, Failed(NotFound))
      else if !CanAccess(key, db.entries[id].vault) then Outcome(db, Failed(Forbidden))
      else Step(box, db, key.owner, op)
    case DeleteEntry(id) =>
      if !OwnsEntry(db, key.owner, id) then Outcome(db, Failed(NotFound))
      else if !CanAccess(key, db.entries[id].vault) then Outcome(db, Failed(Forbidden))
      else Step(box, db, key.owner, op)
    case _ => Outcome(db, Failed(NotFound))
  }

  // ---- the match route ------------------------------------------------------------------------

  /** A match as the route answers it; the value is blank unless it was asked for and opens. */
  datatype Found = Found(hit: HostMatch.Match, value: string)

  function Listing(id: string, row: EntryRow): HostMatch.Entry {
    HostMatch.Entry(id, row.vault, row.path, row.kind, if "url" in row.metadata then row.metadata["url"] else "")
  }

  /** The owner's entries among the listed ids, in the order the database lists them. */
  function Listings(db: Db, owner: string, order: seq<string>): seq<HostMatch.Entry> {
    if order == [] then []
    else (if OwnsEntry(db, owner, order[0]) then [Listing(order[0], db.entries[order[0]])] else [])
         + Listings(db, owner, order[1..])
  }

  /** RevealEntry, with a failure skipped. */
  function ValueOf(box: Box, db: Db, owner: string, id: string): string {
    var result := Step(box, db, owner, RevealEntry(id)).result;
    if result.Value? then result.value else ""
  }

  function Hits(db: Db, key: Key, host: string, hostname: string -> string, order: seq<string>): seq<HostMatch.Match> {
    if host == "" then []
    else
      Filter(HostMatch.StableSort(HostMatch.Candidates(Listings(db, key.owner, order), host, hostname)),
             HostMatch.InScope(key.scope))
  }

  function Reveal(box: Box, db: Db, owner: string, hits: seq<HostMatch.Match>, withValues: bool): (found: seq<Found>)
    ensures |found| == |hits|
    ensures forall i :: 0 <= i < |hits| ==>
              found[i] == Found(hits[i], if withValues then ValueOf(box, db, owner, hits[i].entry.id) else "")
  {
    seq(|hits|, i requires 0 <= i < |hits| =>
      Found(hits[i], if withValues then ValueOf(box, db, owner, hits[i].entry.id) else ""))
  }

  // ---- one request ----------------------------------------------------------------------------

  /**
   A request with an API key: a row operation, the match route, the current code of an entry, or a backup. `order` is
   the order of the listing, `generate` makes a code of a secret at the time of the request, and `doc` is what the
   backup file opens to.
   */
  datatype Call =
    | Ask(op: Op)
    | MatchUrl(url: string, hostname: string -> string, order: seq<string>, withValues: bool)
    | CurrentCode(id: string, generate: string -> Option<string>)
    | ExportBackup(password: string)
    | RestoreBackup(doc: Option<VaultBackup.RowDocument>, othersGoIn: bool)

  datatype Reply =
    | Denied
    | Plain(result: Result)
    | UrlRequired
    | Matches(found: seq<Found>)
    | Code(entry: string, code: string)
    | CodeFailed
    | Exported(password: string, rows: Db)
    | Restored
    | RestoreFailed

  /** The permission a route asks for; a blank one is asked of nobody. */
  function PermissionOf(call: Call): string {
    match call
    case Ask(op) => OpPermission(op)
    case MatchUrl(_, _, _, _) => "entries:read"
    case CurrentCode(_, _) => "entries:read"
    case ExportBackup(_) => "backup:create"
    case RestoreBackup(_, _) => "backup:restore"
  }

  function OpPermission(op: Op): string {
    if op.ListVaults? || op.GetVault? then "vaults:read"
    else if op.ListEntries? || op.RevealEntry? then "entries:read"
    else if op.CreateEntry? || op.UpdateEntry? || op.DeleteEntry? then "entries:write"
    else ""
  }

  predicate HasPermission(key: Key, permission: string) {
    permission == "" || permission in key.permissions
  }

  /** What a route does once the permission is there; the backup routes do not look at the scope. */
  function Served(box: Box, db: Db, key: Key, call: Call): (Db, Reply) {
    match call
    case Ask(op) =>
      var after := ApiStep(box, db, key, op);
      (after.db, Plain(after.result))
    case MatchUrl(url, hostname, order, withValues) =>
      var target := Trim(url);
      if target == "" then (db, UrlRequired)
      else (db, Matches(Reveal(box, db, key.owner, Hits(db, key, hostname(target), hostname, order), withValues)))
    case CurrentCode(id, generate) => (db, CodeOf(box, db, key, id, generate))
    case ExportBackup(password) => (db, Exported(password, Owned(db, key.owner)))
    case RestoreBackup(doc, othersGoIn) =>
      var after := if doc.None? then None else VaultBackup.Restored(db, key.owner, doc.value, othersGoIn);
      if after.None? then (db, RestoreFailed) else (after.value, Restored)
  }

  function CodeOf(box: Box, db: Db, key: Key, id: string, generate: string -> Option<string>): Reply {
    if !OwnsEntry(db, key.owner, id) then Plain(Failed(NotFound))
    else if !CanAccess(key, db.entries[id].vault) then Plain(Failed(Forbidden))
    else if db.entries[id].totp.None? || db.entries[id].totp.value == "" then Plain(Failed(NotFound))
    else
      var secret := box.open(db.entries[id].totp.value);
      if secret.None? || generate(secret.value).None? then CodeFailed else Code(id, generate(secret.value).value)
  }

  function CallStep(box: Box, db: Db, key: Key, call: Call): (Db, Reply) {
    if HasPermission(key, PermissionOf(call)) then Served(box, db, key, call) else (db, Denied)
  }

  lemma {:induction false} ListingsMember(db: Db, owner: string, order: seq<string>, e: HostMatch.Entry)
    ensures e in Listings(db, owner, order)
       <==> e.id in order && OwnsEntry(db, owner, e.id) && e == Listing(e.id, db.entries[e.id])
  {
    if order != [] { ListingsMember(db, owner, order[1..], e); }
  }

  lemma HitMember(db: Db, key: Key, host: string, hostname: string -> string, order: seq<string>, hit: HostMatch.Match)
    requires host != ""
    ensures hit in Hits(db, key, host, hostname, order)
       <==> && hit.entry.id in order && OwnsEntry(db, key.owner, hit.entry.id)
            && hit.entry == Listing(hit.entry.id, db.entries[hit.entry.id])
            && hit.score > 0 && hit.score == HostMatch.ScoreOf(hit.entry, host, hostname)
            && CanAccess(key, hit.entry.vaultId)
  {
    var entries := Listings(db, key.owner, order);
    ListingsMember(db, key.owner, order, hit.entry);
    FilterMember(HostMatch.StableSort(HostMatch.Candidates(entries, host, hostname)), HostMatch.InScope(key.scope),
                 hit);
  }

  /** The owner's login entry, in the key's scope, of a site related to the visited host. */
  predicate BelongsToSite(db: Db, key: Key, host: string, hostname: string -> string, id: string) {
    && OwnsEntry(db, key.owner, id) && CanAccess(key, db.entries[id].vault) && db.entries[id].kind == "login"
    && var site := HostMatch.EntryHost(Listing(id, db.entries[id]), hostname);
       site != "" && HostMatch.Related(host, site)
  }

  /** The match route answers exactly the login entries of the site, each with the score of its own row. */
  lemma HitsAreTheSitesLogins(
      db: Db, key: Key, host: string, hostname: string -> string, order: seq<string>, id: string)
    requires host != "" && (OwnsEntry(db, key.owner, id) ==> id in order)
    ensures (exists hit :: hit in Hits(db, key, host, hostname, order) && hit.entry.id == id)
       <==> BelongsToSite(db, key, host, hostname, id)
  {
    var hits := Hits(db, key, host, hostname, order);
    if hit :| hit in hits && hit.entry.id == id {
      HitMember(db, key, host, hostname, order, hit);
    }
    if BelongsToSite(db, key, host, hostname, id) {
      var e := Listing(id, db.entries[id]);
      var hit := HostMatch.Match(e, HostMatch.ScoreOf(e, host, hostname));
      HitMember(db, key, host, hostname, order, hit);
      assert hit in hits && hit.entry.id == id;
    }
  }

  /** The rows of a scope, as a database of its own. */
  function Inside(db: Db, scope: seq<string>): Db {
    Db(map v | v in db.vaults && v in scope :: db.vaults[v],
       map e | e in db.entries && db.entries[e].vault in scope :: db.entries[e])
  }

  lemma InsideOwns(db: Db, owner: string, scope: seq<string>, id: string)
    ensures OwnsEntry(Inside(db, scope), owner, id) <==> OwnsEntry(db, owner, id) && db.entries[id].vault in scope
    ensures OwnsEntry(Inside(db, scope), owner, id) ==> Inside(db, scope).entries[id] == db.entries[id]
  {
  }

  lemma {:induction false} ListingsInside(db: Db, owner: string, scope: seq<string>, order: seq<string>)
    requires scope != []
    ensures Filter(Listings(db, owner, order), HostMatch.EntryInScope(scope))
            == Listings(Inside(db, scope), owner, order)
  {
    if order != [] {
      ListingsInside(db, owner, scope, order[1..]);
      InsideOwns(db, owner, scope, order[0]);
      var rest := Listings(db, owner, order[1..]);
      if OwnsEntry(db, owner, order[0]) {
        var first := Listing(order[0], db.entries[order[0]]);
        assert Listings(db, owner, order) == [first] + rest && ([first] + rest)[1..] == rest;
      } else {
        assert Listings(db, owner, order) == rest;
      }
    }
  }

  lemma HitsInside(db: Db, key: Key, host: string, hostname: string -> string, order: seq<string>)
    requires key.scope != []
    ensures Hits(db, key, host, hostname, order) == Hits(Inside(db, key.scope), key, host, hostname, order)
  {
    var inside := Inside(db, key.scope);
    assert Inside(inside, key.scope) == inside;
    ListingsInside(db, key.owner, key.scope, order);
    ListingsInside(inside, key.owner, key.scope, order);
    HostMatch.ScopedMatchesAreMatchesOfTheScope(Listings(db, key.owner, order), key.scope, host, hostname);
    HostMatch.ScopedMatchesAreMatchesOfTheScope(Listings(inside, key.owner, order), key.scope, host, hostname);
  }

  lemma HitInScope(db: Db, key: Key, host: string, hostname: string -> string, order: seq<string>, hit: HostMatch.Match)
    requires key.scope != [] && hit in Hits(db, key, host, hostname, order)
    ensures OwnsEntry(db, key.owner, hit.entry.id) && db.entries[hit.entry.id].vault in key.scope
  {
    HitMember(db, key, host, hostname, order, hit);
  }

  lemma ValueInside(box: Box, db: Db, owner: string, scope: seq<string>, id: string)
    requires OwnsEntry(db, owner, id) && db.entries[id].vault in scope
    ensures ValueOf(box, db, owner, id) == ValueOf(box, Inside(db, scope), owner, id)
  {
    InsideOwns(db, owner, scope, id);
  }

  lemma RevealInside(box: Box, db: Db, owner: string, scope: seq<string>, hits: seq<HostMatch.Match>, withValues: bool)
    requires forall h :: h in hits ==> OwnsEntry(db, owner, h.entry.id) && db.entries[h.entry.id].vault in scope
    ensures Reveal(box, db, owner, hits, withValues) == Reveal(box, Inside(db, scope), owner, hits, withValues)
  {
    forall i | 0 <= i < |hits|
      ensures ValueOf(box, db, owner, hits[i].entry.id) == ValueOf(box, Inside(db, scope), owner, hits[i].entry.id)
    {
      assert hits[i] in hits;
      ValueInside(box, db, owner, scope, hits[i].entry.id);
    }
  }

  /** The match route answers as if the rows outside the scope did not exist, values included. */
  lemma MatchSeesScopeOnly(box: Box, db: Db, key: Key, call: Call)
    requires call.MatchUrl? && key.scope != []
    ensures Served(box, db, key, call).1 == Served(box, Inside(db, key.scope), key, call).1
  {
    var host := call.hostname(Trim(call.url));
    var hits := Hits(db, key, host, call.hostname, call.order);
    HitsInside(db, key, host, call.hostname, call.order);
    forall h | h in hits ensures OwnsEntry(db, key.owner, h.entry.id) && db.entries[h.entry.id].vault in key.scope {
      HitInScope(db, key, host, call.hostname, call.order, h);
    }
    RevealInside(box, db, key.owner, key.scope, hits, call.withValues);
  }

  // ---- confinement ----------------------------------------------------------------------------

  /** Everything that is not in a vault of the scope. */
  function Outside(db: Db, scope: seq<string>): Db {
    Db(map v | v in db.vaults && v !in scope :: db.vaults[v],
       map e | e in db.entries && db.entries[e].vault !in scope :: db.entries[e])
  }

  /** The entry whose value the reveal route answers. */
  function Shown(db: Db, owner: string, id: string): string { if OwnsEntry(db, owner, id) then id else "" }

  /** An answer shows vaults and entries of the scope only. */
  ghost predicate ShowsScopeOnly(db: Db, owner: string, scope: seq<string>, op: Op, result: Result) {
    match result
    case OneVault(id, _) => id in scope
    case Vaults(vaults) => forall v :: v in vaults ==> v in scope
    case OneEntry(_, view) => view.vault in scope
    case Entries(entries) => forall e :: e in entries ==> entries[e].vault in scope
    case Value(_) =>
      && op.RevealEntry? && Shown(db, owner, op.entryId) in db.entries
      && db.entries[Shown(db, owner, op.entryId)].vault in scope
    case _ => true
  }

  ghost predicate Confined(box: Box, db: Db, key: Key, op: Op) {
    var after := ApiStep(box, db, key, op);
    Outside(after.db, key.scope) == Outside(db, key.scope) && ShowsScopeOnly(db, key.owner, key.scope, op, after.result)
  }

  /** Scope items that are vault ids: trimming an item, as CreateEntry does, stays inside the scope. */
  predicate CleanScope(scope: seq<string>) {
    forall v :: v in scope ==> Trim(v) != "" && Trim(v) in scope
  }

  lemma ListConfined(box: Box, db: Db, key: Key, op: Op)
    requires key.scope != [] && (op.ListVaults? || op.ListEntries?)
    ensures Confined(box, db, key, op)
  {
  }

  lemma LookupConfined(box: Box, db: Db, key: Key, op: Op)
    requires key.scope != [] && (op.GetVault? || (op.RevealEntry? && "" !in key.scope))
    ensures Confined(box, db, key, op)
  {
  }

  lemma PutEntryOutside(db: Db, scope: seq<string>, id: string, row: EntryRow)
    requires row.vault in scope && (id in db.entries ==> db.entries[id].vault in scope)
    ensures Outside(PutEntry(db, id, row), scope) == Outside(db, scope)
  {
    assert Outside(PutEntry(db, id, row), scope).entries == Outside(db, scope).entries;
  }

  lemma DropEntryOutside(db: Db, scope: seq<string>, id: string)
    requires id in db.entries ==> db.entries[id].vault in scope
    ensures Outside(DropEntry(db, id), scope) == Outside(db, scope)
  {
    assert Outside(DropEntry(db, id), scope).entries == Outside(db, scope).entries;
  }

  lemma CreateConfined(box: Box, db: Db, key: Key, op: Op)
    requires op.CreateEntry? && Fresh(db, op) && key.scope != []
    requires op.input.vaultId in key.scope ==> Trim(op.input.vaultId) != "" && Trim(op.input.vaultId) in key.scope
    ensures Confined(box, db, key, op)
  {
    var vault := Trim(op.input.vaultId);
    if CanAccess(key, op.input.vaultId) && Trim(op.input.path) != "" && OwnsVault(db, key.owner, vault) {
      assert ApiStep(box, db, key, op) == InsertEntry(box, db, vault, op);
      InsertOutside(box, db, key.owner, key.scope, vault, op);
    }
  }

  lemma InsertOutside(box: Box, db: Db, owner: string, scope: seq<string>, vault: string, op: Op)
    requires op.CreateEntry? && op.id !in db.entries && vault in scope
    ensures Outside(InsertEntry(box, db, vault, op).db, scope) == Outside(db, scope)
    ensures ShowsScopeOnly(db, owner, scope, op, InsertEntry(box, db, vault, op).result)
  {
    PutEntryOutside(db, scope, op.id,
      EntryRow(vault, Trim(op.input.path), Kind(op.input), box.seal(op.input.value, op.nonce), op.input.metadata,
               op.input.tags, None, op.now, op.now));
  }

  lemma WritesConfined(box: Box, db: Db, key: Key, op: Op)
    requires key.scope != [] && (op.UpdateEntry? || op.DeleteEntry?)
    ensures Confined(box, db, key, op)
  {
    if OwnsEntry(db, key.owner, op.entryId) && db.entries[op.entryId].vault in key.scope {
      if op.UpdateEntry? { PutEntryOutside(db, key.scope, op.entryId, Rewritten(box, db.entries[op.entryId], op)); }
      DropEntryOutside(db, key.scope, op.entryId);
    }
  }

  /** A revealed value comes from an entry of the scope. */
  ghost predicate FoundInScope(db: Db, scope: seq<string>, f: Found) {
    f.hit.entry.id in db.entries && db.entries[f.hit.entry.id].vault in scope
  }

  ghost predicate RowsInScope(rows: Db, scope: seq<string>) {
    (forall v :: v in rows.vaults ==> v in scope) && forall e :: e in rows.entries ==> rows.entries[e].vault in scope
  }

  /**
   Rows outside the scope neither change nor show. A file shows its rows to whoever has the password, so to the
   caller unless that is blank and stands for the application's secret.
   */
  ghost predicate ReplyConfined(db: Db, key: Key, call: Call, after: Db, reply: Reply) {
    var scope := key.scope;
    && Outside(after, scope) == Outside(db, scope)
    && (call.Ask? && reply.Plain? ==> ShowsScopeOnly(db, key.owner, scope, call.op, reply.result))
    && (reply.Matches? ==> forall f :: f in reply.found ==> FoundInScope(db, scope, f))
    && (reply.Code? ==> reply.entry in db.entries && db.entries[reply.entry].vault in scope)
    && (reply.Exported? && Trim(reply.password) != "" ==> RowsInScope(reply.rows, scope))
  }

  ghost predicate CallConfined(box: Box, db: Db, key: Key, call: Call) {
    var (after, reply) := CallStep(box, db, key, call);
    ReplyConfined(db, key, call, after, reply)
  }

  ghost predicate CallFresh(db: Db, call: Call) {
    call.Ask? ==> Fresh(db, call.op)
  }

  /**
   What a scope needs of a key's permissions: none for backups, a clean scope to write, and no blank item to read
   entries, since an entry that is not found is looked up again under the blank id.
   */
  predicate Confining(scope: seq<string>, permissions: set<string>) {
    && "backup:create" !in permissions && "backup:restore" !in permissions
    && ("entries:write" in permissions ==> CleanScope(scope))
    && ("entries:read" in permissions ==> "" !in scope)
  }

  lemma StepConfined(box: Box, db: Db, key: Key, call: Call)
    requires Valid(db) && CallFresh(db, call) && key.scope != [] && Confining(key.scope, key.permissions)
    ensures CallConfined(box, db, key, call)
  {
    if HasPermission(key, PermissionOf(call)) {
      match call {
        case Ask(op) =>
          AskConfined(box, db, key, op);
          assert Confined(box, db, key, op);
        case MatchUrl(_, _, _, _) => MatchConfined(box, db, key, call);
        case CurrentCode(_, _) =>
        case ExportBackup(_) => assert false;
        case RestoreBackup(_, _) => assert false;
      }
    }
  }

  lemma MatchConfined(box: Box, db: Db, key: Key, call: Call)
    requires call.MatchUrl? && key.scope != []
    ensures var (after, reply) := Served(box, db, key, call); ReplyConfined(db, key, call, after, reply)
  {
    var reply := Served(box, db, key, call).1;
    if reply.Matches? {
      var host := call.hostname(Trim(call.url));
      forall f | f in reply.found ensures FoundInScope(db, key.scope, f) {
        HitInScope(db, key, host, call.hostname, call.order, f.hit);
      }
    }
  }

  lemma CleanItem(scope: seq<string>, v: string)
    requires CleanScope(scope)
    ensures v in scope ==> Trim(v) != "" && Trim(v) in scope
    ensures "" !in scope
  {
    assert Trim("") == "";
  }

  lemma AskConfined(box: Box, db: Db, key: Key, op: Op)
    requires Fresh(db, op) && key.scope != [] && Confining(key.scope, key.permissions)
    requires HasPermission(key, OpPermission(op))
    ensures Confined(box, db, key, op)
  {
    match op {
      case CreateEntry(input, _, _, _, _) =>
        CleanItem(key.scope, input.vaultId);
        CreateConfined(box, db, key, op);
      case UpdateEntry(_, _, _, _) => WritesConfined(box, db, key, op);
      case DeleteEntry(_) => WritesConfined(box, db, key, op);
      case CreateVault(_, _, _, _) =>
      case UpdateVault(_, _, _, _) =>
      case DeleteVault(_) =>
      case GetEntry(_) =>
      case ListVaults(_) => ListConfined(box, db, key, op);
      case ListEntries(_, _) => ListConfined(box, db, key, op);
      case _ => LookupConfined(box, db, key, op);
    }
  }

  lemma CallValid(box: Box, db: Db, key: Key, call: Call)
    requires Valid(db) && CallFresh(db, call)
    ensures Valid(CallStep(box, db, key, call).0)
  {
    if call.Ask? {
      StepValid(box, db, key.owner, call.op);
    } else if call.RestoreBackup? && call.doc.Some?
      && VaultBackup.Restored(db, key.owner, call.doc.value, call.othersGoIn).Some? {
      VaultBackup.RestoredValid(db, key.owner, call.doc.value, call.othersGoIn);
    }
  }

  function ApiRun(box: Box, db: Db, key: Key, calls: seq<Call>): Db
    decreases |calls|
  {
    if calls == [] then db else ApiRun(box, CallStep(box, db, key, calls[0]).0, key, calls[1..])
  }

  ghost predicate ApiFresh(box: Box, db: Db, key: Key, calls: seq<Call>)
    decreases |calls|
  {
    calls == [] || (CallFresh(db, calls[0]) && ApiFresh(box, CallStep(box, db, key, calls[0]).0, key, calls[1..]))
  }

  /** Every answer of a run shows the scope only. */
  ghost predicate AnswersConfined(box: Box, db: Db, key: Key, calls: seq<Call>)
    decreases |calls|
  {
    calls == [] || (CallConfined(box, db, key, calls[0])
                    && AnswersConfined(box, CallStep(box, db, key, calls[0]).0, key, calls[1..]))
  }

  /** No run of requests with a scoped key whose permissions suit its scope shows or changes a row outside the scope. */
  lemma {:induction false} RunConfined(box: Box, db: Db, key: Key, calls: seq<Call>)
    requires Valid(db) && ApiFresh(box, db, key, calls) && key.scope != [] && Confining(key.scope, key.permissions)
    ensures Outside(ApiRun(box, db, key, calls), key.scope) == Outside(db, key.scope)
    ensures AnswersConfined(box, db, key, calls)
    decreases |calls|
  {
    if calls != [] {
      StepConfined(box, db, key, calls[0]);
      CallValid(box, db, key, calls[0]);
      RunConfined(box, CallStep(box, db, key, calls[0]).0, key, calls[1..]);
    }
  }

  // ---- exactly these keys are confined --------------------------------------------------------

  ghost predicate AlwaysConfined(box: Box, scope: seq<string>, permissions: set<string>) {
    forall db, owner, call :: Valid(db) && CallFresh(db, call) ==>
      CallConfined(box, db, Key(owner, scope, permissions), call)
  }

  /** A string longer than every string of a list is not in it. */
  function Longer(scope: seq<string>): (s: string)
    ensures s != ""
    ensures forall v :: v in scope ==> |v| < |s|
  {
    if scope == [] then "x"
    else
      var rest := Longer(scope[1..]);
      assert scope == [scope[0]] + scope[1..];
      rest + scope[0] + "x"
  }

  /** A create request that names `v` and lands in a vault outside the scope. */
  lemma UncleanItemEscapes(box: Box, scope: seq<string>, permissions: set<string>, v: string)
    requires v in scope && !(Trim(v) != "" && Trim(v) in scope) && "entries:write" in permissions
    ensures !AlwaysConfined(box, scope, permissions)
  {
    var target := if Trim(v) != "" then Trim(v) else Longer(scope);
    CreateEscapes(box, Key("a", scope, permissions), v, target);
  }

  lemma CreateEscapes(box: Box, key: Key, v: string, target: string)
    requires key.owner == "a" && "entries:write" in key.permissions
    requires v in key.scope && target !in key.scope && (Trim(v) == "" || Trim(v) == target)
    ensures !AlwaysConfined(box, key.scope, key.permissions)
  {
    var db := Db(map[target := VaultRow("a", "n", "", 0, 0)], map[]);
    assert "p"[0] == 'p' && Trim("p") == "p" by { TrimFixpoint("p"); }
    var op := CreateEntry(EntryInput(v, "p", "", "s", map[], []), "e", target + "x", 0, 0);
    assert target + "x" != target by { assert |target + "x"| == |target| + 1; }
    assert Valid(db) && Fresh(db, op);
    OnlyVaultIsDestination(db, target, op);
    var after := ApiStep(box, db, key, op).db;
    assert ApiStep(box, db, key, op) == InsertEntry(box, db, target, op);
    assert "e" in after.entries && after.entries["e"].vault == target;
    assert "e" in Outside(after, key.scope).entries && "e" !in Outside(db, key.scope).entries;
    assert CallFresh(db, Ask(op)) && !CallConfined(box, db, key, Ask(op));
    assert key == Key("a", key.scope, key.permissions);
  }

  lemma OnlyVaultIsDestination(db: Db, target: string, op: Op)
    requires op.CreateEntry? && db.vaults == map[target := VaultRow("a", "n", "", 0, 0)]
    requires Trim(op.input.vaultId) == "" || Trim(op.input.vaultId) == target
    ensures Destination(db, "a", op) == (db, Some(target))
  {
    assert VaultsOf(db, "a") == db.vaults;
    assert target in db.vaults;
  }

  /** One vault of owner "a" and, in it, one entry. */
  function OneEntryDb(vault: string, id: string, value: string): Db {
    Db(map[vault := VaultRow("a", "n", "", 0, 0)],
       map[id := EntryRow(vault, "p", "login", value, map[], [], None, 0, 0)])
  }

  lemma SmallDbIsValid(vault: string, id: string, value: string)
    ensures Valid(OneEntryDb(vault, id, value))
    ensures OwnsVault(OneEntryDb(vault, id, value), "a", vault) && OwnsEntry(OneEntryDb(vault, id, value), "a", id)
  {
  }

  /** One unconfined call of a key is enough. */
  lemma Escapes(box: Box, db: Db, key: Key, call: Call)
    requires Valid(db) && CallFresh(db, call) && !CallConfined(box, db, key, call)
    ensures !AlwaysConfined(box, key.scope, key.permissions)
  {
    assert key == Key(key.owner, key.scope, key.permissions);
  }

  /** With a blank item, asking for a missing entry reveals the entry with the blank id, in whatever vault it is. */
  lemma BlankReveals(box: Box, db: Db, key: Key, id: string)
    requires "entries:read" in key.permissions && "" in key.scope && id !in db.entries
    requires OwnsEntry(db, key.owner, "") && db.entries[""].vault !in key.scope
    requires box.open(db.entries[""].value).Some?
    ensures CallStep(box, db, key, Ask(RevealEntry(id))).1 == Plain(Value(box.open(db.entries[""].value).value))
    ensures !CallConfined(box, db, key, Ask(RevealEntry(id)))
  {
    assert ApiStep(box, db, key, RevealEntry(id)).result.Value?;
  }

  lemma BlankItemEscapes(box: Box, scope: seq<string>, permissions: set<string>)
    requires Lawful(box) && "" in scope && "entries:read" in permissions
    ensures !AlwaysConfined(box, scope, permissions)
  {
    var key, vault := Key("a", scope, permissions), Longer(scope);
    var db := OneEntryDb(vault, "", box.seal("s", 0));
    SmallDbIsValid(vault, "", box.seal("s", 0));
    assert box.open(box.seal("s", 0)) == Some("s") && "e" != "";
    BlankReveals(box, db, key, "e");
    Escapes(box, db, key, Ask(RevealEntry("e")));
  }

  /** An export under a password of the caller's own shows every vault of the owner. */
  lemma ExportShows(box: Box, db: Db, key: Key, vault: string, password: string)
    requires "backup:create" in key.permissions && OwnsVault(db, key.owner, vault) && vault !in key.scope
    requires Trim(password) != ""
    ensures !CallConfined(box, db, key, ExportBackup(password))
  {
    assert vault in Owned(db, key.owner).vaults;
  }

  lemma ExportEscapes(box: Box, scope: seq<string>, permissions: set<string>)
    requires "backup:create" in permissions
    ensures !AlwaysConfined(box, scope, permissions)
  {
    var key, vault := Key("a", scope, permissions), Longer(scope);
    var db, password := OneEntryDb(vault, "e", ""), "p";
    SmallDbIsValid(vault, "e", "");
    TrimFixpoint(password);
    ExportShows(box, db, key, vault, password);
    Escapes(box, db, key, ExportBackup(password));
  }

  /** A restore of an empty document deletes every vault of the owner. */
  lemma RestoreDeletes(box: Box, db: Db, key: Key, vault: string, doc: VaultBackup.RowDocument)
    requires "backup:restore" in key.permissions && OwnsVault(db, key.owner, vault) && vault !in key.scope
    requires doc == VaultBackup.RowDocument([], [])
    ensures !CallConfined(box, db, key, RestoreBackup(Some(doc), true))
  {
    var after := VaultBackup.Restored(db, key.owner, doc, true);
    assert after == Some(VaultBackup.Cleared(db, key.owner));
    assert vault in Outside(db, key.scope).vaults && vault !in Outside(after.value, key.scope).vaults;
  }

  lemma RestoreEscapes(box: Box, scope: seq<string>, permissions: set<string>)
    requires "backup:restore" in permissions
    ensures !AlwaysConfined(box, scope, permissions)
  {
    var key, vault := Key("a", scope, permissions), Longer(scope);
    var db, doc := OneEntryDb(vault, "e", ""), VaultBackup.RowDocument([], []);
    SmallDbIsValid(vault, "e", "");
    RestoreDeletes(box, db, key, vault, doc);
    Escapes(box, db, key, RestoreBackup(Some(doc), true));
  }

  /**
   A non-empty scope confines every request on every database exactly when the key has no backup permission, may write
   entries only with a clean scope and may read entries only with a scope without the blank item.
   */
  lemma ConfinedExactlyWhenConfining(box: Box, scope: seq<string>, permissions: set<string>)
    requires Lawful(box) && scope != []
    ensures AlwaysConfined(box, scope, permissions) <==> Confining(scope, permissions)
  {
    if Confining(scope, permissions) {
      ConfiningConfines(box, scope, permissions);
    } else if "backup:create" in permissions {
      ExportEscapes(box, scope, permissions);
    } else if "backup:restore" in permissions {
      RestoreEscapes(box, scope, permissions);
    } else if "entries:read" in permissions && "" in scope {
      BlankItemEscapes(box, scope, permissions);
    } else {
      var v :| v in scope && !(Trim(v) != "" && Trim(v) in scope);
      UncleanItemEscapes(box, scope, permissions, v);
    }
  }

  lemma ConfiningConfines(box: Box, scope: seq<string>, permissions: set<string>)
    requires scope != [] && Confining(scope, permissions)
    ensures AlwaysConfined(box, scope, permissions)
  {
    forall db, owner, call | Valid(db) && CallFresh(db, call)
      ensures CallConfined(box, db, Key(owner, scope, permissions), call)
    {
      StepConfined(box, db, Key(owner, scope, permissions), call);
    }
  }

  const VAULT_PERMISSIONS := {"vaults:read", "entries:read", "entries:write"}

  /** A key for all the vault routes, and for these only, is confined exactly when its scope is clean. */
  lemma ConfinedExactlyWhenClean(box: Box, scope: seq<string>)
    requires scope != []
    ensures AlwaysConfined(box, scope, VAULT_PERMISSIONS) <==> CleanScope(scope)
  {
    if CleanScope(scope) {
      CleanItem(scope, "");
      ConfiningConfines(box, scope, VAULT_PERMISSIONS);
    } else {
      var v :| v in scope && !(Trim(v) != "" && Trim(v) in scope);
      UncleanItemEscapes(box, scope, VAULT_PERMISSIONS, v);
    }
  }
}
