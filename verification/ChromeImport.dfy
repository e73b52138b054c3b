/**
 Importing a Chrome password export (internal/chromeimport/chromeimport.go). The CSV is already parsed
 into cells; the host part of a URL is library code; fresh ids, nonces and the clock are inputs.
 */
module ChromeImport {
  import opened Text
  import opened VaultStore
  import Service = VaultService

  // ---- rows and columns -----------------------------------------------------------------------

  datatype Row = Row(name: string, url: string, username: string, password: string, note: string)

  /** The column of a header name; a repeated name means its last column. */
  function Column(header: seq<string>, name: string): Option<nat> {
    if header == [] then None
    else if Heading(header[|header| - 1]) == name then Some(|header| - 1)
    else Column(header[..|header| - 1], name)
  }

  function Heading(cell: string): string {
    Lower(Trim(if cell != "" && cell[0] == '\U{feff}' then cell[1..] else cell))
  }

  function Cell(header: seq<string>, cells: seq<string>, name: string): (s: string)
    ensures Trimmed(s)
  {
    var i := Column(header, name);
    if i.None? || i.value >= |cells| then ""
    else
      TrimFixpoint(cells[i.value]);
      Trim(cells[i.value])
  }

  function RowOf(header: seq<string>, cells: seq<string>): Row {
    Row(Cell(header, cells, "name"), Cell(header, cells, "url"), Cell(header, cells, "username"),
        Cell(header, cells, "password"), Cell(header, cells, "note"))
  }

  ghost predicate TrimmedRow(row: Row) {
    Trimmed(row.name) && Trimmed(row.url) && Trimmed(row.username)
  }

  /** The name an entry gets; None skips the row. */
  function NameOf(hostOf: string -> string, row: Row): Option<string> {
    if row.password == "" then None
    else if row.name != "" then Some(row.name)
    else if hostOf(row.url) != "" then Some(hostOf(row.url))
    else if row.username != "" then Some(row.username)
    else None
  }

  function Metadata(row: Row): map<string, string> {
    (if row.username != "" then map["username" := row.username] else map[])
    + (if row.url != "" then map["url" := row.url] else map[])
    + (if row.note != "" then map["note" := row.note] else map[])
  }

  // ---- dry and real runs ----------------------------------------------------------------------

  datatype Report = Report(imported: nat, skipped: nat, failed: nat, names: seq<string>)
  datatype State = State(db: Db, existing: set<string>, report: Report)
  datatype Spare = Spare(id: string, nonce: int)

  /** What an import works with besides the rows. */
  datatype Job = Job(box: Box, hostOf: string -> string, owner: string, vault: string, spareVaultId: string, now: int)

  function Skip(st: State): State {
    st.(report := st.report.(skipped := st.report.skipped + 1))
  }

  function Count(st: State, name: string): State {
    st.(existing := st.existing + {Lower(name)},
        report := st.report.(imported := st.report.imported + 1, names := st.report.names + [name]))
  }

  function DryRow(job: Job, st: State, row: Row): State {
    var name := NameOf(job.hostOf, row);
    if name.None? || Lower(name.value) in st.existing then Skip(st) else Count(st, name.value)
  }

  function EntryOp(job: Job, row: Row, name: string, spare: Spare): Op {
    CreateEntry(EntryInput(job.vault, name, "login", row.password, Metadata(row), ["chrome"]),
                spare.id, job.spareVaultId, spare.nonce, job.now)
  }

  function RealRow(job: Job, st: State, row: Row, spare: Spare): State {
    var name := NameOf(job.hostOf, row);
    if name.None? || Lower(name.value) in st.existing then Skip(st)
    else
      var next := Step(job.box, st.db, job.owner, EntryOp(job, row, name.value, spare));
      if next.result.OneEntry? then Count(st.(db := next.db), name.value)
      else st.(db := next.db, report := st.report.(failed := st.report.failed + 1))
  }

  function DryRows(job: Job, st: State, rows: seq<Row>): State
    decreases |rows|
  {
    if rows == [] then st else DryRows(job, DryRow(job, st, rows[0]), rows[1..])
  }

  function RealRows(job: Job, st: State, rows: seq<Row>, spares: seq<Spare>): State
    requires |rows| <= |spares|
    decreases |rows|
  {
    if rows == [] then st else RealRows(job, RealRow(job, st, rows[0], spares[0]), rows[1..], spares[1..])
  }

  // ---- where entries go, and the names in hand ------------------------------------------------

  /** The vault CreateEntry puts an entry into for a destination id, which it trims first. */
  function Resolved(db: Db, owner: string, vault: string): Option<string> {
    var wanted := Trim(vault);
    if wanted != "" then (if OwnsVault(db, owner, wanted) then Some(wanted) else None)
    else if VaultsOf(db, owner) != map[] then Some(Oldest(VaultsOf(db, owner)))
    else None
  }

  lemma ResolvedIsDestination(db: Db, owner: string, op: Op)
    requires op.CreateEntry? && OwnsVault(db, owner, op.input.vaultId)
    ensures Destination(db, owner, op) == (db, Resolved(db, owner, op.input.vaultId))
  {
    assert op.input.vaultId in VaultsOf(db, owner);
  }

  lemma ResolvedByVaults(db: Db, other: Db, owner: string, vault: string)
    requires db.vaults == other.vaults
    ensures Resolved(db, owner, vault) == Resolved(other, owner, vault)
  {
    assert VaultsOf(db, owner) == VaultsOf(other, owner);
  }

  predicate IsListed(db: Db, owner: string, vault: string, e: string) {
    OwnsEntry(db, owner, e) && (Trim(vault) == "" || db.entries[e].vault == vault)
  }

  /** The paths ListEntries shows, lower-cased: those of the vault, or of the whole account for a blank id. */
  function Names(db: Db, owner: string, vault: string): set<string> {
    set e | e in db.entries && IsListed(db, owner, vault, e) :: Lower(db.entries[e].path)
  }

  ghost predicate FreshSpares(db: Db, spares: seq<Spare>) {
    && (forall i :: 0 <= i < |spares| ==> spares[i].id !in db.entries)
    && (forall i, j :: 0 <= i < j < |spares| ==> spares[i].id != spares[j].id)
  }

  predicate InTarget(db: Db, owner: string, vault: string, e: string) {
    e in db.entries && Resolved(db, owner, vault) == Some(db.entries[e].vault)
  }

  predicate PlainPath(path: string) { path != "" && Trimmed(path) }

  /** CreateEntry accepts the destination, and every name it could find taken there is among `names`. */
  ghost predicate Covered(db: Db, owner: string, vault: string, names: set<string>) {
    && Resolved(db, owner, vault).Some?
    && forall e :: InTarget(db, owner, vault, e) && PlainPath(db.entries[e].path) ==> Lower(db.entries[e].path) in names
  }

  /** The loop's promise. */
  ghost predicate Ready(job: Job, st: State) {
    && Valid(st.db) && OwnsVault(st.db, job.owner, job.vault) && job.spareVaultId !in st.db.vaults
    && Covered(st.db, job.owner, job.vault, st.existing)
  }

  /** CreateEntry trims the id away to nothing, or not at all: ListEntries then shows what it writes. */
  predicate Settles(vault: string) { Trim(vault) == "" || Trim(vault) == vault }

  /** The names in hand are exactly those that ListEntries would show. */
  ghost predicate InStep(job: Job, st: State) { st.existing == Names(st.db, job.owner, job.vault) }

  /** The name such a row gets is trimmed: the host of its URL is asked for only when the name is blank. */
  ghost predicate HostFits(hostOf: string -> string, row: Row) {
    row.password == "" || row.name != "" || Trimmed(hostOf(row.url))
  }

  ghost predicate HostsFit(hostOf: string -> string, rows: seq<Row>) {
    forall i :: 0 <= i < |rows| ==> TrimmedRow(rows[i]) && HostFits(hostOf, rows[i])
  }

  /** Same counts and names; the database is not compared. */
  ghost predicate SameReport(a: State, b: State) {
    a.report == b.report && a.existing == b.existing
  }

  ghost predicate Extends(before: Db, after: Db) {
    after.vaults == before.vaults
      && forall e :: e in before.entries ==> e in after.entries && after.entries[e] == before.entries[e]
  }

  lemma NewPathIsAccepted(job: Job, st: State, row: Row, name: string, spare: Spare)
    requires Ready(job, st) && spare.id !in st.db.entries
    requires PlainPath(name) && Lower(name) !in st.existing
    ensures var next := Step(job.box, st.db, job.owner, EntryOp(job, row, name, spare));
            var target := Resolved(st.db, job.owner, job.vault).value;
            && next.result.OneEntry? && Valid(next.db) && spare.id in next.db.entries
            && next.db == PutEntry(st.db, spare.id, next.db.entries[spare.id])
            && next.db.entries[spare.id].vault == target && next.db.entries[spare.id].path == name
  {
    var op := EntryOp(job, row, name, spare);
    var target := Resolved(st.db, job.owner, job.vault).value;
    TrimFixpoint(name);
    StepValid(job.box, st.db, job.owner, op);
    ResolvedIsDestination(st.db, job.owner, op);
    assert forall e :: e in st.db.entries && st.db.entries[e].vault == target ==>
             InTarget(st.db, job.owner, job.vault, e);
    assert !PathTaken(st.db, target, name, spare.id);
    assert InsertEntry(job.box, st.db, target, op) == Step(job.box, st.db, job.owner, op);
  }

  lemma NewEntryCovered(db: Db, owner: string, vault: string, names: set<string>, id: string, row: EntryRow)
    requires id !in db.entries && Covered(db, owner, vault, names)
    ensures Covered(PutEntry(db, id, row), owner, vault, names + {Lower(row.path)})
  {
    var after := PutEntry(db, id, row);
    ResolvedByVaults(db, after, owner, vault);
    forall e | InTarget(after, owner, vault, e) && PlainPath(after.entries[e].path)
      ensures Lower(after.entries[e].path) in names + {Lower(row.path)}
    {
      if e != id { assert InTarget(db, owner, vault, e); }
    }
  }

  lemma NewEntryListed(db: Db, owner: string, vault: string, id: string, row: EntryRow)
    requires id !in db.entries && OwnsVault(db, owner, vault) && Settles(vault)
    requires Resolved(db, owner, vault) == Some(row.vault)
    ensures Names(PutEntry(db, id, row), owner, vault) == Names(db, owner, vault) + {Lower(row.path)}
  {
    var after := PutEntry(db, id, row);
    assert OwnsVault(db, owner, row.vault);
    assert IsListed(after, owner, vault, id) && after.entries[id] == row;
    forall p | p in Names(db, owner, vault) ensures p in Names(after, owner, vault) {
      var e :| e in db.entries && IsListed(db, owner, vault, e) && Lower(db.entries[e].path) == p;
      assert IsListed(after, owner, vault, e) && after.entries[e] == db.entries[e];
    }
    forall p | p in Names(after, owner, vault) ensures p in Names(db, owner, vault) + {Lower(row.path)} {
      var e :| e in after.entries && IsListed(after, owner, vault, e) && Lower(after.entries[e].path) == p;
      if e != id { assert IsListed(db, owner, vault, e); }
    }
  }

  /** A new name goes in, and the vault is ready for the next row. */
  lemma NewNameKeeps(job: Job, st: State, row: Row, name: string, spare: Spare)
    requires Ready(job, st) && spare.id !in st.db.entries
    requires NameOf(job.hostOf, row) == Some(name) && PlainPath(name) && Lower(name) !in st.existing
    ensures var next := RealRow(job, st, row, spare);
            && next == Count(st.(db := next.db), name) && Ready(job, next)
            && Extends(st.db, next.db) && next.db.entries.Keys == st.db.entries.Keys + {spare.id}
            && (Settles(job.vault) && InStep(job, st) ==> InStep(job, next))
  {
    NewPathIsAccepted(job, st, row, name, spare);
    var entry := Step(job.box, st.db, job.owner, EntryOp(job, row, name, spare)).db.entries[spare.id];
    NewEntryCovered(st.db, job.owner, job.vault, st.existing, spare.id, entry);
    if Settles(job.vault) { NewEntryListed(st.db, job.owner, job.vault, spare.id, entry); }
  }

  lemma RowAgrees(job: Job, st: State, dry: State, row: Row, spare: Spare)
    requires Ready(job, st) && SameReport(st, dry) && spare.id !in st.db.entries
    requires TrimmedRow(row) && HostFits(job.hostOf, row)
    ensures var next := RealRow(job, st, row, spare);
            && Ready(job, next) && SameReport(next, DryRow(job, dry, row)) && next.report.failed == st.report.failed
            && Extends(st.db, next.db) && next.db.entries.Keys <= st.db.entries.Keys + {spare.id}
            && (Settles(job.vault) && InStep(job, st) ==> InStep(job, next))
  {
    var name := NameOf(job.hostOf, row);
    if name.Some? && Lower(name.value) !in st.existing { NewNameKeeps(job, st, row, name.value, spare); }
  }

  lemma {:induction false} RunsAgree(job: Job, st: State, dry: State, rows: seq<Row>, spares: seq<Spare>)
    requires Ready(job, st) && SameReport(st, dry) && |rows| <= |spares| && FreshSpares(st.db, spares)
    requires HostsFit(job.hostOf, rows)
    ensures var end := RealRows(job, st, rows, spares);
            && Ready(job, end) && SameReport(end, DryRows(job, dry, rows)) && end.report.failed == st.report.failed
            && Extends(st.db, end.db) && (Settles(job.vault) && InStep(job, st) ==> InStep(job, end))
    decreases |rows|
  {
    if rows != [] {
      RowAgrees(job, st, dry, rows[0], spares[0]);
      RunsAgree(job, RealRow(job, st, rows[0], spares[0]), DryRow(job, dry, rows[0]), rows[1..], spares[1..]);
    }
  }

  /** A destination that CreateEntry refuses: every row that has a name fails, and nothing is written. */
  lemma {:induction false} UnresolvedImportsNothing(job: Job, st: State, rows: seq<Row>, spares: seq<Spare>)
    requires OwnsVault(st.db, job.owner, job.vault) && Resolved(st.db, job.owner, job.vault).None? && |rows| <= |spares|
    ensures var end := RealRows(job, st, rows, spares);
            && end.db == st.db && end.existing == st.existing
            && end.report.imported == st.report.imported && end.report.names == st.report.names
    decreases |rows|
  {
    if rows != [] {
      var name := NameOf(job.hostOf, rows[0]);
      if name.Some? { ResolvedIsDestination(st.db, job.owner, EntryOp(job, rows[0], name.value, spares[0])); }
      UnresolvedImportsNothing(job, RealRow(job, st, rows[0], spares[0]), rows[1..], spares[1..]);
    }
  }

  /** Whatever the rows, an import into a vault of the owner leaves the vault table alone and takes only spare ids. */
  lemma {:induction false} RowsKeepVaults(job: Job, st: State, rows: seq<Row>, spares: seq<Spare>)
    requires OwnsVault(st.db, job.owner, job.vault) && |rows| <= |spares|
    ensures RealRows(job, st, rows, spares).db.vaults == st.db.vaults
    decreases |rows|
  {
    if rows != [] {
      var name := NameOf(job.hostOf, rows[0]);
      if name.Some? { ResolvedIsDestination(st.db, job.owner, EntryOp(job, rows[0], name.value, spares[0])); }
      RowsKeepVaults(job, RealRow(job, st, rows[0], spares[0]), rows[1..], spares[1..]);
    }
  }

  /** A dry run never touches the database. */
  lemma {:induction false} DryRowsWriteNothing(job: Job, st: State, rows: seq<Row>)
    ensures DryRows(job, st, rows).db == st.db
    decreases |rows|
  {
    if rows != [] { DryRowsWriteNothing(job, DryRow(job, st, rows[0]), rows[1..]); }
  }

  /** Every data row is counted once, whatever happens to it. */
  lemma {:induction false} EveryRowCounted(job: Job, st: State, rows: seq<Row>, spares: seq<Spare>)
    requires |rows| <= |spares|
    ensures var r := RealRows(job, st, rows, spares).report;
            r.imported + r.skipped + r.failed == st.report.imported + st.report.skipped + st.report.failed + |rows|
    ensures |st.report.names| == st.report.imported ==>
              |RealRows(job, st, rows, spares).report.names| == RealRows(job, st, rows, spares).report.imported
    decreases |rows|
  {
    if rows != [] { EveryRowCounted(job, RealRow(job, st, rows[0], spares[0]), rows[1..], spares[1..]); }
  }

  // ---- importing again ------------------------------------------------------------------------

  ghost predicate AllKnown(job: Job, existing: set<string>, rows: seq<Row>) {
    forall i :: 0 <= i < |rows| ==> NameOf(job.hostOf, rows[i]).Some? ==>
      Lower(NameOf(job.hostOf, rows[i]).value) in existing
  }

  lemma {:induction false} AfterDryAllKnown(job: Job, st: State, rows: seq<Row>)
    ensures AllKnown(job, DryRows(job, st, rows).existing, rows)
    ensures st.existing <= DryRows(job, st, rows).existing
    decreases |rows|
  {
    if rows != [] {
      var next := DryRow(job, st, rows[0]);
      AfterDryAllKnown(job, next, rows[1..]);
      var end := DryRows(job, st, rows).existing;
      forall i | 0 <= i < |rows| && NameOf(job.hostOf, rows[i]).Some?
        ensures Lower(NameOf(job.hostOf, rows[i]).value) in end
      {
        if i > 0 { assert rows[1..][i - 1] == rows[i]; }
      }
    }
  }

  lemma {:induction false} KnownRowsImportNothing(job: Job, st: State, rows: seq<Row>, spares: seq<Spare>)
    requires |rows| <= |spares| && AllKnown(job, st.existing, rows)
    ensures var end := RealRows(job, st, rows, spares);
            end.db == st.db && end.report.imported == st.report.imported && end.report.names == st.report.names
    decreases |rows|
  {
    if rows != [] {
      assert NameOf(job.hostOf, rows[0]).Some? ==> Lower(NameOf(job.hostOf, rows[0]).value) in st.existing;
      KnownRowsImportNothing(job, RealRow(job, st, rows[0], spares[0]), rows[1..], spares[1..]);
    }
  }

  const EMPTY := Report(0, 0, 0, [])

  /** A second import of the same rows into the same vault writes and reports nothing new. */
  lemma SecondRunImportsNothing(
      job: Job, start: State, rows: seq<Row>, spares: seq<Spare>, again: Job, more: seq<Spare>)
    requires Ready(job, start) && InStep(job, start) && Settles(job.vault)
    requires |rows| <= |spares| && FreshSpares(start.db, spares) && HostsFit(job.hostOf, rows)
    requires again.vault == job.vault && again.owner == job.owner && again.hostOf == job.hostOf && |rows| <= |more|
    ensures var first := RealRows(job, start, rows, spares);
            var second := RealRows(again, State(first.db, Names(first.db, job.owner, job.vault), EMPTY), rows, more);
            second.db == first.db && second.report.imported == 0 && second.report.names == []
  {
    RunsAgree(job, start, start, rows, spares);
    AfterDryAllKnown(job, start, rows);
    var first := RealRows(job, start, rows, spares);
    assert AllKnown(again, first.existing, rows);
    KnownRowsImportNothing(again, State(first.db, Names(first.db, job.owner, job.vault), EMPTY), rows, more);
  }

  // ---- the whole import -----------------------------------------------------------------------

  datatype Options = Options(vaultName: string, dryRun: bool)
  datatype Outcome = EmptyCsv | NoPasswordColumn | Imported(vault: string, report: Report)

  /** The new vault's id; the rest of the job is known once the destination is. */
  datatype Request = Request(box: Box, hostOf: string -> string, owner: string, newVaultId: string,
                             spareVaultId: string, now: int)

  function JobFor(rq: Request, vault: string): Job {
    Job(rq.box, rq.hostOf, rq.owner, vault, rq.spareVaultId, rq.now)
  }

  function TargetName(o: Options): string {
    if Trim(o.vaultName) == "" then "Principal" else Trim(o.vaultName)
  }

  /** The owner's vaults of that name, letter case aside. */
  function Namesakes(db: Db, owner: string, name: string): map<string, VaultRow> {
    map v | v in db.vaults && db.vaults[v].owner == owner && Lower(db.vaults[v].name) == Lower(name) ::
      db.vaults[v].(created := -db.vaults[v].updated)
  }

  /** ListVaults puts the latest update first; the first namesake is taken, and a blank id means none was found. */
  function FindVault(db: Db, owner: string, name: string): (found: Option<string>)
    ensures found.Some? ==> found.value != "" && OwnsVault(db, owner, found.value)
  {
    var found := Namesakes(db, owner, name);
    if found == map[] || Oldest(found) == "" then None else Some(Oldest(found))
  }

  function RowsOf(csv: seq<seq<string>>): (rows: seq<Row>)
    requires csv != []
    ensures |rows| == |csv| - 1
    ensures forall i :: 0 <= i < |rows| ==> rows[i] == RowOf(csv[0], csv[i + 1])
  {
    seq(|csv| - 1, i requires 0 <= i < |csv| - 1 => RowOf(csv[0], csv[i + 1]))
  }

  /** A condition on the file alone: every row that has a password has a name, or a host without outer white space. */
  ghost predicate FileFits(hostOf: string -> string, csv: seq<seq<string>>) {
    csv != [] ==> forall i :: 0 <= i < |RowsOf(csv)| ==> HostFits(hostOf, RowsOf(csv)[i])
  }

  lemma RowsTrimmed(csv: seq<seq<string>>)
    requires csv != []
    ensures forall i :: 0 <= i < |RowsOf(csv)| ==> TrimmedRow(RowsOf(csv)[i])
  {
  }

  /** The database and vault a real import starts its rows with. */
  function Opened(db: Db, rq: Request, name: string): (Db, string) {
    match FindVault(db, rq.owner, name)
    case Some(vault) => (db, vault)
    case None => (InsertVault(db, rq.owner, rq.newVaultId, name, "Importado do Google Chrome", rq.now), rq.newVaultId)
  }

  function RealImport(db: Db, rq: Request, csv: seq<seq<string>>, o: Options, spares: seq<Spare>): (Db, Outcome)
    requires |csv| <= |spares| + 1
  {
    if csv == [] then (db, EmptyCsv)
    else if Column(csv[0], "password").None? then (db, NoPasswordColumn)
    else
      var (db', vault) := Opened(db, rq, TargetName(o));
      var end := RealRows(JobFor(rq, vault), State(db', Names(db', rq.owner, vault), EMPTY), RowsOf(csv), spares);
      (end.db, Imported(vault, end.report))
  }

  function DryImport(db: Db, rq: Request, csv: seq<seq<string>>, o: Options): Outcome {
    if csv == [] then EmptyCsv
    else if Column(csv[0], "password").None? then NoPasswordColumn
    else
      var vault := match FindVault(db, rq.owner, TargetName(o)) case Some(v) => v case None => "";
      var end := DryRows(JobFor(rq, vault), State(db, if vault == "" then {} else Names(db, rq.owner, vault), EMPTY),
                         RowsOf(csv));
      Imported(vault, end.report)
  }

  predicate PlainId(id: string) { id != "" && Trimmed(id) }

  /** New ids are what randomID makes: no outer white space, never blank, and not in use. Stored ids may be anything. */
  ghost predicate Sound(db: Db, rq: Request, spares: seq<Spare>) {
    && Valid(db) && FreshSpares(db, spares)
    && PlainId(rq.newVaultId) && rq.newVaultId !in db.vaults
    && rq.spareVaultId !in db.vaults && rq.spareVaultId != rq.newVaultId
  }

  /**
   CreateEntry takes the destination the import finds, and no name there is hidden from the import. That is so when
   the id is blank or has no outer white space; else its trimmed form must be another vault of the owner.
   */
  ghost predicate CoveredAccount(db: Db, owner: string, name: string) {
    var found := FindVault(db, owner, name);
    found.Some? ==> Covered(db, owner, found.value, Names(db, owner, found.value))
  }

  lemma SettledIsCovered(db: Db, owner: string, vault: string)
    requires OwnsVault(db, owner, vault) && Settles(vault)
    ensures Covered(db, owner, vault, Names(db, owner, vault))
  {
    assert vault in VaultsOf(db, owner);
    forall e | InTarget(db, owner, vault, e) ensures Lower(db.entries[e].path) in Names(db, owner, vault) {
      assert IsListed(db, owner, vault, e);
    }
  }

  lemma NewVaultReady(db: Db, rq: Request, name: string, spares: seq<Spare>)
    requires Sound(db, rq, spares) && FindVault(db, rq.owner, name).None?
    ensures var (db', vault) := Opened(db, rq, name);
            Ready(JobFor(rq, vault), State(db', {}, EMPTY)) && Names(db', rq.owner, vault) == {} && Settles(vault)
  {
    var (db', vault) := Opened(db, rq, name);
    TrimFixpoint(vault);
    assert forall e :: e in db'.entries ==> db'.entries[e].vault != vault;
    SettledIsCovered(db', rq.owner, vault);
  }

  lemma OpenedReady(db: Db, rq: Request, name: string, spares: seq<Spare>)
    requires Sound(db, rq, spares) && CoveredAccount(db, rq.owner, name)
    ensures var (db', vault) := Opened(db, rq, name);
            && Ready(JobFor(rq, vault), State(db', Names(db', rq.owner, vault), EMPTY))
            && (FindVault(db, rq.owner, name).None? ==> Names(db', rq.owner, vault) == {})
  {
    if FindVault(db, rq.owner, name).None? { NewVaultReady(db, rq, name, spares); }
  }

  lemma DryStateIrrelevant(job: Job, other: Job, a: State, b: State, rows: seq<Row>)
    requires SameReport(a, b) && job.hostOf == other.hostOf
    ensures SameReport(DryRows(job, a, rows), DryRows(other, b, rows))
    decreases |rows|
  {
    if rows != [] { DryStateIrrelevant(job, other, DryRow(job, a, rows[0]), DryRow(other, b, rows[0]), rows[1..]); }
  }

  /**
   From the same state a dry run reports the counts and names of the real run; no row of the real run
   fails, every data row is counted, and entries already there are not touched.
   */
  lemma DryRunPredictsRealRun(db: Db, rq: Request, csv: seq<seq<string>>, o: Options, spares: seq<Spare>)
    requires Sound(db, rq, spares) && FileFits(rq.hostOf, csv) && |csv| <= |spares| + 1
    requires CoveredAccount(db, rq.owner, TargetName(o))
    ensures var (after, actual) := RealImport(db, rq, csv, o, spares);
            var dry := DryImport(db, rq, csv, o);
            && (actual.Imported? <==> dry.Imported?)
            && (!actual.Imported? ==> after == db && actual == dry)
            && (actual.Imported? ==>
                  && dry.report == actual.report && actual.report.failed == 0
                  && actual.report.imported + actual.report.skipped == |csv| - 1
                  && |actual.report.names| == actual.report.imported
                  && Valid(after) && OwnsVault(after, rq.owner, actual.vault)
                  && forall e :: e in db.entries ==> e in after.entries && after.entries[e] == db.entries[e])
  {
    if csv != [] && Column(csv[0], "password").Some? {
      var name := TargetName(o);
      var (db', vault) := Opened(db, rq, name);
      OpenedReady(db, rq, name, spares);
      var rows := RowsOf(csv);
      RowsTrimmed(csv);
      var job := JobFor(rq, vault);
      var start := State(db', Names(db', rq.owner, vault), EMPTY);
      RunsAgree(job, start, start, rows, spares);
      EveryRowCounted(job, start, rows, spares);
      var dryVault := match FindVault(db, rq.owner, name) case Some(v) => v case None => "";
      var dryStart := State(db, if dryVault == "" then {} else Names(db, rq.owner, dryVault), EMPTY);
      assert dryStart.existing == start.existing;
      DryStateIrrelevant(job, JobFor(rq, dryVault), start, dryStart, rows);
    }
  }

  /** After the import the same destination is found: no namesake with a blank id is listed before a new one. */
  predicate FoundAgain(db: Db, rq: Request, name: string) {
    FindVault(db, rq.owner, name).Some? || ("" in Namesakes(db, rq.owner, name) ==> db.vaults[""].updated < rq.now)
  }

  lemma FoundAgainMeans(db: Db, rq: Request, name: string)
    requires PlainId(rq.newVaultId) && rq.newVaultId !in db.vaults
    ensures var (db', vault) := Opened(db, rq, name);
            FindVault(db', rq.owner, name) == (if FoundAgain(db, rq, name) then Some(vault) else None)
  {
    if FindVault(db, rq.owner, name).None? {
      var db' := Opened(db, rq, name).0;
      var before, after := Namesakes(db, rq.owner, name), Namesakes(db', rq.owner, name);
      assert after == before[rq.newVaultId := db'.vaults[rq.newVaultId].(created := -rq.now)];
      NewNamesake(before, after, rq.newVaultId);
    }
  }

  /** Of the namesakes and one new vault, the listing starts with the new one or with what it started with. */
  lemma NewNamesake(before: map<string, VaultRow>, after: map<string, VaultRow>, id: string)
    requires id != "" && id !in before && id in after && after == before[id := after[id]]
    requires before != map[] ==> Oldest(before) == ""
    ensures Oldest(after) == if "" in before && before[""].created <= after[id].created then "" else id
  {
    var first := if "" in before && before[""].created <= after[id].created then "" else id;
    assert Less("", id) && !Less(id, "");
    forall other | other in after ensures Older(after, first, other) {
      if other != id {
        assert Older(before, "", other);
        OlderIsTotalOrder(after, first, "", other);
      }
    }
    assert IsOldest(after, first);
    OldestUnique(after);
  }

  ghost predicate SecondChangesNothing(
      db: Db, rq: Request, csv: seq<seq<string>>, o: Options, spares: seq<Spare>, again: Request, more: seq<Spare>)
    requires |csv| <= |spares| + 1 && |csv| <= |more| + 1
  {
    var (first, report) := RealImport(db, rq, csv, o, spares);
    var (second, report') := RealImport(first, again, csv, o, more);
    && second == first
    && (report.Imported? ==>
          && report'.Imported? && report'.vault == report.vault
          && report'.report.imported == 0 && report'.report.names == [])
  }

  /**
   The destination is found again, and the import either sees there what it wrote, or could not write: then a second
   import has nothing to do.
   */
  predicate SettledAccount(db: Db, rq: Request, name: string) {
    var found := FindVault(db, rq.owner, name);
    && FoundAgain(db, rq, name)
    && (found.Some? ==> Settles(found.value) || Resolved(db, rq.owner, found.value).None?)
  }

  /** Importing the same file again, into the state the first import left, writes nothing and reports nothing new. */
  lemma SecondImportChangesNothing(
      db: Db, rq: Request, csv: seq<seq<string>>, o: Options, spares: seq<Spare>, again: Request, more: seq<Spare>)
    requires Sound(db, rq, spares) && FileFits(rq.hostOf, csv) && |csv| <= |spares| + 1 && |csv| <= |more| + 1
    requires SettledAccount(db, rq, TargetName(o))
    requires again.owner == rq.owner && again.hostOf == rq.hostOf
    ensures SecondChangesNothing(db, rq, csv, o, spares, again, more)
  {
    if csv != [] && Column(csv[0], "password").Some? {
      var name, rows := TargetName(o), RowsOf(csv);
      var (db', vault) := Opened(db, rq, name);
      var start := State(db', Names(db', rq.owner, vault), EMPTY);
      RowsTrimmed(csv);
      RowsKeepVaults(JobFor(rq, vault), start, rows, spares);
      var first := RealRows(JobFor(rq, vault), start, rows, spares).db;
      FoundAgainMeans(db, rq, name);
      FoundByVaults(db', first, rq.owner, name);
      if FindVault(db, rq.owner, name).Some? && !Settles(vault) {
        UnresolvedImportsNothing(JobFor(rq, vault), start, rows, spares);
        UnresolvedImportsNothing(JobFor(again, vault), start, rows, more);
      } else {
        if FindVault(db, rq.owner, name).None? { NewVaultReady(db, rq, name, spares); }
        SettledIsCovered(db', rq.owner, vault);
        SecondRunImportsNothing(JobFor(rq, vault), start, rows, spares, JobFor(again, vault), more);
      }
    }
  }

  lemma FoundByVaults(db: Db, other: Db, owner: string, name: string)
    requires db.vaults == other.vaults
    ensures FindVault(db, owner, name) == FindVault(other, owner, name)
  {
    assert Namesakes(db, owner, name) == Namesakes(other, owner, name);
  }

  // ---- exactly when nothing fails -------------------------------------------------------------

  lemma {:induction false} FailedGrows(job: Job, st: State, rows: seq<Row>, spares: seq<Spare>)
    requires |rows| <= |spares|
    ensures RealRows(job, st, rows, spares).report.failed >= st.report.failed
    decreases |rows|
  {
    if rows != [] { FailedGrows(job, RealRow(job, st, rows[0], spares[0]), rows[1..], spares[1..]); }
  }

  /** The trimmed name is blank, or entry `e` of the vault has it. */
  ghost predicate Blocked(db: Db, vault: string, name: string, e: string) {
    Trim(name) == "" || (e in db.entries && db.entries[e].vault == vault && db.entries[e].path == Trim(name))
  }

  lemma BlockedNameRefused(job: Job, st: State, row: Row, spare: Spare, name: string, e: string)
    requires Ready(job, st) && Resolved(st.db, job.owner, job.vault) == Some(job.vault)
    requires spare.id !in st.db.entries && Blocked(st.db, job.vault, name, e)
    requires NameOf(job.hostOf, row) == Some(name) && Lower(name) !in st.existing
    ensures RealRow(job, st, row, spare).report.failed == st.report.failed + 1
  {
    ResolvedIsDestination(st.db, job.owner, EntryOp(job, row, name, spare));
    if Trim(name) != "" { assert PathTaken(st.db, job.vault, Trim(name), spare.id); }
  }

  ghost predicate AllTrimmed(names: set<string>) {
    forall n :: n in names ==> Trimmed(n)
  }

  lemma LowerTrimmed(name: string)
    ensures Trimmed(Lower(name)) <==> Trimmed(name)
  {
  }

  lemma NameFits(job: Job, row: Row)
    requires TrimmedRow(row) && HostFits(job.hostOf, row) && NameOf(job.hostOf, row).Some?
    ensures Trimmed(Lower(NameOf(job.hostOf, row).value))
  {
    LowerTrimmed(NameOf(job.hostOf, row).value);
  }

  lemma MisfitRowFails(job: Job, st: State, rows: seq<Row>, spares: seq<Spare>, e: string)
    requires Ready(job, st) && Resolved(st.db, job.owner, job.vault) == Some(job.vault)
    requires 0 < |rows| <= |spares| && spares[0].id !in st.db.entries && AllTrimmed(st.existing)
    requires !HostFits(job.hostOf, rows[0]) && Blocked(st.db, job.vault, job.hostOf(rows[0].url), e)
    ensures RealRows(job, st, rows, spares).report.failed > st.report.failed
  {
    LowerTrimmed(job.hostOf(rows[0].url));
    BlockedNameRefused(job, st, rows[0], spares[0], job.hostOf(rows[0].url), e);
    FailedGrows(job, RealRow(job, st, rows[0], spares[0]), rows[1..], spares[1..]);
  }

  /** A row that fits leaves the vault ready for the next and blocks what was blocked. */
  lemma FitRowKeeps(job: Job, st: State, row: Row, spares: seq<Spare>, name: string, e: string) returns (next: State)
    requires Ready(job, st) && AllTrimmed(st.existing) && spares != [] && FreshSpares(st.db, spares)
    requires TrimmedRow(row) && HostFits(job.hostOf, row) && Blocked(st.db, job.vault, name, e)
    ensures next == RealRow(job, st, row, spares[0]) && next.report.failed == st.report.failed
    ensures Ready(job, next) && AllTrimmed(next.existing) && FreshSpares(next.db, spares[1..])
    ensures Blocked(next.db, job.vault, name, e)
    ensures Resolved(next.db, job.owner, job.vault) == Resolved(st.db, job.owner, job.vault)
  {
    next := RealRow(job, st, row, spares[0]);
    RowAgrees(job, st, st, row, spares[0]);
    ResolvedByVaults(st.db, next.db, job.owner, job.vault);
    if NameOf(job.hostOf, row).Some? { NameFits(job, row); }
  }

  /** The first row whose host does not fit fails in a vault where its trimmed name is taken or blank. */
  lemma {:induction false} FirstMisfitFails(
    job: Job, st: State, rows: seq<Row>, spares: seq<Spare>, i: nat, e: string)
    requires Ready(job, st) && Resolved(st.db, job.owner, job.vault) == Some(job.vault)
    requires |rows| <= |spares| && FreshSpares(st.db, spares) && AllTrimmed(st.existing)
    requires i < |rows| && !HostFits(job.hostOf, rows[i]) && HostsFit(job.hostOf, rows[..i])
    requires Blocked(st.db, job.vault, job.hostOf(rows[i].url), e)
    ensures RealRows(job, st, rows, spares).report.failed > st.report.failed
    decreases |rows|
  {
    if i == 0 {
      MisfitRowFails(job, st, rows, spares, e);
    } else {
      assert rows[..i][0] == rows[0] && rows[1..][..i - 1] == rows[..i][1..];
      var next := FitRowKeeps(job, st, rows[0], spares, job.hostOf(rows[i].url), e);
      FirstMisfitFails(job, next, rows[1..], spares[1..], i - 1, e);
    }
  }

  /** In every account whose destination is covered, whatever ids are drawn, no row of this file fails. */
  ghost predicate FileNeverFails(box: Box, hostOf: string -> string, csv: seq<seq<string>>, o: Options) {
    forall db, owner, newId, spareId, now, spares ::
      NoneFails(db, Request.Request(box, hostOf, owner, newId, spareId, now), csv, o, spares)
  }

  ghost predicate NoneFails(db: Db, rq: Request, csv: seq<seq<string>>, o: Options, spares: seq<Spare>) {
    Sound(db, rq, spares) && CoveredAccount(db, rq.owner, TargetName(o)) && |csv| <= |spares| + 1 ==>
      var outcome := RealImport(db, rq, csv, o, spares).1;
      outcome.Imported? ==> outcome.report.failed == 0
  }

  /** The vault "v" of owner "a", empty or with one entry "e" of the given path. */
  function SmallDb(name: string, path: Option<string>): Db {
    Db(map["v" := VaultRow("a", name, "", 0, 0)],
       if path.None? then map[] else map["e" := EntryRow("v", path.value, "login", "", map[], [], None, 0, 0)])
  }

  lemma SmallPaths(name: string, path: Option<string>)
    ensures Valid(SmallDb(name, path))
    ensures Names(SmallDb(name, path), "a", "v") == if path.None? then {} else {Lower(path.value)}
  {
    var db := SmallDb(name, path);
    if path.Some? { assert IsListed(db, "a", "v", "e"); }
  }

  lemma SmallCovered(name: string, path: Option<string>)
    ensures CoveredAccount(SmallDb(name, path), "a", name) && Resolved(SmallDb(name, path), "a", "v") == Some("v")
  {
    TrimFixpoint("v");
    SmallVaultFound(name, path);
    SettledIsCovered(SmallDb(name, path), "a", "v");
  }

  lemma SmallVaultFound(name: string, path: Option<string>)
    ensures FindVault(SmallDb(name, path), "a", name) == Some("v")
  {
    assert "v" in Namesakes(SmallDb(name, path), "a", name);
  }

  function Xs(n: nat): (s: string)
    ensures |s| == n && forall c :: c in s ==> c == 'x'
  {
    seq(n, _ => 'x')
  }

  /** As many ids as wanted, all different and none of them "e". */
  function SpareIds(n: nat): (spares: seq<Spare>)
    ensures |spares| == n
    ensures forall i :: 0 <= i < n ==> |spares[i].id| == i + 2
  {
    seq(n, i requires 0 <= i < n => Spare(Xs(i + 2), 0))
  }

  lemma SmallIsSound(box: Box, hostOf: string -> string, name: string, path: Option<string>, n: nat)
    ensures Sound(SmallDb(name, path), Request.Request(box, hostOf, "a", "n", "s", 0), SpareIds(n))
  {
    SmallPaths(name, path);
    assert FreshSpares(SmallDb(name, path), SpareIds(n)) by { assert |"e"| == 1; }
  }

  /** The first row of a list that does not fit. */
  lemma FirstMisfit(hostOf: string -> string, rows: seq<Row>) returns (i: nat)
    requires exists k :: 0 <= k < |rows| && !HostFits(hostOf, rows[k])
    ensures i < |rows| && !HostFits(hostOf, rows[i]) && forall k :: 0 <= k < i ==> HostFits(hostOf, rows[k])
  {
    i := 0;
    while HostFits(hostOf, rows[i])
      invariant i < |rows| && forall k :: 0 <= k < i ==> HostFits(hostOf, rows[k])
      decreases |rows| - i
    {
      i := i + 1;
    }
  }

  /** The import of a file with a misfit fails in the small account whose entry blocks the misfit's name. */
  lemma MisfitFailsIn(db: Db, rq: Request, csv: seq<seq<string>>, o: Options, spares: seq<Spare>, i: nat)
    requires csv != [] && Sound(db, rq, spares) && |csv| <= |spares| + 1
    requires i < |RowsOf(csv)| && !HostFits(rq.hostOf, RowsOf(csv)[i])
    requires forall k :: 0 <= k < i ==> HostFits(rq.hostOf, RowsOf(csv)[k])
    requires FindVault(db, rq.owner, TargetName(o)) == Some("v") && AllTrimmed(Names(db, rq.owner, "v"))
    requires CoveredAccount(db, rq.owner, TargetName(o)) && Resolved(db, rq.owner, "v") == Some("v")
    requires Blocked(db, "v", rq.hostOf(RowsOf(csv)[i].url), "e")
    ensures !NoneFails(db, rq, csv, o, spares)
  {
    OpenedReady(db, rq, TargetName(o), spares);
    RowsTrimmed(csv);
    FirstMisfitFails(JobFor(rq, "v"), State(db, Names(db, rq.owner, "v"), EMPTY), RowsOf(csv), spares, i, "e");
  }

  /** A file with a misfit, and an account in which its import has a failed row. */
  lemma MisfitFails(box: Box, hostOf: string -> string, csv: seq<seq<string>>, o: Options)
    requires !FileFits(hostOf, csv)
    ensures !FileNeverFails(box, hostOf, csv, o)
  {
    var i := FirstMisfit(hostOf, RowsOf(csv));
    var host := hostOf(RowsOf(csv)[i].url);
    var path := if Trim(host) == "" then None else Some(Trim(host));
    var name, spares := TargetName(o), SpareIds(|csv|);
    TrimFixpoint(host);
    SmallIsSound(box, hostOf, name, path, |csv|);
    SmallVaultFound(name, path);
    SmallCovered(name, path);
    SmallStartTrimmed(name, path);
    MisfitFailsIn(SmallDb(name, path), Request.Request(box, hostOf, "a", "n", "s", 0), csv, o, spares, i);
  }

  lemma SmallStartTrimmed(name: string, path: Option<string>)
    requires path.Some? ==> Trimmed(path.value)
    ensures AllTrimmed(Names(SmallDb(name, path), "a", "v"))
  {
    SmallPaths(name, path);
    if path.Some? { LowerTrimmed(path.value); }
  }

  /**
   Importing a file never has a failed row, in any account whose destination is covered, exactly when every row with
   a password has a name or a URL whose host has no outer white space.
   */
  lemma NeverFailsExactlyWhenFileFits(box: Box, hostOf: string -> string, csv: seq<seq<string>>, o: Options)
    ensures FileNeverFails(box, hostOf, csv, o) <==> FileFits(hostOf, csv)
  {
    if FileFits(hostOf, csv) {
      forall db, owner, newId, spareId, now, spares
        ensures NoneFails(db, Request.Request(box, hostOf, owner, newId, spareId, now), csv, o, spares)
      {
        var rq := Request.Request(box, hostOf, owner, newId, spareId, now);
        if Sound(db, rq, spares) && CoveredAccount(db, owner, TargetName(o)) && |csv| <= |spares| + 1 {
          DryRunPredictsRealRun(db, rq, csv, o, spares);
        }
      }
    } else {
      MisfitFails(box, hostOf, csv, o);
    }
  }

  /** A file of one login in two columns. */
  function LoneLogin(header: seq<string>, x: string, password: string): seq<seq<string>> {
    [header, [x, password]]
  }

  lemma LoneRow(a: string, b: string, x: string, password: string)
    requires (a == "url" || a == "name") && b == "password" && Heading(a) == a && Heading(b) == b
    requires Trim(x) == x && Trim(password) == password
    ensures RowsOf(LoneLogin([a, b], x, password))
         == [if a == "url" then Row("", x, "", password, "") else Row(x, "", "", password, "")]
  {
    TwoCells(a, b, x, password, "name");
    TwoCells(a, b, x, password, "url");
    TwoCells(a, b, x, password, "username");
    TwoCells(a, b, x, password, b);
    TwoCells(a, b, x, password, "note");
    assert RowsOf(LoneLogin([a, b], x, password))[0] == RowOf([a, b], [x, password]);
  }

  /** url.Parse accepts U+00A0 in a host and CreateEntry trims it away, so such a file can fail. */
  lemma NoBreakSpaceHostFails(
      box: Box, hostOf: string -> string, header: seq<string>, url: string, password: string, o: Options)
    requires header == ["url", "password"] && url == "https://\U{a0}bank.example/"
             && hostOf(url) == "\U{a0}bank.example"
    requires password != "" && Trimmed(password)
    ensures !FileNeverFails(box, hostOf, LoneLogin(header, url, password), o)
  {
    PlainHeading(header[0]);
    PlainHeading(header[1]);
    TrimFixpoint(url);
    TrimFixpoint(password);
    assert header == [header[0], header[1]];
    LoneRow(header[0], header[1], url, password);
    assert hostOf(url)[0] == '\U{a0}';
    assert !HostFits(hostOf, RowsOf(LoneLogin(header, url, password))[0]);
    MisfitFails(box, hostOf, LoneLogin(header, url, password), o);
  }

  lemma TwoCells(a: string, b: string, x: string, y: string, name: string)
    requires Heading(a) == a && Heading(b) == b && a != b && Trim(x) == x && Trim(y) == y
    ensures Cell([a, b], [x, y], name) == if name == b then y else if name == a then x else ""
  {
    assert [a, b][..1] == [a] && [a][..0] == [];
    assert Column([a], name) == if name == a then Some(0) else None;
  }

  lemma PlainHeading(name: string)
    requires name != "" && Trimmed(name) && name[0] != '\U{feff}' && Lower(name) == name
    ensures Heading(name) == name
  {
    TrimFixpoint(name);
  }

  // ---- internal/chromeimport/chromeimport.go --------------------------------------------------

  /** One data row against the live service. */
  method ImportRow(svc: Service.Service, job: Job, row: Row, spare: Spare, existing: set<string>, report: Report)
    returns (existing': set<string>, report': Report)
    requires job.box == svc.box && Valid(svc.Tables()) && OwnsVault(svc.Tables(), job.owner, job.vault)
    requires spare.id !in svc.entries && job.spareVaultId !in svc.vaults
    modifies svc
    ensures State(svc.Tables(), existing', report')
            == RealRow(job, State(old(svc.Tables()), existing, report), row, spare)
    ensures Valid(svc.Tables()) && svc.vaults == old(svc.vaults)
    ensures svc.entries.Keys <= old(svc.entries.Keys) + {spare.id}
  {
    var name := NameOf(job.hostOf, row);
    if name.None? || Lower(name.value) in existing {
      return existing, report.(skipped := report.skipped + 1);
    }
    var op := EntryOp(job, row, name.value, spare);
    KeepsVaults(job, svc.Tables(), op);
    var r := svc.CreateEntry(job.owner, op.input, spare.id, job.spareVaultId, spare.nonce, job.now);
    if r.OneEntry? {
      existing' := existing + {Lower(name.value)};
      report' := report.(imported := report.imported + 1, names := report.names + [name.value]);
    } else {
      existing' := existing;
      report' := report.(failed := report.failed + 1);
    }
  }

  /** The loop of Import over the data rows. */
  method ImportRows(svc: Service.Service, job: Job, rows: seq<Row>, spares: seq<Spare>, ghost start: Db)
    returns (report: Report)
    requires job.box == svc.box && start == svc.Tables()
    requires |rows| <= |spares| && FreshSpares(start, spares)
    requires Valid(start) && OwnsVault(start, job.owner, job.vault)
    requires job.spareVaultId !in start.vaults
    modifies svc
    ensures var end := RealRows(job, State(start, Names(start, job.owner, job.vault), EMPTY), rows, spares);
            svc.Tables() == end.db && report == end.report
  {
    var existing := Names(svc.Tables(), job.owner, job.vault);
    report := EMPTY;
    ghost var end := RealRows(job, State(start, existing, EMPTY), rows, spares);
    for i := 0 to |rows|
      invariant Valid(svc.Tables()) && svc.vaults == start.vaults
      invariant forall k :: i <= k < |rows| ==> spares[k].id !in svc.entries
      invariant end == RealRows(job, State(svc.Tables(), existing, report), rows[i..], spares[i..])
    {
      assert rows[i..][1..] == rows[i + 1..] && spares[i..][1..] == spares[i + 1..];
      existing, report := ImportRow(svc, job, rows[i], spares[i], existing, report);
    }
  }

  /** The same loop on a dry run: names are noted, nothing is written. */
  method PlanRows(job: Job, rows: seq<Row>, known: set<string>, ghost db: Db) returns (report: Report)
    ensures report == DryRows(job, State(db, known, EMPTY), rows).report
  {
    var existing := known;
    report := EMPTY;
    for i := 0 to |rows|
      invariant DryRows(job, State(db, known, EMPTY), rows) == DryRows(job, State(db, existing, report), rows[i..])
    {
      assert rows[i..][1..] == rows[i + 1..];
      var name := NameOf(job.hostOf, rows[i]);
      if name.None? || Lower(name.value) in existing {
        report := report.(skipped := report.skipped + 1);
        continue;
      }
      existing := existing + {Lower(name.value)};
      report := report.(imported := report.imported + 1, names := report.names + [name.value]);
    }
  }

  lemma KeepsVaults(job: Job, db: Db, op: Op)
    requires op.CreateEntry? && op.input.vaultId == job.vault && OwnsVault(db, job.owner, job.vault)
    ensures var after := Step(job.box, db, job.owner, op).db;
            after.vaults == db.vaults && after.entries.Keys <= db.entries.Keys + {op.id}
  {
    ResolvedIsDestination(db, job.owner, op);
  }

  method Import(svc: Service.Service, rq: Request, csv: seq<seq<string>>, o: Options, spares: seq<Spare>)
    returns (r: Outcome)
    requires rq.box == svc.box && Sound(svc.Tables(), rq, spares) && |csv| <= |spares| + 1
    modifies svc
    ensures o.dryRun ==> svc.Tables() == old(svc.Tables()) && r == DryImport(old(svc.Tables()), rq, csv, o)
    ensures !o.dryRun ==> (svc.Tables(), r) == RealImport(old(svc.Tables()), rq, csv, o, spares)
  {
    if |csv| < 1 { return EmptyCsv; }
    if Column(csv[0], "password").None? { return NoPasswordColumn; }
    var name := TargetName(o);
    ghost var db := svc.Tables();
    var found := FindVault(svc.Tables(), rq.owner, name);
    var rows := RowsOf(csv);
    if o.dryRun {
      var vault := if found.Some? then found.value else "";
      var report := PlanRows(JobFor(rq, vault), rows, if vault == "" then {}
                                                      else Names(svc.Tables(), rq.owner, vault), db);
      return Imported(vault, report);
    }
    var vault;
    if found.Some? {
      vault := found.value;
    } else {
      NameKept(o);
      DescriptionKept();
      var _ := svc.CreateVault(rq.owner, name, "Importado do Google Chrome", rq.newVaultId, rq.now);
      vault := rq.newVaultId;
    }
    assert svc.Tables() == Opened(db, rq, name).0 && vault == Opened(db, rq, name).1;
    var report := ImportRows(svc, JobFor(rq, vault), rows, spares, svc.Tables());
    return Imported(vault, report);
  }

  lemma NameKept(o: Options)
    ensures TargetName(o) != "" && Trim(TargetName(o)) == TargetName(o)
  {
    TrimFixpoint(o.vaultName);
    TrimFixpoint("Principal");
  }

  lemma DescriptionKept()
    ensures Trim("Importado do Google Chrome") == "Importado do Google Chrome"
  {
    TrimFixpoint("Importado do Google Chrome");
  }
}
