/** What an import of internal/chromeimport/chromeimport.go leaves in the vault: every new entry against its CSV row. */
module ImportedEntries {
  import opened Text
  import opened VaultStore
  import opened ChromeImport
  import Import = ChromeImport

  // ---- the cells of a row ---------------------------------------------------------------------

  /** A header cell reads as this name: trimmed, in small letters, without a leading byte-order mark. */
  predicate ReadsAs(cell: string, name: string) {
    var plain := if cell != "" && cell[0] == '\U{feff}' then cell[1..] else cell;
    Lower(Trim(plain)) == name
  }

  /** The text under a heading: that of its last column, trimmed; blank if there is none or the row is too short. */
  ghost predicate Under(header: seq<string>, cells: seq<string>, name: string, text: string) {
    || ((forall i :: 0 <= i < |header| ==> !ReadsAs(header[i], name)) && text == "")
    || exists i: nat :: IsLastColumn(header, name, i) && text == if i < |cells| then Trim(cells[i]) else ""
  }

  ghost predicate IsLastColumn(header: seq<string>, name: string, i: nat) {
    i < |header| && ReadsAs(header[i], name) && forall j :: i < j < |header| ==> !ReadsAs(header[j], name)
  }

  lemma {:induction false} ColumnIsLast(header: seq<string>, name: string)
    ensures match Column(header, name)
            case None => forall i :: 0 <= i < |header| ==> !ReadsAs(header[i], name)
            case Some(i) => IsLastColumn(header, name, i)
  {
    if header != [] {
      var n := |header| - 1;
      var front := header[..n];
      assert ReadsAs(header[n], name) <==> Heading(header[n]) == name;
      if Heading(header[n]) != name {
        ColumnIsLast(front, name);
        LastOfFront(header, name, Column(front, name));
      }
    }
  }

  lemma LastOfFront(header: seq<string>, name: string, column: Option<nat>)
    requires header != [] && !ReadsAs(header[|header| - 1], name)
    requires var front := header[..|header| - 1];
             match column
             case None => forall i :: 0 <= i < |front| ==> !ReadsAs(front[i], name)
             case Some(i) => IsLastColumn(front, name, i)
    ensures match column
            case None => forall i :: 0 <= i < |header| ==> !ReadsAs(header[i], name)
            case Some(i) => IsLastColumn(header, name, i)
  {
    var front := header[..|header| - 1];
    forall i | 0 <= i < |header| && (column.None? || i > column.value) ensures !ReadsAs(header[i], name) {
      if i < |front| { assert front[i] == header[i]; }
    }
  }

  /** `Cell` is the text under the heading, and the only one. */
  lemma CellIsUnder(header: seq<string>, cells: seq<string>, name: string, text: string)
    ensures Under(header, cells, name, text) <==> text == Cell(header, cells, name)
  {
    ColumnIsLast(header, name);
    var column := Column(header, name);
    if column.Some? {
      var last := column.value;
      forall i: nat | IsLastColumn(header, name, i) ensures i == last {
      }
    }
  }

  // ---- a row and its entry --------------------------------------------------------------------

  /** The name an entry gets from its row: the name column, else the host of the URL, else the user name. */
  ghost predicate IsName(hostOf: string -> string, header: seq<string>, cells: seq<string>, name: string) {
    && Cell(header, cells, "password") != "" && name != ""
    && if Cell(header, cells, "name") != "" then name == Cell(header, cells, "name")
       else if hostOf(Cell(header, cells, "url")) != "" then name == hostOf(Cell(header, cells, "url"))
       else name == Cell(header, cells, "username")
  }

  lemma NameIs(hostOf: string -> string, header: seq<string>, cells: seq<string>, name: string)
    ensures IsName(hostOf, header, cells, name) <==> NameOf(hostOf, RowOf(header, cells)) == Some(name)
  {
  }

  /** The text under a heading is kept under that heading, unless it is blank. */
  predicate Notes(header: seq<string>, cells: seq<string>, metadata: map<string, string>, heading: string) {
    if Cell(header, cells, heading) == "" then heading !in metadata
    else heading in metadata && metadata[heading] == Cell(header, cells, heading)
  }

  /** Three columns are noted beside the secret, and nothing else. */
  predicate NotesRow(header: seq<string>, cells: seq<string>, metadata: map<string, string>) {
    && Notes(header, cells, metadata, "username") && Notes(header, cells, metadata, "url")
    && Notes(header, cells, metadata, "note") && metadata.Keys <= {"username", "url", "note"}
  }

  /** The entry is the row's: its name, its password under seal, its notes, and nothing of another row. */
  ghost predicate IsEntryOf(
      rq: Import.Request, header: seq<string>, cells: seq<string>, vault: string, spare: Spare, entry: EntryRow)
  {
    && (exists name :: IsName(rq.hostOf, header, cells, name) && entry.path == Trim(name))
    && entry.path != "" && entry.vault == vault && entry.kind == "login" && entry.tags == ["chrome"]
    && entry.value == rq.box.seal(Cell(header, cells, "password"), spare.nonce)
    && NotesRow(header, cells, entry.metadata)
    && entry.totp == None && entry.created == rq.now && entry.updated == rq.now
  }

  lemma MetadataNotes(header: seq<string>, cells: seq<string>)
    ensures NotesRow(header, cells, Metadata(RowOf(header, cells)))
  {
    assert "username"[1] == 's' && "url"[1] == 'r' && "note"[1] == 'o';
  }

  /** The entry that CreateEntry writes for a row, when it writes one. */
  lemma CreatedRow(job: Job, db: Db, row: Row, name: string, spare: Spare)
    requires OwnsVault(db, job.owner, job.vault)
    ensures var next, target := Step(job.box, db, job.owner, EntryOp(job, row, name, spare)),
                                Resolved(db, job.owner, job.vault);
            if next.result.OneEntry? then
              && target.Some? && Trim(name) != "" && spare.id in next.db.entries
              && next.db == PutEntry(db, spare.id, next.db.entries[spare.id])
              && next.db.entries[spare.id]
                 == EntryRow(target.value, Trim(name), "login", job.box.seal(row.password, spare.nonce), Metadata(row),
                             ["chrome"], None, job.now, job.now)
            else next.db == db
  {
    TrimFixpoint("login");
    ResolvedIsDestination(db, job.owner, EntryOp(job, row, name, spare));
  }

  /** Nothing, or the entry of this line under this id. */
  ghost predicate WritesLine(
      rq: Import.Request, before: Db, next: Db, header: seq<string>, cells: seq<string>, vault: Option<string>,
      spare: Spare)
  {
    next == before
    || (&& vault.Some? && spare.id in next.entries && next == PutEntry(before, spare.id, next.entries[spare.id])
        && IsEntryOf(rq, header, cells, vault.value, spare, next.entries[spare.id]))
  }

  /** One row writes nothing, or its entry under the next spare id. */
  lemma RowWrites(rq: Import.Request, vault: string, st: State, header: seq<string>, cells: seq<string>, spare: Spare)
    requires OwnsVault(st.db, rq.owner, vault)
    ensures WritesLine(rq, st.db, RealRow(JobFor(rq, vault), st, RowOf(header, cells), spare).db, header, cells,
                       Resolved(st.db, rq.owner, vault), spare)
  {
    var row, job := RowOf(header, cells), JobFor(rq, vault);
    var name := NameOf(rq.hostOf, row);
    if name.Some? {
      NameIs(rq.hostOf, header, cells, name.value);
      MetadataNotes(header, cells);
      CreatedRow(job, st.db, row, name.value, spare);
    }
  }

  // ---- all the rows ---------------------------------------------------------------------------

  /** The parsed rows are those of the lines under the header. */
  ghost predicate AreRows(header: seq<string>, lines: seq<seq<string>>, rows: seq<Row>) {
    |rows| == |lines| && forall i :: 0 <= i < |lines| ==> rows[i] == RowOf(header, lines[i])
  }

  /** Entry `e` is new, and one of the lines is where it comes from. */
  ghost predicate ComesFromLine(
      rq: Import.Request, header: seq<string>, lines: seq<seq<string>>, vault: string, spares: seq<Spare>, e: string,
      entry: EntryRow)
    requires |lines| <= |spares|
  {
    exists i :: 0 <= i < |lines| && e == spares[i].id && IsEntryOf(rq, header, lines[i], vault, spares[i], entry)
  }

  /** Everything between two databases is new entries, each from its line. */
  ghost predicate AddsLines(
      rq: Import.Request, before: Db, after: Db, header: seq<string>, lines: seq<seq<string>>, vault: Option<string>,
      spares: seq<Spare>)
    requires |lines| <= |spares|
  {
    && Extends(before, after)
    && forall e :: e in after.entries && e !in before.entries ==>
         vault.Some? && ComesFromLine(rq, header, lines, vault.value, spares, e, after.entries[e])
  }

  lemma {:induction false} RowsWrite(
      rq: Import.Request, vault: string, st: State, header: seq<string>, lines: seq<seq<string>>, rows: seq<Row>,
      spares: seq<Spare>)
    requires OwnsVault(st.db, rq.owner, vault) && AreRows(header, lines, rows)
    requires |rows| <= |spares| && FreshSpares(st.db, spares)
    ensures AddsLines(rq, st.db, RealRows(JobFor(rq, vault), st, rows, spares).db, header, lines,
                      Resolved(st.db, rq.owner, vault), spares)
    decreases |rows|
  {
    if rows != [] {
      var next := RealRow(JobFor(rq, vault), st, rows[0], spares[0]);
      RowWrites(rq, vault, st, header, lines[0], spares[0]);
      LineKeeps(rq, st.db, next.db, header, lines[0], Resolved(st.db, rq.owner, vault), spares, vault);
      RowsWrite(rq, vault, next, header, lines[1..], rows[1..], spares[1..]);
      FirstLine(rq, st.db, next.db, RealRows(JobFor(rq, vault), st, rows, spares).db, header, lines,
                Resolved(st.db, rq.owner, vault), spares);
    }
  }

  lemma LineKeeps(
      rq: Import.Request, before: Db, next: Db, header: seq<string>, cells: seq<string>, target: Option<string>,
      spares: seq<Spare>, vault: string)
    requires spares != [] && FreshSpares(before, spares)
    requires WritesLine(rq, before, next, header, cells, target, spares[0])
    ensures FreshSpares(next, spares[1..]) && next.vaults == before.vaults
    ensures Resolved(next, rq.owner, vault) == Resolved(before, rq.owner, vault)
  {
    ResolvedByVaults(before, next, rq.owner, vault);
  }

  lemma FirstLine(
      rq: Import.Request, before: Db, next: Db, after: Db, header: seq<string>, lines: seq<seq<string>>,
      vault: Option<string>, spares: seq<Spare>)
    requires 0 < |lines| <= |spares| && spares[0].id !in before.entries
    requires WritesLine(rq, before, next, header, lines[0], vault, spares[0])
    requires AddsLines(rq, next, after, header, lines[1..], vault, spares[1..])
    ensures AddsLines(rq, before, after, header, lines, vault, spares)
  {
    forall e | e in after.entries && e !in before.entries
      ensures vault.Some? && ComesFromLine(rq, header, lines, vault.value, spares, e, after.entries[e])
    {
      if e !in next.entries {
        var i :| 0 <= i < |lines[1..]| && e == spares[1..][i].id
                 && IsEntryOf(rq, header, lines[1..][i], vault.value, spares[1..][i], after.entries[e]);
        assert lines[1..][i] == lines[i + 1] && spares[1..][i] == spares[i + 1];
      }
    }
  }

  /**
   Whatever the account and the file: an import leaves every entry that was there, and each entry that was not comes
   from one line, with that line's name, password, user name, URL and note, in the vault the destination resolves to.
   */
  lemma ImportAddsItsLines(db: Db, rq: Import.Request, csv: seq<seq<string>>, o: Options, spares: seq<Spare>)
    requires Sound(db, rq, spares) && 0 < |csv| <= |spares| + 1
    ensures var (after, outcome) := RealImport(db, rq, csv, o, spares);
            && (outcome.Imported? ==>
                  AddsLines(rq, db, after.(vaults := db.vaults), csv[0], csv[1..],
                            Resolved(after, rq.owner, outcome.vault), spares))
            && (!outcome.Imported? ==> after == db)
  {
    if Column(csv[0], "password").Some? {
      var (db', vault) := Opened(db, rq, TargetName(o));
      var start := State(db', Names(db', rq.owner, vault), EMPTY);
      RowsWrite(rq, vault, start, csv[0], csv[1..], RowsOf(csv), spares);
      RowsKeepVaults(JobFor(rq, vault), start, RowsOf(csv), spares);
      ResolvedByVaults(db', RealRows(JobFor(rq, vault), start, RowsOf(csv), spares).db, rq.owner, vault);
    }
  }

  /** The owner is shown the password of this line, and the notes beside it are this line's. */
  ghost predicate ShowsLine(rq: Import.Request, db: Db, e: string, header: seq<string>, cells: seq<string>) {
    && OwnsEntry(db, rq.owner, e)
    && Step(rq.box, db, rq.owner, RevealEntry(e)).result == Value(Cell(header, cells, "password"))
    && NotesRow(header, cells, db.entries[e].metadata)
  }

  lemma EntryShowsLine(
      rq: Import.Request, db: Db, e: string, header: seq<string>, cells: seq<string>, vault: string, spare: Spare)
    requires Lawful(rq.box) && e in db.entries && OwnsVault(db, rq.owner, vault)
    requires IsEntryOf(rq, header, cells, vault, spare, db.entries[e])
    ensures ShowsLine(rq, db, e, header, cells)
  {
    SealedIsRevealed(rq.box, db, rq.owner, e, Cell(header, cells, "password"), spare.nonce);
  }

  /** Whoever opens an imported entry is shown the password of its line. */
  lemma ImportedSecretIsTheLines(
      db: Db, rq: Import.Request, csv: seq<seq<string>>, o: Options, spares: seq<Spare>, e: string)
    requires Lawful(rq.box) && Sound(db, rq, spares) && 0 < |csv| <= |spares| + 1
    requires e in RealImport(db, rq, csv, o, spares).0.entries && e !in db.entries
    ensures exists i :: && 0 < i < |csv| && spares[i - 1].id == e
                        && ShowsLine(rq, RealImport(db, rq, csv, o, spares).0, e, csv[0], csv[i])
  {
    ImportAddsItsLines(db, rq, csv, o, spares);
    var (after, outcome) := RealImport(db, rq, csv, o, spares);
    var target := Resolved(after, rq.owner, outcome.vault).value;
    assert ComesFromLine(rq, csv[0], csv[1..], target, spares, e, after.entries[e]);
    var i :| 0 <= i < |csv[1..]| && e == spares[i].id
             && IsEntryOf(rq, csv[0], csv[1..][i], target, spares[i], after.entries[e]);
    assert csv[1..][i] == csv[i + 1];
    ResolvedIsOwned(after, rq.owner, outcome.vault);
    EntryShowsLine(rq, after, e, csv[0], csv[i + 1], target, spares[i]);
    assert spares[i + 1 - 1].id == e;
  }

  lemma ResolvedIsOwned(db: Db, owner: string, vault: string)
    requires Resolved(db, owner, vault).Some?
    ensures OwnsVault(db, owner, Resolved(db, owner, vault).value)
  {
  }

  // ---- nothing is left out --------------------------------------------------------------------

  lemma RowCounts(job: Job, st: State, row: Row, spare: Spare)
    requires OwnsVault(st.db, job.owner, job.vault) && spare.id !in st.db.entries
    ensures var next := RealRow(job, st, row, spare);
            && next.db.vaults == st.db.vaults && next.db.entries.Keys <= st.db.entries.Keys + {spare.id}
            && next.report.imported >= st.report.imported
            && |next.db.entries| == |st.db.entries| + (next.report.imported - st.report.imported)
  {
    var name := NameOf(job.hostOf, row);
    if name.Some? { CreatedRow(job, st.db, row, name.value, spare); }
  }

  /** The number reported is the number of entries written. */
  lemma {:induction false} RowsCount(job: Job, st: State, rows: seq<Row>, spares: seq<Spare>)
    requires OwnsVault(st.db, job.owner, job.vault) && |rows| <= |spares| && FreshSpares(st.db, spares)
    ensures var end := RealRows(job, st, rows, spares);
            && end.report.imported >= st.report.imported
            && |end.db.entries| == |st.db.entries| + (end.report.imported - st.report.imported)
    decreases |rows|
  {
    if rows != [] {
      RowCounts(job, st, rows[0], spares[0]);
      RowsCount(job, RealRow(job, st, rows[0], spares[0]), rows[1..], spares[1..]);
    }
  }

  /** A name reported is the name of a line. */
  ghost predicate NamesLine(
      hostOf: string -> string, header: seq<string>, lines: seq<seq<string>>, name: string)
  {
    exists i :: 0 <= i < |lines| && IsName(hostOf, header, lines[i], name)
  }

  lemma {:induction false} NamesAreLines(
      job: Job, st: State, header: seq<string>, lines: seq<seq<string>>, rows: seq<Row>, spares: seq<Spare>)
    requires AreRows(header, lines, rows) && |rows| <= |spares|
    ensures var names := RealRows(job, st, rows, spares).report.names;
            && st.report.names <= names
            && forall k :: |st.report.names| <= k < |names| ==> NamesLine(job.hostOf, header, lines, names[k])
    decreases |rows|
  {
    if rows != [] {
      var next := RealRow(job, st, rows[0], spares[0]);
      NamesAreLines(job, next, header, lines[1..], rows[1..], spares[1..]);
      var names := RealRows(job, st, rows, spares).report.names;
      forall k | |st.report.names| <= k < |names| ensures NamesLine(job.hostOf, header, lines, names[k]) {
        if k < |next.report.names| {
          NameIs(job.hostOf, header, lines[0], names[k]);
        } else {
          var i :| 0 <= i < |lines[1..]| && IsName(job.hostOf, header, lines[1..][i], names[k]);
          assert lines[1..][i] == lines[i + 1];
        }
      }
    }
  }

  /** The report names as many lines as it counts, and only lines that have a password and that name. */
  lemma ReportNamesLines(db: Db, rq: Import.Request, csv: seq<seq<string>>, o: Options, spares: seq<Spare>)
    requires Sound(db, rq, spares) && 0 < |csv| <= |spares| + 1
    ensures var outcome := RealImport(db, rq, csv, o, spares).1;
            outcome.Imported? ==>
              && |outcome.report.names| == outcome.report.imported
              && outcome.report.imported + outcome.report.skipped + outcome.report.failed == |csv| - 1
              && forall k :: 0 <= k < |outcome.report.names| ==>
                   NamesLine(rq.hostOf, csv[0], csv[1..], outcome.report.names[k])
  {
    if Column(csv[0], "password").Some? {
      var (db', vault) := Opened(db, rq, TargetName(o));
      var start := State(db', Names(db', rq.owner, vault), EMPTY);
      NamesAreLines(JobFor(rq, vault), start, csv[0], csv[1..], RowsOf(csv), spares);
      EveryRowCounted(JobFor(rq, vault), start, RowsOf(csv), spares);
    }
  }

  /** The account lists the name, letter case aside. */
  ghost predicate Listed(db: Db, owner: string, vault: string, name: string) {
    exists e :: && OwnsEntry(db, owner, e) && (Trim(vault) == "" || db.entries[e].vault == vault)
                && Lower(db.entries[e].path) == Lower(name)
  }

  /**
   After the import of a fitting file every line with a password and a name has an entry of that name in the listing of
   the destination, the new one or one that was there; and as many entries are new as the report says.
   */
  lemma EveryLoginIsThere(db: Db, rq: Import.Request, csv: seq<seq<string>>, o: Options, spares: seq<Spare>)
    requires Sound(db, rq, spares) && FileFits(rq.hostOf, csv) && 0 < |csv| <= |spares| + 1
    requires var found := FindVault(db, rq.owner, TargetName(o)); found.Some? ==> Settles(found.value)
    ensures var (after, outcome) := RealImport(db, rq, csv, o, spares);
            outcome.Imported? ==>
              && |after.entries| == |db.entries| + outcome.report.imported
              && forall i, name :: 0 < i < |csv| && IsName(rq.hostOf, csv[0], csv[i], name) ==>
                   Listed(after, rq.owner, outcome.vault, name)
  {
    if Column(csv[0], "password").Some? {
      var name, rows := TargetName(o), RowsOf(csv);
      var (db', vault) := Opened(db, rq, name);
      if FindVault(db, rq.owner, name).None? { NewVaultReady(db, rq, name, spares); }
      SettledIsCovered(db', rq.owner, vault);
      OpenedReady(db, rq, name, spares);
      RowsTrimmed(csv);
      var job, start := JobFor(rq, vault), State(db', Names(db', rq.owner, vault), EMPTY);
      RunsAgree(job, start, start, rows, spares);
      AfterDryAllKnown(job, start, rows);
      RowsCount(job, start, rows, spares);
      var end := RealRows(job, start, rows, spares);
      assert RealImport(db, rq, csv, o, spares) == (end.db, Imported(vault, end.report));
      forall i, n | 0 < i < |csv| && IsName(rq.hostOf, csv[0], csv[i], n)
        ensures Listed(end.db, rq.owner, vault, n)
      {
        NameIs(rq.hostOf, csv[0], csv[i], n);
        assert rows[i - 1] == RowOf(csv[0], csv[i]);
        NamedIsListed(end.db, rq.owner, vault, n);
      }
    }
  }

  lemma NamedIsListed(db: Db, owner: string, vault: string, name: string)
    requires Lower(name) in Names(db, owner, vault)
    ensures Listed(db, owner, vault, name)
  {
    var e :| e in db.entries && IsListed(db, owner, vault, e) && Lower(db.entries[e].path) == Lower(name);
    assert OwnsEntry(db, owner, e);
  }

  // ---- the destination ------------------------------------------------------------------------

  /** A vault of the owner has the name, letter case aside. */
  predicate IsNamesake(db: Db, owner: string, name: string, v: string) {
    v in db.vaults && db.vaults[v].owner == owner && Lower(db.vaults[v].name) == Lower(name)
  }

  /** The namesake that was updated last; of equals the one with the smaller id. */
  ghost predicate IsLatest(db: Db, owner: string, name: string, v: string) {
    && IsNamesake(db, owner, name, v)
    && forall u :: IsNamesake(db, owner, name, u) && u != v ==>
         db.vaults[u].updated < db.vaults[v].updated || (db.vaults[u].updated == db.vaults[v].updated && Less(v, u))
  }

  lemma FoundIsLatest(db: Db, owner: string, name: string)
    ensures forall v :: v != "" ==> (FindVault(db, owner, name) == Some(v) <==> IsLatest(db, owner, name, v))
  {
    var all := Namesakes(db, owner, name);
    if all != map[] {
      var first := Oldest(all);
      forall u | IsNamesake(db, owner, name, u) && u != first
        ensures db.vaults[u].updated < db.vaults[first].updated
                || (db.vaults[u].updated == db.vaults[first].updated && Less(first, u))
      {
        assert u in all && Older(all, first, u);
      }
      assert IsLatest(db, owner, name, first);
      forall v | IsLatest(db, owner, name, v) ensures v == first {
        LessTotal(v, first);
      }
    } else {
      assert forall v :: IsNamesake(db, owner, name, v) ==> v in all;
    }
  }

  /** The name asked for, or "Principal". */
  function Wanted(o: Options): string { if Trim(o.vaultName) != "" then Trim(o.vaultName) else "Principal" }

  /**
   An import goes into the owner's vault of that name that was updated last; if there is none it makes one, and
   otherwise it leaves the vaults as they were.
   */
  lemma ImportOpensVault(db: Db, rq: Import.Request, csv: seq<seq<string>>, o: Options, spares: seq<Spare>)
    requires Sound(db, rq, spares) && 0 < |csv| <= |spares| + 1
    ensures var (after, outcome) := RealImport(db, rq, csv, o, spares);
            && (outcome.Imported? <==> exists i :: 0 <= i < |csv[0]| && ReadsAs(csv[0][i], "password"))
            && (outcome.Imported? && outcome.vault != rq.newVaultId ==>
                  IsLatest(db, rq.owner, Wanted(o), outcome.vault) && after.vaults == db.vaults)
            && (outcome.Imported? && outcome.vault == rq.newVaultId ==>
                  && (forall v :: v != "" ==> !IsLatest(db, rq.owner, Wanted(o), v))
                  && after.vaults == db.vaults[rq.newVaultId := VaultRow(
                       rq.owner, Wanted(o), "Importado do Google Chrome", rq.now, rq.now)])
  {
    ColumnIsLast(csv[0], "password");
    FoundIsLatest(db, rq.owner, TargetName(o));
    if Column(csv[0], "password").Some? {
      var (db', vault) := Opened(db, rq, TargetName(o));
      RowsKeepVaults(JobFor(rq, vault), State(db', Names(db', rq.owner, vault), EMPTY), RowsOf(csv), spares);
    }
  }
}
