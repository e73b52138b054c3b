/**
 Chrome imports into accounts whose vault ids are not plain, as a restore can write them: exactly which accounts are
 safe for every file that fits (internal/chromeimport/chromeimport.go over internal/vault/vault.go).
 */
module ChromeAccounts {
  import opened Text
  import opened VaultStore
  import opened ChromeImport
  import Backup
  import VaultBackup

  // ---- names and ids that are not in use ------------------------------------------------------

  lemma LongerThanAll(names: set<string>) returns (n: nat)
    ensures n >= 2 && forall s :: s in names ==> |s| < n
    decreases |names|
  {
    if names == {} {
      n := 2;
    } else {
      var s :| s in names;
      var m := LongerThanAll(names - {s});
      n := if |s| < m then m else |s| + 1;
      forall t | t in names ensures |t| < n {
        if t != s { assert t in names - {s}; }
      }
    }
  }

  lemma XsPlain(n: nat)
    requires n > 0
    ensures PlainPath(Xs(n)) && Lower(Xs(n)) == Xs(n) && PlainId(Xs(n))
  {
    assert Xs(n)[0] in Xs(n) && Xs(n)[n - 1] in Xs(n);
    assert forall i :: 0 <= i < n ==> Xs(n)[i] in Xs(n);
  }

  /** A file of named logins. */
  function NamedLogins(header: seq<string>, names: seq<string>, password: string): (csv: seq<seq<string>>)
    ensures |csv| == |names| + 1 && csv[0] == header
    ensures forall i :: 0 <= i < |names| ==> csv[i + 1] == [names[i], password]
  {
    [header] + seq(|names|, i requires 0 <= i < |names| => [names[i], password])
  }

  lemma NamedRows(header: seq<string>, names: seq<string>, password: string)
    requires header == ["name", "password"] && PlainPath(password)
             && forall i :: 0 <= i < |names| ==> PlainPath(names[i])
    ensures var csv := NamedLogins(header, names, password);
            && |RowsOf(csv)| == |names|
            && forall i :: 0 <= i < |names| ==> RowsOf(csv)[i] == Row(names[i], "", "", password, "")
    ensures Column(header, "password").Some?
  {
    PlainHeading(header[0]);
    PlainHeading(header[1]);
    assert header == [header[0], header[1]];
    TrimFixpoint(password);
    forall i | 0 <= i < |names|
      ensures RowsOf(NamedLogins(header, names, password))[i] == Row(names[i], "", "", password, "")
    {
      TrimFixpoint(names[i]);
      LoneRow(header[0], header[1], names[i], password);
      assert RowOf(header, [names[i], password]) == RowsOf(LoneLogin([header[0], header[1]], names[i], password))[0];
    }
  }

  /** The row of a named login. */
  function Named(name: string, password: string): Row { Row(name, "", "", password, "") }

  /** There is a file that fits with just these names. */
  lemma NamedFile(hostOf: string -> string, names: seq<string>) returns (csv: seq<seq<string>>, password: string)
    requires forall i :: 0 <= i < |names| ==> PlainPath(names[i])
    ensures |csv| == |names| + 1 && Column(csv[0], "password").Some? && FileFits(hostOf, csv) && password != ""
    ensures |RowsOf(csv)| == |names| && forall i :: 0 <= i < |names| ==> RowsOf(csv)[i] == Named(names[i], password)
  {
    var header := ["name", "password"];
    password := Xs(1);
    XsPlain(1);
    csv := NamedLogins(header, names, password);
    NamedRows(header, names, password);
  }

  // ---- an account is safe exactly when its destination is covered -----------------------------

  /** No file that fits has a failed row in this account. */
  ghost predicate AccountNeverFails(db: Db, rq: ChromeImport.Request, o: Options) {
    forall csv, spares :: FitsAndFails(db, rq, csv, o, spares) ==> false
  }

  ghost predicate FitsAndFails(
      db: Db, rq: ChromeImport.Request, csv: seq<seq<string>>, o: Options, spares: seq<Spare>)
  {
    && Sound(db, rq, spares) && FileFits(rq.hostOf, csv) && |csv| <= |spares| + 1
    && RealImport(db, rq, csv, o, spares).1.Imported? && RealImport(db, rq, csv, o, spares).1.report.failed > 0
  }

  /** Of every file that fits a dry run predicts the report. */
  ghost predicate AccountPredicted(db: Db, rq: ChromeImport.Request, o: Options) {
    forall csv, spares :: Mispredicted(db, rq, csv, o, spares) ==> false
  }

  ghost predicate Mispredicted(
      db: Db, rq: ChromeImport.Request, csv: seq<seq<string>>, o: Options, spares: seq<Spare>)
  {
    && Sound(db, rq, spares) && FileFits(rq.hostOf, csv) && |csv| <= |spares| + 1
    && var actual, dry := RealImport(db, rq, csv, o, spares).1, DryImport(db, rq, csv, o);
       actual.Imported? && dry.Imported? && dry.report != actual.report
  }

  lemma {:induction false} DryFailsNothing(job: Job, st: State, rows: seq<Row>)
    ensures DryRows(job, st, rows).report.failed == st.report.failed
    decreases |rows|
  {
    if rows != [] { DryFailsNothing(job, DryRow(job, st, rows[0]), rows[1..]); }
  }

  /** CreateEntry refuses this name: the destination is refused, or the name is taken there. */
  ghost predicate Refused(db: Db, owner: string, vault: string, name: string) {
    var target := Resolved(db, owner, vault);
    target.None? || exists e :: e in db.entries && db.entries[e].vault == target.value && db.entries[e].path == name
  }

  lemma RefusedRowFails(job: Job, st: State, row: Row, spare: Spare)
    requires OwnsVault(st.db, job.owner, job.vault) && spare.id !in st.db.entries
    requires row.password != "" && PlainPath(row.name) && Lower(row.name) !in st.existing
    requires Refused(st.db, job.owner, job.vault, row.name)
    ensures var next := RealRow(job, st, row, spare);
            next == st.(report := st.report.(failed := st.report.failed + 1))
  {
    var op := EntryOp(job, row, row.name, spare);
    ResolvedIsDestination(st.db, job.owner, op);
    TrimFixpoint(row.name);
    var target := Resolved(st.db, job.owner, job.vault);
    if target.Some? {
      var e :| e in st.db.entries && st.db.entries[e].vault == target.value && st.db.entries[e].path == row.name;
      assert PathTaken(st.db, target.value, row.name, spare.id);
    }
  }

  /** A name that an account with an uncovered destination refuses, and that the import does not know to be there. */
  lemma UncoveredName(db: Db, owner: string, vault: string) returns (name: string)
    requires OwnsVault(db, owner, vault) && !Covered(db, owner, vault, Names(db, owner, vault))
    ensures PlainPath(name) && Lower(name) !in Names(db, owner, vault) && Refused(db, owner, vault, name)
  {
    if Resolved(db, owner, vault).None? {
      var n := LongerThanAll(Names(db, owner, vault));
      XsPlain(n);
      name := Xs(n);
    } else {
      var e :| InTarget(db, owner, vault, e) && PlainPath(db.entries[e].path)
               && Lower(db.entries[e].path) !in Names(db, owner, vault);
      name := db.entries[e].path;
    }
  }

  lemma OneRefusedRow(
      db: Db, rq: ChromeImport.Request, csv: seq<seq<string>>, o: Options, spares: seq<Spare>, vault: string)
    requires Sound(db, rq, spares) && |csv| == 2 && |spares| >= 1
    requires Column(csv[0], "password").Some? && FileFits(rq.hostOf, csv)
    requires FindVault(db, rq.owner, TargetName(o)) == Some(vault)
    requires var row := RowsOf(csv)[0];
             && row.password != "" && PlainPath(row.name) && Lower(row.name) !in Names(db, rq.owner, vault)
             && Refused(db, rq.owner, vault, row.name)
    ensures FitsAndFails(db, rq, csv, o, spares) && Mispredicted(db, rq, csv, o, spares)
  {
    var job, start, rows := JobFor(rq, vault), State(db, Names(db, rq.owner, vault), EMPTY), RowsOf(csv);
    assert rows[1..] == [];
    RefusedRowFails(job, start, rows[0], spares[0]);
    assert RealRows(job, start, rows, spares) == RealRow(job, start, rows[0], spares[0]);
    DryFailsNothing(job, start, rows);
  }

  function SparesFrom(m: nat, n: nat): (spares: seq<Spare>)
    ensures |spares| == n && forall i :: 0 <= i < n ==> spares[i] == Spare(Xs(m + i), 0)
  {
    seq(n, i requires 0 <= i < n => Spare(Xs(m + i), 0))
  }

  lemma SparesExist(db: Db, n: nat) returns (spares: seq<Spare>)
    ensures |spares| == n && FreshSpares(db, spares)
  {
    var m := LongerThanAll(db.entries.Keys);
    spares := SparesFrom(m, n);
    assert forall i :: 0 <= i < n ==> |spares[i].id| == m + i;
  }

  lemma UncoveredFails(db: Db, rq: ChromeImport.Request, o: Options)
    requires Sound(db, rq, []) && !CoveredAccount(db, rq.owner, TargetName(o))
    ensures !AccountNeverFails(db, rq, o) && !AccountPredicted(db, rq, o)
  {
    var vault := FindVault(db, rq.owner, TargetName(o)).value;
    var name := UncoveredName(db, rq.owner, vault);
    var spares := SparesExist(db, 1);
    var csv, _ := NamedFile(rq.hostOf, [name]);
    assert RowsOf(csv)[0].name == name;
    OneRefusedRow(db, rq, csv, o, spares, vault);
    assert FitsAndFails(db, rq, csv, o, spares) && Mispredicted(db, rq, csv, o, spares);
  }

  /**
   In an account no file that fits ever has a failed row, and a dry run predicts every such file, exactly when the
   destination is covered: CreateEntry takes it, and knows no name that the import does not.
   */
  lemma SafeExactlyWhenCovered(db: Db, rq: ChromeImport.Request, o: Options)
    requires Sound(db, rq, [])
    ensures AccountNeverFails(db, rq, o) <==> CoveredAccount(db, rq.owner, TargetName(o))
    ensures AccountPredicted(db, rq, o) <==> CoveredAccount(db, rq.owner, TargetName(o))
  {
    if CoveredAccount(db, rq.owner, TargetName(o)) {
      forall csv, spares
        ensures !FitsAndFails(db, rq, csv, o, spares) && !Mispredicted(db, rq, csv, o, spares)
      {
        if Sound(db, rq, spares) && FileFits(rq.hostOf, csv) && |csv| <= |spares| + 1 {
          DryRunPredictsRealRun(db, rq, csv, o, spares);
        }
      }
    } else {
      UncoveredFails(db, rq, o);
    }
  }

  // ---- a second import has nothing to do exactly when the account is settled ------------------

  ghost predicate AccountSettles(db: Db, rq: ChromeImport.Request, o: Options) {
    forall csv, spares, again, more :: ImportsTwice(db, rq, csv, o, spares, again, more) ==>
      SecondChangesNothing(db, rq, csv, o, spares, again, more)
  }

  /** A file that fits, and a second request of the same owner with new ids of its own. */
  ghost predicate ImportsTwice(
      db: Db, rq: ChromeImport.Request, csv: seq<seq<string>>, o: Options, spares: seq<Spare>,
      again: ChromeImport.Request,
      more: seq<Spare>)
  {
    && Sound(db, rq, spares) && FileFits(rq.hostOf, csv) && |csv| <= |spares| + 1 && |csv| <= |more| + 1
    && again.owner == rq.owner && again.hostOf == rq.hostOf && Sound(RealImport(db, rq, csv, o, spares).0, again, more)
  }

  lemma NoRowsNoEntries(db: Db, rq: ChromeImport.Request, csv: seq<seq<string>>, o: Options)
    requires |csv| == 1 && Column(csv[0], "password").Some?
    ensures RealImport(db, rq, csv, o, []).0 == Opened(db, rq, TargetName(o)).0
  {
  }

  /** With a blank namesake listed first, each import makes a vault of its own. */
  lemma AnotherVaultEachTime(db: Db, rq: ChromeImport.Request, o: Options)
    requires Sound(db, rq, []) && !FoundAgain(db, rq, TargetName(o))
    ensures !AccountSettles(db, rq, o)
  {
    var csv, _ := NamedFile(rq.hostOf, []);
    FoundAgainMeans(db, rq, TargetName(o));
    var first := Opened(db, rq, TargetName(o)).0;
    var n := LongerThanAll(first.vaults.Keys);
    XsPlain(n);
    var again := rq.(newVaultId := Xs(n), spareVaultId := Xs(n + 1));
    assert Sound(first, again, []) by { assert |Xs(n)| != |Xs(n + 1)|; }
    var second := Opened(first, again, TargetName(o)).0;
    assert again.newVaultId in second.vaults && again.newVaultId !in first.vaults;
    NoRowsNoEntries(db, rq, csv, o);
    NoRowsNoEntries(first, again, csv, o);
    assert ImportsTwice(db, rq, csv, o, [], again, []) && !SecondChangesNothing(db, rq, csv, o, [], again, []);
  }

  lemma AcceptedRow(job: Job, st: State, row: Row, spare: Spare)
    requires Valid(st.db) && OwnsVault(st.db, job.owner, job.vault) && Resolved(st.db, job.owner, job.vault).Some?
    requires spare.id !in st.db.entries && job.spareVaultId !in st.db.vaults
    requires row.password != "" && PlainPath(row.name) && Lower(row.name) !in st.existing
    requires !PathTaken(st.db, Resolved(st.db, job.owner, job.vault).value, row.name, spare.id)
    ensures var next := RealRow(job, st, row, spare);
            && Valid(next.db) && spare.id in next.db.entries && next == Count(st.(db := next.db), row.name)
            && next.db == PutEntry(st.db, spare.id, next.db.entries[spare.id])
            && Some(next.db.entries[spare.id].vault) == Resolved(st.db, job.owner, job.vault)
            && next.db.entries[spare.id].path == row.name
  {
    var op := EntryOp(job, row, row.name, spare);
    ResolvedIsDestination(st.db, job.owner, op);
    TrimFixpoint(row.name);
    StepValid(job.box, st.db, job.owner, op);
  }

  /** Two spellings of a name that is longer than every path. */
  ghost predicate TwoSpellings(db: Db, x: string, y: string) {
    && x != y && PlainPath(x) && PlainPath(y) && Lower(x) == x && Lower(y) == x
    && forall e :: e in db.entries ==> |db.entries[e].path| < |x|
  }

  lemma SpellingsExist(db: Db) returns (x: string, y: string)
    ensures TwoSpellings(db, x, y)
  {
    var paths := set e | e in db.entries :: db.entries[e].path;
    var n := LongerThanAll(paths);
    x, y := Xs(n), "X" + Xs(n - 1);
    XsPlain(n);
    assert x[0] in x && Xs(n - 1)[n - 2] in Xs(n - 1);
    forall i | 0 <= i < n ensures LowerChar(y[i]) == x[i] {
      assert x[i] in x;
      if i > 0 { assert Xs(n - 1)[i - 1] in Xs(n - 1); }
    }
    assert Lower(y) == x;
  }

  lemma LongNameNotListed(db: Db, owner: string, vault: string, x: string, y: string)
    requires TwoSpellings(db, x, y)
    ensures x !in Names(db, owner, vault)
  {
  }

  lemma TwoRows(job: Job, st: State, rows: seq<Row>, spares: seq<Spare>)
    requires |rows| == 2 <= |spares|
    ensures RealRows(job, st, rows, spares) == RealRow(job, RealRow(job, st, rows[0], spares[0]), rows[1], spares[1])
  {
    var one := RealRow(job, st, rows[0], spares[0]);
    assert rows[1..][0] == rows[1] && rows[1..][1..] == [] && spares[1..][0] == spares[1];
    assert RealRows(job, one, rows[1..], spares[1..]) == RealRow(job, one, rows[1], spares[1]);
  }

  /** Another vault than the listed one takes the entries. */
  ghost predicate Strays(job: Job, st: State) {
    && Valid(st.db) && OwnsVault(st.db, job.owner, job.vault) && job.spareVaultId !in st.db.vaults
    && !Settles(job.vault) && Resolved(st.db, job.owner, job.vault).Some? && InStep(job, st)
  }

  /** The first run: the first spelling goes into that vault, and the second is skipped. */
  lemma FirstSpelling(job: Job, st: State, rows: seq<Row>, spares: seq<Spare>, password: string)
    requires Strays(job, st) && |rows| == |spares| == 2 && FreshSpares(st.db, spares) && password != ""
    requires TwoSpellings(st.db, rows[0].name, rows[1].name)
             && forall i :: 0 <= i < 2 ==> rows[i] == Named(rows[i].name, password)
    ensures var end, id := RealRows(job, st, rows, spares), spares[0].id;
            && Valid(end.db) && id in end.db.entries && end.db == PutEntry(st.db, id, end.db.entries[id])
            && Some(end.db.entries[id].vault) == Resolved(st.db, job.owner, job.vault)
            && end.db.entries[id].path == rows[0].name
  {
    LongNameNotListed(st.db, job.owner, job.vault, rows[0].name, rows[1].name);
    AcceptedRow(job, st, rows[0], spares[0]);
    var one := RealRow(job, st, rows[0], spares[0]);
    assert RealRow(job, one, rows[1], spares[1]) == Skip(one);
    TwoRows(job, st, rows, spares);
  }

  /** The second run: the first spelling is taken and not known, so it fails, and the second goes in. */
  lemma SecondSpelling(job: Job, st: State, rows: seq<Row>, more: seq<Spare>, password: string)
    requires Strays(job, st) && |rows| == |more| == 2 && FreshSpares(st.db, more) && password != ""
    requires forall i :: 0 <= i < 2 ==> rows[i] == Named(rows[i].name, password) && PlainPath(rows[i].name)
    requires forall i :: 0 <= i < 2 ==> Lower(rows[i].name) !in st.existing
    requires Refused(st.db, job.owner, job.vault, rows[0].name) && !Refused(st.db, job.owner, job.vault, rows[1].name)
    ensures RealRows(job, st, rows, more).report.imported == st.report.imported + 1
  {
    RefusedRowFails(job, st, rows[0], more[0]);
    var one := RealRow(job, st, rows[0], more[0]);
    assert one.db == st.db && one.existing == st.existing;
    AcceptedRow(job, one, rows[1], more[1]);
    TwoRows(job, st, rows, more);
  }

  /** After the first run the first spelling is taken, the second is not, and neither is listed. */
  lemma BetweenRuns(db: Db, after: Db, owner: string, vault: string, id: string, x: string, y: string)
    requires TwoSpellings(db, x, y) && id !in db.entries && id in after.entries
             && after == PutEntry(db, id, after.entries[id])
    requires OwnsVault(db, owner, vault) && !Settles(vault)
    requires Resolved(db, owner, vault) == Some(after.entries[id].vault) && after.entries[id].path == x
    ensures Resolved(after, owner, vault) == Resolved(db, owner, vault)
            && Names(after, owner, vault) == Names(db, owner, vault)
    ensures Refused(after, owner, vault, x) && !Refused(after, owner, vault, y)
  {
    ResolvedByVaults(db, after, owner, vault);
    ElsewhereNotListed(db, after, owner, vault, id);
  }

  lemma {:induction false} StraysTwice(
      job: Job, st: State, rows: seq<Row>, spares: seq<Spare>, more: seq<Spare>, password: string)
    requires Strays(job, st) && |rows| == |spares| == |more| == 2 && FreshSpares(st.db, spares) && password != ""
    requires TwoSpellings(st.db, rows[0].name, rows[1].name)
             && forall i :: 0 <= i < 2 ==> rows[i] == Named(rows[i].name, password)
    requires FreshSpares(RealRows(job, st, rows, spares).db, more)
    ensures var first := RealRows(job, st, rows, spares).db;
            && Valid(first)
            && RealRows(job, State(first, Names(first, job.owner, job.vault), EMPTY), rows, more).report.imported == 1
  {
    FirstSpelling(job, st, rows, spares, password);
    var first := RealRows(job, st, rows, spares).db;
    BetweenRuns(st.db, first, job.owner, job.vault, spares[0].id, rows[0].name, rows[1].name);
    LongNameNotListed(st.db, job.owner, job.vault, rows[0].name, rows[1].name);
    SecondSpelling(job, State(first, Names(first, job.owner, job.vault), EMPTY), rows, more, password);
  }

  /** A file that fits, of two logins whose names are two such spellings. */
  ghost predicate SpelledFile(db: Db, hostOf: string -> string, csv: seq<seq<string>>, password: string) {
    && |csv| == 3 && Column(csv[0], "password").Some? && FileFits(hostOf, csv) && password != ""
    && TwoSpellings(db, RowsOf(csv)[0].name, RowsOf(csv)[1].name)
    && forall i :: 0 <= i < 2 ==> RowsOf(csv)[i] == Named(RowsOf(csv)[i].name, password)
  }

  lemma SpellingsFile(db: Db, hostOf: string -> string) returns (csv: seq<seq<string>>, password: string)
    ensures SpelledFile(db, hostOf, csv, password)
  {
    var x, y := SpellingsExist(db);
    csv, password := NamedFile(hostOf, [x, y]);
    assert RowsOf(csv)[0].name == x && RowsOf(csv)[1].name == y;
  }

  /** Entries that land in another vault than the one listed are not known to the second import. */
  lemma {:induction false} UnsettledImportsMore(db: Db, rq: ChromeImport.Request, o: Options, vault: string)
    requires Sound(db, rq, []) && FindVault(db, rq.owner, TargetName(o)) == Some(vault)
    requires !Settles(vault) && Resolved(db, rq.owner, vault).Some?
    ensures !AccountSettles(db, rq, o)
  {
    var job, start := JobFor(rq, vault), State(db, Names(db, rq.owner, vault), EMPTY);
    var csv, password := SpellingsFile(db, rq.hostOf);
    var rows := RowsOf(csv);
    var spares := SparesExist(db, 2);
    var more := SparesExist(RealRows(job, start, rows, spares).db, 2);
    StraysTwice(job, start, rows, spares, more, password);
    DiffersOn(db, rq, csv, o, vault, spares, more);
  }

  lemma ElsewhereNotListed(db: Db, after: Db, owner: string, vault: string, id: string)
    requires id !in db.entries && id in after.entries && after == PutEntry(db, id, after.entries[id])
    requires Trim(vault) != "" && after.entries[id].vault != vault
    ensures Names(after, owner, vault) == Names(db, owner, vault)
  {
    assert forall e :: e in after.entries && IsListed(after, owner, vault, e)
                       <==> e in db.entries && IsListed(db, owner, vault, e);
  }

  lemma {:induction false} DiffersOn(
      db: Db, rq: ChromeImport.Request, csv: seq<seq<string>>, o: Options, vault: string, spares: seq<Spare>,
      more: seq<Spare>)
    requires csv != [] && |csv| <= |spares| + 1 && |csv| <= |more| + 1 && Column(csv[0], "password").Some?
    requires Sound(db, rq, spares) && FileFits(rq.hostOf, csv) && FindVault(db, rq.owner, TargetName(o)) == Some(vault)
    requires var first :=
             RealRows(JobFor(rq, vault), State(db, Names(db, rq.owner, vault), EMPTY), RowsOf(csv), spares);
             && Valid(first.db) && FreshSpares(first.db, more)
             && RealRows(JobFor(rq, vault), State(first.db, Names(first.db, rq.owner, vault), EMPTY), RowsOf(csv), more)
                .report.imported > 0
    ensures !AccountSettles(db, rq, o)
  {
    RowsKeepVaults(JobFor(rq, vault), State(db, Names(db, rq.owner, vault), EMPTY), RowsOf(csv), spares);
    FoundByVaults(db, RealImport(db, rq, csv, o, spares).0, rq.owner, TargetName(o));
    assert ImportsTwice(db, rq, csv, o, spares, rq, more) && !SecondChangesNothing(db, rq, csv, o, spares, rq, more);
  }

  /**
   In an account importing any file that fits a second time changes nothing exactly when the account is settled: the
   destination is found again, and its id is blank, has no outer white space, or is one that CreateEntry refuses.
   */
  lemma SettlesExactlyWhenSettled(db: Db, rq: ChromeImport.Request, o: Options)
    requires Sound(db, rq, [])
    ensures AccountSettles(db, rq, o) <==> SettledAccount(db, rq, TargetName(o))
  {
    if SettledAccount(db, rq, TargetName(o)) {
      forall csv, spares, again, more | ImportsTwice(db, rq, csv, o, spares, again, more)
        ensures SecondChangesNothing(db, rq, csv, o, spares, again, more)
      {
        SecondImportChangesNothing(db, rq, csv, o, spares, again, more);
      }
    } else if !FoundAgain(db, rq, TargetName(o)) {
      AnotherVaultEachTime(db, rq, o);
    } else {
      UnsettledImportsMore(db, rq, o, FindVault(db, rq.owner, TargetName(o)).value);
    }
  }

  // ---- such an account can be reached ---------------------------------------------------------

  /** One restored vault, in an account that was empty. */
  function RestoredDb(owner: string, id: string, name: string): Db {
    Db(map[id := VaultRow(owner, name, "", 0, 0)], map[])
  }

  function IdDocument(owner: string, id: string, name: string): VaultBackup.RowDocument {
    VaultBackup.RowDocument([(id, VaultRow(owner, name, "", 0, 0))], [])
  }

  lemma RestoreReaches(owner: string, id: string, name: string)
    ensures VaultBackup.Restored(Db(map[], map[]), owner, IdDocument(owner, id, name), true)
            == Some(RestoredDb(owner, id, name))
    ensures Valid(RestoredDb(owner, id, name))
  {
    var before := Db(map[], map[]);
    assert VaultBackup.Cleared(before, owner) == before;
    var rows := Backup.Mapped(IdDocument(owner, id, name).vaults, VaultBackup.Reowned(owner));
    assert rows == [(id, VaultRow(owner, name, "", 0, 0))] && rows[..|rows| - 1] == [];
    var none: map<string, VaultRow> := map[];
    assert Backup.InsertRows(none, rows[..|rows| - 1], VaultBackup.AcceptsVault()) == Some(none);
    assert Backup.InsertRows(none, rows, VaultBackup.AcceptsVault()) == Some(RestoredDb(owner, id, name).vaults);
  }

  lemma RestoredIsFound(owner: string, id: string, name: string)
    requires id != ""
    ensures FindVault(RestoredDb(owner, id, name), owner, name) == Some(id)
  {
    assert id in Namesakes(RestoredDb(owner, id, name), owner, name);
  }

  /**
   A restore brings in a vault whose id has outer white space. Every import into it then writes nothing, whatever the
   file, while a dry run promises otherwise for a file that fits.
   */
  lemma RestoredIdFails(rq: ChromeImport.Request, o: Options, id: string)
    requires Trim(id) != "" && Trim(id) != id && PlainId(rq.newVaultId)
    requires rq.newVaultId != id && rq.spareVaultId != id && rq.spareVaultId != rq.newVaultId
    ensures var db := RestoredDb(rq.owner, id, TargetName(o));
            && VaultBackup.Restored(Db(map[], map[]), rq.owner, IdDocument(rq.owner, id, TargetName(o)), true)
               == Some(db)
            && Sound(db, rq, []) && !AccountNeverFails(db, rq, o) && !AccountPredicted(db, rq, o)
            && forall csv: seq<seq<string>>, spares: seq<Spare> :: |csv| <= |spares| + 1 ==>
                 RealImport(db, rq, csv, o, spares).0 == db
  {
    var db := RestoredDb(rq.owner, id, TargetName(o));
    RestoreReaches(rq.owner, id, TargetName(o));
    RestoredIsFound(rq.owner, id, TargetName(o));
    assert Resolved(db, rq.owner, id).None?;
    UncoveredFails(db, rq, o);
    forall csv: seq<seq<string>>, spares: seq<Spare> | |csv| <= |spares| + 1
      ensures RealImport(db, rq, csv, o, spares).0 == db
    {
      if csv != [] && Column(csv[0], "password").Some? {
        UnresolvedImportsNothing(JobFor(rq, id), State(db, Names(db, rq.owner, id), EMPTY), RowsOf(csv), spares);
      }
    }
  }
}
