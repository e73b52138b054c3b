/**
 Folders, ciphers and the bulk import of the Bitwarden-compatible API (internal/bitwarden/service.go and
 api.go). Encrypted columns are one opaque text; new ids are inputs.
 */
module BitwardenItems {
  import opened Seqs
  import opened Text
  import Bitwarden

  datatype Folder = Folder(user: string, name: string)
  datatype Cipher = Cipher(user: string, folder: Option<string>, data: string, deleted: bool)
  datatype State = State(folders: map<string, Folder>, ciphers: map<string, Cipher>)

  /** `data` is None when the type has no matching sub-object. */
  datatype CipherRequest = CipherRequest(folder: Option<string>, data: Option<string>)
  datatype FolderRequest = FolderRequest(id: Option<string>, name: string)
  datatype Relation = Relation(key: int, value: int)

  datatype Op =
    | CreateFolder(id: string, name: string)
    | UpdateFolder(id: string, name: string)
    | DeleteFolder(id: string)
    | CreateCipher(id: string, request: CipherRequest)
    | UpdateCipher(id: string, request: CipherRequest)
    | Trash(id: string, deleted: bool)
    | DeleteCiphers(ids: seq<string>)
    | RestoreCiphers(ids: seq<string>)
    | EmptyTrash
    | Import(folders: seq<FolderRequest>, relations: seq<Relation>, ciphers: seq<CipherRequest>,
             folderIds: seq<string>, cipherIds: seq<string>)

  predicate OwnsFolder(st: State, user: string, id: string) { id in st.folders && st.folders[id].user == user }

  predicate OwnsCipher(st: State, user: string, id: string) { id in st.ciphers && st.ciphers[id].user == user }

  /** A cipher's folder is one of the same user; no folder has an empty id. */
  ghost predicate Valid(st: State) {
    && "" !in st.folders
    && forall c :: c in st.ciphers && st.ciphers[c].folder.Some? ==>
         OwnsFolder(st, st.ciphers[c].user, st.ciphers[c].folder.value)
  }

  // ---- single rows ----------------------------------------------------------------------------

  function PutFolder(st: State, id: string, folder: Folder): State { st.(folders := st.folders[id := folder]) }

  function PutCipher(st: State, id: string, cipher: Cipher): State { st.(ciphers := st.ciphers[id := cipher]) }

  /** A non-empty folder must be the user's; an empty one is left to the foreign key. */
  predicate AcceptsFolder(st: State, user: string, folder: Option<string>) {
    folder.Some? ==> if folder.value != "" then OwnsFolder(st, user, folder.value) else "" in st.folders
  }

  predicate AcceptsRequest(st: State, user: string, request: CipherRequest) {
    request.data.Some? && AcceptsFolder(st, user, request.folder)
  }

  function Create(st: State, user: string, id: string, request: CipherRequest): Option<State> {
    if !AcceptsRequest(st, user, request) || id in st.ciphers then None
    else Some(PutCipher(st, id, Cipher(user, request.folder, request.data.value, false)))
  }

  /** ON DELETE SET NULL of the ciphers' folder. */
  function DropFolder(st: State, id: string): State {
    State(st.folders - {id},
          map c | c in st.ciphers :: if st.ciphers[c].folder == Some(id) then st.ciphers[c].(folder := None)
                                     else st.ciphers[c])
  }

  function Restored(st: State, user: string, ids: seq<string>): map<string, Cipher> {
    map c | c in st.ciphers :: if st.ciphers[c].user == user && c in ids then st.ciphers[c].(deleted := false)
                               else st.ciphers[c]
  }

  function Remaining(st: State, user: string, ids: seq<string>): map<string, Cipher> {
    map c | c in st.ciphers && !(st.ciphers[c].user == user && c in ids) :: st.ciphers[c]
  }

  function OutOfTrash(st: State, user: string): map<string, Cipher> {
    map c | c in st.ciphers && !(st.ciphers[c].user == user && st.ciphers[c].deleted) :: st.ciphers[c]
  }

  // ---- import ---------------------------------------------------------------------------------

  predicate Reuses(st: State, user: string, folder: FolderRequest) {
    folder.id.Some? && folder.id.value != "" && OwnsFolder(st, user, folder.id.value)
  }

  /** Every requested folder becomes an existing one of the user or a new one, in order; a used id stops. */
  function Resolve(
      st: State, user: string, folders: seq<FolderRequest>, drawn: seq<string>): (State, Option<seq<string>>)
    requires |folders| == |drawn|
  {
    if folders == [] then (st, Some([]))
    else
      var (before, ids) := Resolve(st, user, Front(folders), Front(drawn));
      if ids.None? then (before, None)
      else if Reuses(before, user, Last(folders)) then (before, Some(ids.value + [Last(folders).id.value]))
      else if Last(drawn) in before.folders then (before, None)
      else (PutFolder(before, Last(drawn), Folder(user, Last(folders).name)), Some(ids.value + [Last(drawn)]))
  }

  /** Later relations win; those that point outside the folders are skipped. */
  function FolderFor(relations: seq<Relation>, ids: seq<string>): map<int, string> {
    if relations == [] then map[]
    else
      var before, last := FolderFor(Front(relations), ids), Last(relations);
      if 0 <= last.value < |ids| then before[last.key := ids[last.value]] else before
  }

  function Assigned(request: CipherRequest, index: int, folderFor: map<int, string>): CipherRequest {
    if index in folderFor then request.(folder := Some(folderFor[index])) else request
  }

  /** The ciphers go in one by one; the first bad one stops, and those before it stay. */
  function InsertCiphers(
      st: State, user: string, requests: seq<CipherRequest>, drawn: seq<string>,
      folderFor: map<int, string>): (State, bool)
    requires |requests| == |drawn|
  {
    if requests == [] then (st, true)
    else
      var (before, ok) := InsertCiphers(st, user, Front(requests), Front(drawn), folderFor);
      if !ok then (before, false)
      else
        match Create(before, user, Last(drawn), Assigned(Last(requests), |requests| - 1, folderFor))
        case None => (before, false)
        case Some(after) => (after, true)
  }

  predicate WellFormed(op: Op) {
    op.Import? ==> |op.folders| == |op.folderIds| && |op.ciphers| == |op.cipherIds|
  }

  function Imported(st: State, user: string, op: Op): (State, bool)
    requires op.Import? && WellFormed(op)
  {
    var (resolved, ids) := Resolve(st, user, op.folders, op.folderIds);
    if ids.None? then (resolved, false)
    else InsertCiphers(resolved, user, op.ciphers, op.cipherIds, FolderFor(op.relations, ids.value))
  }

  // ---- one request ----------------------------------------------------------------------------

  function Step(st: State, user: string, op: Op): (State, bool)
    requires WellFormed(op)
  {
    match op
    case CreateFolder(id, name) => if id in st.folders then (st, false)
                                   else (PutFolder(st, id, Folder(user, name)), true)
    case UpdateFolder(id, name) => if !OwnsFolder(st, user, id) then (st, false)
                                   else (PutFolder(st, id, Folder(user, name)), true)
    case DeleteFolder(id) => if !OwnsFolder(st, user, id) then (st, false) else (DropFolder(st, id), true)
    case CreateCipher(id, request) =>
      var after := Create(st, user, id, request);
      if after.None? then (st, false) else (after.value, true)
    case UpdateCipher(id, request) =>
      if !OwnsCipher(st, user, id) || !AcceptsRequest(st, user, request) then (st, false)
      else (PutCipher(st, id, st.ciphers[id].(folder := request.folder, data := request.data.value)), true)
    case Trash(id, deleted) =>
      if !OwnsCipher(st, user, id) then (st, false) else (PutCipher(st, id, st.ciphers[id].(deleted := deleted)), true)
    case DeleteCiphers(ids) => (st.(ciphers := Remaining(st, user, ids)), true)
    case RestoreCiphers(ids) => (st.(ciphers := Restored(st, user, ids)), true)
    case EmptyTrash => (st.(ciphers := OutOfTrash(st, user)), true)
    case Import(_, _, _, _, _) => Imported(st, user, op)
  }

  /** Drawn ids are not empty. */
  ghost predicate Drawn(op: Op) {
    && (op.CreateFolder? ==> op.id != "")
    && (op.Import? ==> "" !in op.folderIds)
  }

  // ---- every folder is the cipher's owner's ---------------------------------------------------

  lemma {:induction false} ResolveKeeps(st: State, user: string, folders: seq<FolderRequest>, drawn: seq<string>)
    requires Valid(st) && |folders| == |drawn| && "" !in drawn
    ensures var (after, ids) := Resolve(st, user, folders, drawn);
            && Valid(after) && after.ciphers == st.ciphers && OthersSame(st, after, user)
            && (ids.Some? ==>
                  && |ids.value| == |folders|
                  && forall i :: 0 <= i < |ids.value| ==> OwnsFolder(after, user, ids.value[i]))
    decreases |folders|
  {
    if folders != [] { ResolveKeeps(st, user, Front(folders), Front(drawn)); }
  }

  lemma {:induction false} FolderForOwn(st: State, user: string, relations: seq<Relation>, ids: seq<string>)
    requires forall i :: 0 <= i < |ids| ==> OwnsFolder(st, user, ids[i])
    ensures forall k :: k in FolderFor(relations, ids) ==> OwnsFolder(st, user, FolderFor(relations, ids)[k])
    decreases |relations|
  {
    if relations != [] { FolderForOwn(st, user, Front(relations), ids); }
  }

  /** Rows of everybody else are as before. */
  ghost predicate OthersSame(before: State, after: State, user: string) {
    && (forall f :: f in before.folders && before.folders[f].user != user ==>
          f in after.folders && after.folders[f] == before.folders[f])
    && (forall f :: f in after.folders && after.folders[f].user != user ==>
          f in before.folders && after.folders[f] == before.folders[f])
    && (forall c :: c in before.ciphers && before.ciphers[c].user != user ==>
          c in after.ciphers && after.ciphers[c] == before.ciphers[c])
    && (forall c :: c in after.ciphers && after.ciphers[c].user != user ==>
          c in before.ciphers && after.ciphers[c] == before.ciphers[c])
  }

  lemma CreateKeeps(st: State, user: string, id: string, request: CipherRequest)
    requires Valid(st) && Create(st, user, id, request).Some?
    ensures var after := Create(st, user, id, request).value;
            Valid(after) && OthersSame(st, after, user) && after.folders == st.folders
  {
  }

  lemma {:induction false} InsertKeeps(
      st: State, user: string, requests: seq<CipherRequest>, drawn: seq<string>, folderFor: map<int, string>)
    requires Valid(st) && |requests| == |drawn|
    ensures var after := InsertCiphers(st, user, requests, drawn, folderFor).0;
            Valid(after) && OthersSame(st, after, user) && after.folders == st.folders
    decreases |requests|
  {
    if requests != [] {
      InsertKeeps(st, user, Front(requests), Front(drawn), folderFor);
      var (before, ok) := InsertCiphers(st, user, Front(requests), Front(drawn), folderFor);
      var request := Assigned(Last(requests), |requests| - 1, folderFor);
      if ok && Create(before, user, Last(drawn), request).Some? { CreateKeeps(before, user, Last(drawn), request); }
    }
  }

  lemma DropFolderKeeps(st: State, user: string, id: string)
    requires Valid(st) && OwnsFolder(st, user, id)
    ensures Valid(DropFolder(st, id)) && OthersSame(st, DropFolder(st, id), user)
  {
  }

  /** Every request keeps folders and ciphers together under one owner, and leaves all other owners' rows alone. */
  lemma StepKeeps(st: State, user: string, op: Op)
    requires Valid(st) && WellFormed(op) && Drawn(op)
    ensures Valid(Step(st, user, op).0) && OthersSame(st, Step(st, user, op).0, user)
  {
    if op.DeleteFolder? && OwnsFolder(st, user, op.id) {
      DropFolderKeeps(st, user, op.id);
    } else if op.CreateCipher? && Create(st, user, op.id, op.request).Some? {
      CreateKeeps(st, user, op.id, op.request);
    } else if op.Import? {
      ResolveKeeps(st, user, op.folders, op.folderIds);
      var (resolved, ids) := Resolve(st, user, op.folders, op.folderIds);
      if ids.Some? { InsertKeeps(resolved, user, op.ciphers, op.cipherIds, FolderFor(op.relations, ids.value)); }
    }
  }

  datatype Call = Call(user: string, op: Op)

  ghost predicate CallsOk(calls: seq<Call>) {
    forall i :: 0 <= i < |calls| ==> WellFormed(calls[i].op) && Drawn(calls[i].op)
  }

  function Run(st: State, calls: seq<Call>): State
    requires forall i :: 0 <= i < |calls| ==> WellFormed(calls[i].op)
    decreases |calls|
  {
    if calls == [] then st else Run(Step(st, calls[0].user, calls[0].op).0, calls[1..])
  }

  /** Over any run: one owner per folder and its ciphers, and a user who does not call keeps every row. */
  lemma {:induction false} RunKeeps(st: State, calls: seq<Call>, silent: string)
    requires Valid(st) && CallsOk(calls) && forall i :: 0 <= i < |calls| ==> calls[i].user != silent
    ensures Valid(Run(st, calls)) && CiphersOf(Run(st, calls), silent) == CiphersOf(st, silent)
    ensures FoldersOf(Run(st, calls), silent) == FoldersOf(st, silent)
    decreases |calls|
  {
    if calls != [] {
      StepKeeps(st, calls[0].user, calls[0].op);
      RunKeeps(Step(st, calls[0].user, calls[0].op).0, calls[1..], silent);
    }
  }

  function CiphersOf(st: State, user: string): map<string, Cipher> {
    map c | c in st.ciphers && st.ciphers[c].user == user :: st.ciphers[c]
  }

  function FoldersOf(st: State, user: string): map<string, Folder> {
    map f | f in st.folders && st.folders[f].user == user :: st.folders[f]
  }

  // ---- the import among the requests of a run --------------------------------------------------

  /** The ciphers as Bitwarden keeps them: owner and encrypted text. */
  function Rows(ciphers: map<string, Cipher>): map<string, Bitwarden.CipherRow> {
    map c | c in ciphers :: Bitwarden.CipherRow(ciphers[c].user, ciphers[c].data)
  }

  /** A requested cipher with its folder settled; None when its data is missing or its folder refused. */
  function ItemOf(st: State, user: string, request: CipherRequest, id: string): Bitwarden.Item {
    Bitwarden.Item(id, if AcceptsRequest(st, user, request) then Some(request.data.value) else None)
  }

  function ItemsOf(
      st: State, user: string, requests: seq<CipherRequest>, drawn: seq<string>,
      folderFor: map<int, string>): seq<Bitwarden.Item>
    requires |requests| == |drawn|
  {
    if requests == [] then []
    else
      ItemsOf(st, user, Front(requests), Front(drawn), folderFor)
      + [ItemOf(st, user, Assigned(Last(requests), |requests| - 1, folderFor), Last(drawn))]
  }

  lemma {:induction false} ImportedSnoc(
      ciphers: map<string, Bitwarden.CipherRow>, user: string, items: seq<Bitwarden.Item>, last: Bitwarden.Item)
    ensures var (before, ok) := Bitwarden.CiphersImported(ciphers, user, items);
            Bitwarden.CiphersImported(ciphers, user, items + [last])
            == if !ok || last.secret.None? || last.cipher in before then (before, false)
               else (before[last.cipher := Bitwarden.CipherRow(user, last.secret.value)], true)
    decreases |items|
  {
    if items == [] {
      assert items + [last] == [last] && [last][1..] == [];
    } else {
      assert (items + [last])[0] == items[0] && (items + [last])[1..] == items[1..] + [last];
      if items[0].secret.Some? && items[0].cipher !in ciphers {
        ImportedSnoc(ciphers[items[0].cipher := Bitwarden.CipherRow(user, items[0].secret.value)], user, items[1..],
                     last);
      }
    }
  }

  lemma RowsOfPut(st: State, id: string, cipher: Cipher)
    ensures Rows(PutCipher(st, id, cipher).ciphers)
            == Rows(st.ciphers)[id := Bitwarden.CipherRow(cipher.user, cipher.data)]
  {
  }

  /** The loop over the ciphers, folders and all, is the bulk import of the readable-vault runs. */
  lemma {:induction false} InsertIsImport(
      st: State, user: string, requests: seq<CipherRequest>, drawn: seq<string>, folderFor: map<int, string>)
    requires |requests| == |drawn|
    ensures var (after, ok) := InsertCiphers(st, user, requests, drawn, folderFor);
            && Bitwarden.CiphersImported(Rows(st.ciphers), user, ItemsOf(st, user, requests, drawn, folderFor))
               == (Rows(after.ciphers), ok)
            && after.folders == st.folders
    decreases |requests|
  {
    if requests != [] {
      InsertIsImport(st, user, Front(requests), Front(drawn), folderFor);
      var (before, ok) := InsertCiphers(st, user, Front(requests), Front(drawn), folderFor);
      var request := Assigned(Last(requests), |requests| - 1, folderFor);
      ImportedSnoc(Rows(st.ciphers), user, ItemsOf(st, user, Front(requests), Front(drawn), folderFor),
                   ItemOf(st, user, request, Last(drawn)));
      if request.data.Some? { RowsOfPut(before, Last(drawn), Cipher(user, request.folder, request.data.value, false)); }
    }
  }

  /** The items that a whole import puts in; one that fails at its folders puts in nothing. */
  function ItemsOfImport(st: State, user: string, op: Op): seq<Bitwarden.Item>
    requires op.Import? && WellFormed(op)
  {
    var (resolved, ids) := Resolve(st, user, op.folders, op.folderIds);
    if ids.None? then [Bitwarden.Item("", None)]
    else ItemsOf(resolved, user, op.ciphers, op.cipherIds, FolderFor(op.relations, ids.value))
  }

  lemma {:induction false} ResolveKeepsCiphers(st: State, user: string, folders: seq<FolderRequest>, drawn: seq<string>)
    requires |folders| == |drawn|
    ensures Resolve(st, user, folders, drawn).0.ciphers == st.ciphers
    decreases |folders|
  {
    if folders != [] { ResolveKeepsCiphers(st, user, Front(folders), Front(drawn)); }
  }

  /** The import with its folders and relations does to the cipher rows what the request of the runs does. */
  lemma ImportIsRequest(st: State, user: string, op: Op)
    requires op.Import? && WellFormed(op)
    ensures var (after, ok) := Imported(st, user, op);
            Bitwarden.CiphersImported(Rows(st.ciphers), user, ItemsOfImport(st, user, op)) == (Rows(after.ciphers), ok)
  {
    ResolveKeepsCiphers(st, user, op.folders, op.folderIds);
    var (resolved, ids) := Resolve(st, user, op.folders, op.folderIds);
    if ids.Some? { InsertIsImport(resolved, user, op.ciphers, op.cipherIds, FolderFor(op.relations, ids.value)); }
  }

  // ---- what an import leaves ------------------------------------------------------------------

  /** The last relation for a key that points at a folder. */
  ghost predicate LastFor(relations: seq<Relation>, count: nat, key: int, at: nat) {
    && at < |relations| && relations[at].key == key && 0 <= relations[at].value < count
    && forall j :: at < j < |relations| && relations[j].key == key ==> !(0 <= relations[j].value < count)
  }

  lemma {:induction false} FolderForIsLast(relations: seq<Relation>, ids: seq<string>, key: int, at: nat)
    requires LastFor(relations, |ids|, key, at)
    ensures key in FolderFor(relations, ids) && FolderFor(relations, ids)[key] == ids[relations[at].value]
    decreases |relations|
  {
    if at < |relations| - 1 {
      assert LastFor(Front(relations), |ids|, key, at);
      FolderForIsLast(Front(relations), ids, key, at);
    }
  }

  lemma {:induction false} FolderForOnlyRelated(relations: seq<Relation>, ids: seq<string>, key: int)
    requires forall j :: 0 <= j < |relations| && relations[j].key == key ==> !(0 <= relations[j].value < |ids|)
    ensures key !in FolderFor(relations, ids)
    decreases |relations|
  {
    if relations != [] {
      assert Last(relations) == relations[|relations| - 1];
      FolderForOnlyRelated(Front(relations), ids, key);
    }
  }

  ghost predicate Good(st: State, user: string, requests: seq<CipherRequest>, folderFor: map<int, string>, i: nat)
    requires i < |requests|
  {
    AcceptsRequest(st, user, Assigned(requests[i], i, folderFor))
  }

  ghost predicate NewIds(st: State, drawn: seq<string>) {
    && (forall i, j :: 0 <= i < j < |drawn| ==> drawn[i] != drawn[j])
    && (forall i :: 0 <= i < |drawn| ==> drawn[i] !in st.ciphers)
  }

  /** The row of request `i`. */
  ghost predicate HasRow(
      after: State, user: string, requests: seq<CipherRequest>, drawn: seq<string>, folderFor: map<int, string>, i: nat)
    requires i < |requests| == |drawn|
  {
    drawn[i] in after.ciphers && requests[i].data.Some?
    && after.ciphers[drawn[i]]
       == Cipher(user, Assigned(requests[i], i, folderFor).folder, requests[i].data.value, false)
  }

  ghost predicate AmongFirst(drawn: seq<string>, n: nat, c: string)
    requires n <= |drawn|
  {
    exists i :: 0 <= i < n && drawn[i] == c
  }

  /** The rows of the first `n` requests, and no others, have been added. */
  ghost predicate AddedFirst(
      st: State, after: State, user: string, requests: seq<CipherRequest>, drawn: seq<string>,
      folderFor: map<int, string>, n: nat)
    requires |requests| == |drawn| && n <= |requests|
  {
    && after.folders == st.folders
    && (forall c :: c in st.ciphers ==> c in after.ciphers && after.ciphers[c] == st.ciphers[c])
    && (forall c :: c in after.ciphers ==> c in st.ciphers || AmongFirst(drawn, n, c))
    && (forall i :: 0 <= i < n ==> HasRow(after, user, requests, drawn, folderFor, i))
  }

  /** How many requests are good before the first bad one. */
  ghost predicate StopsAt(st: State, user: string, requests: seq<CipherRequest>, folderFor: map<int, string>, n: nat) {
    && n <= |requests|
    && (forall i :: 0 <= i < n ==> Good(st, user, requests, folderFor, i))
    && (n < |requests| ==> !Good(st, user, requests, folderFor, n))
  }

  lemma {:induction false} InsertedAllGood(
      st: State, user: string, requests: seq<CipherRequest>, drawn: seq<string>, folderFor: map<int, string>)
    requires |requests| == |drawn| && NewIds(st, drawn)
    requires forall i :: 0 <= i < |requests| ==> Good(st, user, requests, folderFor, i)
    ensures var (after, ok) := InsertCiphers(st, user, requests, drawn, folderFor);
            ok && AddedFirst(st, after, user, requests, drawn, folderFor, |requests|)
    decreases |requests|
  {
    if requests != [] {
      var n := |requests| - 1;
      var rs, fs := Front(requests), Front(drawn);
      forall i | 0 <= i < n ensures Good(st, user, rs, folderFor, i) {
        assert Good(st, user, requests, folderFor, i) && rs[i] == requests[i];
      }
      InsertedAllGood(st, user, rs, fs, folderFor);
      var before := InsertCiphers(st, user, rs, fs, folderFor).0;
      assert Good(st, user, requests, folderFor, n);
      assert AcceptsRequest(before, user, Assigned(requests[n], n, folderFor));
      assert drawn[n] !in before.ciphers;
      AddedOfPrefix(st, before, user, requests, drawn, folderFor, n);
      NextAdded(st, before, user, requests, drawn, folderFor, n);
    }
  }

  lemma AddedOfPrefix(
      st: State, after: State, user: string, requests: seq<CipherRequest>, drawn: seq<string>,
      folderFor: map<int, string>, n: nat)
    requires |requests| == |drawn| && n <= |requests|
    requires AddedFirst(st, after, user, requests[..n], drawn[..n], folderFor, n)
    ensures AddedFirst(st, after, user, requests, drawn, folderFor, n)
  {
    forall c | AmongFirst(drawn[..n], n, c) ensures AmongFirst(drawn, n, c) {
      var i :| 0 <= i < n && drawn[..n][i] == c;
      assert drawn[i] == c;
    }
    forall i | 0 <= i < n ensures HasRow(after, user, requests, drawn, folderFor, i) {
      assert HasRow(after, user, requests[..n], drawn[..n], folderFor, i);
    }
  }

  lemma NextAdded(
      st: State, before: State, user: string, requests: seq<CipherRequest>, drawn: seq<string>,
      folderFor: map<int, string>, n: nat)
    requires |requests| == |drawn| && n < |requests| && NewIds(st, drawn)
    requires AddedFirst(st, before, user, requests, drawn, folderFor, n)
    requires AcceptsRequest(before, user, Assigned(requests[n], n, folderFor)) && drawn[n] !in before.ciphers
    ensures var row := Cipher(user, Assigned(requests[n], n, folderFor).folder, requests[n].data.value, false);
            AddedFirst(st, PutCipher(before, drawn[n], row), user, requests, drawn, folderFor, n + 1)
  {
    var row := Cipher(user, Assigned(requests[n], n, folderFor).folder, requests[n].data.value, false);
    var after := PutCipher(before, drawn[n], row);
    forall c | c in after.ciphers ensures c in st.ciphers || AmongFirst(drawn, n + 1, c) {
      if c != drawn[n] && c !in st.ciphers {
        var i :| 0 <= i < n && drawn[i] == c;
        assert AmongFirst(drawn, n + 1, c);
      }
    }
    forall i | 0 <= i < n + 1 ensures HasRow(after, user, requests, drawn, folderFor, i) {
      if i < n { assert HasRow(before, user, requests, drawn, folderFor, i) && drawn[i] != drawn[n]; }
    }
  }

  lemma {:induction false} FailureSticks(
      st: State, user: string, requests: seq<CipherRequest>, drawn: seq<string>, folderFor: map<int, string>, n: nat)
    requires |requests| == |drawn| && n <= |requests|
             && !InsertCiphers(st, user, requests[..n], drawn[..n], folderFor).1
    ensures InsertCiphers(st, user, requests, drawn, folderFor)
            == InsertCiphers(st, user, requests[..n], drawn[..n], folderFor)
    decreases |requests|
  {
    if n == |requests| {
      assert requests[..n] == requests && drawn[..n] == drawn;
    } else {
      assert Front(requests)[..n] == requests[..n] && Front(drawn)[..n] == drawn[..n];
      FailureSticks(st, user, Front(requests), Front(drawn), folderFor, n);
    }
  }

  /**
   An import that has its folders adds exactly the ciphers before the first bad one, each in the folder its
   last relation names or else in the one it asked for; it succeeds when none is bad. Nothing is rolled back.
   */
  lemma ImportAddsUpToFirstBad(
      st: State, user: string, requests: seq<CipherRequest>, drawn: seq<string>, folderFor: map<int, string>, n: nat)
    requires |requests| == |drawn| && NewIds(st, drawn) && StopsAt(st, user, requests, folderFor, n)
    ensures var (after, ok) := InsertCiphers(st, user, requests, drawn, folderFor);
            && (ok <==> n == |requests|)
            && AddedFirst(st, after, user, requests[..n], drawn[..n], folderFor, n)
  {
    forall i | 0 <= i < n ensures Good(st, user, requests[..n], folderFor, i) {
      assert Good(st, user, requests, folderFor, i) && requests[..n][i] == requests[i];
    }
    forall i, j | 0 <= i < j < n ensures drawn[..n][i] != drawn[..n][j] {
      assert drawn[i] != drawn[j];
    }
    InsertedAllGood(st, user, requests[..n], drawn[..n], folderFor);
    if n == |requests| {
      assert requests[..n] == requests && drawn[..n] == drawn;
    } else {
      assert !Good(st, user, requests, folderFor, n);
      BadStops(st, user, requests, drawn, folderFor, n);
      FailureSticks(st, user, requests, drawn, folderFor, n + 1);
    }
  }

  lemma BadStops(
      st: State, user: string, requests: seq<CipherRequest>, drawn: seq<string>, folderFor: map<int, string>, n: nat)
    requires |requests| == |drawn| && n < |requests| && InsertCiphers(st, user, requests[..n], drawn[..n], folderFor).1
    requires InsertCiphers(st, user, requests[..n], drawn[..n], folderFor).0.folders == st.folders
    requires !Good(st, user, requests, folderFor, n)
    ensures InsertCiphers(st, user, requests[..n + 1], drawn[..n + 1], folderFor)
         == (InsertCiphers(st, user, requests[..n], drawn[..n], folderFor).0, false)
  {
    assert Front(requests[..n + 1]) == requests[..n] && Front(drawn[..n + 1]) == drawn[..n];
    assert Last(requests[..n + 1]) == requests[n];
  }

  lemma FirstBad(st: State, user: string, requests: seq<CipherRequest>, folderFor: map<int, string>, from: nat)
    returns (n: nat)
    requires from <= |requests| && forall i :: 0 <= i < from ==> Good(st, user, requests, folderFor, i)
    ensures StopsAt(st, user, requests, folderFor, n)
    decreases |requests| - from
  {
    if from == |requests| || !Good(st, user, requests, folderFor, from) {
      n := from;
    } else {
      n := FirstBad(st, user, requests, folderFor, from + 1);
    }
  }

  /** An import with a folder relation for a cipher can fail on that cipher only for missing data. */
  lemma RelatedNeedsOnlyData(st: State, user: string, op: Op, i: nat)
    requires op.Import? && WellFormed(op) && Drawn(op) && Valid(st) && i < |op.ciphers|
    requires Resolve(st, user, op.folders, op.folderIds).1.Some?
    ensures var (resolved, ids) := Resolve(st, user, op.folders, op.folderIds);
            var folderFor := FolderFor(op.relations, ids.value);
            i in folderFor ==> (Good(resolved, user, op.ciphers, folderFor, i) <==> op.ciphers[i].data.Some?)
  {
    var (resolved, ids) := Resolve(st, user, op.folders, op.folderIds);
    ResolveKeeps(st, user, op.folders, op.folderIds);
    FolderForOwn(resolved, user, op.relations, ids.value);
    var folderFor := FolderFor(op.relations, ids.value);
    if i in folderFor { assert OwnsFolder(resolved, user, folderFor[i]) && folderFor[i] != ""; }
  }

  /** The cipher part of an import succeeds exactly when no cipher is bad. */
  lemma ImportSucceedsExactlyWhenAllGood(
      st: State, user: string, requests: seq<CipherRequest>, drawn: seq<string>, folderFor: map<int, string>)
    requires |requests| == |drawn| && NewIds(st, drawn)
    ensures InsertCiphers(st, user, requests, drawn, folderFor).1 <==>
            forall i :: 0 <= i < |requests| ==> Good(st, user, requests, folderFor, i)
  {
    var n := FirstBad(st, user, requests, folderFor, 0);
    ImportAddsUpToFirstBad(st, user, requests, drawn, folderFor, n);
  }

  // ---- the handlers ---------------------------------------------------------------------------

  class Service {
    var folders: map<string, Folder>
    var ciphers: map<string, Cipher>

    function Tables(): State
      reads this
    {
      State(folders, ciphers)
    }

    constructor (st: State)
      ensures Tables() == st
    {
      folders, ciphers := st.folders, st.ciphers;
    }

    method CreateFolder(user: string, id: string, name: string) returns (ok: bool)
      modifies this`folders
      ensures (Tables(), ok) == Step(old(Tables()), user, Op.CreateFolder(id, name))
    {
      if id in folders { return false; }
      folders := folders[id := Folder(user, name)];
      return true;
    }

    method DeleteFolder(user: string, id: string) returns (ok: bool)
      modifies this
      ensures (Tables(), ok) == Step(old(Tables()), user, Op.DeleteFolder(id))
    {
      if id !in folders || folders[id].user != user { return false; }
      folders := folders - {id};
      ciphers := map c | c in ciphers :: if ciphers[c].folder == Some(id) then ciphers[c].(folder := None)
                                         else ciphers[c];
      return true;
    }

    method CreateCipher(user: string, id: string, request: CipherRequest) returns (ok: bool)
      modifies this`ciphers
      ensures ok <==> Create(old(Tables()), user, id, request).Some?
      ensures Tables() == if ok then Create(old(Tables()), user, id, request).value else old(Tables())
    {
      if request.data.None? { return false; }
      if request.folder.Some? && request.folder.value != "" {
        if request.folder.value !in folders || folders[request.folder.value].user != user { return false; }
      }
      if request.folder.Some? && request.folder.value !in folders { return false; }
      if id in ciphers { return false; }
      ciphers := ciphers[id := Cipher(user, request.folder, request.data.value, false)];
      return true;
    }

    /** DELETE ... WHERE id = $1 AND user_id = $2, id by id. */
    method DeleteCiphers(user: string, ids: seq<string>)
      modifies this`ciphers
      ensures Tables() == Step(old(Tables()), user, Op.DeleteCiphers(ids)).0
    {
      ghost var before := Tables();
      for i := 0 to |ids|
        invariant ciphers == Remaining(before, user, ids[..i])
        invariant folders == before.folders
      {
        assert ids[..i + 1] == ids[..i] + [ids[i]];
        if ids[i] in ciphers && ciphers[ids[i]].user == user { ciphers := ciphers - {ids[i]}; }
      }
      assert ids[..|ids|] == ids;
    }

    method RestoreCiphers(user: string, ids: seq<string>)
      modifies this`ciphers
      ensures Tables() == Step(old(Tables()), user, Op.RestoreCiphers(ids)).0
    {
      ghost var before := Tables();
      for i := 0 to |ids|
        invariant ciphers == Restored(before, user, ids[..i])
        invariant folders == before.folders
      {
        assert ids[..i + 1] == ids[..i] + [ids[i]];
        RestoredSnoc(before, user, ids[..i], ids[i]);
        if ids[i] in ciphers && ciphers[ids[i]].user == user {
          ciphers := ciphers[ids[i] := ciphers[ids[i]].(deleted := false)];
        }
      }
      assert ids[..|ids|] == ids;
    }

    method ResolveFolders(user: string, wanted: seq<FolderRequest>, drawn: seq<string>)
      returns (ids: Option<seq<string>>)
      requires |wanted| == |drawn|
      modifies this`folders
      ensures (Tables(), ids) == Resolve(old(Tables()), user, wanted, drawn)
    {
      ghost var before := Tables();
      var found: seq<string> := [];
      for i := 0 to |wanted|
        invariant (Tables(), Some(found)) == Resolve(before, user, wanted[..i], drawn[..i])
      {
        assert Front(wanted[..i + 1]) == wanted[..i] && Front(drawn[..i + 1]) == drawn[..i];
        var folder := wanted[i];
        if folder.id.Some? && folder.id.value != "" && folder.id.value in folders
           && folders[folder.id.value].user == user {
          found := found + [folder.id.value];
        } else {
          var ok := CreateFolder(user, drawn[i], folder.name);
          if !ok {
            ResolveFailure(before, user, wanted, drawn, i + 1);
            return None;
          }
          found := found + [drawn[i]];
        }
      }
      assert wanted[..|wanted|] == wanted && drawn[..|drawn|] == drawn;
      return Some(found);
    }

    method ImportCiphers(
        user: string, wanted: seq<FolderRequest>, relations: seq<Relation>, requests: seq<CipherRequest>,
        folderIds: seq<string>, cipherIds: seq<string>) returns (ok: bool)
      requires |wanted| == |folderIds| && |requests| == |cipherIds|
      modifies this
      ensures (Tables(), ok) == Step(old(Tables()), user, Op.Import(wanted, relations, requests, folderIds, cipherIds))
    {
      var ids := ResolveFolders(user, wanted, folderIds);
      if ids.None? { return false; }
      var folderFor: map<int, string> := map[];
      for i := 0 to |relations|
        invariant folderFor == FolderFor(relations[..i], ids.value)
      {
        assert Front(relations[..i + 1]) == relations[..i];
        var relation := relations[i];
        if 0 <= relation.value < |ids.value| { folderFor := folderFor[relation.key := ids.value[relation.value]]; }
      }
      assert relations[..|relations|] == relations;
      ok := InsertAll(user, requests, cipherIds, folderFor);
    }

    method InsertAll(user: string, requests: seq<CipherRequest>, drawn: seq<string>, folderFor: map<int, string>)
      returns (ok: bool)
      requires |requests| == |drawn|
      modifies this`ciphers
      ensures (Tables(), ok) == InsertCiphers(old(Tables()), user, requests, drawn, folderFor)
    {
      ghost var before := Tables();
      for index := 0 to |requests|
        invariant (Tables(), true) == InsertCiphers(before, user, requests[..index], drawn[..index], folderFor)
      {
        assert Front(requests[..index + 1]) == requests[..index] && Front(drawn[..index + 1]) == drawn[..index];
        var request := requests[index];
        if index in folderFor { request := request.(folder := Some(folderFor[index])); }
        ok := CreateCipher(user, drawn[index], request);
        if !ok {
          FailureSticks(before, user, requests, drawn, folderFor, index + 1);
          return;
        }
      }
      assert requests[..|requests|] == requests && drawn[..|drawn|] == drawn;
      return true;
    }
  }

  lemma RestoredSnoc(st: State, user: string, ids: seq<string>, id: string)
    ensures var before := Restored(st, user, ids);
            Restored(st, user, ids + [id])
            == if OwnsCipher(st, user, id) then before[id := before[id].(deleted := false)] else before
  {
    assert forall c :: c in ids + [id] <==> c in ids || c == id;
  }

  lemma {:induction false} ResolveFailure(
      st: State, user: string, folders: seq<FolderRequest>, drawn: seq<string>, n: nat)
    requires |folders| == |drawn| && n <= |folders| && Resolve(st, user, folders[..n], drawn[..n]).1.None?
    ensures Resolve(st, user, folders, drawn) == Resolve(st, user, folders[..n], drawn[..n])
    decreases |folders|
  {
    if n == |folders| {
      assert folders[..n] == folders && drawn[..n] == drawn;
    } else {
      assert Front(folders)[..n] == folders[..n] && Front(drawn)[..n] == drawn[..n];
      ResolveFailure(st, user, Front(folders), Front(drawn), n);
    }
  }
}
