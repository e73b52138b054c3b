/**
 Exactly when a request on folders and ciphers (internal/bitwarden/service.go and api.go) succeeds, and every row it
 leaves, the bulk import included.
 */
module ItemEffects {
  import opened Text
  import opened Seqs
  import opened BitwardenItems

  predicate MyFolder(st: State, user: string, id: string) { id in st.folders && st.folders[id].user == user }

  predicate MyCipher(st: State, user: string, id: string) { id in st.ciphers && st.ciphers[id].user == user }

  /** No folder, or one of the user. The empty id is nobody's folder here, so that it is refused. */
  predicate FolderOk(st: State, user: string, folder: Option<string>) {
    folder == None || (folder.value != "" && MyFolder(st, user, folder.value))
  }

  ghost predicate OnlyFolder(before: State, after: State, id: string, row: Folder) {
    && after.ciphers == before.ciphers && after.folders.Keys == before.folders.Keys + {id} && after.folders[id] == row
    && forall f :: f in before.folders && f != id ==> after.folders[f] == before.folders[f]
  }

  ghost predicate OnlyCipher(before: State, after: State, id: string, row: Cipher) {
    && after.folders == before.folders && after.ciphers.Keys == before.ciphers.Keys + {id} && after.ciphers[id] == row
    && forall c :: c in before.ciphers && c != id ==> after.ciphers[c] == before.ciphers[c]
  }

  /** The ciphers for which this holds are gone, and only they. */
  ghost predicate Removed(before: State, after: State, gone: (string, Cipher) -> bool) {
    && after.folders == before.folders
    && (forall c :: c in after.ciphers <==> c in before.ciphers && !gone(c, before.ciphers[c]))
    && (forall c :: c in after.ciphers ==> after.ciphers[c] == before.ciphers[c])
  }

  // ---- folders --------------------------------------------------------------------------------

  /** A folder is made under a new id, and renamed only by its user. */
  lemma FolderWritten(st: State, user: string, op: Op)
    requires op.CreateFolder? || op.UpdateFolder?
    ensures var (after, ok) := Step(st, user, op);
            && (ok <==> if op.CreateFolder? then op.id !in st.folders else MyFolder(st, user, op.id))
            && (if ok then OnlyFolder(st, after, op.id, Folder(user, op.name)) else after == st)
  {
  }

  /** A deleted folder leaves its ciphers behind, without a folder and otherwise as they were. */
  lemma FolderDeleted(st: State, user: string, id: string)
    ensures var (after, ok) := Step(st, user, DeleteFolder(id));
            && (ok <==> MyFolder(st, user, id))
            && (!ok ==> after == st)
            && (ok ==>
                  && (forall f :: f in after.folders <==> f in st.folders && f != id)
                  && (forall f :: f in after.folders ==> after.folders[f] == st.folders[f])
                  && after.ciphers.Keys == st.ciphers.Keys
                  && (forall c :: c in st.ciphers ==>
                        var row := st.ciphers[c];
                        after.ciphers[c] == Cipher(row.user, if row.folder == Some(id) then None else row.folder,
                                                   row.data, row.deleted)))
  {
  }

  // ---- ciphers --------------------------------------------------------------------------------

  /** A cipher needs data and a folder of its user, a new one a new id; a rewritten one stays in the trash or out. */
  lemma CipherWritten(st: State, user: string, op: Op)
    requires Valid(st) && (op.CreateCipher? || op.UpdateCipher?)
    ensures var (after, ok) := Step(st, user, op);
            && (ok <==> && op.request.data.Some? && FolderOk(st, user, op.request.folder)
                        && if op.CreateCipher? then op.id !in st.ciphers else MyCipher(st, user, op.id))
            && (if ok then
                  OnlyCipher(st, after, op.id, Cipher(user, op.request.folder, op.request.data.value,
                                                      op.UpdateCipher? && st.ciphers[op.id].deleted))
                else after == st)
  {
  }

  /** Into the trash and out of it: one column of one cipher of the user. */
  lemma CipherTrashed(st: State, user: string, id: string, deleted: bool)
    ensures var (after, ok) := Step(st, user, Trash(id, deleted));
            && (ok <==> MyCipher(st, user, id))
            && (if ok then OnlyCipher(st, after, id, Cipher(user, st.ciphers[id].folder, st.ciphers[id].data, deleted))
                else after == st)
  {
  }

  /** Exactly the user's ciphers that are listed, or in the trash, are gone. */
  lemma CiphersRemoved(st: State, user: string, op: Op)
    requires op.DeleteCiphers? || op.EmptyTrash?
    ensures var (after, ok) := Step(st, user, op);
            ok && Removed(st, after, (c: string, row: Cipher) =>
                            row.user == user && if op.DeleteCiphers? then c in op.ids else row.deleted)
  {
  }

  /** Exactly the user's listed ciphers are out of the trash; of the others nothing changes. */
  lemma CiphersRestored(st: State, user: string, ids: seq<string>)
    ensures var (after, ok) := Step(st, user, RestoreCiphers(ids));
            && ok && after.folders == st.folders && after.ciphers.Keys == st.ciphers.Keys
            && forall c :: c in st.ciphers ==>
                 var row := st.ciphers[c];
                 after.ciphers[c]
                 == Cipher(row.user, row.folder, row.data, row.deleted && !(row.user == user && c in ids))
  {
  }

  // ---- the folders of an import ---------------------------------------------------------------

  /** The drawn ids are new, all different, and no request can name one. */
  ghost predicate Unforeseen(st: State, folders: seq<FolderRequest>, drawn: seq<string>) {
    && |folders| == |drawn|
    && (forall i :: 0 <= i < |drawn| ==> drawn[i] !in st.folders)
    && (forall i, j :: 0 <= i < j < |drawn| ==> drawn[i] != drawn[j])
    && (forall i, j :: 0 <= i < |folders| && 0 <= j < |drawn| ==> folders[i].id != Some(drawn[j]))
  }

  /** The request names a folder of the user. */
  predicate NamesMine(st: State, user: string, folder: FolderRequest) {
    folder.id.Some? && folder.id.value != "" && MyFolder(st, user, folder.id.value)
  }

  /** Which folder stands for request `i`: the named one if it is the user's, else a new one. */
  function Standing(st: State, user: string, folders: seq<FolderRequest>, drawn: seq<string>, i: nat): string
    requires i < |folders| == |drawn|
  {
    if NamesMine(st, user, folders[i]) then folders[i].id.value else drawn[i]
  }

  /** Exactly the requests without a folder of the user have made one, under their name. */
  ghost predicate MadeMissing(
      st: State, after: State, user: string, folders: seq<FolderRequest>, drawn: seq<string>)
    requires |folders| == |drawn|
  {
    && after.ciphers == st.ciphers
    && (forall f :: f in st.folders ==> f in after.folders && after.folders[f] == st.folders[f])
    && (forall i :: 0 <= i < |folders| ==> Made(st, after, user, folders[i], drawn[i]))
    && (forall f :: f in after.folders && f !in st.folders ==> MadeFor(st, user, folders, drawn, f))
  }

  /** The request's folder is there under its name, unless it named one. */
  ghost predicate Made(st: State, after: State, user: string, folder: FolderRequest, id: string) {
    NamesMine(st, user, folder) || (id in after.folders && after.folders[id] == Folder(user, folder.name))
  }

  /** The new folder is one that a request was missing. */
  ghost predicate MadeFor(st: State, user: string, folders: seq<FolderRequest>, drawn: seq<string>, f: string)
    requires |folders| == |drawn|
  {
    exists i :: 0 <= i < |folders| && drawn[i] == f && !NamesMine(st, user, folders[i])
  }

  /** All folders of an import resolve, in order, and nothing but the missing ones is made. */
  lemma {:induction false} FoldersResolved(
      st: State, user: string, folders: seq<FolderRequest>, drawn: seq<string>)
    requires Unforeseen(st, folders, drawn)
    ensures var (after, ids) := Resolve(st, user, folders, drawn);
            && ids.Some? && |ids.value| == |folders|
            && (forall i :: 0 <= i < |folders| ==> ids.value[i] == Standing(st, user, folders, drawn, i))
            && MadeMissing(st, after, user, folders, drawn)
    decreases |folders|
  {
    if folders != [] {
      FoldersResolved(st, user, Front(folders), Front(drawn));
      var (before, ids) := Resolve(st, user, Front(folders), Front(drawn));
      LastNamesMine(st, before, user, folders, drawn);
      NextMade(st, before, user, folders, drawn);
      forall i | 0 <= i < |folders|
        ensures Resolve(st, user, folders, drawn).1.value[i] == Standing(st, user, folders, drawn, i)
      {
        if i < |folders| - 1 { assert ids.value[i] == Standing(st, user, Front(folders), Front(drawn), i); }
      }
    }
  }

  lemma LastNamesMine(st: State, before: State, user: string, folders: seq<FolderRequest>, drawn: seq<string>)
    requires folders != [] && Unforeseen(st, folders, drawn)
    requires MadeMissing(st, before, user, Front(folders), Front(drawn))
    ensures NamesMine(before, user, Last(folders)) <==> NamesMine(st, user, Last(folders))
  {
  }

  lemma LastDrawnIsNew(st: State, before: State, user: string, folders: seq<FolderRequest>, drawn: seq<string>)
    requires folders != [] && Unforeseen(st, folders, drawn)
    requires MadeMissing(st, before, user, Front(folders), Front(drawn))
    ensures Last(drawn) !in before.folders
  {
  }

  lemma MadeForMore(st: State, user: string, folders: seq<FolderRequest>, drawn: seq<string>, f: string)
    requires folders != [] && |folders| == |drawn| && MadeFor(st, user, Front(folders), Front(drawn), f)
    ensures MadeFor(st, user, folders, drawn, f)
  {
    var i :| 0 <= i < |Front(folders)| && Front(drawn)[i] == f && !NamesMine(st, user, Front(folders)[i]);
    assert drawn[i] == f && Front(folders)[i] == folders[i];
  }

  lemma MadeStays(st: State, before: State, after: State, user: string, folder: FolderRequest, id: string)
    requires Made(st, before, user, folder, id)
    requires forall f :: f in before.folders ==> f in after.folders && after.folders[f] == before.folders[f]
    ensures Made(st, after, user, folder, id)
  {
  }

  lemma NextMade(st: State, before: State, user: string, folders: seq<FolderRequest>, drawn: seq<string>)
    requires folders != [] && Unforeseen(st, folders, drawn)
    requires MadeMissing(st, before, user, Front(folders), Front(drawn))
    ensures Last(drawn) !in before.folders
    ensures MadeMissing(st, if NamesMine(st, user, Last(folders)) then before
                            else PutFolder(before, Last(drawn), Folder(user, Last(folders).name)), user, folders, drawn)
  {
    var n := |folders| - 1;
    var after := if NamesMine(st, user, Last(folders)) then before
                 else PutFolder(before, Last(drawn), Folder(user, Last(folders).name));
    LastDrawnIsNew(st, before, user, folders, drawn);
    assert forall f :: f in before.folders ==> f in after.folders && after.folders[f] == before.folders[f];
    forall f | f in after.folders && f !in st.folders ensures MadeFor(st, user, folders, drawn, f) {
      if f in before.folders { MadeForMore(st, user, folders, drawn, f); } else { assert drawn[n] == f; }
    }
    AllMade(st, before, after, user, folders, drawn);
  }

  lemma AllMade(st: State, before: State, after: State, user: string, folders: seq<FolderRequest>, drawn: seq<string>)
    requires folders != [] && |folders| == |drawn|
    requires MadeMissing(st, before, user, Front(folders), Front(drawn))
    requires forall f :: f in before.folders ==> f in after.folders && after.folders[f] == before.folders[f]
    requires Made(st, after, user, Last(folders), Last(drawn))
    ensures forall i :: 0 <= i < |folders| ==> Made(st, after, user, folders[i], drawn[i])
  {
    forall i | 0 <= i < |folders| ensures Made(st, after, user, folders[i], drawn[i]) {
      if i < |folders| - 1 {
        assert Made(st, before, user, Front(folders)[i], Front(drawn)[i]);
        MadeStays(st, before, after, user, folders[i], drawn[i]);
      }
    }
  }

  // ---- the whole import -----------------------------------------------------------------------

  /** No relation of the import moves cipher `i`. */
  predicate Unrelated(op: Op, i: int)
    requires op.Import?
  {
    forall j :: 0 <= j < |op.relations| && op.relations[j].key == i ==> !(0 <= op.relations[j].value < |op.folders|)
  }

  /** Cipher `i` goes into the folder of the last relation that has one for it, else into the one it asks for. */
  ghost predicate LandsIn(st: State, user: string, op: Op, i: nat, folder: Option<string>)
    requires op.Import? && WellFormed(op) && i < |op.ciphers|
  {
    if Unrelated(op, i) then folder == op.ciphers[i].folder
    else
      exists at: nat :: && LastFor(op.relations, |op.folders|, i, at)
                        && folder == Some(Standing(st, user, op.folders, op.folderIds, op.relations[at].value))
  }

  lemma LastExists(op: Op, i: int) returns (at: nat)
    requires op.Import? && !Unrelated(op, i)
    ensures LastFor(op.relations, |op.folders|, i, at)
  {
    var j := |op.relations| - 1;
    while !(op.relations[j].key == i && 0 <= op.relations[j].value < |op.folders|)
      invariant 0 <= j < |op.relations|
      invariant forall k :: j < k < |op.relations| && op.relations[k].key == i ==>
                  !(0 <= op.relations[k].value < |op.folders|)
      decreases j
    {
      if j == 0 { assert Unrelated(op, i); }
      j := j - 1;
    }
    at := j;
  }

  /** The folder map of the import says where a cipher goes. */
  lemma AssignedLands(st: State, user: string, op: Op, i: nat, folder: Option<string>)
    requires op.Import? && WellFormed(op) && Unforeseen(st, op.folders, op.folderIds) && i < |op.ciphers|
    ensures var ids := Resolve(st, user, op.folders, op.folderIds).1;
            && ids.Some?
            && (LandsIn(st, user, op, i, folder) <==>
                folder == Assigned(op.ciphers[i], i, FolderFor(op.relations, ids.value)).folder)
  {
    FoldersResolved(st, user, op.folders, op.folderIds);
    var ids := Resolve(st, user, op.folders, op.folderIds).1.value;
    if Unrelated(op, i) {
      FolderForOnlyRelated(op.relations, ids, i);
    } else {
      var last := LastExists(op, i);
      FolderForIsLast(op.relations, ids, i, last);
      forall at: nat | LastFor(op.relations, |op.folders|, i, at) ensures at == last {
      }
    }
  }

  /** The cipher has data, and no folder or one that is the user's once the import's folders are made. */
  ghost predicate GoesIn(st: State, user: string, op: Op, i: nat)
    requires op.Import? && WellFormed(op) && i < |op.ciphers|
  {
    op.ciphers[i].data.Some?
    && exists folder :: LandsIn(st, user, op, i, folder)
                        && FolderOk(Resolve(st, user, op.folders, op.folderIds).0, user, folder)
  }

  lemma GoesInIsGood(st: State, user: string, op: Op, i: nat)
    requires op.Import? && WellFormed(op) && Drawn(op) && Valid(st) && Unforeseen(st, op.folders, op.folderIds)
    requires i < |op.ciphers|
    ensures var (resolved, ids) := Resolve(st, user, op.folders, op.folderIds);
            ids.Some? && (GoesIn(st, user, op, i)
                          <==> Good(resolved, user, op.ciphers, FolderFor(op.relations, ids.value), i))
  {
    FoldersResolved(st, user, op.folders, op.folderIds);
    ResolveKeeps(st, user, op.folders, op.folderIds);
    var (resolved, ids) := Resolve(st, user, op.folders, op.folderIds);
    var folder := Assigned(op.ciphers[i], i, FolderFor(op.relations, ids.value)).folder;
    AssignedLands(st, user, op, i, folder);
    forall other | LandsIn(st, user, op, i, other) ensures other == folder {
      AssignedLands(st, user, op, i, other);
    }
    assert AcceptsFolder(resolved, user, folder) <==> FolderOk(resolved, user, folder);
  }

  /** The first `n` ciphers of the import are there, each in its folder. */
  ghost predicate ImportedFirst(st: State, after: State, user: string, op: Op, n: nat)
    requires op.Import? && WellFormed(op) && n <= |op.ciphers|
  {
    && (forall c :: c in st.ciphers ==> c in after.ciphers && after.ciphers[c] == st.ciphers[c])
    && (forall c :: c in after.ciphers && c !in st.ciphers ==> exists i :: 0 <= i < n && op.cipherIds[i] == c)
    && (forall i :: 0 <= i < n ==> ImportedAs(st, after, user, op, i))
  }

  ghost predicate ImportedAs(st: State, after: State, user: string, op: Op, i: nat)
    requires op.Import? && WellFormed(op) && i < |op.ciphers|
  {
    && op.cipherIds[i] in after.ciphers && op.ciphers[i].data.Some?
    && exists folder :: LandsIn(st, user, op, i, folder)
                        && after.ciphers[op.cipherIds[i]] == Cipher(user, folder, op.ciphers[i].data.value, false)
  }

  lemma AddedIsImported(
      st: State, resolved: State, after: State, user: string, op: Op, n: nat, folderFor: map<int, string>)
    requires op.Import? && WellFormed(op) && Unforeseen(st, op.folders, op.folderIds) && n <= |op.ciphers|
    requires Resolve(st, user, op.folders, op.folderIds).1.Some? && resolved.ciphers == st.ciphers
    requires folderFor == FolderFor(op.relations, Resolve(st, user, op.folders, op.folderIds).1.value)
    requires AddedFirst(resolved, after, user, op.ciphers[..n], op.cipherIds[..n], folderFor, n)
    ensures ImportedFirst(st, after, user, op, n)
  {
    forall i | 0 <= i < n ensures ImportedAs(st, after, user, op, i) {
      assert HasRow(after, user, op.ciphers[..n], op.cipherIds[..n], folderFor, i);
      AssignedLands(st, user, op, i, Assigned(op.ciphers[i], i, folderFor).folder);
    }
    forall c | c in after.ciphers && c !in st.ciphers ensures exists i :: 0 <= i < n && op.cipherIds[i] == c {
      assert AmongFirst(op.cipherIds[..n], n, c);
      var i :| 0 <= i < n && op.cipherIds[..n][i] == c;
      assert op.cipherIds[i] == c;
    }
  }

  /**
   What an import leaves, from its folders to its ciphers: the missing folders, and exactly the ciphers before the first
   that cannot go in, each under the user in the folder where it lands; it succeeds when every one goes in.
   */
  lemma ImportOutcome(st: State, user: string, op: Op, n: nat)
    requires op.Import? && WellFormed(op) && Drawn(op) && Valid(st)
    requires Unforeseen(st, op.folders, op.folderIds) && NewIds(st, op.cipherIds)
    requires n <= |op.ciphers| && (forall i :: 0 <= i < n ==> GoesIn(st, user, op, i))
    requires n < |op.ciphers| ==> !GoesIn(st, user, op, n)
    ensures var (after, ok) := Step(st, user, op);
            && (ok <==> n == |op.ciphers|)
            && MadeMissing(st, after.(ciphers := st.ciphers), user, op.folders, op.folderIds)
            && ImportedFirst(st, after, user, op, n)
  {
    FoldersResolved(st, user, op.folders, op.folderIds);
    var (resolved, ids) := Resolve(st, user, op.folders, op.folderIds);
    var folderFor := FolderFor(op.relations, ids.value);
    forall i | 0 <= i < |op.ciphers|
      ensures GoesIn(st, user, op, i) <==> Good(resolved, user, op.ciphers, folderFor, i)
    {
      GoesInIsGood(st, user, op, i);
    }
    assert StopsAt(resolved, user, op.ciphers, folderFor, n);
    ImportAddsUpToFirstBad(resolved, user, op.ciphers, op.cipherIds, folderFor, n);
    AddedIsImported(st, resolved, Step(st, user, op).0, user, op, n, folderFor);
  }
}
