/**
  The incremental synchronisation of the app registry with its remote repository: a diff of
  changed files drives delete and index steps inside one database transaction, downloads go
  to a temporary directory, and local files are removed and replaced only after the commit.
 */
module RegistrySync {
  import opened Results
  import opened Sorting
  import opened MetadataIndex

  datatype FileName = Metadata(file: MetadataFile) | NonMetadata(name: string)

  /** A path of the diff by its last three segments; `Shallow` has fewer than three. */
  datatype RemotePath = AppFile(dir: Dir, name: FileName) | Shallow(segments: seq<string>)

  datatype Status = Added | Removed | Modified | Changed | Renamed | Copied | Unchanged {
    /** `fileUpdatedStatuses`: the statuses whose indexed rows are deleted first. */
    predicate Updated() {
      Removed? || Modified? || Changed?
    }
  }

  datatype FileInfo = FileInfo(path: RemotePath, status: Status)

  predicate MetadataOf(info: FileInfo, d: Dir) {
    info.path.AppFile? && info.path.dir == d && info.path.name.Metadata?
  }

  predicate AllMetadataOf(fs: seq<FileInfo>, d: Dir) {
    forall i :: 0 <= i < |fs| ==> MetadataOf(fs[i], d)
  }

  predicate NoShallowPath(infos: seq<FileInfo>) {
    forall i :: 0 <= i < |infos| ==> infos[i].path.AppFile?
  }

  // ----- Sorting and grouping -----

  /** The metadata files of one directory, in list order. */
  function FilesOf(infos: seq<FileInfo>, d: Dir): (r: seq<FileInfo>)
    ensures forall x :: x in r <==> x in infos && MetadataOf(x, d)
    ensures AllMetadataOf(r, d)
  {
    if infos == [] then []
    else
      var last := infos[|infos| - 1];
      assert infos == infos[..|infos| - 1] + [last];
      FilesOf(infos[..|infos| - 1], d) + if MetadataOf(last, d) then [last] else []
  }

  /** `groupFilesByNetworkAndApp`; `rank` stands for the collation of file names. A path with
      fewer than three segments has no file name and makes `isMetadataFile` throw. */
  method GroupFilesByNetworkAndApp(fileInfos: seq<FileInfo>, rank: FileInfo -> real)
    returns (r: Result<map<Dir, seq<FileInfo>>>)
    ensures r.Ok? <==> NoShallowPath(fileInfos)
    ensures r.Ok? ==> forall d :: d in r.value <==> exists x :: x in fileInfos && MetadataOf(x, d)
    ensures r.Ok? ==> forall d :: d in r.value ==> r.value[d] == FilesOf(SortBy(fileInfos, rank), d)
  {
    var sorted := SortBy(fileInfos, rank);
    SortIsOrderedPermutation(fileInfos, rank);
    r := GroupSorted(sorted);
    SameShallow(fileInfos, sorted);
    if r.Ok? {
      GroupsCover(fileInfos, sorted);
    }
  }

  /** The `forEach` that fills the groups. */
  method GroupSorted(sorted: seq<FileInfo>) returns (r: Result<map<Dir, seq<FileInfo>>>)
    ensures r.Ok? <==> NoShallowPath(sorted)
    ensures r.Ok? ==> Grouped(r.value, sorted)
  {
    var groups: map<Dir, seq<FileInfo>> := map[];
    for i := 0 to |sorted|
      invariant NoShallowPath(sorted[..i])
      invariant Grouped(groups, sorted[..i])
    {
      var info := sorted[i];
      if info.path.Shallow? {
        return Err("TypeError: filePath is undefined");
      }
      GroupedStep(groups, sorted, i);
      if info.path.name.Metadata? {
        var d := info.path.dir;
        groups := groups[d := (if d in groups then groups[d] else []) + [info]];
      }
    }
    assert sorted[..|sorted|] == sorted;
    return Ok(groups);
  }

  ghost predicate Grouped(groups: map<Dir, seq<FileInfo>>, infos: seq<FileInfo>) {
    forall d :: FilesOf(infos, d) == (if d in groups then groups[d] else []) && (d in groups ==> groups[d] != [])
  }

  lemma GroupedStep(groups: map<Dir, seq<FileInfo>>, infos: seq<FileInfo>, i: nat)
    requires i < |infos| && infos[i].path.AppFile? && Grouped(groups, infos[..i])
    ensures var info := infos[i];
            var d := info.path.dir;
            var added := (if d in groups then groups[d] else []) + [info];
            Grouped(if info.path.name.Metadata? then groups[d := added] else groups, infos[..i + 1])
  {
    FilesOfStep(infos, i);
  }

  lemma SameShallow(a: seq<FileInfo>, b: seq<FileInfo>)
    requires forall x :: x in a <==> x in b
    ensures NoShallowPath(a) <==> NoShallowPath(b)
  {
    assert NoShallowPath(a) <==> forall x :: x in a ==> x.path.AppFile?;
    assert NoShallowPath(b) <==> forall x :: x in b ==> x.path.AppFile?;
  }

  lemma GroupsCover(infos: seq<FileInfo>, sorted: seq<FileInfo>)
    requires forall x :: x in sorted <==> x in infos
    ensures forall d :: FilesOf(sorted, d) != [] <==> exists x :: x in infos && MetadataOf(x, d)
  {
    forall d | FilesOf(sorted, d) != []
      ensures exists x :: x in infos && MetadataOf(x, d)
    {
      var x := FilesOf(sorted, d)[0];
      assert x in FilesOf(sorted, d);
    }
    forall d, x | x in infos && MetadataOf(x, d)
      ensures FilesOf(sorted, d) != []
    {
      assert x in FilesOf(sorted, d);
    }
  }

  lemma FilesOfStep(infos: seq<FileInfo>, i: nat)
    requires i < |infos|
    ensures forall d :: FilesOf(infos[..i + 1], d) ==
                        FilesOf(infos[..i], d) + if MetadataOf(infos[i], d) then [infos[i]] else []
  {
    assert infos[..i + 1][..i] == infos[..i];
  }

  // ----- Processing one app, and all apps -----

  function FileIn(f: Folder, file: MetadataFile): (present: bool) {
    if file.AppJson? then f.app.Some? else f.tokens.Some?
  }

  /** `f` with `file` replaced by its copy in `g`. */
  function CopyFile(f: Folder, file: MetadataFile, g: Folder): (r: Folder) {
    if file.AppJson? then f.(app := g.app) else f.(tokens := g.tokens)
  }

  /** The sequential loop over the files of one app; `downloaded` is its temporary directory. */
  function ProcessApp(t: Tables, d: Dir, fs: seq<FileInfo>, local: Folder, remote: Folder, downloaded: Folder,
                      defaultApps: set<string>): (r: Result<Tables>)
    requires AllMetadataOf(fs, d)
    decreases |fs|
  {
    if fs == [] then Ok(t)
    else
      var file, status := fs[0].path.name.file, fs[0].status;
      var deleted := if status.Updated() then DeleteFromFile(t, d, file, local) else Ok(t);
      if deleted.Err? then deleted
      else if status.Removed? then
        ProcessApp(deleted.value, d, fs[1..], local, remote, downloaded, defaultApps)
      else if !FileIn(remote, file) then Err("Not Found")
      else
        var temp := CopyFile(downloaded, file, remote);
        var indexed := IndexFromFile(deleted.value, d, file, temp, local, defaultApps);
        if indexed.Err? then indexed
        else ProcessApp(indexed.value, d, fs[1..], local, remote, temp, defaultApps)
  }

  /** All apps, in the order in which they are processed. */
  function ProcessAll(t: Tables, order: seq<Dir>, sorted: seq<FileInfo>, local: Files, remote: Files,
                      defaultApps: set<string>): (r: Result<Tables>)
    decreases |order|
  {
    if order == [] then Ok(t)
    else
      var d := order[0];
      var r := ProcessApp(t, d, FilesOf(sorted, d), At(local, d), At(remote, d), EMPTY, defaultApps);
      if r.Err? then r else ProcessAll(r.value, order[1..], sorted, local, remote, defaultApps)
  }

  predicate Lists(infos: seq<FileInfo>, d: Dir, file: MetadataFile, removed: bool) {
    exists x :: x in infos && x.path == AppFile(d, Metadata(file)) && x.status.Removed? == removed
  }

  /** The local folder after the deferred removals and then the deferred moves. */
  function FolderAfter(infos: seq<FileInfo>, d: Dir, local: Folder, remote: Folder): (f: Folder) {
    Folder(if Lists(infos, d, AppJson, false) then remote.app
           else if Lists(infos, d, AppJson, true) then None else local.app,
           if Lists(infos, d, NativeTokensJson, false) then remote.tokens
           else if Lists(infos, d, NativeTokensJson, true) then None else local.tokens)
  }

  // ----- How many awaited calls each step makes -----

  /** Reading the local files and one statement per deleted row. */
  function DeleteCalls(file: MetadataFile, local: Folder): (n: nat) {
    match file
    case AppJson => 2
    case NativeTokensJson => 2 + if local.tokens.Some? then |local.tokens.value.tokens| else 0
  }

  /** Reading the files and one upsert. */
  function IndexCalls(file: MetadataFile): (n: nat) {
    if file.AppJson? then 2 else 3
  }

  /** Creating the directory, asking for the address of a file and downloading it. */
  const DOWNLOAD_CALLS := 3

  function FileCalls(info: FileInfo, local: Folder): (n: nat)
    requires IsMetadata(info)
  {
    var file := info.path.name.file;
    (if info.status.Updated() then DeleteCalls(file, local) else 0) +
    if info.status.Removed? then 0 else DOWNLOAD_CALLS + IndexCalls(file)
  }

  function AppCalls(fs: seq<FileInfo>, local: Folder): (n: nat)
    requires forall i :: 0 <= i < |fs| ==> IsMetadata(fs[i])
  {
    if fs == [] then 0 else FileCalls(fs[0], local) + AppCalls(fs[1..], local)
  }

  function AllCalls(order: seq<Dir>, sorted: seq<FileInfo>, local: Files): (n: nat) {
    if order == [] then 0
    else AppCalls(FilesOf(sorted, order[0]), At(local, order[0])) + AllCalls(order[1..], sorted, local)
  }

  /** Opening the transaction and reading the two commit hashes. */
  const OPENING_CALLS := 4

  /** Preparing the temporary directory and fetching the diff. */
  const PREPARING_CALLS := 2

  /** The calls of a whole sync up to its commit, which comes last. */
  function CommitCalls(order: seq<Dir>, sorted: seq<FileInfo>, local: Files): (n: nat) {
    OPENING_CALLS + PREPARING_CALLS + AllCalls(order, sorted, local) + 2
  }

  // ----- The registry -----

  datatype Outcome = UpToDate | Aborted | FailedAfterCommit | Synced

  /** The registry: committed tables and commit hash, their copies in the open transaction, the
      local files, and the number of awaited calls that succeed before one fails. */
  class Registry {
    var committed: Tables
    var commitHash: Option<string>
    var pending: Tables
    var pendingHash: Option<string>
    var files: Files
    var calls: nat

    /** `n` awaited calls in a row; the first one beyond `calls` fails. */
    method Await(n: nat) returns (ok: bool)
      modifies this`calls
      ensures ok <==> n <= old(calls)
      ensures calls == if ok then old(calls) - n else 0
    {
      ok := n <= calls;
      calls := if ok then calls - n else 0;
    }

    /** `deleteTokensMeta`: one statement per row. */
    method DeleteTokensMeta(d: Dir, meta: AppMeta, tokens: seq<Token>) returns (ok: bool)
      modifies this`pending, this`calls
      ensures ok <==> |tokens| <= old(calls)
      ensures ok ==> calls == old(calls) - |tokens| &&
                     pending == old(pending).(tokens := old(pending).tokens - TokenKeys(d, meta, tokens))
    {
      for i := 0 to |tokens|
        invariant i <= old(calls) && calls == old(calls) - i
        invariant pending == old(pending).(tokens := old(pending).tokens - TokenKeys(d, meta, tokens[..i]))
      {
        ok := Await(1);
        if !ok { return; }
        TokenKeysStep(d, meta, tokens, i);
        pending := pending.(tokens := pending.tokens - {TokenKeyOf(d, meta, tokens[i])});
      }
      assert tokens[..|tokens|] == tokens;
      ok := true;
    }

    /** `deleteIndexedMetadataFromFile`, which reads the local copies. */
    method DeleteIndexedMetadataFromFile(d: Dir, file: MetadataFile) returns (ok: bool)
      modifies this`pending, this`calls
      ensures ok <==> DeleteCalls(file, At(files, d)) <= old(calls) &&
                      DeleteFromFile(old(pending), d, file, At(files, d)).Ok?
      ensures ok ==> calls == old(calls) - DeleteCalls(file, At(files, d)) &&
                     Ok(pending) == DeleteFromFile(old(pending), d, file, At(files, d))
    {
      var local := At(files, d);
      ok := Await(2);
      if !ok || local.app.None? { return false; }
      match file
      case AppJson =>
        pending := pending.(apps := pending.apps - {AppKeyOf(local.app.value)});
      case NativeTokensJson =>
        if local.tokens.None? { return false; }
        ok := DeleteTokensMeta(d, local.app.value, local.tokens.value.tokens);
    }

    /** `indexMetadataFromFile`, which prefers the downloaded `app.json`. */
    method IndexMetadataFromFile(d: Dir, file: MetadataFile, downloaded: Folder, defaultApps: set<string>)
      returns (ok: bool)
      modifies this`pending, this`calls
      ensures ok <==> IndexCalls(file) <= old(calls) &&
                      IndexFromFile(old(pending), d, file, downloaded, At(files, d), defaultApps).Ok?
      ensures ok ==> calls == old(calls) - IndexCalls(file) &&
                     Ok(pending) == IndexFromFile(old(pending), d, file, downloaded, At(files, d), defaultApps)
    {
      var app := if downloaded.app.Some? then downloaded.app else At(files, d).app;
      ok := Await(1);
      if !ok || app.None? { return false; }
      match file
      case AppJson =>
        ok := Await(1);
        if !ok { return; }
        pending := Upsert(pending, Tables(AppRows(d, app.value, defaultApps), map[]));
      case NativeTokensJson =>
        ok := Await(1);
        if !ok || downloaded.tokens.None? { return false; }
        ok := Await(1);
        if !ok { return; }
        pending := Upsert(pending, Tables(map[], TokenRows(d, app.value, downloaded.tokens.value.tokens)));
    }

    /** The sequential loop over the files of one app. */
    method ProcessAppFiles(d: Dir, fs: seq<FileInfo>, remote: Folder, defaultApps: set<string>)
      returns (ok: bool, toDelete: seq<FileInfo>, toMove: seq<FileInfo>)
      requires AllMetadataOf(fs, d)
      modifies this`pending, this`calls
      ensures ok <==> AppCalls(fs, At(files, d)) <= old(calls) &&
                      ProcessApp(old(pending), d, fs, At(files, d), remote, EMPTY, defaultApps).Ok?
      ensures ok ==> calls == old(calls) - AppCalls(fs, At(files, d)) &&
                     Ok(pending) == ProcessApp(old(pending), d, fs, At(files, d), remote, EMPTY, defaultApps)
      ensures ok ==> Collected(fs, toDelete, toMove)
    {
      var downloaded := EMPTY;
      ghost var local := At(files, d);
      ok, toDelete, toMove := true, [], [];
      for i := 0 to |fs|
        invariant calls <= old(calls)
        invariant calls + AppCalls(fs, local) == old(calls) + AppCalls(fs[i..], local)
        invariant ProcessApp(pending, d, fs[i..], local, remote, downloaded, defaultApps)
               == ProcessApp(old(pending), d, fs, local, remote, EMPTY, defaultApps)
        invariant Collected(fs[..i], toDelete, toMove)
      {
        var info := fs[i];
        var file := info.path.name.file;
        assert fs[i..][1..] == fs[i + 1..];
        assert fs[..i + 1] == fs[..i] + [info];
        if info.status.Updated() {
          ok := DeleteIndexedMetadataFromFile(d, file);
          if !ok { return; }
        }
        if info.status.Removed? {
          toDelete := toDelete + [info];
          continue;
        }
        ok := Await(DOWNLOAD_CALLS);
        if !ok || !FileIn(remote, file) { return false, toDelete, toMove; }
        downloaded := CopyFile(downloaded, file, remote);
        ok := IndexMetadataFromFile(d, file, downloaded, defaultApps);
        if !ok { return; }
        toMove := toMove + [info];
      }
      assert fs[..|fs|] == fs && fs[|fs|..] == [];
      ok := true;
    }

    /** The apps of the diff, one after the other in the given order. */
    method ProcessChanges(fileInfos: seq<FileInfo>, rank: FileInfo -> real, remote: Files, defaultApps: set<string>,
                          order: seq<Dir>)
      returns (ok: bool, toDelete: seq<FileInfo>, toMove: seq<FileInfo>)
      requires Groups(order, fileInfos)
      modifies this`pending, this`calls
      ensures var sorted := SortBy(fileInfos, rank);
              (ok <==> NoShallowPath(fileInfos) && AllCalls(order, sorted, files) <= old(calls) &&
                       ProcessAll(old(pending), order, sorted, files, remote, defaultApps).Ok?) &&
              (ok ==> calls == old(calls) - AllCalls(order, sorted, files) &&
                      Ok(pending) == ProcessAll(old(pending), order, sorted, files, remote, defaultApps))
      ensures ok ==> forall x :: x in toDelete <==> x in fileInfos && IsMetadata(x) && x.status.Removed?
      ensures ok ==> forall x :: x in toMove <==> x in fileInfos && IsMetadata(x) && !x.status.Removed?
    {
      ghost var sorted := SortBy(fileInfos, rank);
      var groups := GroupFilesByNetworkAndApp(fileInfos, rank);
      if groups.Err? { return false, [], []; }
      ok, toDelete, toMove := ProcessGroups(groups.value, sorted, remote, defaultApps, order);
      if ok {
        SortIsOrderedPermutation(fileInfos, rank);
        FlatElements(order, sorted);
      }
    }

    method ProcessGroups(groups: map<Dir, seq<FileInfo>>, ghost sorted: seq<FileInfo>, remote: Files,
                         defaultApps: set<string>, order: seq<Dir>)
      returns (ok: bool, toDelete: seq<FileInfo>, toMove: seq<FileInfo>)
      requires forall d :: d in order ==> d in groups && groups[d] == FilesOf(sorted, d)
      modifies this`pending, this`calls
      ensures ok <==> AllCalls(order, sorted, files) <= old(calls) &&
                      ProcessAll(old(pending), order, sorted, files, remote, defaultApps).Ok?
      ensures ok ==> calls == old(calls) - AllCalls(order, sorted, files) &&
                     Ok(pending) == ProcessAll(old(pending), order, sorted, files, remote, defaultApps)
      ensures ok ==> Collected(Flat(order, sorted), toDelete, toMove)
    {
      ok, toDelete, toMove := true, [], [];
      for i := 0 to |order|
        invariant calls <= old(calls)
        invariant calls + AllCalls(order, sorted, files) == old(calls) + AllCalls(order[i..], sorted, files)
        invariant ProcessAll(pending, order[i..], sorted, files, remote, defaultApps)
               == ProcessAll(old(pending), order, sorted, files, remote, defaultApps)
        invariant Collected(Flat(order[..i], sorted), toDelete, toMove)
      {
        var d := order[i];
        assert d in order;
        assert order[i..][1..] == order[i + 1..];
        var appToDelete, appToMove;
        ok, appToDelete, appToMove := ProcessAppFiles(d, groups[d], At(remote, d), defaultApps);
        if !ok { return; }
        FlatStep(order, sorted, i);
        CollectedStep(Flat(order[..i], sorted), FilesOf(sorted, d), toDelete, toMove, appToDelete, appToMove);
        toDelete, toMove := toDelete + appToDelete, toMove + appToMove;
      }
      assert order[..|order|] == order && order[|order|..] == [];
      ok := true;
    }

    /** The commit, which makes both tables and the hash durable at once. */
    method CommitTransaction() returns (ok: bool)
      modifies this`committed, this`commitHash, this`calls
      ensures ok <==> 1 <= old(calls)
      ensures calls == if ok then old(calls) - 1 else 0
      ensures committed == (if ok then pending else old(committed))
      ensures commitHash == (if ok then pendingHash else old(commitHash))
    {
      ok := Await(1);
      if ok {
        committed, commitHash := pending, pendingHash;
      }
    }

    /** The rollback, which forgets what the open transaction wrote. */
    method RollbackTransaction()
      modifies this`pending, this`pendingHash
      ensures pending == committed && pendingHash == commitHash
    {
      pending, pendingHash := committed, commitHash;
    }

    /** The deferred removals. A file that cannot be removed stays, without an error. */
    method RemoveFiles(list: seq<FileInfo>, removable: FileInfo -> bool)
      requires forall i :: 0 <= i < |list| ==> IsMetadata(list[i])
      modifies this`files
      ensures forall d :: At(files, d) == Folder(
                if NamesSome(list, removable, d, AppJson) then None else At(old(files), d).app,
                if NamesSome(list, removable, d, NativeTokensJson) then None else At(old(files), d).tokens)
    {
      for i := 0 to |list|
        invariant forall d :: At(files, d) == Folder(
                    if NamesSome(list[..i], removable, d, AppJson) then None else At(old(files), d).app,
                    if NamesSome(list[..i], removable, d, NativeTokensJson) then None else At(old(files), d).tokens)
      {
        var d, file := list[i].path.dir, list[i].path.name.file;
        if removable(list[i]) {
          files := files[d := CopyFile(At(files, d), file, EMPTY)];
        }
        NamesSomeStep(list, removable, i);
      }
      assert list[..|list|] == list;
    }

    /** The deferred moves, up to the first that fails. Creating the directory and moving the
        file are one call each. */
    method MoveFiles(list: seq<FileInfo>, remote: Files) returns (ok: bool, ghost moved: nat)
      requires forall i :: 0 <= i < |list| ==> IsMetadata(list[i])
      modifies this`files, this`calls
      ensures moved <= |list| && (ok <==> moved == |list|) && (ok <==> 2 * |list| <= old(calls))
      ensures forall d :: At(files, d) == Folder(
                if Names(list[..moved], d, AppJson) then At(remote, d).app else At(old(files), d).app,
                if Names(list[..moved], d, NativeTokensJson) then At(remote, d).tokens else At(old(files), d).tokens)
    {
      moved := 0;
      for i := 0 to |list|
        invariant moved == i && 2 * i <= old(calls) && calls == old(calls) - 2 * i
        invariant forall d :: At(files, d) == Folder(
                    if Names(list[..i], d, AppJson) then At(remote, d).app else At(old(files), d).app,
                    if Names(list[..i], d, NativeTokensJson) then At(remote, d).tokens else At(old(files), d).tokens)
      {
        ok := Await(2);
        if !ok { return; }
        var d, file := list[i].path.dir, list[i].path.name.file;
        files := files[d := CopyFile(At(files, d), file, At(remote, d))];
        NamesStep(list, i);
        moved := i + 1;
      }
      ok := true;
    }

    /** `syncWithRemoteRepo`. `order` is the order in which the concurrent app groups are
        processed. The value of `calls` decides which awaited call fails, if any. */
    method SyncWithRemoteRepo(fileInfos: seq<FileInfo>, rank: FileInfo -> real, latestHash: string, remote: Files,
                              defaultApps: set<string>, order: seq<Dir>, removable: FileInfo -> bool)
      returns (outcome: Outcome)
      requires Groups(order, fileInfos)
      modifies this
      ensures outcome.UpToDate? <==> OPENING_CALLS <= old(calls) && old(commitHash) == Some(latestHash)
      ensures outcome.Synced? || outcome.FailedAfterCommit? <==>
                old(commitHash) != Some(latestHash) && NoShallowPath(fileInfos) &&
                CommitCalls(order, SortBy(fileInfos, rank), old(files)) <= old(calls) &&
                ProcessAll(old(committed), order, SortBy(fileInfos, rank), old(files), remote, defaultApps).Ok?
      ensures outcome.UpToDate? || outcome.Aborted? ==>
                committed == old(committed) && commitHash == old(commitHash) && files == old(files)
      ensures outcome.Synced? || outcome.FailedAfterCommit? ==>
                commitHash == Some(latestHash) &&
                Ok(committed)
                == ProcessAll(old(committed), order, SortBy(fileInfos, rank), old(files), remote, defaultApps) &&
                forall d :: Landed(fileInfos, d, At(old(files), d), At(remote, d), At(files, d))
      ensures outcome.Synced? && (forall x :: removable(x)) ==>
                forall d :: At(files, d) == FolderAfter(fileInfos, d, At(old(files), d), At(remote, d))
      ensures pending == committed && pendingHash == commitHash
    {
      pending, pendingHash := committed, commitHash;
      var ok := Await(OPENING_CALLS);
      if !ok { return Aborted; }
      if commitHash == Some(latestHash) { return UpToDate; }
      var filesToBeDeleted, filesToBeMoved;
      ok := Await(PREPARING_CALLS);
      if ok {
        ok, filesToBeDeleted, filesToBeMoved := ProcessChanges(fileInfos, rank, remote, defaultApps, order);
      }
      if ok {
        ok := Await(1);
      }
      if ok {
        pendingHash := Some(latestHash);
        ok := CommitTransaction();
      }
      if !ok {
        RollbackTransaction();
        return Aborted;
      }
      RemoveFiles(filesToBeDeleted, removable);
      ghost var moved;
      ok, moved := MoveFiles(filesToBeMoved, remote);
      FilesLand(fileInfos, filesToBeDeleted, filesToBeMoved, removable, moved, old(files), remote, files);
      return if ok then Synced else FailedAfterCommit;
    }
  }

  lemma TokenKeysStep(d: Dir, meta: AppMeta, tokens: seq<Token>, i: nat)
    requires i < |tokens|
    ensures TokenKeys(d, meta, tokens[..i + 1]) == TokenKeys(d, meta, tokens[..i]) + {TokenKeyOf(d, meta, tokens[i])}
  {
    var before, after := tokens[..i], tokens[..i + 1];
    forall k | k in TokenKeys(d, meta, after)
      ensures k in TokenKeys(d, meta, before) + {TokenKeyOf(d, meta, tokens[i])}
    {
      var j :| 0 <= j < |after| && TokenKeyOf(d, meta, after[j]) == k;
      assert j < i ==> before[j] == after[j];
    }
    assert after == before + [tokens[i]];
    assert forall j :: 0 <= j < i ==> after[j] == before[j];
    assert after[i] == tokens[i];
  }

  /** One group per directory with a metadata file, each processed once. */
  ghost predicate Groups(order: seq<Dir>, infos: seq<FileInfo>) {
    (forall d :: d in order <==> exists x :: x in infos && MetadataOf(x, d)) &&
    (forall i, j :: 0 <= i < j < |order| ==> order[i] != order[j])
  }

  /** The files scheduled for removal and for moving are those of `fs` by status. */
  ghost predicate Collected(fs: seq<FileInfo>, toDelete: seq<FileInfo>, toMove: seq<FileInfo>) {
    (forall x :: x in toDelete <==> x in fs && x.status.Removed?) &&
    (forall x :: x in toMove <==> x in fs && !x.status.Removed?)
  }

  lemma CollectedStep(fs: seq<FileInfo>, gs: seq<FileInfo>, toDelete: seq<FileInfo>, toMove: seq<FileInfo>,
                      moreToDelete: seq<FileInfo>, moreToMove: seq<FileInfo>)
    requires Collected(fs, toDelete, toMove) && Collected(gs, moreToDelete, moreToMove)
    ensures Collected(fs + gs, toDelete + moreToDelete, toMove + moreToMove)
  {
  }

  predicate IsMetadata(x: FileInfo) {
    x.path.AppFile? && x.path.name.Metadata?
  }

  // ----- Where the files end up -----

  predicate Names(list: seq<FileInfo>, d: Dir, file: MetadataFile) {
    exists x :: x in list && x.path == AppFile(d, Metadata(file))
  }

  predicate NamesSome(list: seq<FileInfo>, chosen: FileInfo -> bool, d: Dir, file: MetadataFile) {
    exists x :: x in list && chosen(x) && x.path == AppFile(d, Metadata(file))
  }

  /** Each file of a folder after a commit: as it was, removed, or the downloaded one. */
  predicate Landed(infos: seq<FileInfo>, d: Dir, local: Folder, remote: Folder, f: Folder) {
    (f.app == local.app || (Lists(infos, d, AppJson, true) && f.app.None?) ||
     (Lists(infos, d, AppJson, false) && f.app == remote.app)) &&
    (f.tokens == local.tokens || (Lists(infos, d, NativeTokensJson, true) && f.tokens.None?) ||
     (Lists(infos, d, NativeTokensJson, false) && f.tokens == remote.tokens))
  }

  lemma NamesStep(list: seq<FileInfo>, i: nat)
    requires i < |list|
    ensures forall d, file :: Names(list[..i + 1], d, file) <==>
              Names(list[..i], d, file) || list[i].path == AppFile(d, Metadata(file))
  {
    assert list[..i + 1] == list[..i] + [list[i]];
    assert list[i] in list[..i + 1];
    forall d, file | Names(list[..i], d, file)
      ensures Names(list[..i + 1], d, file)
    {
      var x :| x in list[..i] && x.path == AppFile(d, Metadata(file));
      assert x in list[..i + 1];
    }
  }

  lemma NamesSomeStep(list: seq<FileInfo>, chosen: FileInfo -> bool, i: nat)
    requires i < |list|
    ensures forall d, file :: NamesSome(list[..i + 1], chosen, d, file) <==>
              NamesSome(list[..i], chosen, d, file) || (chosen(list[i]) && list[i].path == AppFile(d, Metadata(file)))
  {
    assert list[..i + 1] == list[..i] + [list[i]];
    assert list[i] in list[..i + 1];
    forall d, file | NamesSome(list[..i], chosen, d, file)
      ensures NamesSome(list[..i + 1], chosen, d, file)
    {
      var x :| x in list[..i] && chosen(x) && x.path == AppFile(d, Metadata(file));
      assert x in list[..i + 1];
    }
  }

  /** After the removals and the first `moved` moves every file has landed, and when none of them
      failed the folders are as the diff says. */
  lemma FilesLand(infos: seq<FileInfo>, toDelete: seq<FileInfo>, toMove: seq<FileInfo>, removable: FileInfo -> bool,
                  moved: nat, before: Files, remote: Files, after: Files)
    requires forall x :: x in toDelete <==> x in infos && IsMetadata(x) && x.status.Removed?
    requires forall x :: x in toMove <==> x in infos && IsMetadata(x) && !x.status.Removed?
    requires moved <= |toMove|
    requires forall d :: At(after, d) == Folder(
               if Names(toMove[..moved], d, AppJson) then At(remote, d).app
               else if NamesSome(toDelete, removable, d, AppJson) then None else At(before, d).app,
               if Names(toMove[..moved], d, NativeTokensJson) then At(remote, d).tokens
               else if NamesSome(toDelete, removable, d, NativeTokensJson) then None else At(before, d).tokens)
    ensures forall d :: Landed(infos, d, At(before, d), At(remote, d), At(after, d))
    ensures moved == |toMove| && (forall x :: removable(x)) ==>
              forall d :: At(after, d) == FolderAfter(infos, d, At(before, d), At(remote, d))
  {
    forall d, file
      ensures Names(toMove[..moved], d, file) ==> Lists(infos, d, file, false)
      ensures NamesSome(toDelete, removable, d, file) ==> Lists(infos, d, file, true)
      ensures moved == |toMove| && Lists(infos, d, file, false) ==> Names(toMove[..moved], d, file)
      ensures (forall x :: removable(x)) && Lists(infos, d, file, true) ==> NamesSome(toDelete, removable, d, file)
    {
      NamesAreLists(infos, toDelete, toMove, removable, moved, d, file);
    }
  }

  lemma NamesAreLists(infos: seq<FileInfo>, toDelete: seq<FileInfo>, toMove: seq<FileInfo>, removable: FileInfo -> bool,
                      moved: nat, d: Dir, file: MetadataFile)
    requires forall x :: x in toDelete <==> x in infos && IsMetadata(x) && x.status.Removed?
    requires forall x :: x in toMove <==> x in infos && IsMetadata(x) && !x.status.Removed?
    requires moved <= |toMove|
    ensures Names(toMove[..moved], d, file) ==> Lists(infos, d, file, false)
    ensures NamesSome(toDelete, removable, d, file) ==> Lists(infos, d, file, true)
    ensures moved == |toMove| && Lists(infos, d, file, false) ==> Names(toMove[..moved], d, file)
    ensures (forall x :: removable(x)) && Lists(infos, d, file, true) ==> NamesSome(toDelete, removable, d, file)
  {
    if Names(toMove[..moved], d, file) {
      var x :| x in toMove[..moved] && x.path == AppFile(d, Metadata(file));
      assert x in toMove;
    }
    if moved == |toMove| && Lists(infos, d, file, false) {
      assert toMove[..moved] == toMove;
      var x :| x in infos && x.path == AppFile(d, Metadata(file)) && x.status.Removed? == false;
      assert IsMetadata(x);
    }
    if Lists(infos, d, file, true) {
      var x :| x in infos && x.path == AppFile(d, Metadata(file)) && x.status.Removed? == true;
      assert IsMetadata(x);
    }
  }

  /** The files of the groups in processing order. */
  function Flat(order: seq<Dir>, sorted: seq<FileInfo>): (r: seq<FileInfo>) {
    if order == [] then []
    else Flat(order[..|order| - 1], sorted) + FilesOf(sorted, order[|order| - 1])
  }

  lemma FlatStep(order: seq<Dir>, sorted: seq<FileInfo>, i: nat)
    requires i < |order|
    ensures Flat(order[..i + 1], sorted) == Flat(order[..i], sorted) + FilesOf(sorted, order[i])
  {
    assert order[..i + 1][..i] == order[..i];
  }

  lemma {:induction false} FlatElements(order: seq<Dir>, sorted: seq<FileInfo>)
    ensures forall x :: x in Flat(order, sorted) <==>
              x in sorted && x.path.AppFile? && x.path.name.Metadata? && x.path.dir in order
    decreases |order|
  {
    if order == [] {
    } else {
      FlatElements(order[..|order| - 1], sorted);
      assert order == order[..|order| - 1] + [order[|order| - 1]];
    }
  }
}
