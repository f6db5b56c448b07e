/**
  The central law of the app registry: synchronising by a diff leaves the tables that
  indexing the new repository from scratch would build. It holds exactly for the
  changes that fit in every app directory.
 */
module IncrementalRebuild {
  import opened Results
  import opened Sorting
  import opened MetadataIndex
  import opened RegistrySync

  // ----- What a diff says -----

  /** The status a comparison of two commits reports for a file. A listed file may well be the
      same on both sides, for instance when only its mode changed. */
  predicate StatusFits<T>(status: Status, before: Option<T>, after: Option<T>) {
    if before.None? then after.Some? && status.Added?
    else if after.None? then status.Removed?
    else status.Modified? || status.Changed?
  }

  predicate EntryFits(x: FileInfo, before: Files, after: Files) {
    IsMetadata(x) ==>
      var d := x.path.dir;
      match x.path.name.file
      case AppJson => StatusFits(x.status, At(before, d).app, At(after, d).app)
      case NativeTokensJson => StatusFits(x.status, At(before, d).tokens, At(after, d).tokens)
  }

  /** `infos` lists each path once, every changed metadata file with a fitting status, and no
      short path. */
  ghost predicate IsDiff(infos: seq<FileInfo>, before: Files, after: Files) {
    NoShallowPath(infos) &&
    (forall i, j :: 0 <= i < j < |infos| ==> infos[i].path != infos[j].path) &&
    (forall x :: x in infos ==> EntryFits(x, before, after)) &&
    (forall d :: At(before, d).app != At(after, d).app ==> Names(infos, d, AppJson)) &&
    (forall d :: At(before, d).tokens != At(after, d).tokens ==> Names(infos, d, NativeTokensJson))
  }

  /** In every directory `app.json` sorts before `nativetokens.json`. */
  ghost predicate AppJsonFirst(rank: FileInfo -> real) {
    forall d, x, y :: IsAppPath(x, d) && IsTokensPath(y, d) ==> rank(x) < rank(y)
  }

  /** Which of the two metadata files of a directory a diff lists. */
  datatype Listing = Listing(app: bool, tokens: bool)

  function ListingOf(infos: seq<FileInfo>, d: Dir): (l: Listing) {
    Listing(Names(infos, d, AppJson), Names(infos, d, NativeTokensJson))
  }

  /** The files of one directory that a diff lists, in processing order. */
  ghost predicate AppDiff(fs: seq<FileInfo>, d: Dir, before: Folder, after: Folder, listed: Listing) {
    |fs| == (if listed.app then 1 else 0) + (if listed.tokens then 1 else 0) &&
    (if listed.app then IsAppPath(fs[0], d) && StatusFits(fs[0].status, before.app, after.app)
     else before.app == after.app) &&
    (if listed.tokens then IsTokensPath(fs[|fs| - 1], d) && StatusFits(fs[|fs| - 1].status, before.tokens, after.tokens)
     else before.tokens == after.tokens)
  }

  // ----- When a directory ends as a rebuild would have it -----

  /** The `app.json` that token rows are made from: the downloaded one, or else the local one. */
  function SourceApp(local: Folder, after: Folder, listed: Listing): (app: Option<AppMeta>) {
    if listed.app && after.app.Some? then after.app else local.app
  }

  /** Every file that the processing of a directory reads is there. `before` is the folder whose
      rows the tables hold, `local` the folder on disk and `after` the remote one. */
  predicate Readable(before: Folder, local: Folder, after: Folder, listed: Listing) {
    (listed.app && before.app.Some? ==> local.app.Some?) &&
    (listed.tokens && before.tokens.Some? ==> local.app.Some? && local.tokens.Some?) &&
    (listed.tokens && after.tokens.Some? ==> SourceApp(local, after, listed).Some?)
  }

  function AppKeys(f: Folder): (keys: set<AppKey>) {
    if f.app.Some? then {AppKeyOf(f.app.value)} else {}
  }

  function TokenKeysOf(d: Dir, f: Folder): (keys: set<TokenKey>) {
    if f.app.Some? && f.tokens.Some? then TokenKeys(d, f.app.value, f.tokens.value.tokens) else {}
  }

  function Identity(app: Option<AppMeta>): (id: Option<(string, string)>) {
    if app.None? then None else Some((app.value.chainName, LowerCase(app.value.chainID)))
  }

  /** What a rebuild takes from a folder: nothing when its network is not supported. */
  function Visible(d: Dir, f: Folder, networks: set<string>): (v: Folder) {
    if d.network in networks then f else EMPTY
  }

  /** The guard on the application row, checkable on the files: a row that the local copy does
      not delete is overwritten, and no row is added on a network that is not supported. */
  predicate AppFits(d: Dir, networks: set<string>, before: Folder, local: Folder, after: Folder, listed: Listing) {
    listed.app ==>
      AppKeys(Visible(d, before, networks)) - AppKeys(local) <= AppKeys(Visible(d, after, networks)) &&
      (after.app.Some? ==> d.network in networks)
  }

  /** The guard on the token rows. They name their chain, so a list that is not processed needs
      an unchanged chain, and one that is processed needs to be given the right chain; and each
      old row is deleted by way of the local copies or overwritten. */
  predicate TokensFit(d: Dir, networks: set<string>, before: Folder, local: Folder, after: Folder, listed: Listing) {
    var old', new' := Visible(d, before, networks), Visible(d, after, networks);
    if !listed.tokens then
      old'.tokens.None? || old'.tokens.value.tokens == [] || Identity(old'.app) == Identity(new'.app)
    else
      TokenKeysOf(d, old') - TokenKeysOf(d, local) <= TokenKeysOf(d, new') &&
      (after.tokens.Some? ==>
         after.tokens.value.tokens == [] || Identity(SourceApp(local, after, listed)) == Identity(new'.app))
  }

  predicate Fits(d: Dir, networks: set<string>, before: Folder, local: Folder, after: Folder, listed: Listing) {
    Readable(before, local, after, listed) &&
    AppFits(d, networks, before, local, after, listed) &&
    TokensFit(d, networks, before, local, after, listed)
  }

  // ----- The diff of one directory -----

  lemma {:induction false} FilesOfOrdered(infos: seq<FileInfo>, d: Dir, rank: FileInfo -> real)
    requires Ordered(infos, rank) && forall i, j :: 0 <= i < j < |infos| ==> infos[i].path != infos[j].path
    ensures Ordered(FilesOf(infos, d), rank)
    ensures forall i, j :: 0 <= i < j < |FilesOf(infos, d)| ==> FilesOf(infos, d)[i].path != FilesOf(infos, d)[j].path
    decreases |infos|
  {
    if infos == [] {
    } else {
      var front, last := infos[..|infos| - 1], infos[|infos| - 1];
      FilesOfOrdered(front, d, rank);
      var r := FilesOf(front, d);
      forall i | 0 <= i < |r|
        ensures rank(r[i]) <= rank(last) && r[i].path != last.path
      {
        assert r[i] in r;
        assert r[i] in front;
        var k :| 0 <= k < |front| && front[k] == r[i];
        assert infos[k] == r[i];
      }
    }
  }

  lemma SortKeepsPathsDistinct(infos: seq<FileInfo>, sorted: seq<FileInfo>)
    requires multiset(sorted) == multiset(infos)
    requires forall i, j :: 0 <= i < j < |infos| ==> infos[i].path != infos[j].path
    ensures forall i, j :: 0 <= i < j < |sorted| ==> sorted[i].path != sorted[j].path
  {
    forall i, j | 0 <= i < j < |sorted|
      ensures sorted[i].path != sorted[j].path
    {
      SameElements(sorted, infos);
      assert sorted[i] in infos && sorted[j] in infos;
      if sorted[i] == sorted[j] {
        CountOnce(infos, sorted[i]);
        CountTwice(sorted, i, j);
      }
    }
  }

  lemma {:induction false} CountOnce(infos: seq<FileInfo>, x: FileInfo)
    requires forall i, j :: 0 <= i < j < |infos| ==> infos[i] != infos[j]
    ensures multiset(infos)[x] <= 1
    decreases |infos|
  {
    if infos == [] {
    } else {
      var front, last := infos[..|infos| - 1], infos[|infos| - 1];
      CountOnce(front, x);
      assert infos == front + [last];
      if last == x {
        assert x !in front;
      }
    }
  }

  lemma CountTwice(infos: seq<FileInfo>, i: nat, j: nat)
    requires i < j < |infos| && infos[i] == infos[j]
    ensures multiset(infos)[infos[i]] >= 2
  {
    assert infos == infos[..i] + [infos[i]] + infos[i + 1..j] + [infos[j]] + infos[j + 1..];
  }

  /** Sorting and grouping a diff yields, for each directory, `app.json` and then
      `nativetokens.json`, each exactly when it is listed. */
  lemma GroupIsAppDiff(infos: seq<FileInfo>, before: Files, after: Files, rank: FileInfo -> real, d: Dir)
    requires IsDiff(infos, before, after) && AppJsonFirst(rank)
    ensures AppDiff(FilesOf(SortBy(infos, rank), d), d, At(before, d), At(after, d), ListingOf(infos, d))
  {
    var sorted := SortBy(infos, rank);
    SortIsOrderedPermutation(infos, rank);
    SortKeepsPathsDistinct(infos, sorted);
    FilesOfOrdered(sorted, d, rank);
    var fs := FilesOf(sorted, d);
    forall i | 0 <= i < |fs|
      ensures fs[i] in infos && MetadataOf(fs[i], d) && EntryFits(fs[i], before, after)
    {
      assert fs[i] in fs;
    }
    ListedIffInGroup(infos, fs, d, AppJson);
    ListedIffInGroup(infos, fs, d, NativeTokensJson);
    GroupShape(fs, d, rank);
    AssembleAppDiff(fs, d, At(before, d), At(after, d), ListingOf(infos, d));
  }

  lemma AssembleAppDiff(fs: seq<FileInfo>, d: Dir, before: Folder, after: Folder, listed: Listing)
    requires |fs| <= 2 && forall i :: 0 <= i < |fs| ==> IsAppPath(fs[i], d) || IsTokensPath(fs[i], d)
    requires |fs| == 2 ==> IsAppPath(fs[0], d) && IsTokensPath(fs[1], d)
    requires forall i :: 0 <= i < |fs| && IsAppPath(fs[i], d) ==> StatusFits(fs[i].status, before.app, after.app)
    requires forall i :: 0 <= i < |fs| && IsTokensPath(fs[i], d) ==>
               StatusFits(fs[i].status, before.tokens, after.tokens)
    requires listed.app <==> exists i :: 0 <= i < |fs| && IsAppPath(fs[i], d)
    requires listed.tokens <==> exists i :: 0 <= i < |fs| && IsTokensPath(fs[i], d)
    requires !listed.app ==> before.app == after.app
    requires !listed.tokens ==> before.tokens == after.tokens
    ensures AppDiff(fs, d, before, after, listed)
  {
    if |fs| >= 1 {
      assert IsAppPath(fs[0], d) || IsTokensPath(fs[0], d);
    }
  }

  predicate IsAppPath(x: FileInfo, d: Dir) {
    x.path == AppFile(d, Metadata(AppJson))
  }

  predicate IsTokensPath(x: FileInfo, d: Dir) {
    x.path == AppFile(d, Metadata(NativeTokensJson))
  }

  lemma ListedIffInGroup(infos: seq<FileInfo>, fs: seq<FileInfo>, d: Dir, file: MetadataFile)
    requires forall x :: x in infos && MetadataOf(x, d) <==> x in fs
    ensures Names(infos, d, file) <==>
            exists i :: 0 <= i < |fs| && if file.AppJson? then IsAppPath(fs[i], d) else IsTokensPath(fs[i], d)
  {
    if Names(infos, d, file) {
      var x :| x in infos && x.path == AppFile(d, Metadata(file));
      assert MetadataOf(x, d);
    }
    if i :| 0 <= i < |fs| && if file.AppJson? then IsAppPath(fs[i], d) else IsTokensPath(fs[i], d) {
      assert fs[i] in fs;
    }
  }

  /** Distinct, ordered files of one directory: at most `app.json` and then `nativetokens.json`. */
  lemma GroupShape(fs: seq<FileInfo>, d: Dir, rank: FileInfo -> real)
    requires AllMetadataOf(fs, d) && Ordered(fs, rank) && AppJsonFirst(rank)
    requires forall i, j :: 0 <= i < j < |fs| ==> fs[i].path != fs[j].path
    ensures |fs| <= 2 && forall i :: 0 <= i < |fs| ==> IsAppPath(fs[i], d) || IsTokensPath(fs[i], d)
    ensures |fs| == 2 ==> IsAppPath(fs[0], d) && IsTokensPath(fs[1], d)
  {
    assert |fs| > 2 ==> fs[0].path != fs[2].path && fs[1].path != fs[2].path;
    forall i | 0 <= i < |fs|
      ensures IsAppPath(fs[i], d) || IsTokensPath(fs[i], d)
    {
      match fs[i].path.name.file
      case AppJson =>
      case NativeTokensJson =>
    }
    if |fs| >= 2 {
      assert fs[0].path != fs[1].path && rank(fs[0]) <= rank(fs[1]);
    }
  }

  // ----- One directory -----

  lemma TokenRowsEmptyIff(d: Dir, meta: AppMeta, tokens: seq<Token>)
    ensures TokenRows(d, meta, tokens) == map[] <==> tokens == []
  {
    if tokens != [] {
      assert TokenKeyOf(d, meta, tokens[0]) in TokenKeys(d, meta, tokens);
    }
  }

  lemma TokenRowsIdentity(d: Dir, a: AppMeta, b: AppMeta, tokens: seq<Token>)
    ensures TokenRows(d, a, tokens) == TokenRows(d, b, tokens) <==>
            tokens == [] || Identity(Some(a)) == Identity(Some(b))
  {
    if Identity(Some(a)) == Identity(Some(b)) {
      SameIdentitySameRows(d, a, b, tokens);
    } else if tokens != [] {
      var k := TokenKeyOf(d, a, tokens[0]);
      assert k in TokenKeys(d, a, tokens);
      assert a.chainName != b.chainName ==> k !in TokenKeys(d, b, tokens);
      assert k in TokenRows(d, a, tokens) && TokenRows(d, a, tokens)[k].chainID == LowerCase(a.chainID);
    }
  }

  lemma {:induction false} SameIdentitySameRows(d: Dir, a: AppMeta, b: AppMeta, tokens: seq<Token>)
    requires Identity(Some(a)) == Identity(Some(b))
    ensures TokenRows(d, a, tokens) == TokenRows(d, b, tokens)
    decreases |tokens|
  {
    if tokens == [] {
    } else {
      SameIdentitySameRows(d, a, b, tokens[..|tokens| - 1]);
    }
  }

  /** The application rows after the `app.json` entry, if there is one. */
  function AppsAfter(d: Dir, apps: AppTable, before: Folder, local: Folder, after: Folder, listed: Listing,
                     defaultApps: set<string>): (r: AppTable)
    requires Readable(before, local, after, listed)
  {
    if !listed.app then apps
    else
      var kept := if before.app.Some? then apps - {AppKeyOf(local.app.value)} else apps;
      if after.app.Some? then kept + AppRows(d, after.app.value, defaultApps) else kept
  }

  /** The token rows after the `nativetokens.json` entry, if there is one. */
  function TokensAfter(d: Dir, tokens: TokenTable, before: Folder, local: Folder, after: Folder, listed: Listing)
    : (r: TokenTable)
    requires Readable(before, local, after, listed)
  {
    if !listed.tokens then tokens
    else
      var kept :=
        if before.tokens.Some? then tokens - TokenKeys(d, local.app.value, local.tokens.value.tokens) else tokens;
      if after.tokens.None? then kept
      else kept + TokenRows(d, SourceApp(local, after, listed).value, after.tokens.value.tokens)
  }

  /** What the processing of one directory makes of any tables: it succeeds exactly when the
      files it reads are there. */
  lemma ProcessAppResult(t: Tables, d: Dir, fs: seq<FileInfo>, before: Folder, local: Folder, after: Folder,
                         listed: Listing, defaultApps: set<string>)
    requires AllMetadataOf(fs, d) && AppDiff(fs, d, before, after, listed)
    ensures var r := ProcessApp(t, d, fs, local, after, EMPTY, defaultApps);
            (r.Ok? <==> Readable(before, local, after, listed)) &&
            (r.Ok? ==> r.value == Tables(AppsAfter(d, t.apps, before, local, after, listed, defaultApps),
                                         TokensAfter(d, t.tokens, before, local, after, listed)))
  {
    if !listed.app {
      TokensStepResult(t, d, fs, before, local, after, listed, EMPTY, defaultApps);
    } else if !before.app.Some? || local.app.Some? {
      var apps := AppsAfter(d, t.apps, before, local, after, Listing(true, false), defaultApps);
      AppStepResult(t, d, fs, before, local, after, listed, defaultApps);
      TokensStepResult(Tables(apps, t.tokens), d, fs[1..], before, local, after, listed, Folder(after.app, None),
                       defaultApps);
    }
  }

  /** The `app.json` entry changes the application rows and goes on with the token entry. */
  lemma AppStepResult(t: Tables, d: Dir, fs: seq<FileInfo>, before: Folder, local: Folder, after: Folder,
                      listed: Listing, defaultApps: set<string>)
    requires AllMetadataOf(fs, d) && AppDiff(fs, d, before, after, listed)
    requires listed.app && (before.app.Some? ==> local.app.Some?)
    ensures ProcessApp(t, d, fs, local, after, EMPTY, defaultApps) ==
            ProcessApp(Tables(AppsAfter(d, t.apps, before, local, after, Listing(true, false), defaultApps), t.tokens),
                       d, fs[1..], local, after, Folder(after.app, None), defaultApps)
  {
    var deleted := if before.app.Some? then t.(apps := t.apps - {AppKeyOf(local.app.value)}) else t;
    assert deleted.tokens + map[] == t.tokens;
  }

  /** The `nativetokens.json` entry, if there is one, changes the token rows. */
  lemma TokensStepResult(t: Tables, d: Dir, fs: seq<FileInfo>, before: Folder, local: Folder, after: Folder,
                         listed: Listing, downloaded: Folder, defaultApps: set<string>)
    requires AllMetadataOf(fs, d) && downloaded == Folder(if listed.app then after.app else None, None)
    requires listed.app && before.app.Some? ==> local.app.Some?
    requires if !listed.tokens then fs == [] && before.tokens == after.tokens
             else |fs| == 1 && IsTokensPath(fs[0], d) && StatusFits(fs[0].status, before.tokens, after.tokens)
    ensures var r := ProcessApp(t, d, fs, local, after, downloaded, defaultApps);
            (r.Ok? <==> Readable(before, local, after, listed)) &&
            (r.Ok? ==> r.value == Tables(t.apps, TokensAfter(d, t.tokens, before, local, after, listed)))
  {
    if listed.tokens {
      assert fs[1..] == [];
      assert t.apps + map[] == t.apps;
    }
  }

  lemma AppsExactIff(d: Dir, networks: set<string>, before: Folder, local: Folder, after: Folder, listed: Listing,
                     defaultApps: set<string>)
    requires Readable(before, local, after, listed) && (!listed.app ==> before.app == after.app)
    requires listed.app && before.app.None? ==> after.app.Some?
    ensures AppsAfter(d, Contribution(d, Visible(d, before, networks), defaultApps).apps, before, local, after, listed,
                      defaultApps)
            == Contribution(d, Visible(d, after, networks), defaultApps).apps
            <==> AppFits(d, networks, before, local, after, listed)
  {
    var apps := Contribution(d, Visible(d, before, networks), defaultApps).apps;
    var goal := Contribution(d, Visible(d, after, networks), defaultApps).apps;
    assert apps.Keys == AppKeys(Visible(d, before, networks)) && goal.Keys == AppKeys(Visible(d, after, networks));
    if listed.app {
      var kept := if before.app.Some? then apps - {AppKeyOf(local.app.value)} else apps;
      assert kept.Keys == AppKeys(Visible(d, before, networks)) - AppKeys(local);
      if after.app.Some? {
        var rows := AppRows(d, after.app.value, defaultApps);
        assert AppKeyOf(after.app.value) in rows;
        OverwriteIff(kept, rows, goal);
      } else {
        EmptyIffNoKeys(kept);
      }
    }
  }

  lemma OverwriteIff<K, V>(kept: map<K, V>, rows: map<K, V>, goal: map<K, V>)
    requires goal == rows || goal == map[]
    ensures kept + rows == goal <==> rows == goal && kept.Keys <= goal.Keys
  {
    assert (kept + rows).Keys == kept.Keys + rows.Keys;
    if rows == goal && kept.Keys <= goal.Keys {
      assert kept + rows == rows;
    }
    if kept + rows == goal && goal == map[] {
      EmptyIffNoKeys(rows);
    }
  }

  lemma EmptyIffNoKeys<K, V>(m: map<K, V>)
    ensures m == map[] <==> m.Keys == {}
  {
    if m.Keys == {} {
      assert forall k :: k in m ==> k in m.Keys;
    }
  }

  lemma TokensExactIff(d: Dir, networks: set<string>, before: Folder, local: Folder, after: Folder, listed: Listing)
    requires Readable(before, local, after, listed) && (!listed.tokens ==> before.tokens == after.tokens)
    ensures TokensAfter(d, Contribution(d, Visible(d, before, networks), {}).tokens, before, local, after, listed)
            == Contribution(d, Visible(d, after, networks), {}).tokens
            <==> TokensFit(d, networks, before, local, after, listed)
  {
    var old', new' := Visible(d, before, networks), Visible(d, after, networks);
    var tokens, goal := Contribution(d, old', {}).tokens, Contribution(d, new', {}).tokens;
    assert tokens.Keys == TokenKeysOf(d, old') && goal.Keys == TokenKeysOf(d, new');
    if !listed.tokens {
      SameTokensIff(d, old', new');
    } else {
      var kept :=
        if before.tokens.Some? then tokens - TokenKeys(d, local.app.value, local.tokens.value.tokens) else tokens;
      assert kept.Keys == TokenKeysOf(d, old') - TokenKeysOf(d, local);
      if after.tokens.None? {
        EmptyIffNoKeys(kept);
      } else {
        ListedTokensIff(d, kept, SourceApp(local, after, listed).value, new'.app, after.tokens.value.tokens);
      }
    }
  }

  /** A token list that is not processed keeps the right rows exactly when its chain is the same. */
  lemma SameTokensIff(d: Dir, f: Folder, g: Folder)
    requires f.tokens == g.tokens
    ensures Contribution(d, f, {}).tokens == Contribution(d, g, {}).tokens <==>
            f.tokens.None? || f.tokens.value.tokens == [] || Identity(f.app) == Identity(g.app)
  {
    if f.tokens.Some? {
      var tokens := f.tokens.value.tokens;
      if f.app.Some? { TokenRowsEmptyIff(d, f.app.value, tokens); }
      if g.app.Some? { TokenRowsEmptyIff(d, g.app.value, tokens); }
      if f.app.Some? && g.app.Some? { TokenRowsIdentity(d, f.app.value, g.app.value, tokens); }
    }
  }

  /** A processed token list ends with the right rows exactly when it was given the right chain and
      no other row is left over. */
  lemma ListedTokensIff(d: Dir, kept: TokenTable, source: AppMeta, app: Option<AppMeta>, tokens: seq<Token>)
    ensures var goal := if app.Some? then TokenRows(d, app.value, tokens) else map[];
            kept + TokenRows(d, source, tokens) == goal <==>
            kept.Keys <= goal.Keys && (tokens == [] || Identity(Some(source)) == Identity(app))
  {
    var rows, goal := TokenRows(d, source, tokens), if app.Some? then TokenRows(d, app.value, tokens) else map[];
    if tokens == [] {
      EmptyIffNoKeys(kept);
      assert kept + rows == kept;
    } else {
      var k := TokenKeyOf(d, source, tokens[0]);
      assert k in TokenKeys(d, source, tokens);
      if kept + rows == goal {
        RowsInside(kept, rows, goal);
        assert k in goal && goal[k] == rows[k];
      } else if app.Some? && Identity(Some(source)) == Identity(app) {
        SameIdentitySameRows(d, source, app.value, tokens);
        OverwriteIff(kept, rows, goal);
      }
    }
  }

  lemma RowsInside<K, V>(kept: map<K, V>, rows: map<K, V>, goal: map<K, V>)
    requires kept + rows == goal
    ensures forall k :: k in rows ==> k in goal && goal[k] == rows[k]
    ensures kept.Keys <= goal.Keys
  {
    assert (kept + rows).Keys == kept.Keys + rows.Keys;
  }

  /** One directory ends with what a rebuild would take from it if and only if its change fits. */
  lemma AppExact(d: Dir, fs: seq<FileInfo>, networks: set<string>, before: Folder, local: Folder, after: Folder,
                 listed: Listing, defaultApps: set<string>)
    requires AllMetadataOf(fs, d) && AppDiff(fs, d, before, after, listed)
    ensures var r := ProcessApp(Contribution(d, Visible(d, before, networks), defaultApps), d, fs, local, after, EMPTY,
                                defaultApps);
            (r.Ok? <==> Readable(before, local, after, listed)) &&
            (r == Ok(Contribution(d, Visible(d, after, networks), defaultApps)) <==>
             Fits(d, networks, before, local, after, listed))
  {
    ProcessAppResult(Contribution(d, Visible(d, before, networks), defaultApps), d, fs, before, local, after, listed,
                     defaultApps);
    if Readable(before, local, after, listed) {
      AppsExactIff(d, networks, before, local, after, listed, defaultApps);
      TokensExactIff(d, networks, before, local, after, listed);
    }
  }

  /** When the local copies are the ones the tables hold, the guard is a simple one: a chain that
      changes needs its tokens listed, a token list needs a chain, and an unsupported network is
      left alone. An empty token list is exempt. */
  lemma FreshFitsIff(d: Dir, networks: set<string>, before: Folder, after: Folder, listed: Listing)
    requires !listed.app ==> before.app == after.app
    requires !listed.tokens ==> before.tokens == after.tokens
    requires d.network in networks && (listed.tokens ==> before.tokens.Some? || after.tokens.Some?)
    ensures Fits(d, networks, before, before, after, listed) <==>
            if !listed.tokens then
              before.tokens.None? || before.tokens.value.tokens == [] || Identity(before.app) == Identity(after.app)
            else
              (before.tokens.Some? ==> before.app.Some?) &&
              (after.tokens.Some? ==> after.app.Some? || (before.app.Some? && after.tokens.value.tokens == []))
  {
  }

  // ----- All directories -----

  /** Processing one app acts on that app's part of the tables alone. */
  lemma {:induction false} ProcessAppIsLocal(t: Tables, d: Dir, fs: seq<FileInfo>, local: Folder, remote: Folder,
      downloaded: Folder, defaultApps: set<string>, owner: (string, string) -> Dir, e: Dir)
    requires AllMetadataOf(fs, d)
    requires Owns(d, local, owner) && Owns(d, remote, owner) && Owns(d, downloaded, owner)
    ensures var r := ProcessApp(t, d, fs, local, remote, downloaded, defaultApps);
            var p := ProcessApp(Part(t, d, owner), d, fs, local, remote, downloaded, defaultApps);
            r.Ok? == p.Ok? && (r.Ok? ==> Part(r.value, e, owner) == if e == d then p.value else Part(t, e, owner))
    decreases |fs|
  {
    if fs == [] {
    } else {
      var file, status := fs[0].path.name.file, fs[0].status;
      var q := Part(t, d, owner);
      DeleteIsLocal(t, d, file, local, owner, d);
      DeleteIsLocal(t, d, file, local, owner, e);
      var deleted := if status.Updated() then DeleteFromFile(t, d, file, local) else Ok(t);
      if deleted.Ok? {
        if status.Removed? {
          ProcessAppIsLocal(deleted.value, d, fs[1..], local, remote, downloaded, defaultApps, owner, e);
        } else if FileIn(remote, file) {
          var temp := CopyFile(downloaded, file, remote);
          IndexIsLocal(deleted.value, d, file, temp, local, defaultApps, owner, d);
          IndexIsLocal(deleted.value, d, file, temp, local, defaultApps, owner, e);
          var indexed := IndexFromFile(deleted.value, d, file, temp, local, defaultApps);
          if indexed.Ok? {
            ProcessAppIsLocal(indexed.value, d, fs[1..], local, remote, temp, defaultApps, owner, e);
          }
        }
      }
    }
  }

  /** The result of one app on its own part of the tables. */
  ghost function AppResult(t: Tables, d: Dir, sorted: seq<FileInfo>, local: Files, remote: Files,
                           defaultApps: set<string>, owner: (string, string) -> Dir): (r: Result<Tables>) {
    ProcessApp(Part(t, d, owner), d, FilesOf(sorted, d), At(local, d), At(remote, d), EMPTY, defaultApps)
  }

  ghost function OwnResult(sorted: seq<FileInfo>, local: Files, remote: Files, defaultApps: set<string>,
                           owner: (string, string) -> Dir): (own: (Tables, Dir) -> Result<Tables>) {
    (t, d) => AppResult(t, d, sorted, local, remote, defaultApps, owner)
  }

  /** `r` is what all apps of `order` make of `t`, when each makes `own` of its own part. */
  ghost predicate PartsDone(own: (Tables, Dir) -> Result<Tables>, owner: (string, string) -> Dir, t: Tables,
                            order: seq<Dir>, r: Result<Tables>) {
    (r.Ok? <==> forall d :: d in order ==> own(t, d).Ok?) &&
    (r.Ok? ==> forall d :: Part(r.value, d, owner) == if d in order then own(t, d).value else Part(t, d, owner))
  }

  lemma PartsStep(own: (Tables, Dir) -> Result<Tables>, owner: (string, string) -> Dir, t: Tables,
                  first: Result<Tables>, order: seq<Dir>, r: Result<Tables>)
    requires order != [] && order[0] !in order[1..]
    requires forall u, d :: Part(u, d, owner) == Part(t, d, owner) ==> own(u, d) == own(t, d)
    requires first.Ok? <==> own(t, order[0]).Ok?
    requires first.Ok? ==> forall e ::
                 Part(first.value, e, owner) == if e == order[0] then own(t, order[0]).value else Part(t, e, owner)
    requires if first.Ok? then PartsDone(own, owner, first.value, order[1..], r) else r.Err?
    ensures PartsDone(own, owner, t, order, r)
  {
    assert forall e :: e in order <==> e == order[0] || e in order[1..];
    if first.Ok? {
      assert forall e :: e in order[1..] ==> own(first.value, e) == own(t, e);
    }
  }

  /** Whatever the order, all apps succeed exactly when each one does on its own part, and
      then each directory's part holds that app's own result. */
  lemma {:induction false} ProcessAllParts(t: Tables, order: seq<Dir>, sorted: seq<FileInfo>, local: Files,
                                           remote: Files, defaultApps: set<string>, owner: (string, string) -> Dir)
    requires forall i, j :: 0 <= i < j < |order| ==> order[i] != order[j]
    requires forall d :: Owns(d, At(local, d), owner) && Owns(d, At(remote, d), owner)
    ensures PartsDone(OwnResult(sorted, local, remote, defaultApps, owner), owner, t, order,
                      ProcessAll(t, order, sorted, local, remote, defaultApps))
    decreases |order|
  {
    var own := OwnResult(sorted, local, remote, defaultApps, owner);
    if order == [] {
    } else {
      var d := order[0];
      assert Owns(d, At(local, d), owner) && Owns(d, At(remote, d), owner);
      var first := ProcessApp(t, d, FilesOf(sorted, d), At(local, d), At(remote, d), EMPTY, defaultApps);
      forall e
        ensures first.Ok? == own(t, d).Ok?
        ensures first.Ok? ==> Part(first.value, e, owner) == if e == d then own(t, d).value else Part(t, e, owner)
      {
        ProcessAppIsLocal(t, d, FilesOf(sorted, d), At(local, d), At(remote, d), EMPTY, defaultApps, owner, e);
      }
      if first.Ok? {
        ProcessAllParts(first.value, order[1..], sorted, local, remote, defaultApps, owner);
      }
      PartsStep(own, owner, t, first, order, ProcessAll(t, order, sorted, local, remote, defaultApps));
    }
  }

  // ----- The law -----

  /** A chain name that `d` carries in one of the repository states of a sync: the one the tables
      hold, the local copies, and the new one. */
  predicate HasName(repos: seq<Files>, d: Dir, name: string) {
    exists i :: 0 <= i < |repos| && At(repos[i], d).app.Some? && At(repos[i], d).app.value.chainName == name
  }

  /** No two directories of a network carry the same chain name in these states. */
  ghost predicate NamesDistinct(repos: seq<Files>) {
    forall d, e, name :: HasName(repos, d, name) && HasName(repos, e, name) && d.network == e.network ==> d == e
  }

  /** Each `app.json` names the network of its directory. */
  ghost predicate NetworksMatch(repos: seq<Files>) {
    forall i, d :: 0 <= i < |repos| && At(repos[i], d).app.Some? ==>
      At(repos[i], d).app.value.networkType == d.network
  }

  ghost function OwnerOf(repos: seq<Files>, network: string, name: string): (d: Dir) {
    if exists d: Dir :: d.network == network && HasName(repos, d, name)
    then var d: Dir :| d.network == network && HasName(repos, d, name); d
    else Dir("", "")
  }

  lemma OwnersAgree(repos: seq<Files>, owner: (string, string) -> Dir)
    requires NamesDistinct(repos) && NetworksMatch(repos)
    requires forall n, c :: owner(n, c) == OwnerOf(repos, n, c)
    ensures forall i, d :: 0 <= i < |repos| ==> Owns(d, At(repos[i], d), owner)
  {
    forall i, d | 0 <= i < |repos| && At(repos[i], d).app.Some?
      ensures Owns(d, At(repos[i], d), owner)
    {
      var name := At(repos[i], d).app.value.chainName;
      assert HasName(repos, d, name);
      assert OwnerOf(repos, d.network, name) == d;
    }
  }

  /** A rebuild visits the directories of the supported networks that hold a metadata file. */
  ghost predicate Visits(dirs: seq<Dir>, files: Files, networks: set<string>) {
    (forall d: Dir :: d in dirs ==> d.network in networks) &&
    (forall d: Dir :: d.network in networks && At(files, d) != EMPTY ==> d in dirs)
  }

  lemma RebuiltParts(dirs: seq<Dir>, files: Files, networks: set<string>, defaultApps: set<string>,
                     owner: (string, string) -> Dir, d: Dir)
    requires Visits(dirs, files, networks) && forall e :: Owns(e, At(files, e), owner)
    ensures Part(Rebuild(dirs, files, defaultApps), d, owner)
         == Contribution(d, Visible(d, At(files, d), networks), defaultApps)
  {
    RebuildParts(dirs, files, defaultApps, owner, d);
  }

  lemma NamedIsGrouped(infos: seq<FileInfo>, order: seq<Dir>, d: Dir, file: MetadataFile)
    requires Groups(order, infos)
    ensures Names(infos, d, file) ==> d in order
  {
    if Names(infos, d, file) {
      var x :| x in infos && x.path == AppFile(d, Metadata(file));
      assert MetadataOf(x, d);
    }
  }

  lemma UnlistedIsUnchanged(infos: seq<FileInfo>, before: Files, after: Files, order: seq<Dir>, d: Dir)
    requires IsDiff(infos, before, after) && Groups(order, infos) && d !in order
    ensures ListingOf(infos, d) == Listing(false, false) && At(before, d) == At(after, d)
  {
    NamedIsGrouped(infos, order, d, AppJson);
    NamedIsGrouped(infos, order, d, NativeTokensJson);
  }

  /** The setting of one sync: the tables hold `synced`, the disk holds `local`, and the diff leads
      from `synced` to `after`. */
  ghost predicate Setting(synced: Files, local: Files, after: Files, infos: seq<FileInfo>, order: seq<Dir>) {
    NamesDistinct([synced, local, after]) && NetworksMatch([synced, local, after]) &&
    IsDiff(infos, synced, after) && Groups(order, infos)
  }

  predicate ReadableAt(synced: Files, local: Files, after: Files, infos: seq<FileInfo>, d: Dir) {
    Readable(At(synced, d), At(local, d), At(after, d), ListingOf(infos, d))
  }

  predicate FitsAt(synced: Files, local: Files, after: Files, infos: seq<FileInfo>, networks: set<string>, d: Dir) {
    Fits(d, networks, At(synced, d), At(local, d), At(after, d), ListingOf(infos, d))
  }

  ghost predicate AllReadable(synced: Files, local: Files, after: Files, infos: seq<FileInfo>) {
    forall d :: ReadableAt(synced, local, after, infos, d)
  }

  ghost predicate AllFit(synced: Files, local: Files, after: Files, infos: seq<FileInfo>, networks: set<string>) {
    forall d :: FitsAt(synced, local, after, infos, networks, d)
  }

  /** What all apps make of `t` is `t'` exactly when each directory's part ends as in `t'`. */
  lemma PartsConclude(own: (Tables, Dir) -> Result<Tables>, owner: (string, string) -> Dir, t: Tables, t': Tables,
                      order: seq<Dir>, r: Result<Tables>, readable: Dir -> bool, fits: Dir -> bool)
    requires PartsDone(own, owner, t, order, r)
    requires forall d :: d in order ==> (own(t, d).Ok? <==> readable(d))
    requires forall d :: d in order ==> (own(t, d) == Ok(Part(t', d, owner)) <==> fits(d))
    requires forall d :: d !in order ==> readable(d) && fits(d) && Part(t, d, owner) == Part(t', d, owner)
    ensures r.Ok? <==> forall d :: readable(d)
    ensures r == Ok(t') <==> forall d :: fits(d)
  {
    if forall d :: fits(d) {
      assert forall d :: d in order ==> own(t, d) == Ok(Part(t', d, owner));
      PartsDetermine(r.value, t', owner);
    }
    if r == Ok(t') {
      assert forall d :: d in order ==> own(t, d).Ok? && own(t, d).value == Part(t', d, owner);
    }
  }

  /** The part of `d` goes from `t` to what it is in `t'` exactly when the change of `d` fits. */
  ghost predicate DirectoryAgrees(synced: Files, local: Files, after: Files, networks: set<string>, t: Tables,
                                  t': Tables, infos: seq<FileInfo>, sorted: seq<FileInfo>, order: seq<Dir>,
                                  defaultApps: set<string>, owner: (string, string) -> Dir, d: Dir) {
    if d in order then
      var r := AppResult(t, d, sorted, local, after, defaultApps, owner);
      (r.Ok? <==> ReadableAt(synced, local, after, infos, d)) &&
      (r == Ok(Part(t', d, owner)) <==> FitsAt(synced, local, after, infos, networks, d))
    else
      ReadableAt(synced, local, after, infos, d) && FitsAt(synced, local, after, infos, networks, d) &&
      Part(t, d, owner) == Part(t', d, owner)
  }

  lemma DirectoryLaw(synced: Files, local: Files, after: Files, networks: set<string>, dirs: seq<Dir>, dirs': seq<Dir>,
                     infos: seq<FileInfo>, rank: FileInfo -> real, order: seq<Dir>, defaultApps: set<string>,
                     owner: (string, string) -> Dir, d: Dir)
    requires IsDiff(infos, synced, after) && Groups(order, infos) && AppJsonFirst(rank)
    requires Visits(dirs, synced, networks) && Visits(dirs', after, networks)
    requires forall e :: Owns(e, At(synced, e), owner) && Owns(e, At(after, e), owner)
    ensures DirectoryAgrees(synced, local, after, networks, Rebuild(dirs, synced, defaultApps),
                            Rebuild(dirs', after, defaultApps), infos, SortBy(infos, rank), order, defaultApps,
                            owner, d)
  {
    RebuiltParts(dirs, synced, networks, defaultApps, owner, d);
    RebuiltParts(dirs', after, networks, defaultApps, owner, d);
    if d in order {
      GroupIsAppDiff(infos, synced, after, rank, d);
      AppExact(d, FilesOf(SortBy(infos, rank), d), networks, At(synced, d), At(local, d), At(after, d),
               ListingOf(infos, d), defaultApps);
    } else {
      UnlistedIsUnchanged(infos, synced, after, order, d);
    }
  }

  /** Incremental equals rebuild, exactly. From the index of one repository state, whatever the
      local copies, a sync by the diff to another state succeeds if and only if it finds the files
      it reads, and gives the index of the new state if and only if every directory's change
      fits. The order of the apps does not matter. */
  lemma SyncEqualsRebuildIff(synced: Files, local: Files, after: Files, networks: set<string>, dirs: seq<Dir>,
                             dirs': seq<Dir>, infos: seq<FileInfo>, rank: FileInfo -> real, order: seq<Dir>,
                             defaultApps: set<string>)
    requires Setting(synced, local, after, infos, order) && AppJsonFirst(rank)
    requires Visits(dirs, synced, networks) && Visits(dirs', after, networks)
    ensures var t := Rebuild(dirs, synced, defaultApps);
            var r := ProcessAll(t, order, SortBy(infos, rank), local, after, defaultApps);
            (r.Ok? <==> AllReadable(synced, local, after, infos)) &&
            (r == Ok(Rebuild(dirs', after, defaultApps)) <==> AllFit(synced, local, after, infos, networks))
  {
    var repos := [synced, local, after];
    var owner := (n: string, c: string) => OwnerOf(repos, n, c);
    OwnersAgree(repos, owner);
    assert repos[0] == synced && repos[1] == local && repos[2] == after;
    var t, t' := Rebuild(dirs, synced, defaultApps), Rebuild(dirs', after, defaultApps);
    var sorted := SortBy(infos, rank);
    ProcessAllParts(t, order, sorted, local, after, defaultApps, owner);
    forall d
      ensures DirectoryAgrees(synced, local, after, networks, t, t', infos, sorted, order, defaultApps, owner, d)
    {
      DirectoryLaw(synced, local, after, networks, dirs, dirs', infos, rank, order, defaultApps, owner, d);
    }
    DirectoriesConclude(synced, local, after, networks, t, t', infos, sorted, order, defaultApps, owner);
  }

  lemma DirectoriesConclude(synced: Files, local: Files, after: Files, networks: set<string>, t: Tables, t': Tables,
                            infos: seq<FileInfo>, sorted: seq<FileInfo>, order: seq<Dir>, defaultApps: set<string>,
                            owner: (string, string) -> Dir)
    requires PartsDone(OwnResult(sorted, local, after, defaultApps, owner), owner, t, order,
                       ProcessAll(t, order, sorted, local, after, defaultApps))
    requires forall d ::
               DirectoryAgrees(synced, local, after, networks, t, t', infos, sorted, order, defaultApps, owner, d)
    ensures var r := ProcessAll(t, order, sorted, local, after, defaultApps);
            (r.Ok? <==> AllReadable(synced, local, after, infos)) &&
            (r == Ok(t') <==> AllFit(synced, local, after, infos, networks))
  {
    var own := OwnResult(sorted, local, after, defaultApps, owner);
    var readable := d => ReadableAt(synced, local, after, infos, d);
    var fits := d => FitsAt(synced, local, after, infos, networks, d);
    forall d
      ensures d in order ==> (own(t, d).Ok? <==> readable(d)) && (own(t, d) == Ok(Part(t', d, owner)) <==> fits(d))
      ensures d !in order ==> readable(d) && fits(d) && Part(t, d, owner) == Part(t', d, owner)
    {
      assert DirectoryAgrees(synced, local, after, networks, t, t', infos, sorted, order, defaultApps, owner, d);
    }
    PartsConclude(own, owner, t, t', order, ProcessAll(t, order, sorted, local, after, defaultApps), readable, fits);
    assert forall d :: ReadableAt(synced, local, after, infos, d) == readable(d);
    assert forall d :: FitsAt(synced, local, after, infos, networks, d) == fits(d);
  }

  /** When the local copies are up to date, the deferred removals and moves bring them to the new
      repository state. */
  lemma FilesFollow(infos: seq<FileInfo>, before: Files, after: Files, d: Dir)
    requires IsDiff(infos, before, after)
    ensures FolderAfter(infos, d, At(before, d), At(after, d)) == At(after, d)
  {
    forall file, removed | Lists(infos, d, file, removed)
      ensures match file
              case AppJson => removed == At(after, d).app.None?
              case NativeTokensJson => removed == At(after, d).tokens.None?
    {
      var x :| x in infos && x.path == AppFile(d, Metadata(file)) && x.status.Removed? == removed;
      assert EntryFits(x, before, after);
    }
    forall file | Names(infos, d, file)
      ensures Lists(infos, d, file, true) || Lists(infos, d, file, false)
    {
      var x :| x in infos && x.path == AppFile(d, Metadata(file));
      assert Lists(infos, d, file, x.status.Removed?);
    }
  }

  // ----- Over all runs -----

  /** The durable state: the tables, the repository state the stored hash names, and the disk. */
  datatype State = State(tables: Tables, synced: Files, local: Files)

  /** A sync attempt: it aborts before the commit, or it commits the diff to `after` and leaves the
      disk as `landed`. Not every file needs to have been removed or moved by then. */
  datatype Attempt = Abort | Sync(after: Files, infos: seq<FileInfo>, order: seq<Dir>, landed: Files)

  function Next(s: State, attempt: Attempt, rank: FileInfo -> real, defaultApps: set<string>): (s': State) {
    match attempt
    case Abort => s
    case Sync(after, infos, order, landed) =>
      var r := ProcessAll(s.tables, order, SortBy(infos, rank), s.local, after, defaultApps);
      if r.Err? then s else State(r.value, after, landed)
  }

  ghost predicate Possible(s: State, attempt: Attempt, networks: set<string>, dirs: seq<Dir>) {
    attempt.Sync? ==>
      Setting(s.synced, s.local, attempt.after, attempt.infos, attempt.order) &&
      Visits(dirs, attempt.after, networks) &&
      forall d :: Landed(attempt.infos, d, At(s.local, d), At(attempt.after, d), At(attempt.landed, d))
  }

  /** The guard of an attempt, on the files alone: it aborts, finds a file missing, or fits. */
  ghost predicate Guarded(s: State, attempt: Attempt, networks: set<string>) {
    attempt.Sync? && AllReadable(s.synced, s.local, attempt.after, attempt.infos) ==>
      AllFit(s.synced, s.local, attempt.after, attempt.infos, networks)
  }

  /** The law: the tables are the index of the repository state that the stored hash names. */
  ghost predicate Current(s: State, dirs: seq<Dir>, defaultApps: set<string>) {
    s.tables == Rebuild(dirs, s.synced, defaultApps)
  }

  ghost predicate AllPossible(s: State, attempts: seq<Attempt>, networks: set<string>, dirs: seq<Dir>,
                              rank: FileInfo -> real, defaultApps: set<string>)
    decreases |attempts|
  {
    attempts != [] ==>
      Possible(s, attempts[0], networks, dirs) &&
      AllPossible(Next(s, attempts[0], rank, defaultApps), attempts[1..], networks, dirs, rank, defaultApps)
  }

  ghost predicate AlwaysCurrent(s: State, attempts: seq<Attempt>, dirs: seq<Dir>, rank: FileInfo -> real,
                                defaultApps: set<string>)
    decreases |attempts|
  {
    Current(s, dirs, defaultApps) &&
    (attempts != [] ==>
       AlwaysCurrent(Next(s, attempts[0], rank, defaultApps), attempts[1..], dirs, rank, defaultApps))
  }

  ghost predicate AlwaysGuarded(s: State, attempts: seq<Attempt>, networks: set<string>, rank: FileInfo -> real,
                                defaultApps: set<string>)
    decreases |attempts|
  {
    attempts != [] ==>
      Guarded(s, attempts[0], networks) &&
      AlwaysGuarded(Next(s, attempts[0], rank, defaultApps), attempts[1..], networks, rank, defaultApps)
  }

  lemma AttemptCurrentIff(s: State, attempt: Attempt, networks: set<string>, dirs: seq<Dir>, rank: FileInfo -> real,
                          defaultApps: set<string>)
    requires Current(s, dirs, defaultApps) && Visits(dirs, s.synced, networks) && AppJsonFirst(rank)
    requires Possible(s, attempt, networks, dirs)
    ensures Current(Next(s, attempt, rank, defaultApps), dirs, defaultApps) <==> Guarded(s, attempt, networks)
    ensures Visits(dirs, Next(s, attempt, rank, defaultApps).synced, networks)
  {
    if attempt.Sync? {
      SyncEqualsRebuildIff(s.synced, s.local, attempt.after, networks, dirs, dirs, attempt.infos, rank, attempt.order,
                           defaultApps);
    }
  }

  /** Over every run of aborted, refused and committed syncs, however many of their files were
      removed and moved, the tables are always the index of the repository state last synced if
      and only if every attempt met its guard. */
  lemma {:induction false} EverySyncEqualsRebuildIff(s: State, attempts: seq<Attempt>, networks: set<string>,
                                                     dirs: seq<Dir>, rank: FileInfo -> real, defaultApps: set<string>)
    requires Current(s, dirs, defaultApps) && Visits(dirs, s.synced, networks) && AppJsonFirst(rank)
    requires AllPossible(s, attempts, networks, dirs, rank, defaultApps)
    ensures AlwaysCurrent(s, attempts, dirs, rank, defaultApps) <==>
            AlwaysGuarded(s, attempts, networks, rank, defaultApps)
    decreases |attempts|
  {
    if attempts == [] {
    } else {
      AttemptCurrentIff(s, attempts[0], networks, dirs, rank, defaultApps);
      var s' := Next(s, attempts[0], rank, defaultApps);
      if Current(s', dirs, defaultApps) {
        EverySyncEqualsRebuildIff(s', attempts[1..], networks, dirs, rank, defaultApps);
      } else {
        assert !AlwaysCurrent(s', attempts[1..], dirs, rank, defaultApps);
      }
    }
  }

  // ----- The guard can fail -----

  function Single(d: Dir, f: Folder): (files: Files) {
    map[d := f]
  }

  /** A diff of one metadata file of the only directory `d`. */
  ghost predicate SingleDiff(d: Dir, before: Folder, local: Folder, after: Folder, info: FileInfo) {
    MetadataOf(info, d) && EntryFits(info, Single(d, before), Single(d, after)) &&
    (before.app != after.app ==> info.path.name.file.AppJson?) &&
    (before.tokens != after.tokens ==> info.path.name.file.NativeTokensJson?) &&
    forall f :: f in [before, local, after] && f.app.Some? ==> f.app.value.networkType == d.network
  }

  lemma SingleSetting(d: Dir, before: Folder, local: Folder, after: Folder, info: FileInfo)
    requires SingleDiff(d, before, local, after, info)
    ensures Setting(Single(d, before), Single(d, local), Single(d, after), [info], [d])
  {
    var repos := [Single(d, before), Single(d, local), Single(d, after)];
    assert info in [info] && Names([info], d, info.path.name.file);
    assert forall e, name :: HasName(repos, e, name) ==> e == d;
    assert before in [before, local, after] && local in [before, local, after] && after in [before, local, after];
    assert IsDiff([info], repos[0], repos[2]);
    assert Groups([d], [info]);
  }

  /** The law for one directory alone. */
  lemma SingleSyncIff(d: Dir, before: Folder, local: Folder, after: Folder, info: FileInfo, networks: set<string>,
                      rank: FileInfo -> real, defaultApps: set<string>)
    requires SingleDiff(d, before, local, after, info) && AppJsonFirst(rank)
    ensures var dirs := if d.network in networks then [d] else [];
            var listed := Listing(info.path.name.file.AppJson?, info.path.name.file.NativeTokensJson?);
            var r := ProcessAll(Rebuild(dirs, Single(d, before), defaultApps), [d], SortBy([info], rank),
                                Single(d, local), Single(d, after), defaultApps);
            (r.Ok? <==> Readable(before, local, after, listed)) &&
            (r == Ok(Rebuild(dirs, Single(d, after), defaultApps)) <==> Fits(d, networks, before, local, after, listed))
  {
    var dirs := if d.network in networks then [d] else [];
    var listed := Listing(info.path.name.file.AppJson?, info.path.name.file.NativeTokensJson?);
    SingleSetting(d, before, local, after, info);
    SingleGuards(d, before, local, after, info, networks);
    SyncEqualsRebuildIff(Single(d, before), Single(d, local), Single(d, after), networks, dirs, dirs, [info], rank, [d],
                         defaultApps);
  }

  lemma SingleGuards(d: Dir, before: Folder, local: Folder, after: Folder, info: FileInfo, networks: set<string>)
    requires SingleDiff(d, before, local, after, info)
    ensures var listed := Listing(info.path.name.file.AppJson?, info.path.name.file.NativeTokensJson?);
            (AllReadable(Single(d, before), Single(d, local), Single(d, after), [info]) <==>
             Readable(before, local, after, listed)) &&
            (AllFit(Single(d, before), Single(d, local), Single(d, after), [info], networks) <==>
             Fits(d, networks, before, local, after, listed))
  {
    var synced, disk, remote := Single(d, before), Single(d, local), Single(d, after);
    var listed := Listing(info.path.name.file.AppJson?, info.path.name.file.NativeTokensJson?);
    SingleListing(d, info);
    assert ReadableAt(synced, disk, remote, [info], d) <==> Readable(before, local, after, listed);
    assert FitsAt(synced, disk, remote, [info], networks, d) <==> Fits(d, networks, before, local, after, listed);
    forall e | e != d
      ensures ReadableAt(synced, disk, remote, [info], e) && FitsAt(synced, disk, remote, [info], networks, e)
    {
      SingleListing(e, info);
      UntouchedFits(e, networks);
    }
  }

  lemma UntouchedFits(d: Dir, networks: set<string>)
    ensures Fits(d, networks, EMPTY, EMPTY, EMPTY, Listing(false, false))
  {
  }

  lemma SingleListing(d: Dir, info: FileInfo)
    requires IsMetadata(info)
    ensures ListingOf([info], d) ==
            if info.path.dir != d then Listing(false, false)
            else Listing(info.path.name.file.AppJson?, info.path.name.file.NativeTokensJson?)
  {
    assert info in [info];
  }

  /** A chain renamed in `app.json` alone leaves its token rows under the old name. */
  lemma RenamedChainLeavesTokens(d: Dir, tokens: TokenList, rank: FileInfo -> real, defaultApps: set<string>)
    requires AppJsonFirst(rank) && tokens.tokens != []
    ensures var before := Folder(Some(AppMeta("00", "alpha", d.network, "")), Some(tokens));
            var after := Folder(Some(AppMeta("00", "beta", d.network, "")), Some(tokens));
            var info := FileInfo(AppFile(d, Metadata(AppJson)), Modified);
            ProcessAll(Rebuild([d], Single(d, before), defaultApps), [d], SortBy([info], rank), Single(d, before),
                       Single(d, after), defaultApps)
            != Ok(Rebuild([d], Single(d, after), defaultApps))
  {
    var before := Folder(Some(AppMeta("00", "alpha", d.network, "")), Some(tokens));
    var after := Folder(Some(AppMeta("00", "beta", d.network, "")), Some(tokens));
    assert "alpha"[0] != "beta"[0];
    SingleSyncIff(d, before, before, after, FileInfo(AppFile(d, Metadata(AppJson)), Modified), {d.network}, rank,
                  defaultApps);
  }

  /** A sync indexes an app of a network that a rebuild does not visit. */
  lemma UnsupportedNetworkIsIndexed(d: Dir, meta: AppMeta, rank: FileInfo -> real, defaultApps: set<string>)
    requires AppJsonFirst(rank) && meta.networkType == d.network
    ensures var after := Folder(Some(meta), None);
            var info := FileInfo(AppFile(d, Metadata(AppJson)), Added);
            ProcessAll(Rebuild([], Single(d, EMPTY), defaultApps), [d], SortBy([info], rank), Single(d, EMPTY),
                       Single(d, after), defaultApps)
            != Ok(Rebuild([], Single(d, after), defaultApps))
  {
    SingleSyncIff(d, EMPTY, EMPTY, Folder(Some(meta), None), FileInfo(AppFile(d, Metadata(AppJson)), Added), {}, rank,
                  defaultApps);
  }

  /** After a commit whose move failed, the local token list is still the first one: the next sync
      deletes the tokens of that list, and those committed in between stay. */
  lemma FailedMoveLeavesTokens(d: Dir, meta: AppMeta, one: Token, two: Token, three: Token, rank: FileInfo -> real,
                               defaultApps: set<string>)
    requires AppJsonFirst(rank) && meta.networkType == d.network
    requires LocalID(two.tokenID) != LocalID(one.tokenID) && LocalID(two.tokenID) != LocalID(three.tokenID)
    ensures var first := Folder(Some(meta), Some(TokenList([one], "")));
            var second := Folder(Some(meta), Some(TokenList([two], "")));
            var third := Folder(Some(meta), Some(TokenList([three], "")));
            var info := FileInfo(AppFile(d, Metadata(NativeTokensJson)), Modified);
            var committed := ProcessAll(Rebuild([d], Single(d, first), defaultApps), [d], SortBy([info], rank),
                                        Single(d, first), Single(d, second), defaultApps);
            var next := ProcessAll(Rebuild([d], Single(d, second), defaultApps), [d], SortBy([info], rank),
                                   Single(d, first), Single(d, third), defaultApps);
            committed == Ok(Rebuild([d], Single(d, second), defaultApps)) && Landed([info], d, first, second, first) &&
            next.Ok? && next != Ok(Rebuild([d], Single(d, third), defaultApps))
  {
    var first := Folder(Some(meta), Some(TokenList([one], "")));
    var second := Folder(Some(meta), Some(TokenList([two], "")));
    var third := Folder(Some(meta), Some(TokenList([three], "")));
    var info := FileInfo(AppFile(d, Metadata(NativeTokensJson)), Modified);
    SingleSyncIff(d, first, first, second, info, {d.network}, rank, defaultApps);
    SingleSyncIff(d, second, first, third, info, {d.network}, rank, defaultApps);
    OldTokenIsLeft(d, meta, one, two, three);
  }

  lemma OldTokenIsLeft(d: Dir, meta: AppMeta, one: Token, two: Token, three: Token)
    requires LocalID(two.tokenID) != LocalID(one.tokenID) && LocalID(two.tokenID) != LocalID(three.tokenID)
    ensures var first := Folder(Some(meta), Some(TokenList([one], "")));
            var second := Folder(Some(meta), Some(TokenList([two], "")));
            var third := Folder(Some(meta), Some(TokenList([three], "")));
            !(TokenKeysOf(d, second) - TokenKeysOf(d, first) <= TokenKeysOf(d, third))
  {
    var k := TokenKeyOf(d, meta, two);
    assert TokenKeyOf(d, meta, [two][0]) == k;
    assert k in TokenKeys(d, meta, [two]) && k !in TokenKeys(d, meta, [one]) && k !in TokenKeys(d, meta, [three]);
  }
}
