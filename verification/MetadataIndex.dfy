/**
  The metadata index of the app registry: the application and token tables, and the steps
  that index or delete what one metadata file of one app directory contributes to them.
 */
module MetadataIndex {
  import opened Results

  /** An app directory of the cloned repository, `network/app`. */
  datatype Dir = Dir(network: string, app: string)

  /** The content of an `app.json`; `rest` is all of it that the index does not read. */
  datatype AppMeta = AppMeta(chainID: string, chainName: string, networkType: string, rest: string)

  datatype Token = Token(tokenID: string, tokenName: string)

  /** The content of a `nativetokens.json`; `rest` is again what the index does not read. */
  datatype TokenList = TokenList(tokens: seq<Token>, rest: string)

  /** The `app.json` and `nativetokens.json` of one directory, where present. */
  datatype Folder = Folder(app: Option<AppMeta>, tokens: Option<TokenList>)

  const EMPTY := Folder(None, None)

  type Files = map<Dir, Folder>

  function At(files: Files, d: Dir): (f: Folder) {
    if d in files then files[d] else EMPTY
  }

  datatype MetadataFile = AppJson | NativeTokensJson

  datatype AppKey = AppKey(network: string, chainName: string)
  datatype AppRow = AppRow(chainID: string, isDefault: bool, appDirName: string)
  datatype TokenKey = TokenKey(network: string, chainName: string, localID: string)
  datatype TokenRow = TokenRow(chainID: string, tokenName: string, tokenID: string)

  type AppTable = map<AppKey, AppRow>
  type TokenTable = map<TokenKey, TokenRow>

  /** The two tables, each keyed by its primary key. */
  datatype Tables = Tables(apps: AppTable, tokens: TokenTable)

  /** Both tables after upserting the rows of `u`. */
  function Upsert(t: Tables, u: Tables): (r: Tables) {
    Tables(t.apps + u.apps, t.tokens + u.tokens)
  }

  const LENGTH_CHAIN_ID := 8

  function LowerCase(s: string): (r: string) {
    seq(|s|, i requires 0 <= i < |s| => if 'A' <= s[i] <= 'Z' then s[i] - 'A' + 'a' else s[i])
  }

  /** `tokenID.substring(LENGTH_CHAIN_ID).toLowerCase()`. */
  function LocalID(tokenID: string): (r: string) {
    LowerCase(if LENGTH_CHAIN_ID <= |tokenID| then tokenID[LENGTH_CHAIN_ID..] else "")
  }

  function AppKeyOf(meta: AppMeta): (k: AppKey) {
    AppKey(meta.networkType, meta.chainName)
  }

  /** The row `indexAppMeta` upserts. */
  function AppRows(d: Dir, meta: AppMeta, defaultApps: set<string>): (rows: AppTable) {
    map[AppKeyOf(meta) := AppRow(meta.chainID, meta.chainName in defaultApps, d.app)]
  }

  function TokenKeyOf(d: Dir, meta: AppMeta, token: Token): (k: TokenKey) {
    TokenKey(d.network, meta.chainName, LocalID(token.tokenID))
  }

  /** The rows `indexTokensMeta` upserts, in list order. */
  function TokenRows(d: Dir, meta: AppMeta, tokens: seq<Token>): (rows: TokenTable)
    ensures rows.Keys == TokenKeys(d, meta, tokens)
    ensures forall k :: k in rows ==> rows[k].chainID == LowerCase(meta.chainID)
  {
    if tokens == [] then map[]
    else
      var last := tokens[|tokens| - 1];
      assert tokens == tokens[..|tokens| - 1] + [last];
      TokenRows(d, meta, tokens[..|tokens| - 1])
        [TokenKeyOf(d, meta, last) := TokenRow(LowerCase(meta.chainID), last.tokenName, last.tokenID)]
  }

  /** The keys `deleteTokensMeta` deletes. */
  function TokenKeys(d: Dir, meta: AppMeta, tokens: seq<Token>): (keys: set<TokenKey>) {
    set i | 0 <= i < |tokens| :: TokenKeyOf(d, meta, tokens[i])
  }

  /** `indexMetadataFromFile`: the app metadata comes from the download directory when it holds
      an `app.json`, and from the local copy otherwise. */
  function IndexFromFile(t: Tables, d: Dir, file: MetadataFile, downloaded: Folder, local: Folder,
                         defaultApps: set<string>): (r: Result<Tables>) {
    var app := if downloaded.app.Some? then downloaded.app else local.app;
    if app.None? then Err("ENOENT: app.json")
    else
      match file
      case AppJson => Ok(Upsert(t, Tables(AppRows(d, app.value, defaultApps), map[])))
      case NativeTokensJson =>
        if downloaded.tokens.None? then Err("ENOENT: nativetokens.json")
        else Ok(Upsert(t, Tables(map[], TokenRows(d, app.value, downloaded.tokens.value.tokens))))
  }

  /** `deleteIndexedMetadataFromFile`, which reads the local copies. */
  function DeleteFromFile(t: Tables, d: Dir, file: MetadataFile, local: Folder): (r: Result<Tables>) {
    if local.app.None? then Err("ENOENT: app.json")
    else
      match file
      case AppJson => Ok(t.(apps := t.apps - {AppKeyOf(local.app.value)}))
      case NativeTokensJson =>
        if local.tokens.None? then Err("ENOENT: nativetokens.json")
        else Ok(t.(tokens := t.tokens - TokenKeys(d, local.app.value, local.tokens.value.tokens)))
  }

  /** What one directory contributes to freshly built tables. */
  function Contribution(d: Dir, f: Folder, defaultApps: set<string>): (t: Tables) {
    if f.app.None? then Tables(map[], map[])
    else Tables(AppRows(d, f.app.value, defaultApps),
                if f.tokens.None? then map[] else TokenRows(d, f.app.value, f.tokens.value.tokens))
  }

  /** The tables after the directories have been indexed into empty tables in list order. */
  function Rebuild(dirs: seq<Dir>, files: Files, defaultApps: set<string>): (t: Tables) {
    if dirs == [] then Tables(map[], map[])
    else
      var before := Rebuild(dirs[..|dirs| - 1], files, defaultApps);
      var own := Contribution(dirs[|dirs| - 1], At(files, dirs[|dirs| - 1]), defaultApps);
      Upsert(before, own)
  }

  /** `indexAllBlockchainAppsMeta` over the given directories of the supported networks: each
      present file is indexed in a transaction of its own, and an error skips that file. */
  method IndexAllBlockchainAppsMeta(dirs: seq<Dir>, files: Files, defaultApps: set<string>) returns (t: Tables)
    ensures t == Rebuild(dirs, files, defaultApps)
  {
    t := Tables(map[], map[]);
    for i := 0 to |dirs|
      invariant t == Rebuild(dirs[..i], files, defaultApps)
    {
      var d, f := dirs[i], At(files, dirs[i]);
      assert dirs[..i + 1][..i] == dirs[..i];
      UpsertBoth(t, Contribution(d, f, defaultApps));
      if f.app.Some? {
        var r := IndexFromFile(t, d, AppJson, f, f, defaultApps);
        t := if r.Ok? then r.value else t;
      }
      if f.tokens.Some? {
        var r := IndexFromFile(t, d, NativeTokensJson, f, f, defaultApps);
        t := if r.Ok? then r.value else t;
      }
    }
    assert dirs[..|dirs|] == dirs;
  }

  // ----- What the rows hold, said of the files -----

  /** `r` is `s` with its ASCII capitals moved down by 32 and nothing else changed. */
  predicate LowerCased(s: string, r: string) {
    |r| == |s| && forall i :: 0 <= i < |s| ==> r[i] as int == s[i] as int + if 65 <= s[i] as int <= 90 then 32 else 0
  }

  /** `local` is the lower-case rest of a token ID after its first eight characters. */
  predicate LocalPart(tokenID: string, local: string) {
    if |tokenID| < 8 then local == [] else LowerCased(tokenID[8..], local)
  }

  predicate IsAppRow(row: AppRow, d: Dir, meta: AppMeta, defaultApps: set<string>) {
    row.chainID == meta.chainID && (row.isDefault <==> meta.chainName in defaultApps) && row.appDirName == d.app
  }

  predicate IsTokenRow(row: TokenRow, meta: AppMeta, token: Token) {
    LowerCased(meta.chainID, row.chainID) && row.tokenName == token.tokenName && row.tokenID == token.tokenID
  }

  /** The last token of the list with the local ID is the one at `j`. */
  predicate LastToken(tokens: seq<Token>, j: int, local: string) {
    0 <= j < |tokens| && LocalPart(tokens[j].tokenID, local) &&
    forall k :: j < k < |tokens| ==> !LocalPart(tokens[k].tokenID, local)
  }

  lemma LowerCasedIsUnique(s: string, r: string)
    ensures LowerCased(s, r) <==> r == LowerCase(s)
  {
    forall i | 0 <= i < |s|
      ensures LowerCase(s)[i] as int == s[i] as int + if 65 <= s[i] as int <= 90 then 32 else 0
    {
    }
  }

  lemma LocalPartIsUnique(tokenID: string, local: string)
    ensures LocalPart(tokenID, local) <==> local == LocalID(tokenID)
  {
    if |tokenID| >= 8 {
      LowerCasedIsUnique(tokenID[8..], local);
    }
  }

  /** The token rows of a list: a key for each local ID, and the last token of that ID in its row. */
  lemma {:induction false} TokenRowContents(d: Dir, meta: AppMeta, tokens: seq<Token>, k: TokenKey)
    ensures k in TokenRows(d, meta, tokens) <==>
            k.network == d.network && k.chainName == meta.chainName && exists j :: LastToken(tokens, j, k.localID)
    ensures k in TokenRows(d, meta, tokens) ==>
              exists j :: LastToken(tokens, j, k.localID) && IsTokenRow(TokenRows(d, meta, tokens)[k], meta, tokens[j])
    decreases |tokens|
  {
    if tokens == [] {
    } else {
      var front, n := tokens[..|tokens| - 1], |tokens| - 1;
      TokenRowContents(d, meta, front, k);
      LocalPartIsUnique(tokens[n].tokenID, k.localID);
      LowerCasedIsUnique(meta.chainID, LowerCase(meta.chainID));
      if LocalPart(tokens[n].tokenID, k.localID) {
        assert LastToken(tokens, n, k.localID);
      } else {
        assert forall j :: LastToken(tokens, j, k.localID) <==> LastToken(front, j, k.localID);
      }
    }
  }

  /** Indexing a file, said of the files: `app.json` sets the one row of its chain; a token list sets
      the row of each of its local IDs; every other row stays as it was. */
  lemma IndexedContents(t: Tables, d: Dir, file: MetadataFile, downloaded: Folder, local: Folder,
                        defaultApps: set<string>)
    ensures var r := IndexFromFile(t, d, file, downloaded, local, defaultApps);
            var app := if downloaded.app.Some? then downloaded.app else local.app;
            (r.Ok? <==> app.Some? && (file.NativeTokensJson? ==> downloaded.tokens.Some?)) &&
            (r.Ok? && file.AppJson? ==>
               r.value.tokens == t.tokens && AppRowSet(t, r.value, d, app.value, defaultApps)) &&
            (r.Ok? && file.NativeTokensJson? ==>
               r.value.apps == t.apps && TokenRowsSet(t, r.value, d, app.value, downloaded.tokens.value.tokens))
  {
    var app := if downloaded.app.Some? then downloaded.app else local.app;
    if app.Some? && file.NativeTokensJson? && downloaded.tokens.Some? {
      forall k
        ensures k in TokenRows(d, app.value, downloaded.tokens.value.tokens) <==>
                k.network == d.network && k.chainName == app.value.chainName &&
                exists j :: LastToken(downloaded.tokens.value.tokens, j, k.localID)
        ensures k in TokenRows(d, app.value, downloaded.tokens.value.tokens) ==>
                  exists j :: LastToken(downloaded.tokens.value.tokens, j, k.localID) &&
                    IsTokenRow(TokenRows(d, app.value, downloaded.tokens.value.tokens)[k], app.value,
                               downloaded.tokens.value.tokens[j])
      {
        TokenRowContents(d, app.value, downloaded.tokens.value.tokens, k);
      }
    }
  }

  ghost predicate AppRowSet(t: Tables, t': Tables, d: Dir, meta: AppMeta, defaultApps: set<string>) {
    var key := AppKey(meta.networkType, meta.chainName);
    t'.apps.Keys == t.apps.Keys + {key} && IsAppRow(t'.apps[key], d, meta, defaultApps) &&
    forall k :: k in t.apps && k != key ==> t'.apps[k] == t.apps[k]
  }

  ghost predicate TokenRowsSet(t: Tables, t': Tables, d: Dir, meta: AppMeta, tokens: seq<Token>) {
    forall k: TokenKey ::
      if k.network == d.network && k.chainName == meta.chainName && exists j :: LastToken(tokens, j, k.localID) then
        k in t'.tokens && exists j :: LastToken(tokens, j, k.localID) && IsTokenRow(t'.tokens[k], meta, tokens[j])
      else
        (k in t'.tokens <==> k in t.tokens) && (k in t.tokens ==> t'.tokens[k] == t.tokens[k])
  }

  /** Deleting a file's rows, said of the local files: the row of the chain, or the rows of the listed
      local IDs, disappear and nothing else changes. */
  lemma DeletedContents(t: Tables, d: Dir, file: MetadataFile, local: Folder)
    ensures var r := DeleteFromFile(t, d, file, local);
            (r.Ok? <==> local.app.Some? && (file.NativeTokensJson? ==> local.tokens.Some?)) &&
            (r.Ok? ==> r.value.apps.Items <= t.apps.Items && r.value.tokens.Items <= t.tokens.Items) &&
            (r.Ok? ==> forall k :: k in r.value.apps <==>
               k in t.apps &&
               !(file.AppJson? && k == AppKey(local.app.value.networkType, local.app.value.chainName))) &&
            (r.Ok? ==> forall k :: k in r.value.tokens <==>
               k in t.tokens &&
               !(file.NativeTokensJson? && k.network == d.network && k.chainName == local.app.value.chainName &&
                 exists j :: 0 <= j < |local.tokens.value.tokens| &&
                   LocalPart(local.tokens.value.tokens[j].tokenID, k.localID)))
  {
    forall id, s
      ensures LocalPart(id, s) <==> s == LocalID(id)
    {
      LocalPartIsUnique(id, s);
    }
  }

  lemma LocalIDExample()
    ensures LocalID("02999999AbC0Zz{@") == "abc0zz{@" && LocalID("0299999") == ""
  {
    LocalPartIsUnique("02999999AbC0Zz{@", "abc0zz{@");
  }

  // ----- Ownership: which directory a table key belongs to -----

  /** The part of the tables whose keys `owner` assigns to `d`. */
  ghost function Part(t: Tables, d: Dir, owner: (string, string) -> Dir): (p: Tables) {
    Tables(map k | k in t.apps && owner(k.network, k.chainName) == d :: t.apps[k],
           map k | k in t.tokens && owner(k.network, k.chainName) == d :: t.tokens[k])
  }

  /** Every key an app of `d` can write or delete, in either copy, belongs to `d`. */
  ghost predicate Owns(d: Dir, f: Folder, owner: (string, string) -> Dir) {
    f.app.Some? ==> f.app.value.networkType == d.network && owner(d.network, f.app.value.chainName) == d
  }

  lemma PartsDetermine(t: Tables, u: Tables, owner: (string, string) -> Dir)
    requires forall d :: Part(t, d, owner) == Part(u, d, owner)
    ensures t == u
  {
    forall k
      ensures k in t.apps <==> k in u.apps
      ensures k in t.apps ==> t.apps[k] == u.apps[k]
    {
      var d := owner(k.network, k.chainName);
      assert Part(t, d, owner) == Part(u, d, owner);
      assert k in t.apps <==> k in Part(t, d, owner).apps;
      assert k in u.apps <==> k in Part(u, d, owner).apps;
    }
    forall k
      ensures k in t.tokens <==> k in u.tokens
      ensures k in t.tokens ==> t.tokens[k] == u.tokens[k]
    {
      var d := owner(k.network, k.chainName);
      assert Part(t, d, owner) == Part(u, d, owner);
      assert k in t.tokens <==> k in Part(t, d, owner).tokens;
      assert k in u.tokens <==> k in Part(u, d, owner).tokens;
    }
  }

  ghost predicate KeysOwned(u: Tables, d: Dir, owner: (string, string) -> Dir) {
    (forall k :: k in u.apps ==> owner(k.network, k.chainName) == d) &&
    (forall k :: k in u.tokens ==> owner(k.network, k.chainName) == d)
  }

  lemma UpsertIsLocal(t: Tables, u: Tables, d: Dir, owner: (string, string) -> Dir, e: Dir)
    requires KeysOwned(u, d, owner)
    ensures Part(Upsert(t, u), e, owner) == if e == d then Upsert(Part(t, d, owner), u) else Part(t, e, owner)
  {
  }

  lemma UpsertBoth(t: Tables, u: Tables)
    ensures Upsert(Upsert(t, Tables(u.apps, map[])), Tables(map[], u.tokens)) == Upsert(t, u)
    ensures u.tokens == map[] ==> Upsert(t, Tables(u.apps, map[])) == Upsert(t, u)
    ensures Upsert(t, Tables(map[], map[])) == t
  {
  }

  lemma UpsertUnit(u: Tables)
    ensures Upsert(u, u) == u && Upsert(Tables(map[], map[]), u) == u
  {
  }

  lemma ContributionOwned(d: Dir, f: Folder, defaultApps: set<string>, owner: (string, string) -> Dir)
    requires Owns(d, f, owner)
    ensures KeysOwned(Contribution(d, f, defaultApps), d, owner)
  {
  }

  /** Indexing a file of `d` acts on `d`'s part of the tables alone. */
  lemma IndexIsLocal(t: Tables, d: Dir, file: MetadataFile, downloaded: Folder, local: Folder,
                     defaultApps: set<string>, owner: (string, string) -> Dir, e: Dir)
    requires Owns(d, downloaded, owner) && Owns(d, local, owner)
    ensures var r := IndexFromFile(t, d, file, downloaded, local, defaultApps);
            var p := IndexFromFile(Part(t, d, owner), d, file, downloaded, local, defaultApps);
            r.Ok? == p.Ok? &&
            (r.Ok? ==> Part(r.value, e, owner) == if e == d then p.value else Part(t, e, owner))
  {
    var app := if downloaded.app.Some? then downloaded.app else local.app;
    if app.Some? {
      match file
      case AppJson =>
        UpsertIsLocal(t, Tables(AppRows(d, app.value, defaultApps), map[]), d, owner, e);
      case NativeTokensJson =>
        if downloaded.tokens.Some? {
          UpsertIsLocal(t, Tables(map[], TokenRows(d, app.value, downloaded.tokens.value.tokens)), d, owner, e);
        }
    }
  }

  /** Deleting what a file of `d` contributed acts on `d`'s part of the tables alone. */
  lemma DeleteIsLocal(t: Tables, d: Dir, file: MetadataFile, local: Folder,
                      owner: (string, string) -> Dir, e: Dir)
    requires Owns(d, local, owner)
    ensures var r := DeleteFromFile(t, d, file, local);
            var p := DeleteFromFile(Part(t, d, owner), d, file, local);
            r.Ok? == p.Ok? &&
            (r.Ok? ==> Part(r.value, e, owner) == if e == d then p.value else Part(t, e, owner))
  {
  }

  /** A rebuilt index holds, for each directory, exactly what that directory contributes. */
  lemma {:induction false} RebuildParts(dirs: seq<Dir>, files: Files, defaultApps: set<string>,
                                        owner: (string, string) -> Dir, d: Dir)
    requires forall e :: Owns(e, At(files, e), owner)
    ensures Part(Rebuild(dirs, files, defaultApps), d, owner) ==
            if d in dirs then Contribution(d, At(files, d), defaultApps) else Tables(map[], map[])
    decreases |dirs|
  {
    if dirs == [] {
    } else {
      var rest, e := dirs[..|dirs| - 1], dirs[|dirs| - 1];
      RebuildParts(rest, files, defaultApps, owner, d);
      assert d in dirs <==> d in rest || d == e;
      ContributionOwned(e, At(files, e), defaultApps, owner);
      UpsertUnit(Contribution(e, At(files, e), defaultApps));
      UpsertIsLocal(Rebuild(rest, files, defaultApps), Contribution(e, At(files, e), defaultApps), e, owner, d);
    }
  }
}
