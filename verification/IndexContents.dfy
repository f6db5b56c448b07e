/**
  What the app registry's tables hold, said of the repository's files alone: a row for each
  application of a supported network and for each of its tokens, with the values of the files.
 */
module IndexContents {
  import opened Results
  import opened Sorting
  import opened MetadataIndex
  import opened RegistrySync
  import opened IncrementalRebuild

  /** The directory has a visible `app.json` under this key. */
  predicate AppAt(files: Files, networks: set<string>, d: Dir, k: AppKey) {
    d.network in networks && At(files, d).app.Some? &&
    k == AppKey(At(files, d).app.value.networkType, At(files, d).app.value.chainName)
  }

  /** The directory lists, as the last one of its local ID, a token under this key. */
  predicate TokenAt(files: Files, networks: set<string>, d: Dir, j: int, k: TokenKey) {
    var f := At(files, d);
    d.network in networks && f.app.Some? && f.tokens.Some? && LastToken(f.tokens.value.tokens, j, k.localID) &&
    k.network == d.network && k.chainName == f.app.value.chainName
  }

  ghost predicate AppsDescribe(t: Tables, files: Files, networks: set<string>, defaultApps: set<string>) {
    (forall d, k :: AppAt(files, networks, d, k) ==>
       k in t.apps && IsAppRow(t.apps[k], d, At(files, d).app.value, defaultApps)) &&
    (forall k :: k in t.apps ==> exists d :: AppAt(files, networks, d, k))
  }

  ghost predicate TokensDescribe(t: Tables, files: Files, networks: set<string>) {
    (forall d, j, k :: TokenAt(files, networks, d, j, k) ==>
       k in t.tokens && IsTokenRow(t.tokens[k], At(files, d).app.value, At(files, d).tokens.value.tokens[j])) &&
    (forall k :: k in t.tokens ==> exists d, j :: TokenAt(files, networks, d, j, k))
  }

  lemma LastTokenIsUnique(tokens: seq<Token>, i: int, j: int, local: string)
    requires LastToken(tokens, i, local) && LastToken(tokens, j, local)
    ensures i == j
  {
  }

  /** What one directory contributes, said of its files. */
  lemma ContributionContents(d: Dir, files: Files, networks: set<string>, defaultApps: set<string>)
    requires d.network in networks
    ensures var own := Contribution(d, At(files, d), defaultApps);
            (forall k :: k in own.apps <==> AppAt(files, networks, d, k)) &&
            (forall k :: k in own.apps ==> IsAppRow(own.apps[k], d, At(files, d).app.value, defaultApps)) &&
            (forall k :: k in own.tokens <==> exists j :: TokenAt(files, networks, d, j, k)) &&
            (forall j, k :: TokenAt(files, networks, d, j, k) ==>
               k in own.tokens &&
               IsTokenRow(own.tokens[k], At(files, d).app.value, At(files, d).tokens.value.tokens[j]))
  {
    var f, own := At(files, d), Contribution(d, At(files, d), defaultApps);
    if f.app.Some? && f.tokens.Some? {
      var tokens := f.tokens.value.tokens;
      forall k
        ensures k in own.tokens <==> exists j :: TokenAt(files, networks, d, j, k)
        ensures forall j :: TokenAt(files, networks, d, j, k) ==>
                  k in own.tokens && IsTokenRow(own.tokens[k], f.app.value, tokens[j])
      {
        TokenRowContents(d, f.app.value, tokens, k);
        if k in own.tokens {
          var i :| LastToken(tokens, i, k.localID) && IsTokenRow(own.tokens[k], f.app.value, tokens[i]);
          assert TokenAt(files, networks, d, i, k);
          forall j | TokenAt(files, networks, d, j, k)
            ensures i == j
          {
            LastTokenIsUnique(tokens, i, j, k.localID);
          }
        } else {
          assert forall j :: TokenAt(files, networks, d, j, k) ==> LastToken(tokens, j, k.localID);
        }
      }
    }
  }

  /** A rebuilt index has exactly the rows that the files of the supported networks describe, when
      no two directories of a network carry the same chain name. */
  lemma RebuildDescribes(dirs: seq<Dir>, files: Files, networks: set<string>, defaultApps: set<string>)
    requires Visits(dirs, files, networks) && NamesDistinct([files]) && NetworksMatch([files])
    ensures AppsDescribe(Rebuild(dirs, files, defaultApps), files, networks, defaultApps)
    ensures TokensDescribe(Rebuild(dirs, files, defaultApps), files, networks)
  {
    var owner := (n: string, c: string) => OwnerOf([files], n, c);
    OwnersAgree([files], owner);
    assert [files][0] == files;
    var t := Rebuild(dirs, files, defaultApps);
    forall d
      ensures Owns(d, At(files, d), owner)
      ensures Part(t, d, owner) == Contribution(d, Visible(d, At(files, d), networks), defaultApps)
    {
      RebuiltParts(dirs, files, networks, defaultApps, owner, d);
    }
    AppsFromParts(t, files, networks, defaultApps, owner);
    TokensFromParts(t, files, networks, defaultApps, owner);
  }

  lemma AppsFromParts(t: Tables, files: Files, networks: set<string>, defaultApps: set<string>,
                      owner: (string, string) -> Dir)
    requires forall d :: Owns(d, At(files, d), owner)
    requires forall d :: Part(t, d, owner) == Contribution(d, Visible(d, At(files, d), networks), defaultApps)
    ensures AppsDescribe(t, files, networks, defaultApps)
  {
    forall d, k | AppAt(files, networks, d, k)
      ensures k in t.apps && IsAppRow(t.apps[k], d, At(files, d).app.value, defaultApps)
    {
      ContributionContents(d, files, networks, defaultApps);
      assert k in Part(t, d, owner).apps;
    }
    forall k | k in t.apps
      ensures exists d :: AppAt(files, networks, d, k)
    {
      var d := owner(k.network, k.chainName);
      assert k in Part(t, d, owner).apps;
      if d.network in networks {
        ContributionContents(d, files, networks, defaultApps);
        assert AppAt(files, networks, d, k);
      }
    }
  }

  lemma TokensFromParts(t: Tables, files: Files, networks: set<string>, defaultApps: set<string>,
                        owner: (string, string) -> Dir)
    requires forall d :: Owns(d, At(files, d), owner)
    requires forall d :: Part(t, d, owner) == Contribution(d, Visible(d, At(files, d), networks), defaultApps)
    ensures TokensDescribe(t, files, networks)
  {
    forall d, j, k | TokenAt(files, networks, d, j, k)
      ensures k in t.tokens && IsTokenRow(t.tokens[k], At(files, d).app.value, At(files, d).tokens.value.tokens[j])
    {
      ContributionContents(d, files, networks, defaultApps);
      assert k in Part(t, d, owner).tokens;
    }
    forall k | k in t.tokens
      ensures exists d, j :: TokenAt(files, networks, d, j, k)
    {
      var d := owner(k.network, k.chainName);
      assert k in Part(t, d, owner).tokens;
      if d.network in networks {
        ContributionContents(d, files, networks, defaultApps);
        var j :| TokenAt(files, networks, d, j, k);
      }
    }
  }

  ghost predicate Describes(t: Tables, files: Files, networks: set<string>, defaultApps: set<string>) {
    AppsDescribe(t, files, networks, defaultApps) && TokensDescribe(t, files, networks)
  }

  /** The files leave no choice: two tables that both are as described are equal. */
  lemma DescriptionIsUnique(t: Tables, u: Tables, files: Files, networks: set<string>, defaultApps: set<string>)
    requires Describes(t, files, networks, defaultApps) && Describes(u, files, networks, defaultApps)
    ensures t == u
  {
    forall k
      ensures k in t.apps <==> k in u.apps
      ensures k in t.apps && k in u.apps ==> t.apps[k] == u.apps[k]
    {
      if k in t.apps || k in u.apps {
        var d :| AppAt(files, networks, d, k);
        assert IsAppRow(t.apps[k], d, At(files, d).app.value, defaultApps);
        assert IsAppRow(u.apps[k], d, At(files, d).app.value, defaultApps);
      }
    }
    forall k
      ensures k in t.tokens <==> k in u.tokens
      ensures k in t.tokens && k in u.tokens ==> t.tokens[k] == u.tokens[k]
    {
      if k in t.tokens || k in u.tokens {
        var d, j :| TokenAt(files, networks, d, j, k);
        LowerCasedIsUnique(At(files, d).app.value.chainID, t.tokens[k].chainID);
        LowerCasedIsUnique(At(files, d).app.value.chainID, u.tokens[k].chainID);
      }
    }
  }

  /** A sync leaves exactly the rows that the new repository state describes, and no other, if and
      only if every directory's change fits, whatever the local copies were. */
  lemma SyncedTablesDescribeIff(synced: Files, local: Files, after: Files, networks: set<string>, dirs: seq<Dir>,
                                dirs': seq<Dir>, infos: seq<FileInfo>, rank: FileInfo -> real, order: seq<Dir>,
                                defaultApps: set<string>)
    requires Setting(synced, local, after, infos, order) && AppJsonFirst(rank)
    requires Visits(dirs, synced, networks) && Visits(dirs', after, networks)
    ensures var t := Rebuild(dirs, synced, defaultApps);
            var r := ProcessAll(t, order, SortBy(infos, rank), local, after, defaultApps);
            r.Ok? && Describes(r.value, after, networks, defaultApps) <==> AllFit(synced, local, after, infos, networks)
  {
    SyncEqualsRebuildIff(synced, local, after, networks, dirs, dirs', infos, rank, order, defaultApps);
    AfterIsDescribed(synced, local, after, networks, dirs', defaultApps);
    var t := Rebuild(dirs, synced, defaultApps);
    var r := ProcessAll(t, order, SortBy(infos, rank), local, after, defaultApps);
    if r.Ok? && Describes(r.value, after, networks, defaultApps) {
      DescriptionIsUnique(r.value, Rebuild(dirs', after, defaultApps), after, networks, defaultApps);
    }
  }

  lemma AfterIsDescribed(synced: Files, local: Files, after: Files, networks: set<string>, dirs: seq<Dir>,
                         defaultApps: set<string>)
    requires NamesDistinct([synced, local, after]) && NetworksMatch([synced, local, after])
    requires Visits(dirs, after, networks)
    ensures Describes(Rebuild(dirs, after, defaultApps), after, networks, defaultApps)
  {
    var repos := [synced, local, after];
    assert repos[2] == after && [after][0] == after;
    assert forall d, name :: HasName([after], d, name) ==> HasName(repos, d, name);
    RebuildDescribes(dirs, after, networks, defaultApps);
  }
}
