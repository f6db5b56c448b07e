/**
  Genesis totals: the indexer fetches a sub-store of the genesis block page by page, merges the
  pages, and sums locked, staked and self-staked amounts over the merged list.
 */
module GenesisAssets {
  import opened Results
  import opened Text
  import opened Paging

  /** A property of an answer. Text and numbers count as scalars. */
  datatype Field<T> = List(items: seq<T>) | Object(entries: map<string, T>) | Scalar(text: string) | Missing

  /** What the connector answers: a list, an object, or an error. */
  datatype Response<T> = Items(items: seq<T>) | Fields(fields: map<string, Field<T>>) | Failed(error: string)

  predicate IsEmpty<T>(r: Response<T>) {
    (r.Items? && r.items == []) || (r.Fields? && r.fields == map[])
  }

  function FieldOf<T>(r: Response<T>, key: string): (f: Field<T>) {
    if r.Fields? && key in r.fields then r.fields[key] else Missing
  }

  /** What `...f` adds to an object; a list spreads by its indexes. */
  function Spread<T>(f: Field<T>): (entries: map<string, T>) {
    match f
    case List(items) => SpreadList(items)
    case Object(entries) => entries
    case _ => map[]
  }

  function SpreadList<T>(items: seq<T>): (entries: map<string, T>) {
    if items == [] then map[]
    else SpreadList(items[..|items| - 1])[Decimal(|items| - 1) := items[|items| - 1]]
  }

  /** A list spreads to one entry per index, named by its decimal text. */
  lemma {:induction false} SpreadsByIndex<T>(items: seq<T>, key: string)
    ensures key in SpreadList(items) <==> exists i :: 0 <= i < |items| && DenotesIndex(key, i)
    ensures forall i :: 0 <= i < |items| && DenotesIndex(key, i) ==>
              key in SpreadList(items) && SpreadList(items)[key] == items[i]
    decreases |items|
  {
    if items == [] {
    } else {
      var n := |items| - 1;
      SpreadsByIndex(items[..n], key);
      ParseUndoesDecimal(n);
      if key == Decimal(n) {
        assert DenotesIndex(key, n);
      } else {
        DecimalRoundTripIff(key);
      }
    }
  }

  /** `key` is the text of the index, without sign or leading zeros. */
  predicate DenotesIndex(key: string, i: int) {
    CanonicalDecimal(key) && ParseDecimal(key) == Ok(i)
  }

  /** One property: a list is appended to, an object is extended, and of anything else the latest
      value is kept. Only a list can be spread into a list. */
  function MergeField<T>(f: Field<T>, g: Field<T>): (r: Result<Field<T>>)
    ensures r.Err? <==> f.List? && !g.List?
    ensures f.List? && g.List? ==>
              r.value.List? && f.items <= r.value.items && r.value.items[|f.items|..] == g.items
    ensures f.Object? && g.Object? ==>
              r.value.Object? && r.value.entries.Keys == f.entries.Keys + g.entries.Keys &&
              (forall k :: k in g.entries ==> r.value.entries[k] == g.entries[k]) &&
              forall k :: k in f.entries && k !in g.entries ==> r.value.entries[k] == f.entries[k]
    ensures f.Scalar? || f.Missing? ==> r.value == g
  {
    match f
    case List(items) => if g.List? then Ok(List(items + g.items)) else Err("TypeError")
    case Object(entries) => Ok(Object(entries + Spread(g)))
    case _ => Ok(g)
  }

  /** One merge of `requestAll`: a list is appended to, and an object property by property. */
  function Merge<T>(total: Response<T>, page: Response<T>): (r: Result<Response<T>>) {
    if total.Items? && page.Items? then Ok(Items(total.items + page.items))
    else if total.Fields? && forall k :: k in total.fields ==> MergeField(total.fields[k], FieldOf(page, k)).Ok? then
      Ok(Fields(map k | k in total.fields :: MergeField(total.fields[k], FieldOf(page, k)).value))
    else Err("TypeError")
  }

  type Source<!T> = (nat, nat) -> Response<T>

  /** The pages from `page` on, merged into `total`; an empty answer ends the loop. */
  function Collect<T>(fn: Source<T>, limit: nat, maxAmount: nat, page: nat, total: Response<T>)
    : (r: Result<Response<T>>)
    requires limit > 0
    decreases Pages(maxAmount, limit) - page
  {
    if Pages(maxAmount, limit) <= page then Ok(total)
    else
      PageBelow(page, limit, maxAmount);
      var result := fn(Min(limit, maxAmount - page * limit), page * limit);
      if IsEmpty(result) then Ok(total)
      else
        var merged := Merge(total, result);
        if merged.Err? then merged else Collect(fn, limit, maxAmount, page + 1, merged.value)
  }

  lemma PageBelow(page: nat, limit: nat, amount: nat)
    requires limit > 0 && page < Pages(amount, limit)
    ensures page * limit < amount
  {
    PagesCover(page + 1, Pages(amount, limit), limit);
    assert (page + 1) * limit == page * limit + limit;
  }

  const UNLIMITED := 1_000_000_000

  /** The result of `requestAll`; a zero `amount` counts as omitted. */
  function AllPages<T>(fn: Source<T>, limit: nat, amount: nat): (r: Result<Response<T>>) {
    var size := PageSize(limit);
    var maxAmount := if amount == 0 then UNLIMITED else amount;
    var first := fn(size, 0);
    if first.Failed? || maxAmount <= size then Ok(first) else Collect(fn, size, maxAmount, 1, first)
  }

  /** `requestAll` of the indexer. */
  method RequestAll<T(==)>(fn: Source<T>, limit: nat, amount: nat) returns (r: Result<Response<T>>)
    ensures r == AllPages(fn, limit, amount)
  {
    var size := PageSize(limit);
    var maxAmount := if amount == 0 then UNLIMITED else amount;
    var total := fn(size, 0);
    if !total.Failed? && maxAmount > size {
      var page := 1;
      while page < Pages(maxAmount, size)
        invariant 1 <= page && AllPages(fn, limit, amount) == Collect(fn, size, maxAmount, page, total)
      {
        PageBelow(page, size, maxAmount);
        var result := fn(Min(size, maxAmount - page * size), page * size);
        if IsEmpty(result) { return Ok(total); }
        var merged := Merge(total, result);
        if merged.Err? { return merged; }
        total, page := merged.value, page + 1;
      }
    }
    return Ok(total);
  }

  // ----- Paging a sub-store -----

  /** `getGenesisAssetByModule` for one sub-store that the module has. */
  function SubStoreSource<T>(name: string, store: seq<T>): (fn: Source<T>) {
    (limit: nat, offset: nat) => Fields(map[name := List(Page(store, limit, offset))])
  }

  lemma MergeOneField<T>(name: string, a: seq<T>, b: seq<T>)
    ensures Merge(Fields(map[name := List(a)]), Fields(map[name := List(b)])) == Ok(Fields(map[name := List(a + b)]))
  {
    var x, y := Fields(map[name := List(a)]), Fields(map[name := List(b)]);
    var merged := map k | k in x.fields :: MergeField(x.fields[k], FieldOf(y, k)).value;
    assert merged == map[name := List(a + b)];
  }

  /** What the pages before `page` have brought, of at most `most` entries. */
  function Brought<T>(store: seq<T>, limit: nat, most: nat, page: nat): (done: seq<T>) {
    store[..Min(Min(page * limit, most), |store|)]
  }

  lemma BroughtStep<T>(store: seq<T>, limit: nat, most: nat, page: nat)
    requires limit > 0 && page < Pages(most, limit)
    ensures page * limit < most
    ensures var next := Page(store, Min(limit, most - page * limit), page * limit);
            Brought(store, limit, most, page) + next == Brought(store, limit, most, page + 1) &&
            (next == [] ==> Brought(store, limit, most, page) == store[..Min(most, |store|)])
  {
    PageBelow(page, limit, most);
    assert (page + 1) * limit == page * limit + limit;
  }

  lemma BroughtAll<T>(store: seq<T>, limit: nat, most: nat)
    requires limit > 0
    ensures Brought(store, limit, most, Pages(most, limit)) == store[..Min(most, |store|)]
  {
  }

  lemma BroughtFirst<T>(store: seq<T>, limit: nat, most: nat)
    requires limit <= most
    ensures Brought(store, limit, most, 1) == Page(store, limit, 0)
  {
    assert 1 * limit == limit;
  }

  lemma {:induction false} CollectIsPrefix<T>(name: string, store: seq<T>, limit: nat, most: nat, page: nat)
    requires limit > 0 && page <= Pages(most, limit)
    ensures Collect(SubStoreSource(name, store), limit, most, page,
                    Fields(map[name := List(Brought(store, limit, most, page))]))
         == Ok(Fields(map[name := List(store[..Min(most, |store|)])]))
    decreases Pages(most, limit) - page
  {
    if page == Pages(most, limit) {
      BroughtAll(store, limit, most);
    } else {
      BroughtStep(store, limit, most, page);
      var done, l := Brought(store, limit, most, page), Min(limit, most - page * limit);
      var next := Page(store, l, page * limit);
      assert SubStoreSource(name, store)(l, page * limit) == Fields(map[name := List(next)]);
      assert name in map[name := List(next)];
      MergeOneField(name, done, next);
      CollectIsPrefix(name, store, limit, most, page + 1);
    }
  }

  /** How many entries are asked for: the amount, but a first page at least. */
  function Asked(limit: nat, amount: nat): (n: nat) {
    var most := if amount == 0 then 1_000_000_000 else amount;
    if most < PageSize(limit) then PageSize(limit) else most
  }

  /** Fetching by pages of any size and merging them gives the first entries of a sub-store, exactly
      as many as are asked for and there. */
  lemma PagedIsPrefix<T>(name: string, store: seq<T>, limit: nat, amount: nat)
    ensures AllPages(SubStoreSource(name, store), limit, amount)
         == Ok(Fields(map[name := List(store[..Min(Asked(limit, amount), |store|)])]))
  {
    var size, most := PageSize(limit), if amount == 0 then UNLIMITED else amount;
    assert SubStoreSource(name, store)(size, 0) == Fields(map[name := List(Page(store, size, 0))]);
    if most > size {
      PagesCover(1, Pages(most, size), size);
      BroughtFirst(store, size, most);
      CollectIsPrefix(name, store, size, most, 1);
    }
  }

  /** Asking for its length rebuilds a sub-store exactly. */
  lemma PagedEqualsWhole<T>(name: string, store: seq<T>, limit: nat)
    ensures AllPages(SubStoreSource(name, store), limit, |store|) == Ok(Fields(map[name := List(store)]))
  {
    PagedIsPrefix(name, store, limit, |store|);
    assert store[..Min(Asked(limit, |store|), |store|)] == store;
  }

  function ListSource<T>(store: seq<T>): (fn: Source<T>) {
    (limit: nat, offset: nat) => Items(Page(store, limit, offset))
  }

  lemma {:induction false} CollectListIsPrefix<T>(store: seq<T>, limit: nat, most: nat, page: nat)
    requires limit > 0 && page <= Pages(most, limit)
    ensures Collect(ListSource(store), limit, most, page, Items(Brought(store, limit, most, page)))
         == Ok(Items(store[..Min(most, |store|)]))
    decreases Pages(most, limit) - page
  {
    if page == Pages(most, limit) {
      BroughtAll(store, limit, most);
    } else {
      BroughtStep(store, limit, most, page);
      var l := Min(limit, most - page * limit);
      var next := Page(store, l, page * limit);
      assert ListSource(store)(l, page * limit) == Items(next);
      if next != [] {
        CollectListIsPrefix(store, limit, most, page + 1);
      }
    }
  }

  /** The same holds of a source that answers with lists, where an empty page ends the loop. */
  lemma PagedListIsPrefix<T>(store: seq<T>, limit: nat, amount: nat)
    ensures AllPages(ListSource(store), limit, amount) == Ok(Items(store[..Min(Asked(limit, amount), |store|)]))
  {
    var size, most := PageSize(limit), if amount == 0 then UNLIMITED else amount;
    assert ListSource(store)(size, 0) == Items(Page(store, size, 0));
    if most > size {
      PagesCover(1, Pages(most, size), size);
      BroughtFirst(store, size, most);
      CollectListIsPrefix(store, size, most, 1);
    }
  }

  // ----- The sums -----

  datatype UserInfo = UserInfo(tokenID: string, lockedBalances: seq<int>)

  datatype Stake = Stake(validatorAddress: string, amount: int)

  datatype StakerInfo = StakerInfo(address: string, stakes: seq<Stake>)

  function Sum(amounts: seq<int>): (t: int) {
    if amounts == [] then 0 else Sum(amounts[..|amounts| - 1]) + amounts[|amounts| - 1]
  }

  /** The amount of token `t` locked by the users. */
  function LockedOf(users: seq<UserInfo>, t: string): (d: int) {
    if users == [] then 0
    else
      var u := users[|users| - 1];
      LockedOf(users[..|users| - 1], t) + if u.tokenID == t then Sum(u.lockedBalances) else 0
  }

  predicate Locks(users: seq<UserInfo>, t: string) {
    exists i :: 0 <= i < |users| && users[i].tokenID == t && users[i].lockedBalances != []
  }

  datatype Locked = Locked(tokenID: string, amount: int)

  /** All locked balances of all users, each with its token. */
  function Flatten(users: seq<UserInfo>): (all: seq<Locked>) {
    if users == [] then []
    else
      var u := users[|users| - 1];
      Flatten(users[..|users| - 1]) + LockedIn(u.tokenID, u.lockedBalances)
  }

  function LockedIn(tokenID: string, amounts: seq<int>): (all: seq<Locked>) {
    seq(|amounts|, i requires 0 <= i < |amounts| => Locked(tokenID, amounts[i]))
  }

  function SumOfToken(all: seq<Locked>, t: string): (d: int) {
    if all == [] then 0
    else SumOfToken(all[..|all| - 1], t) + if all[|all| - 1].tokenID == t then all[|all| - 1].amount else 0
  }

  lemma {:induction false} SumOfTokenAppend(all: seq<Locked>, tokenID: string, amounts: seq<int>, t: string)
    ensures SumOfToken(all + LockedIn(tokenID, amounts), t)
         == SumOfToken(all, t) + if tokenID == t then Sum(amounts) else 0
    decreases |amounts|
  {
    var own := LockedIn(tokenID, amounts);
    if amounts == [] {
      assert all + own == all;
    } else {
      var front := amounts[..|amounts| - 1];
      SumOfTokenAppend(all, tokenID, front, t);
      assert (all + own)[..|all + own| - 1] == all + LockedIn(tokenID, front);
    }
  }

  /** The locked sum of a token is the sum over all balances of all users that are in that token. */
  lemma {:induction false} LockedIsSumOfAll(users: seq<UserInfo>, t: string)
    ensures LockedOf(users, t) == SumOfToken(Flatten(users), t)
    decreases |users|
  {
    if users == [] {
    } else {
      var front, u := users[..|users| - 1], users[|users| - 1];
      LockedIsSumOfAll(front, t);
      SumOfTokenAppend(Flatten(front), u.tokenID, u.lockedBalances, t);
    }
  }

  const TOKEN_USER := "userSubstore"

  /** `indexTokenModuleAssets` up to its change map: the paged fetch and the nested loops. */
  method IndexTokenModuleAssets(store: seq<UserInfo>, limit: nat) returns (changes: map<string, int>)
    ensures forall t :: t in changes <==> Locks(store, t)
    ensures forall t :: t in changes ==> changes[t] == LockedOf(store, t)
  {
    var data := RequestAll(SubStoreSource(TOKEN_USER, store), limit, |store|);
    PagedEqualsWhole(TOKEN_USER, store, limit);
    assert data.value.fields[TOKEN_USER] == List(store);
    changes := SumLocked(data.value.fields[TOKEN_USER].items);
  }

  method SumLocked(users: seq<UserInfo>) returns (changes: map<string, int>)
    ensures forall t :: t in changes <==> Locks(users, t)
    ensures forall t :: t in changes ==> changes[t] == LockedOf(users, t)
  {
    changes := map[];
    for i := 0 to |users|
      invariant forall t :: t in changes <==> Locks(users[..i], t)
      invariant forall t :: (if t in changes then changes[t] else 0) == LockedOf(users[..i], t)
    {
      changes := AddLocked(changes, users[i]);
      LocksStep(users, i);
      assert users[..i + 1][..i] == users[..i];
    }
    assert users[..|users|] == users;
  }

  /** The inner loop over the locked balances of one user. */
  method AddLocked(before: map<string, int>, u: UserInfo) returns (changes: map<string, int>)
    ensures changes == if u.lockedBalances == [] then before
                       else before[u.tokenID := (if u.tokenID in before then before[u.tokenID] else 0)
                                                + Sum(u.lockedBalances)]
  {
    changes := before;
    ghost var start := if u.tokenID in before then before[u.tokenID] else 0;
    for j := 0 to |u.lockedBalances|
      invariant changes == if j == 0 then before else before[u.tokenID := start + Sum(u.lockedBalances[..j])]
    {
      if u.tokenID !in changes || changes[u.tokenID] == 0 {
        changes := changes[u.tokenID := 0];
      }
      changes := changes[u.tokenID := changes[u.tokenID] + u.lockedBalances[j]];
      assert u.lockedBalances[..j + 1][..j] == u.lockedBalances[..j];
      assert j == 0 ==> u.lockedBalances[..j] == [];
    }
    assert u.lockedBalances[..|u.lockedBalances|] == u.lockedBalances;
  }

  lemma LocksStep(users: seq<UserInfo>, i: nat)
    requires i < |users|
    ensures forall t :: Locks(users[..i + 1], t) <==>
              Locks(users[..i], t) || (users[i].tokenID == t && users[i].lockedBalances != [])
  {
    var before, after := users[..i], users[..i + 1];
    forall t | Locks(after, t)
      ensures Locks(before, t) || (users[i].tokenID == t && users[i].lockedBalances != [])
    {
      var k :| 0 <= k < |after| && after[k].tokenID == t && after[k].lockedBalances != [];
      assert k < i ==> before[k] == after[k];
    }
    forall t | Locks(before, t)
      ensures Locks(after, t)
    {
      var k :| 0 <= k < |before| && before[k].tokenID == t && before[k].lockedBalances != [];
      assert after[k] == before[k];
    }
    assert after[i] == users[i];
  }

  function StakedBy(s: StakerInfo, stakes: seq<Stake>, selfOnly: bool): (d: int) {
    if stakes == [] then 0
    else
      var last := stakes[|stakes| - 1];
      StakedBy(s, stakes[..|stakes| - 1], selfOnly) +
      if !selfOnly || last.validatorAddress == s.address then last.amount else 0
  }

  /** The amount staked by all stakers, or by those staking for themselves. */
  function Staked(stakers: seq<StakerInfo>, selfOnly: bool): (d: int) {
    if stakers == [] then 0
    else
      var last := stakers[|stakers| - 1];
      Staked(stakers[..|stakers| - 1], selfOnly) + StakedBy(last, last.stakes, selfOnly)
  }

  datatype StakeOf = StakeOf(staker: string, validator: string, amount: int)

  /** All stakes of all stakers, each with who stakes for whom. */
  function AllStakes(stakers: seq<StakerInfo>): (all: seq<StakeOf>) {
    if stakers == [] then []
    else
      var s := stakers[|stakers| - 1];
      AllStakes(stakers[..|stakers| - 1]) + StakesOf(s.address, s.stakes)
  }

  function StakesOf(staker: string, stakes: seq<Stake>): (all: seq<StakeOf>) {
    seq(|stakes|, i requires 0 <= i < |stakes| => StakeOf(staker, stakes[i].validatorAddress, stakes[i].amount))
  }

  function SumOfStakes(all: seq<StakeOf>, selfOnly: bool): (d: int) {
    if all == [] then 0
    else
      var last := all[|all| - 1];
      SumOfStakes(all[..|all| - 1], selfOnly) + if selfOnly && last.staker != last.validator then 0 else last.amount
  }

  lemma {:induction false} SumOfStakesAppend(all: seq<StakeOf>, s: StakerInfo, stakes: seq<Stake>, selfOnly: bool)
    ensures SumOfStakes(all + StakesOf(s.address, stakes), selfOnly)
         == SumOfStakes(all, selfOnly) + StakedBy(s, stakes, selfOnly)
    decreases |stakes|
  {
    var own := StakesOf(s.address, stakes);
    if stakes == [] {
      assert all + own == all;
    } else {
      var front := stakes[..|stakes| - 1];
      SumOfStakesAppend(all, s, front, selfOnly);
      assert (all + own)[..|all + own| - 1] == all + StakesOf(s.address, front);
    }
  }

  /** The staked sum is that of all stakes, and the self-staked sum that of those to oneself. */
  lemma {:induction false} StakedIsSumOfAll(stakers: seq<StakerInfo>, selfOnly: bool)
    ensures Staked(stakers, selfOnly) == SumOfStakes(AllStakes(stakers), selfOnly)
    decreases |stakers|
  {
    if stakers == [] {
    } else {
      var front, s := stakers[..|stakers| - 1], stakers[|stakers| - 1];
      StakedIsSumOfAll(front, selfOnly);
      SumOfStakesAppend(AllStakes(front), s, s.stakes, selfOnly);
    }
  }

  const POS_STAKERS := "stakers"

  /** `indexPosModuleAssets` up to its two sums. */
  method IndexPosModuleAssets(store: seq<StakerInfo>, limit: nat) returns (totalStake: int, totalSelfStake: int)
    ensures totalStake == Staked(store, false) && totalSelfStake == Staked(store, true)
  {
    totalStake, totalSelfStake := 0, 0;
    if |store| > 0 {
      var data := RequestAll(SubStoreSource(POS_STAKERS, store), limit, |store|);
      PagedEqualsWhole(POS_STAKERS, store, limit);
      assert data.value.fields[POS_STAKERS] == List(store);
      totalStake, totalSelfStake := SumStakes(data.value.fields[POS_STAKERS].items);
    }
  }

  method SumStakes(stakers: seq<StakerInfo>) returns (totalStake: int, totalSelfStake: int)
    ensures totalStake == Staked(stakers, false) && totalSelfStake == Staked(stakers, true)
  {
    totalStake, totalSelfStake := 0, 0;
    for i := 0 to |stakers|
      invariant totalStake == Staked(stakers[..i], false) && totalSelfStake == Staked(stakers[..i], true)
    {
      var s := stakers[i];
      for j := 0 to |s.stakes|
        invariant totalStake == Staked(stakers[..i], false) + StakedBy(s, s.stakes[..j], false)
        invariant totalSelfStake == Staked(stakers[..i], true) + StakedBy(s, s.stakes[..j], true)
      {
        totalStake := totalStake + s.stakes[j].amount;
        if s.address == s.stakes[j].validatorAddress {
          totalSelfStake := totalSelfStake + s.stakes[j].amount;
        }
        assert s.stakes[..j + 1][..j] == s.stakes[..j];
      }
      assert s.stakes[..|s.stakes|] == s.stakes;
      assert stakers[..i + 1][..i] == stakers[..i];
    }
    assert stakers[..|stakers|] == stakers;
  }
}
