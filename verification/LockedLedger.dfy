/**
  The locked-amount ledger of the blockchain indexer. Index and delete jobs fold lock and
  unlock events into per-token changes and add them to totals in the key-value store,
  inside one database transaction. Reads see committed rows only, writes go to the open
  transaction, so of several changes to one token in one transaction the last one wins.
 */
module LockedLedger {
  import opened Results

  type TokenID = string
  type Changes = map<TokenID, int>

  datatype EventName = Lock | Unlock | Other(name: string) {
    predicate Locking() {
      Lock? || Unlock?
    }
  }

  datatype Event = Event(name: EventName, tokenID: TokenID, amount: int)

  /** A block to delete carries its height and, when it was sent whole, its header. */
  datatype Block = Block(height: nat, header: Option<string>)

  // ----- The meaning of a block's events -----

  function EventChange(e: Event, t: TokenID): (d: int) {
    if e.tokenID != t then 0
    else if e.name == Lock then e.amount
    else if e.name == Unlock then -e.amount
    else 0
  }

  /** Locked minus unlocked amount of `t` over the events. */
  function NetLocked(events: seq<Event>, t: TokenID): (d: int) {
    if events == [] then 0
    else NetLocked(events[..|events| - 1], t) + EventChange(events[|events| - 1], t)
  }

  function Touched(events: seq<Event>): (s: set<TokenID>) {
    set i | 0 <= i < |events| && events[i].name.Locking() :: events[i].tokenID
  }

  function Signed(deleting: bool, d: int): (r: int) {
    if deleting then -d else d
  }

  /** The change map of one block; deleting a block negates it. */
  function BlockChanges(events: seq<Event>, deleting: bool): (c: Changes) {
    map t | t in Touched(events) :: Signed(deleting, NetLocked(events, t))
  }

  /** The `forEach` folds of `indexBlock` and `deleteIndexedBlocks`. */
  method FoldLockedAmounts(events: seq<Event>, deleting: bool) returns (changes: Changes)
    ensures changes == BlockChanges(events, deleting)
  {
    changes := map[];
    for i := 0 to |events|
      invariant changes == BlockChanges(events[..i], deleting)
    {
      var e := events[i];
      if e.name.Locking() && e.tokenID !in changes {
        changes := changes[e.tokenID := 0];
      }
      if e.name == Lock {
        changes := changes[e.tokenID := changes[e.tokenID] + Signed(deleting, e.amount)];
      } else if e.name == Unlock {
        changes := changes[e.tokenID := changes[e.tokenID] - Signed(deleting, e.amount)];
      }
      BlockChangesStep(events, deleting, i);
    }
    assert events[..|events|] == events;
  }

  lemma BlockChangesStep(events: seq<Event>, deleting: bool, i: nat)
    requires i < |events|
    ensures var before, e := BlockChanges(events[..i], deleting), events[i];
            BlockChanges(events[..i + 1], deleting) ==
            if !e.name.Locking() then before
            else before[e.tokenID := (if e.tokenID in before then before[e.tokenID] else 0)
                                     + Signed(deleting, EventChange(e, e.tokenID))]
  {
    TouchedStep(events, i);
    assert events[..i + 1][..i] == events[..i];
    if events[i].tokenID !in Touched(events[..i]) {
      UntouchedIsZero(events[..i], events[i].tokenID);
    }
  }

  lemma TouchedStep(events: seq<Event>, i: nat)
    requires i < |events|
    ensures Touched(events[..i + 1]) ==
            Touched(events[..i]) + if events[i].name.Locking() then {events[i].tokenID} else {}
  {
    var before, after := events[..i], events[..i + 1];
    forall t | t in Touched(after)
      ensures t in Touched(before) + if events[i].name.Locking() then {events[i].tokenID} else {}
    {
      var k :| 0 <= k < |after| && after[k].name.Locking() && after[k].tokenID == t;
      assert k < i ==> before[k] == after[k];
    }
    forall t | t in Touched(before)
      ensures t in Touched(after)
    {
      var k :| 0 <= k < |before| && before[k].name.Locking() && before[k].tokenID == t;
      assert after[k] == before[k];
    }
    assert after[i] == events[i];
  }

  // ----- The store and one transaction -----

  /** The rows of the key-value store whose key is `total_locked_` followed by a token ID. */
  type Rows = map<TokenID, int>

  /** `BigInt(await keyValueTable.get(key) || 0)`. */
  function Total(committed: Rows, t: TokenID): (d: int) {
    if t in committed then committed[t] else 0
  }

  /** The rows one `updateTotalLockedAmounts` call writes, computed from committed totals. */
  function Written(committed: Rows, changes: Changes): (rows: Rows) {
    map t | t in changes :: Total(committed, t) + changes[t]
  }

  /** The rows left in the transaction after several such calls, in write order. */
  function Buffered(committed: Rows, updates: seq<Changes>): (rows: Rows) {
    if updates == [] then map[]
    else Buffered(committed, updates[..|updates| - 1]) + Written(committed, updates[|updates| - 1])
  }

  datatype Job =
    | IndexJob(genesisLocked: Option<Changes>, events: seq<Event>)
    | DeleteJob(blockEvents: seq<seq<Event>>)

  function EventUpdates(events: seq<Event>, deleting: bool): (updates: seq<Changes>) {
    if events == [] then [] else [BlockChanges(events, deleting)]
  }

  function DeleteUpdates(blockEvents: seq<seq<Event>>): (updates: seq<Changes>) {
    if blockEvents == [] then []
    else DeleteUpdates(blockEvents[..|blockEvents| - 1]) + EventUpdates(blockEvents[|blockEvents| - 1], true)
  }

  /** The `updateTotalLockedAmounts` calls of a job, in write order. */
  function Updates(job: Job): (updates: seq<Changes>) {
    match job
    case IndexJob(genesisLocked, events) =>
      (if genesisLocked.Some? then [genesisLocked.value] else []) + EventUpdates(events, false)
    case DeleteJob(blockEvents) => DeleteUpdates(blockEvents)
  }

  function CommitJob(committed: Rows, job: Job): (rows: Rows) {
    committed + Buffered(committed, Updates(job))
  }

  /** The key-value store together with the open transaction of the running job. */
  class Ledger {
    var committed: Rows
    var pending: Rows

    /** `updateTotalLockedAmounts`: one read-modify-write per token, in any order. */
    method UpdateTotalLockedAmounts(changes: Changes)
      modifies this`pending
      ensures pending == old(pending) + Written(committed, changes)
    {
      var todo := changes.Keys;
      while todo != {}
        invariant todo <= changes.Keys
        invariant pending == old(pending) + Written(committed, changes - todo)
        decreases todo
      {
        var t :| t in todo;
        var curLockedAmount := if t in committed then committed[t] else 0;
        pending := pending[t := curLockedAmount + changes[t]];
        todo := todo - {t};
      }
      assert changes - {} == changes;
    }

    /** `indexBlock`: genesis assets first, then the event fold, then commit; an error
        (`fails`) rolls the transaction back. */
    method IndexBlock(genesisLocked: Option<Changes>, events: seq<Event>, fails: bool) returns (ok: bool)
      modifies this
      ensures ok == !fails && pending == map[]
      ensures committed == if ok then CommitJob(old(committed), IndexJob(genesisLocked, events)) else old(committed)
    {
      pending := map[];
      ghost var updates: seq<Changes> := [];
      if genesisLocked.Some? {
        UpdateTotalLockedAmounts(genesisLocked.value);
        BufferedAppend(committed, updates, genesisLocked.value);
        updates := updates + [genesisLocked.value];
      }
      ApplyEvents(updates, events, false);
      CloseTransaction(fails, IndexJob(genesisLocked, events));
      ok := !fails;
    }

    /** The fold of one block's events and the update it leads to; `done` are the updates
        already in the transaction. */
    method ApplyEvents(ghost done: seq<Changes>, events: seq<Event>, deleting: bool)
      requires pending == Buffered(committed, done)
      modifies this`pending
      ensures pending == Buffered(committed, done + EventUpdates(events, deleting))
    {
      if events != [] {
        var changes := FoldLockedAmounts(events, deleting);
        UpdateTotalLockedAmounts(changes);
        BufferedAppend(committed, done, changes);
      } else {
        assert done + EventUpdates(events, deleting) == done;
      }
    }

    /** Commits the transaction of `job`, or rolls it back. */
    method CloseTransaction(fails: bool, ghost job: Job)
      requires !fails ==> pending == Buffered(committed, Updates(job))
      modifies this
      ensures pending == map[]
      ensures committed == if fails then old(committed) else CommitJob(old(committed), job)
    {
      if !fails {
        committed := committed + pending;
      }
      pending := map[];
    }

    /** `deleteIndexedBlocks`: every block of the job shares one transaction. A block sent
        without its header throws, and any error rolls everything back. */
    method DeleteIndexedBlocks(blocks: seq<Block>, eventsAt: nat -> seq<Event>, fails: bool) returns (ok: bool)
      modifies this
      ensures ok <==> !fails && forall i :: 0 <= i < |blocks| ==> blocks[i].header.Some?
      ensures pending == map[]
      ensures committed == if ok then CommitJob(old(committed), DeleteJob(EventsOf(blocks, eventsAt)))
                           else old(committed)
    {
      pending, ok := map[], !fails;
      for i := 0 to |blocks|
        invariant committed == old(committed)
        invariant ok <==> !fails && forall j :: 0 <= j < i ==> blocks[j].header.Some?
        invariant ok ==> pending == Buffered(committed, DeleteUpdates(EventsOf(blocks[..i], eventsAt)))
      {
        DeleteUpdatesStep(blocks, eventsAt, i);
        if blocks[i].header.None? {
          ok := false;
        } else if ok {
          ApplyEvents(DeleteUpdates(EventsOf(blocks[..i], eventsAt)), eventsAt(blocks[i].height), true);
        }
      }
      assert blocks[..|blocks|] == blocks;
      CloseTransaction(!ok, DeleteJob(EventsOf(blocks, eventsAt)));
    }
  }

  function EventsOf(blocks: seq<Block>, eventsAt: nat -> seq<Event>): (r: seq<seq<Event>>) {
    seq(|blocks|, i requires 0 <= i < |blocks| => eventsAt(blocks[i].height))
  }

  lemma BufferedAppend(committed: Rows, updates: seq<Changes>, last: Changes)
    ensures Buffered(committed, updates + [last]) == Buffered(committed, updates) + Written(committed, last)
  {
    assert (updates + [last])[..|updates|] == updates;
  }

  lemma DeleteUpdatesStep(blocks: seq<Block>, eventsAt: nat -> seq<Event>, i: nat)
    requires i < |blocks|
    ensures DeleteUpdates(EventsOf(blocks[..i + 1], eventsAt)) ==
            DeleteUpdates(EventsOf(blocks[..i], eventsAt)) + EventUpdates(eventsAt(blocks[i].height), true)
  {
    var after := EventsOf(blocks[..i + 1], eventsAt);
    assert after[..i] == EventsOf(blocks[..i], eventsAt);
  }

  // ----- Conservation -----

  function SumOf(updates: seq<Changes>, t: TokenID): (d: int) {
    if updates == [] then 0
    else
      var last := updates[|updates| - 1];
      SumOf(updates[..|updates| - 1], t) + if t in last then last[t] else 0
  }

  /** The part of `SumOf` that a later update of the same token overwrites. */
  function Overwritten(updates: seq<Changes>, t: TokenID): (d: int) {
    if updates == [] then 0
    else
      var rest := updates[..|updates| - 1];
      if t in updates[|updates| - 1] then SumOf(rest, t) else Overwritten(rest, t)
  }

  /** One job moves a total by what its updates sum to, less what they overwrite. */
  lemma {:induction false} BufferedTotal(committed: Rows, updates: seq<Changes>, t: TokenID)
    ensures Total(committed + Buffered(committed, updates), t)
         == Total(committed, t) + SumOf(updates, t) - Overwritten(updates, t)
    ensures t in Buffered(committed, updates) <==> exists i :: 0 <= i < |updates| && t in updates[i]
    decreases |updates|
  {
    if updates == [] {
    } else {
      var rest, last := updates[..|updates| - 1], updates[|updates| - 1];
      BufferedTotal(committed, rest, t);
      assert forall i :: 0 <= i < |rest| ==> rest[i] == updates[i];
    }
  }

  /** What a job should do to the total of `t`, read off its blocks' events alone. */
  function JobNet(job: Job, t: TokenID): (d: int) {
    match job
    case IndexJob(genesisLocked, events) =>
      (if genesisLocked.Some? && t in genesisLocked.value then genesisLocked.value[t] else 0) + NetLocked(events, t)
    case DeleteJob(blockEvents) => -NetOverBlocks(blockEvents, t)
  }

  function NetOverBlocks(blockEvents: seq<seq<Event>>, t: TokenID): (d: int) {
    if blockEvents == [] then 0
    else NetOverBlocks(blockEvents[..|blockEvents| - 1], t) + NetLocked(blockEvents[|blockEvents| - 1], t)
  }

  lemma {:induction false} UntouchedIsZero(events: seq<Event>, t: TokenID)
    requires t !in Touched(events)
    ensures NetLocked(events, t) == 0
    decreases |events|
  {
    if events == [] {
    } else {
      var i := |events| - 1;
      assert events[..i + 1] == events;
      TouchedStep(events, i);
      UntouchedIsZero(events[..i], t);
    }
  }

  lemma EventUpdatesSum(prefix: seq<Changes>, events: seq<Event>, deleting: bool, t: TokenID)
    ensures SumOf(prefix + EventUpdates(events, deleting), t)
         == SumOf(prefix, t) + Signed(deleting, NetLocked(events, t))
  {
    var updates := prefix + EventUpdates(events, deleting);
    if events == [] {
      assert updates == prefix;
    } else {
      assert updates[..|updates| - 1] == prefix;
      if t !in Touched(events) {
        UntouchedIsZero(events, t);
      }
    }
  }

  lemma {:induction false} DeleteUpdatesSum(blockEvents: seq<seq<Event>>, t: TokenID)
    ensures SumOf(DeleteUpdates(blockEvents), t) == -NetOverBlocks(blockEvents, t)
    decreases |blockEvents|
  {
    if blockEvents == [] {
    } else {
      var rest, last := blockEvents[..|blockEvents| - 1], blockEvents[|blockEvents| - 1];
      DeleteUpdatesSum(rest, t);
      EventUpdatesSum(DeleteUpdates(rest), last, true, t);
    }
  }

  lemma JobUpdatesSum(job: Job, t: TokenID)
    ensures SumOf(Updates(job), t) == JobNet(job, t)
  {
    match job
    case IndexJob(genesisLocked, events) =>
      var first := if genesisLocked.Some? then [genesisLocked.value] else [];
      EventUpdatesSum(first, events, false, t);
      if genesisLocked.Some? {
        assert first[..0] == [];
      }
    case DeleteJob(blockEvents) =>
      DeleteUpdatesSum(blockEvents, t);
  }

  /** A committed job conserves the total of `t` if and only if none of the changes that a
      later update of the same transaction overwrites survive as a nonzero sum. */
  lemma JobConservesIff(committed: Rows, job: Job, t: TokenID)
    ensures Total(CommitJob(committed, job), t) == Total(committed, t) + JobNet(job, t)
            <==> Overwritten(Updates(job), t) == 0
  {
    BufferedTotal(committed, Updates(job), t);
    JobUpdatesSum(job, t);
  }

  predicate AtMostOnce(updates: seq<Changes>, t: TokenID) {
    forall i, j :: 0 <= i < j < |updates| ==> t !in updates[i] || t !in updates[j]
  }

  lemma {:induction false} AtMostOnceLosesNothing(updates: seq<Changes>, t: TokenID)
    requires AtMostOnce(updates, t)
    ensures Overwritten(updates, t) == 0
    ensures (forall i :: 0 <= i < |updates| ==> t !in updates[i]) ==> SumOf(updates, t) == 0
    decreases |updates|
  {
    if updates == [] {
    } else {
      AtMostOnceLosesNothing(updates[..|updates| - 1], t);
    }
  }

  /** A queue job together with the fate of its transaction. */
  datatype Run = Run(job: Job, commits: bool)

  function RunAll(committed: Rows, runs: seq<Run>): (rows: Rows) {
    if runs == [] then committed
    else
      var before := RunAll(committed, runs[..|runs| - 1]);
      if runs[|runs| - 1].commits then CommitJob(before, runs[|runs| - 1].job) else before
  }

  function NetOfRuns(runs: seq<Run>, t: TokenID): (d: int) {
    if runs == [] then 0
    else NetOfRuns(runs[..|runs| - 1], t) + if runs[|runs| - 1].commits then JobNet(runs[|runs| - 1].job, t) else 0
  }

  function LostInRuns(runs: seq<Run>, t: TokenID): (d: int) {
    if runs == [] then 0
    else
      LostInRuns(runs[..|runs| - 1], t) +
      if runs[|runs| - 1].commits then Overwritten(Updates(runs[|runs| - 1].job), t) else 0
  }

  /** Conservation over every run of committed and rolled-back jobs, with the exact loss. */
  lemma {:induction false} LedgerBalance(committed: Rows, runs: seq<Run>, t: TokenID)
    ensures Total(RunAll(committed, runs), t) == Total(committed, t) + NetOfRuns(runs, t) - LostInRuns(runs, t)
    decreases |runs|
  {
    if runs == [] {
    } else {
      var rest, last := runs[..|runs| - 1], runs[|runs| - 1];
      LedgerBalance(committed, rest, t);
      BufferedTotal(RunAll(committed, rest), Updates(last.job), t);
      JobUpdatesSum(last.job, t);
    }
  }

  /** When no committed job updates `t` twice, its total is exactly what the events say. */
  lemma {:induction false} LedgerConservation(committed: Rows, runs: seq<Run>, t: TokenID)
    requires forall i :: 0 <= i < |runs| && runs[i].commits ==> AtMostOnce(Updates(runs[i].job), t)
    ensures Total(RunAll(committed, runs), t) == Total(committed, t) + NetOfRuns(runs, t)
    decreases |runs|
  {
    LedgerBalance(committed, runs, t);
    NothingLost(runs, t);
  }

  lemma {:induction false} NothingLost(runs: seq<Run>, t: TokenID)
    requires forall i :: 0 <= i < |runs| && runs[i].commits ==> AtMostOnce(Updates(runs[i].job), t)
    ensures LostInRuns(runs, t) == 0
    decreases |runs|
  {
    if runs == [] {
    } else {
      NothingLost(runs[..|runs| - 1], t);
      if runs[|runs| - 1].commits {
        AtMostOnceLosesNothing(Updates(runs[|runs| - 1].job), t);
      }
    }
  }

  /** From an empty store every stored total is what the committed jobs' events say, less the loss,
      and a token without a row has had nothing locked in sum. */
  lemma LedgerFromNothing(runs: seq<Run>, t: TokenID)
    ensures var rows := RunAll(map[], runs);
            (t in rows ==> rows[t] == NetOfRuns(runs, t) - LostInRuns(runs, t)) &&
            (t !in rows ==> NetOfRuns(runs, t) == LostInRuns(runs, t))
  {
    LedgerBalance(map[], runs, t);
  }

  /** Deleting a block right after indexing it restores every total. */
  lemma DeleteUndoesIndex(committed: Rows, events: seq<Event>, t: TokenID)
    ensures Total(CommitJob(CommitJob(committed, IndexJob(None, events)), DeleteJob([events])), t)
         == Total(committed, t)
  {
    var indexJob, deleteJob := IndexJob(None, events), DeleteJob([events]);
    assert [events][..0] == [];
    assert NetOverBlocks([events], t) == NetLocked(events, t);
    AtMostOnceLosesNothing(Updates(indexJob), t);
    assert DeleteUpdates([]) == [] && Updates(deleteJob) == EventUpdates(events, true);
    AtMostOnceLosesNothing(Updates(deleteJob), t);
    JobConservesIff(committed, indexJob, t);
    JobConservesIff(CommitJob(committed, indexJob), deleteJob, t);
  }

  // ----- The sign of an event -----

  function AmountsOf(events: seq<Event>, name: EventName, t: TokenID): (sum: int)
    ensures (forall i :: 0 <= i < |events| ==> events[i].name != name || events[i].tokenID != t) ==> sum == 0
  {
    if events == [] then 0
    else
      var last := events[|events| - 1];
      AmountsOf(events[..|events| - 1], name, t) + if last.name == name && last.tokenID == t then last.amount else 0
  }

  lemma {:induction false} NetIsLockedMinusUnlocked(events: seq<Event>, t: TokenID)
    ensures NetLocked(events, t) == AmountsOf(events, Lock, t) - AmountsOf(events, Unlock, t)
    decreases |events|
  {
    if events == [] {
    } else {
      NetIsLockedMinusUnlocked(events[..|events| - 1], t);
    }
  }

  /** Indexing a block raises a total by what its events lock and lowers it by what they unlock;
      deleting it does the opposite. Events of other names and tokens do not count. */
  lemma BlockMovesTotal(committed: Rows, events: seq<Event>, t: TokenID)
    ensures Total(CommitJob(committed, IndexJob(None, events)), t)
         == Total(committed, t) + AmountsOf(events, Lock, t) - AmountsOf(events, Unlock, t)
    ensures Total(CommitJob(committed, DeleteJob([events])), t)
         == Total(committed, t) - AmountsOf(events, Lock, t) + AmountsOf(events, Unlock, t)
  {
    var indexJob, deleteJob := IndexJob(None, events), DeleteJob([events]);
    assert [events][..0] == [];
    assert NetOverBlocks([events], t) == NetLocked(events, t);
    NetIsLockedMinusUnlocked(events, t);
    AtMostOnceLosesNothing(Updates(indexJob), t);
    assert DeleteUpdates([]) == [] && Updates(deleteJob) == EventUpdates(events, true);
    AtMostOnceLosesNothing(Updates(deleteJob), t);
    JobConservesIff(committed, indexJob, t);
    JobConservesIff(committed, deleteJob, t);
  }

  /** Locking an amount and then unlocking it leaves every total. */
  lemma UnlockUndoesLock(committed: Rows, tokenID: TokenID, amount: int, t: TokenID)
    ensures var locked := CommitJob(committed, IndexJob(None, [Event(Lock, tokenID, amount)]));
            Total(locked, tokenID) == Total(committed, tokenID) + amount &&
            Total(CommitJob(locked, IndexJob(None, [Event(Unlock, tokenID, amount)])), t) == Total(committed, t)
  {
    var lock, unlock := [Event(Lock, tokenID, amount)], [Event(Unlock, tokenID, amount)];
    assert lock[..0] == [] && unlock[..0] == [];
    BlockMovesTotal(committed, lock, tokenID);
    BlockMovesTotal(committed, lock, t);
    BlockMovesTotal(CommitJob(committed, IndexJob(None, lock)), unlock, t);
  }

  /** The unguarded case happens: deleting two blocks in one job loses the first one's change. */
  lemma TwoBlocksInOneJobLoseOne()
    ensures var job := DeleteJob([[Event(Lock, "t", 5)], [Event(Lock, "t", 7)]]);
            Total(CommitJob(map["t" := 12], job), "t") == 5
  {
    var a, b := [Event(Lock, "t", 5)], [Event(Lock, "t", 7)];
    var job := DeleteJob([a, b]);
    SingleLock(5);
    SingleLock(7);
    assert [a, b][..1] == [a] && [a][..0] == [];
    assert DeleteUpdates([a]) == [] + EventUpdates(a, true);
    assert DeleteUpdates([a, b]) == DeleteUpdates([a]) + EventUpdates(b, true);
    assert Updates(job) == [BlockChanges(a, true), BlockChanges(b, true)];
    assert Updates(job)[..1] == [BlockChanges(a, true)] && Updates(job)[..1][..0] == [];
    BufferedTotal(map["t" := 12], Updates(job), "t");
  }

  lemma SingleLock(amount: int)
    ensures BlockChanges([Event(Lock, "t", amount)], true) == map["t" := -amount]
  {
    var events := [Event(Lock, "t", amount)];
    assert events[0].tokenID == "t" && events[..0] == [];
    assert Touched(events) == {"t"};
    assert NetLocked(events, "t") == amount;
  }
}
