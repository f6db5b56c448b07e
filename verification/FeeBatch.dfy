/**
  The batch loop of the dynamic fee estimator: it resumes from a cached estimate, moves it on
  one block at a time with a window of blocks above genesis, and caches every estimate on
  the way. The per-block estimator is a parameter, so the laws hold for any of them.
 */
module FeeBatch {
  import opened Results
  import opened BlockFees
  import opened Paging

  /** `getEstimateFeePerByteForBlock`, as the loop sees it. */
  type PerBlock = (seq<Block>, Estimate) -> Estimate

  /** What a run reads: the node's blocks, the genesis height, `emaBatchSize` and the
      per-block estimator. */
  datatype Source = Source(chain: nat -> Block, genesis: nat, emaBatchSize: nat, forBlock: PerBlock)

  /** The node returns each height's own block, and an estimate carries its block's height. */
  ghost predicate Good(src: Source) {
    src.emaBatchSize >= 1 &&
    (forall h :: src.chain(h).height == h) &&
    forall batch: seq<Block>, prev: Estimate ::
      batch != [] ==> src.forBlock(batch, prev).blockHeight == batch[0].height
  }

  // ----- One turn of the loop -----

  /** `finalEMABatchSize`. */
  function BatchSize(src: Source, height: nat): (n: nat)
    requires src.genesis <= height
  {
    if src.emaBatchSize > height - src.genesis then height - src.genesis + 1 else src.emaBatchSize
  }

  /** The heights requested to move the estimate on from `height`, newest first. */
  function RequestedHeights(src: Source, height: nat): (hs: seq<int>)
    requires src.genesis <= height
  {
    seq(BatchSize(src, height), i => height + 1 - i)
  }

  /** The requested heights are the newest `emaBatchSize` ones above genesis, each once and newest
      first; there is at least one. */
  lemma BatchWindow(src: Source, height: nat)
    requires src.genesis <= height && src.emaBatchSize >= 1
    ensures var hs := RequestedHeights(src, height);
            0 < |hs| == Min(src.emaBatchSize, height + 1 - src.genesis) &&
            (forall i :: 0 <= i < |hs| ==> hs[i] == height + 1 - i) &&
            forall h :: h in hs <==> src.genesis + 1 <= h <= height + 1 && height + 2 - src.emaBatchSize <= h
  {
    var hs := RequestedHeights(src, height);
    forall h | src.genesis + 1 <= h <= height + 1 && height + 2 - src.emaBatchSize <= h
      ensures h in hs
    {
      assert hs[height + 1 - h] == h;
    }
  }

  function Batch(src: Source, height: nat): (blocks: seq<Block>)
    requires src.genesis <= height && src.emaBatchSize >= 1
    ensures blocks != [] && blocks[0] == src.chain(height + 1)
  {
    BatchWindow(src, height);
    var hs := RequestedHeights(src, height);
    assert forall i :: 0 <= i < |hs| ==> hs[i] in hs;
    seq(|hs|, i requires 0 <= i < |hs| => src.chain(hs[i]))
  }

  function Next(src: Source, prev: Estimate): (e: Estimate)
    requires Good(src) && src.genesis <= prev.blockHeight
    ensures e.blockHeight == prev.blockHeight + 1
  {
    src.forBlock(Batch(src, prev.blockHeight), prev)
  }

  /** One turn as a function on estimates; below genesis, where no run starts, it only counts. */
  function NextOf(src: Source): (next: Turn)
    requires Good(src)
    ensures Climbs(next)
    ensures forall e: Estimate :: src.genesis <= e.blockHeight ==> next(e) == Next(src, e)
  {
    (e: Estimate) =>
      if src.genesis <= e.blockHeight then Next(src, e) else e.(blockHeight := e.blockHeight + 1)
  }

  /** The batch holds the newest `emaBatchSize` blocks above genesis, each once and newest first. */
  lemma BatchIsNewest(src: Source, height: nat)
    requires src.genesis <= height && src.emaBatchSize >= 1
    ensures var batch := Batch(src, height);
            |batch| == Min(src.emaBatchSize, height + 1 - src.genesis) &&
            forall i :: 0 <= i < |batch| ==> batch[i] == src.chain(height + 1 - i)
  {
    BatchWindow(src, height);
  }

  // ----- Resuming, for any function that climbs one height a turn -----

  type Turn = Estimate -> Estimate

  ghost predicate Climbs(next: Turn) {
    forall e: Estimate :: next(e).blockHeight == e.blockHeight + 1
  }

  /** The estimate `k` turns after `e`. */
  function After(next: Turn, e: Estimate, k: nat): (r: Estimate) {
    if k == 0 then e else next(After(next, e, k - 1))
  }

  lemma {:induction false} AfterClimbs(next: Turn, e: Estimate, k: nat)
    requires Climbs(next)
    ensures After(next, e, k).blockHeight == e.blockHeight + k
  {
    if k == 0 {
    } else {
      AfterClimbs(next, e, k - 1);
    }
  }

  lemma {:induction false} AfterComposes(next: Turn, e: Estimate, j: nat, k: nat)
    ensures After(next, After(next, e, j), k) == After(next, e, j + k)
  {
    if k == 0 {
    } else {
      AfterComposes(next, e, j, k - 1);
    }
  }

  /** `Math.max(defaultStartBlockHeight, genesisHeight + 1, fromHeight)`. */
  function StartHeight(genesis: nat, defaultStart: nat, fromHeight: int): (h: nat)
    ensures h > genesis && h >= fromHeight && h >= defaultStart
    ensures h == genesis + 1 || h == fromHeight || h == defaultStart
  {
    var a := if defaultStart < genesis + 1 then genesis + 1 else defaultStart;
    if a < fromHeight then fromHeight else a
  }

  function Zeros(height: nat): (e: Estimate) {
    Estimate(height, "", 0.0, 0.0, 0.0)
  }

  /** The uninterrupted recursion from zeros at `from - 1` up to height `h`. */
  function Recomputed(next: Turn, from: nat, h: nat): (e: Estimate)
    requires 0 < from <= h + 1
  {
    After(next, Zeros(from - 1), h - (from - 1))
  }

  /** A resume point: the estimate an uninterrupted recursion from `from` has at its height. */
  ghost predicate Correct(next: Turn, from: nat, e: Estimate)
    requires 0 < from
  {
    from <= e.blockHeight + 1 && e == Recomputed(next, from, e.blockHeight)
  }

  /** Resuming equals recomputing: from a correct point, any number of further turns gives
      exactly what the uninterrupted recursion has at the height reached. */
  lemma ResumeEqualsRecompute(next: Turn, from: nat, e: Estimate, k: nat)
    requires Climbs(next) && 0 < from && Correct(next, from, e)
    ensures Correct(next, from, After(next, e, k))
    ensures After(next, e, k) == Recomputed(next, from, e.blockHeight + k)
  {
    AfterClimbs(next, e, k);
    AfterComposes(next, Zeros(from - 1), e.blockHeight - (from - 1), k);
  }

  /** Where the loop starts: zeros below `from`, or the cached estimate when it is not below
      `from`. The quick mode ignores the cached height. */
  function StartingPoint(cached: Option<Estimate>, quick: bool, from: nat): (e: Estimate)
    requires from > 0
    ensures from <= e.blockHeight + 1
    ensures if !quick && cached.Some? && from <= cached.value.blockHeight then e == cached.value
            else e.blockHeight == from - 1 && e.low == e.med == e.high == 0.0
  {
    var cachedHeight := if !quick && cached.Some? then cached.value.blockHeight else 0;
    if from > cachedHeight then Zeros(from - 1) else cached.value
  }

  /** The height at which the do-while loop ends: it runs at least once, so a start at or past
      `toHeight` ends one height above the start. */
  function FinalHeight(start: nat, toHeight: nat): (h: nat) {
    if start < toHeight then toHeight else start + 1
  }

  /** The do-while loop. The block requests of turn `failAfter` fail, so a run can stop after
      any number of turns; every turn below `toHeight` caches its estimate. */
  method RunTurns(next: Turn, start: Estimate, toHeight: nat, cache: map<string, Estimate>, cacheKey: string,
                  failAfter: nat) returns (r: Result<Estimate>, cache': map<string, Estimate>)
    requires Climbs(next)
    ensures var turns := FinalHeight(start.blockHeight, toHeight) - start.blockHeight;
            (r.Ok? <==> turns <= failAfter) &&
            (r.Ok? ==> r.value == After(next, start, turns) && cache' == cache[cacheKey := r.value]) &&
            (r.Err? ==> cache' == if failAfter == 0 then cache else cache[cacheKey := After(next, start, failAfter)])
  {
    var prev, turn := start, 0;
    ghost var turns := FinalHeight(start.blockHeight, toHeight) - start.blockHeight;
    cache' := cache;
    while true
      invariant 0 <= turn <= failAfter && turn < turns
      invariant prev == After(next, start, turn) && prev.blockHeight == start.blockHeight + turn
      invariant cache' == if turn == 0 then cache else cache[cacheKey := prev]
      decreases turns - turn
    {
      if turn == failAfter { return Err("block not available"), cache'; }
      prev, turn := next(prev), turn + 1;
      assert cache'[cacheKey := prev] == cache[cacheKey := prev];
      if prev.blockHeight < toHeight {
        cache' := cache'[cacheKey := prev];
      }
      if !(toHeight > prev.blockHeight) { break; }
    }
    assert turn == turns;
    cache' := cache'[cacheKey := prev];
    return Ok(prev), cache';
  }

  /** A call of the batch function: the start it computed, how far it is asked to go, whether it is
      in the quick mode, and after how many turns the node stops answering. */
  datatype Call = Call(from: nat, toHeight: nat, quick: bool, failAfter: nat)

  /** The turns a call wants to make from where it starts. */
  function Turns(cached: Option<Estimate>, call: Call): (n: nat)
    requires 0 < call.from
  {
    var start := StartingPoint(cached, call.quick, call.from).blockHeight;
    FinalHeight(start, call.toHeight) - start
  }

  /** What a call leaves in the cache: the estimate it reached, if it made any turn. */
  function CachedAfter(next: Turn, cached: Option<Estimate>, call: Call): (c: Option<Estimate>)
    requires 0 < call.from
  {
    var turns := Min(call.failAfter, Turns(cached, call));
    if turns == 0 then cached else Some(After(next, StartingPoint(cached, call.quick, call.from), turns))
  }

  /** `getEstimateFeePerByteForBatch`, reading and writing the Redis cache: a run that is not cut
      short returns the starting point moved on to the final height, and any run leaves what it
      reached under its own key. */
  method GetEstimateFeePerByteForBatch(src: Source, defaultStart: nat, fromHeight: int, toHeight: nat,
                                       cache: map<string, Estimate>, cacheKey: string, quick: bool, failAfter: nat)
    returns (r: Result<Estimate>, cache': map<string, Estimate>)
    requires Good(src)
    ensures var cached := Lookup(cache, cacheKey);
            var call := Call(StartHeight(src.genesis, defaultStart, fromHeight), toHeight, quick, failAfter);
            (r.Ok? <==> Turns(cached, call) <= failAfter) &&
            (r.Ok? ==> r.value == After(NextOf(src), StartingPoint(cached, quick, call.from), Turns(cached, call))) &&
            Lookup(cache', cacheKey) == CachedAfter(NextOf(src), cached, call)
    ensures forall key :: key != cacheKey ==> Lookup(cache', key) == Lookup(cache, key)
  {
    var call := Call(StartHeight(src.genesis, defaultStart, fromHeight), toHeight, quick, failAfter);
    r, cache' := RunCall(NextOf(src), call, cache, cacheKey);
  }

  /** The call with its start computed, for any turn that climbs. */
  method RunCall(next: Turn, call: Call, cache: map<string, Estimate>, cacheKey: string)
    returns (r: Result<Estimate>, cache': map<string, Estimate>)
    requires Climbs(next) && 0 < call.from
    ensures var cached := Lookup(cache, cacheKey);
            (r.Ok? <==> Turns(cached, call) <= call.failAfter) &&
            (r.Ok? ==> r.value == After(next, StartingPoint(cached, call.quick, call.from), Turns(cached, call))) &&
            Lookup(cache', cacheKey) == CachedAfter(next, cached, call)
    ensures forall key :: key != cacheKey ==> Lookup(cache', key) == Lookup(cache, key)
  {
    var start := StartingPoint(Lookup(cache, cacheKey), call.quick, call.from);
    r, cache' := RunTurns(next, start, call.toHeight, cache, cacheKey, call.failAfter);
  }

  /** Every block a run requests lies above genesis and no higher than where the run ends. */
  lemma RequestsInWindow(src: Source, start: Estimate, toHeight: nat, turn: nat, h: int)
    requires Good(src) && src.genesis <= start.blockHeight
    requires turn < FinalHeight(start.blockHeight, toHeight) - start.blockHeight
    requires h in RequestedHeights(src, start.blockHeight + turn)
    ensures After(NextOf(src), start, turn).blockHeight == start.blockHeight + turn
    ensures src.genesis + 1 <= h <= FinalHeight(start.blockHeight, toHeight)
  {
    AfterClimbs(NextOf(src), start, turn);
    BatchWindow(src, start.blockHeight + turn);
  }

  /** `batch` holds the newest `emaBatchSize` blocks above genesis up to `height + 1`, newest first. */
  predicate Newest(src: Source, height: nat, batch: seq<Block>) {
    height >= src.genesis && |batch| == Min(src.emaBatchSize, height + 1 - src.genesis) &&
    forall i :: 0 <= i < |batch| ==> batch[i] == src.chain(height + 1 - i)
  }

  /** `e'` is the per-block estimate over these blocks, from `e` at `height`. */
  ghost predicate Takes(src: Source, height: nat, e: Estimate, e': Estimate) {
    e.blockHeight == height && exists batch: seq<Block> :: Newest(src, height, batch) && e' == src.forBlock(batch, e)
  }

  /** `next` takes a turn over the newest blocks from every estimate at or above genesis. */
  ghost predicate Driven(src: Source, next: Turn) {
    forall e: Estimate, e' :: IsNext(next, e, e') && src.genesis <= e.blockHeight ==> Takes(src, e.blockHeight, e, e')
  }

  predicate IsNext(next: Turn, e: Estimate, e': Estimate) {
    e' == next(e)
  }

  lemma NextTakesNewest(src: Source, e: Estimate)
    requires Good(src) && src.genesis <= e.blockHeight
    ensures Takes(src, e.blockHeight, e, Next(src, e))
  {
    BatchIsNewest(src, e.blockHeight);
    assert Newest(src, e.blockHeight, Batch(src, e.blockHeight));
  }

  lemma NextIsDriven(src: Source)
    requires Good(src)
    ensures Driven(src, NextOf(src))
  {
    var next := NextOf(src);
    forall e: Estimate, e' | IsNext(next, e, e') && src.genesis <= e.blockHeight
      ensures Takes(src, e.blockHeight, e, e')
    {
      NextTakesNewest(src, e);
    }
  }

  lemma DrivenTurns(src: Source, next: Turn, start: Estimate, turn: nat)
    requires Climbs(next) && Driven(src, next) && src.genesis <= start.blockHeight
    ensures Takes(src, start.blockHeight + turn, After(next, start, turn), After(next, start, turn + 1))
  {
    AfterClimbs(next, start, turn);
    assert IsNext(next, After(next, start, turn), After(next, start, turn + 1));
  }

  /** Every turn of a run is the per-block estimate over the newest blocks. */
  lemma TurnsTakeNewestBlocks(src: Source, start: Estimate, turn: nat)
    requires Good(src) && src.genesis <= start.blockHeight
    ensures Takes(src, start.blockHeight + turn, After(NextOf(src), start, turn), After(NextOf(src), start, turn + 1))
  {
    NextIsDriven(src);
    DrivenTurns(src, NextOf(src), start, turn);
  }

  function Lookup(cache: map<string, Estimate>, key: string): (e: Option<Estimate>) {
    if key in cache then Some(cache[key]) else None
  }

  /** The call starts from zeros, as its cached estimate is absent, too low, or ignored. */
  predicate Restarts(cached: Option<Estimate>, call: Call) {
    call.quick || cached.None? || cached.value.blockHeight < call.from
  }

  /** The height the estimates of a call recurse from: its own start after a restart, and
      otherwise the one behind the cached estimate. */
  function OriginOf(cached: Option<Estimate>, origin: nat, call: Call): (from: nat) {
    if Restarts(cached, call) then call.from else origin
  }

  /** Every run of the loop from a correct cache, cut short or not: what it returns at
      `toHeight` is the uninterrupted recursion, and what it leaves in the cache after any
      number of turns is a correct resume point for the next run. */
  lemma RunsKeepCacheCorrect(next: Turn, cached: Option<Estimate>, origin: nat, call: Call, turns: nat)
    requires Climbs(next) && 0 < call.from
    requires cached.Some? ==> 0 < origin && Correct(next, origin, cached.value)
    ensures var start := StartingPoint(cached, call.quick, call.from);
            var from := OriginOf(cached, origin, call);
            0 < from && Correct(next, from, start) && Correct(next, from, After(next, start, turns)) &&
            (start.blockHeight < call.toHeight ==>
               After(next, start, Turns(cached, call)) == Recomputed(next, from, call.toHeight))
  {
    var start, from := StartingPoint(cached, call.quick, call.from), OriginOf(cached, origin, call);
    assert Correct(next, from, start);
    ResumeEqualsRecompute(next, from, start, turns);
    if start.blockHeight < call.toHeight {
      ResumeEqualsRecompute(next, from, start, call.toHeight - start.blockHeight);
    }
  }

  predicate Started(calls: seq<Call>) {
    forall i :: 0 <= i < |calls| ==> 0 < calls[i].from
  }

  function CachedAfterAll(next: Turn, calls: seq<Call>): (c: Option<Estimate>)
    requires Started(calls)
  {
    if calls == [] then None
    else CachedAfter(next, CachedAfterAll(next, calls[..|calls| - 1]), calls[|calls| - 1])
  }

  /** The height behind the cached estimate after the calls. */
  function OriginAfterAll(next: Turn, calls: seq<Call>): (from: nat)
    requires Started(calls)
  {
    if calls == [] then 0
    else
      var front, call := calls[..|calls| - 1], calls[|calls| - 1];
      var cached := CachedAfterAll(next, front);
      if Min(call.failAfter, Turns(cached, call)) == 0 then OriginAfterAll(next, front)
      else OriginOf(cached, OriginAfterAll(next, front), call)
  }

  /** Over every sequence of calls, in either mode, from whatever heights, and each cut short
      anywhere, the cache holds a correct resume point, so the next call that reaches its
      `toHeight` returns an uninterrupted recursion. */
  lemma {:induction false} EveryCallResumesCorrectly(next: Turn, calls: seq<Call>, call: Call)
    requires Climbs(next) && Started(calls) && 0 < call.from
    ensures var cached, origin := CachedAfterAll(next, calls), OriginAfterAll(next, calls);
            var start := StartingPoint(cached, call.quick, call.from);
            (cached.Some? ==> 0 < origin && Correct(next, origin, cached.value)) &&
            (start.blockHeight < call.toHeight ==>
               0 < OriginOf(cached, origin, call) <= call.toHeight + 1 &&
               After(next, start, Turns(cached, call))
               == Recomputed(next, OriginOf(cached, origin, call), call.toHeight))
    decreases |calls|
  {
    if calls == [] {
    } else {
      var front, last := calls[..|calls| - 1], calls[|calls| - 1];
      EveryCallResumesCorrectly(next, front, last);
      var before := CachedAfterAll(next, front);
      RunsKeepCacheCorrect(next, before, OriginAfterAll(next, front), last, Min(last.failAfter, Turns(before, last)));
    }
    RunsKeepCacheCorrect(next, CachedAfterAll(next, calls), OriginAfterAll(next, calls), call, 0);
  }

  /** A call recurses from its own start in the quick mode, and in the full mode when all calls
      before it had the same start. */
  lemma {:induction false} OwnOrigin(next: Turn, calls: seq<Call>, call: Call)
    requires Started(calls) && 0 < call.from
    requires call.quick || forall i :: 0 <= i < |calls| ==> calls[i].from == call.from
    ensures OriginOf(CachedAfterAll(next, calls), OriginAfterAll(next, calls), call) == call.from
    decreases |calls|
  {
    if call.quick || calls == [] {
    } else {
      var front, last := calls[..|calls| - 1], calls[|calls| - 1];
      OwnOrigin(next, front, call.(quick := false));
      OwnOrigin(next, front, last.(quick := false));
      assert CachedAfterAll(next, front).Some? ==>
          OriginAfterAll(next, front) == call.from || CachedAfterAll(next, front).value.blockHeight < call.from;
    }
  }

  // ----- The estimator of this service -----

  /** `getEstimateFeePerByteForBlock` under a configuration, for blocks with sized transactions. */
  function Estimator(cfg: Config): (f: PerBlock)
    requires Sane(cfg)
  {
    (batch: seq<Block>, prev: Estimate) =>
      if batch == [] then prev
      else if Sized(batch[0].transactions) then EstimateForBlock(batch, prev, cfg)
      else Estimate(batch[0].height, batch[0].id, 0.0, 0.0, 0.0)
  }

  lemma EstimatorIsGood(src: Source, cfg: Config)
    requires Sane(cfg) && src.emaBatchSize >= 1 && src.forBlock == Estimator(cfg)
    requires forall h :: src.chain(h).height == h
    ensures Good(src)
  {
  }

  lemma {:induction false} OrderOverTurns(next: Turn, e: Estimate, k: nat)
    requires Climbs(next) && InOrder(e)
    requires forall p :: InOrder(p) && e.blockHeight <= p.blockHeight ==> InOrder(next(p))
    ensures InOrder(After(next, e, k)) && After(next, e, k).blockHeight == e.blockHeight + k
  {
    if k == 0 {
    } else {
      OrderOverTurns(next, e, k - 1);
    }
  }

  /** Over every run on blocks that pay their minimum fees, each estimate has non-negative
      fees and a high fee of at least 1.3 times the medium one. */
  lemma EstimatesStayInOrder(src: Source, cfg: Config, e: Estimate, k: nat)
    requires Sane(cfg) && src.forBlock == Estimator(cfg)
    requires src.emaBatchSize >= 1 && forall h :: src.chain(h).height == h
    requires src.genesis <= e.blockHeight && InOrder(e)
    requires forall h :: Sized(src.chain(h).transactions) && Paid(src.chain(h).transactions)
    ensures Good(src) && InOrder(After(NextOf(src), e, k))
  {
    EstimatorIsGood(src, cfg);
    forall p | InOrder(p) && e.blockHeight <= p.blockHeight
      ensures InOrder(NextOf(src)(p))
    {
      EstimatorKeepsOrder(cfg, Batch(src, p.blockHeight), p);
    }
    OrderOverTurns(NextOf(src), e, k);
  }

  /** The turn from `height` is on a busy batch whose newest block has the fees `f`. */
  ghost predicate BusyTurn(src: Source, cfg: Config, height: nat, f: Fees) {
    forall batch: seq<Block> ::
      Newest(src, height, batch) && batch != [] && Sane(cfg) && Sized(batch[0].transactions) ==>
        FeePerByte(batch[0]) == f && Busy(batch, cfg)
  }

  predicate IsPow(p: real, x: real, k: nat) {
    p == Pow(x, k)
  }

  /** The share `keep^k` of the distance between `start` and the fees is left at `e`. */
  ghost predicate Left(e: Estimate, start: Estimate, f: Fees, keep: real, k: nat) {
    forall p :: IsPow(p, keep, k) ==> Distance(e, start, f, p)
  }

  lemma BusyBatchShrinks(batch: seq<Block>, cfg: Config, e: Estimate, start: Estimate, f: Fees, k: nat)
    requires batch != [] && Sized(batch[0].transactions) && Sane(cfg) && Busy(batch, cfg) && f == FeePerByte(batch[0])
    requires Left(e, start, f, 1.0 - cfg.alpha, k)
    ensures Left(EstimateForBlock(batch, e, cfg), start, f, 1.0 - cfg.alpha, k + 1)
  {
    forall p | IsPow(p, 1.0 - cfg.alpha, k + 1)
      ensures Distance(EstimateForBlock(batch, e, cfg), start, f, p)
    {
      var before := Pow(1.0 - cfg.alpha, k);
      assert IsPow(before, 1.0 - cfg.alpha, k);
      BusyStepShrinks(batch, e, start, f, cfg, before, p);
    }
  }

  lemma BusyTurnShrinks(src: Source, cfg: Config, height: nat, e: Estimate, e': Estimate, start: Estimate, f: Fees,
                        k: nat)
    requires Good(src) && Sane(cfg) && src.forBlock == Estimator(cfg)
    requires forall h :: Sized(src.chain(h).transactions)
    requires Takes(src, height, e, e') && BusyTurn(src, cfg, height, f) && Left(e, start, f, 1.0 - cfg.alpha, k)
    ensures Left(e', start, f, 1.0 - cfg.alpha, k + 1)
  {
    var batch :| Newest(src, height, batch) && e' == src.forBlock(batch, e);
    assert batch[0] == src.chain(height + 1);
    BusyBatchShrinks(batch, cfg, e, start, f, k);
  }

  ghost predicate BusyTurns(src: Source, cfg: Config, height: nat, f: Fees, k: nat) {
    Good(src) && Sane(cfg) && src.forBlock == Estimator(cfg) && (forall h :: Sized(src.chain(h).transactions)) &&
    forall h :: height <= h < height + k ==> BusyTurn(src, cfg, h, f)
  }

  lemma BusyTurnLeaves(src: Source, next: Turn, cfg: Config, start: Estimate, f: Fees, n: nat, k: nat)
    requires Climbs(next) && Driven(src, next) && src.genesis <= start.blockHeight && k < n
    requires BusyTurns(src, cfg, start.blockHeight, f, n)
    requires Left(After(next, start, k), start, f, 1.0 - cfg.alpha, k)
    ensures Left(After(next, start, k + 1), start, f, 1.0 - cfg.alpha, k + 1)
  {
    DrivenTurns(src, next, start, k);
    BusyTurnShrinks(src, cfg, start.blockHeight + k, After(next, start, k), After(next, start, k + 1), start, f, k);
  }

  lemma {:induction false} DrivenTurnsConverge(src: Source, next: Turn, cfg: Config, start: Estimate, f: Fees, n: nat,
                                               k: nat)
    requires Climbs(next) && Driven(src, next) && src.genesis <= start.blockHeight && k <= n
    requires BusyTurns(src, cfg, start.blockHeight, f, n)
    ensures Left(After(next, start, k), start, f, 1.0 - cfg.alpha, k)
  {
    if k == 0 {
    } else {
      DrivenTurnsConverge(src, next, cfg, start, f, n, k - 1);
      BusyTurnLeaves(src, next, cfg, start, f, n, k - 1);
    }
  }

  /** Over `k` turns on busy blocks of equal fees, the share `(1 - alpha)^k` of the distance between
      the estimate and these fees is left. */
  lemma EqualFeesConverge(src: Source, cfg: Config, start: Estimate, f: Fees, k: nat)
    requires BusyTurns(src, cfg, start.blockHeight, f, k) && src.genesis <= start.blockHeight
    ensures Distance(After(NextOf(src), start, k), start, f, Pow(1.0 - cfg.alpha, k))
  {
    NextIsDriven(src);
    DrivenTurnsConverge(src, NextOf(src), cfg, start, f, k, k);
    assert IsPow(Pow(1.0 - cfg.alpha, k), 1.0 - cfg.alpha, k);
  }

  lemma EstimatorKeepsOrder(cfg: Config, batch: seq<Block>, prev: Estimate)
    requires Sane(cfg) && batch != [] && Sized(batch[0].transactions) && Paid(batch[0].transactions) && InOrder(prev)
    ensures InOrder(Estimator(cfg)(batch, prev))
  {
    EstimateKeepsOrder(batch, prev, cfg);
  }
}
