/**
  The per-block part of the dynamic fee estimator: the fees of one block, and the decayed
  average block size that switches between exponential smoothing and a reset. Numbers are
  reals; rounding is not modelled.
 */
module BlockFees {
  import opened Sorting
  import opened ByteWindow

  datatype Tx = Tx(size: nat, fee: int, minFee: int)

  datatype Block = Block(height: nat, id: string, transactions: seq<Tx>)

  datatype Fees = Fees(low: real, med: real, high: real)

  datatype Estimate = Estimate(blockHeight: nat, blockID: string, low: real, med: real, high: real)

  /** `alpha` is the smoothing factor and `decayFactor` the factor of the block-size average. */
  datatype Config = Config(alpha: real, decayFactor: real)

  predicate Sane(cfg: Config) {
    0.0 <= cfg.alpha <= 1.0 && 0.0 <= cfg.decayFactor <= 1.0
  }

  predicate Sized(txs: seq<Tx>) {
    forall i :: 0 <= i < |txs| ==> txs[i].size > 0
  }

  predicate Paid(txs: seq<Tx>) {
    forall i :: 0 <= i < |txs| ==> txs[i].fee >= txs[i].minFee
  }

  // ----- Fees of one block -----

  function SizeOf(txs: seq<Tx>): (n: nat) {
    if txs == [] then 0 else SizeOf(txs[..|txs| - 1]) + txs[|txs| - 1].size
  }

  /** `calculateBlockSize`. */
  method CalculateBlockSize(block: Block) returns (blockSize: nat)
    ensures blockSize == SizeOf(block.transactions)
  {
    blockSize := 0;
    for i := 0 to |block.transactions|
      invariant blockSize == SizeOf(block.transactions[..i])
    {
      blockSize := blockSize + block.transactions[i].size;
      assert block.transactions[..i + 1][..i] == block.transactions[..i];
    }
    assert block.transactions[..|block.transactions|] == block.transactions;
  }

  function Priority(tx: Tx): (p: real)
    requires tx.size > 0
    ensures tx.fee >= tx.minFee ==> p >= 0.0
  {
    (tx.fee - tx.minFee) as real / tx.size as real
  }

  function Details(txs: seq<Tx>): (ds: seq<Detail>)
    requires Sized(txs)
    ensures |ds| == |txs| && PositiveSizes(ds)
    ensures Paid(txs) ==> forall i :: 0 <= i < |ds| ==> ds[i].feePriority >= 0.0
  {
    seq(|txs|, i requires 0 <= i < |txs| => Detail(txs[i].size, Priority(txs[i])))
  }

  function PriorityKey(d: Detail): (p: real) {
    d.feePriority
  }

  function Max(a: real, b: real): (m: real) {
    if a < b then b else a
  }

  /** The fee details in the order of `transactionDetails.sort`. */
  function SortedDetails(txs: seq<Tx>): (ds: seq<Detail>)
    requires Sized(txs)
    ensures |ds| == |txs|
  {
    SortIsOrderedPermutation(Details(txs), PriorityKey);
    SortBy(Details(txs), PriorityKey)
  }

  /** The low fee: read from the first sorted transaction only when the block holds 12.5 KiB. */
  function LowFee(txs: seq<Tx>): (p: real)
    requires Sized(txs)
  {
    if SizeOf(txs) < 12800 then 0.0 else SortedDetails(txs)[0].feePriority
  }

  /** `calculateFeePerByte`. */
  function FeePerByte(block: Block): (f: Fees)
    requires Sized(block.transactions)
  {
    var sorted := SortedDetails(block.transactions);
    var med := AvgFeePerByte(Medium, sorted);
    Fees(LowFee(block.transactions), med, Max(AvgFeePerByte(High, sorted), 1.3 * med + 1.0))
  }

  method CalculateFeePerByte(block: Block) returns (f: Fees)
    requires Sized(block.transactions)
    ensures f == FeePerByte(block)
  {
    var sorted := SortedDetails(block.transactions);
    var blockSize := CalculateBlockSize(block);
    var low := if blockSize < 12800 then 0.0 else sorted[0].feePriority;
    var med := CalculateAvgFeePerByte(Medium, sorted);
    var high := CalculateAvgFeePerByte(High, sorted);
    f := Fees(low, med, Max(high, 1.3 * med + 1.0));
  }

  /** The first sorted detail carries the smallest fee priority. */
  lemma FirstDetailIsSmallest(txs: seq<Tx>)
    requires Sized(txs) && txs != []
    ensures exists i :: 0 <= i < |txs| && SortedDetails(txs)[0].feePriority == Priority(txs[i])
    ensures forall i :: 0 <= i < |txs| ==> SortedDetails(txs)[0].feePriority <= Priority(txs[i])
  {
    var ds, sorted := Details(txs), SortedDetails(txs);
    SortIsOrderedPermutation(ds, PriorityKey);
    assert sorted[0] in ds;
    var k :| 0 <= k < |ds| && ds[k] == sorted[0];
    assert sorted[0].feePriority == Priority(txs[k]);
    forall i | 0 <= i < |txs|
      ensures sorted[0].feePriority <= Priority(txs[i])
    {
      assert ds[i] in sorted;
      var j :| 0 <= j < |sorted| && sorted[j] == ds[i];
      assert PriorityKey(sorted[0]) <= PriorityKey(sorted[j]);
    }
  }

  /** The low fee of a full block is defined, and it is the smallest fee priority. */
  lemma LowFeeIsSmallestPriority(txs: seq<Tx>)
    requires Sized(txs) && SizeOf(txs) >= 12800
    ensures txs != []
    ensures exists i :: 0 <= i < |txs| && LowFee(txs) == Priority(txs[i])
    ensures forall i :: 0 <= i < |txs| ==> LowFee(txs) <= Priority(txs[i])
  {
    FirstDetailIsSmallest(txs);
    var i :| 0 <= i < |txs| && SortedDetails(txs)[0].feePriority == Priority(txs[i]);
    assert LowFee(txs) == Priority(txs[i]);
  }

  /** Fees are non-negative and the high fee exceeds 1.3 times the medium one. */
  lemma BlockFeesOrdered(block: Block)
    requires Sized(block.transactions) && Paid(block.transactions)
    ensures var f := FeePerByte(block); f.low >= 0.0 && f.med >= 0.0 && f.high >= 1.3 * f.med + 1.0
  {
    var sorted := SortedDetails(block.transactions);
    SortedDetailsAreGood(block.transactions);
    AverageBound(Medium, sorted, Highest(sorted));
    LowFeeNonNegative(block.transactions);
  }

  lemma SortedDetailsAreGood(txs: seq<Tx>)
    requires Sized(txs) && Paid(txs)
    ensures var sorted := SortedDetails(txs); PositiveSizes(sorted) && PrioritiesUpTo(sorted, Highest(sorted))
  {
    var ds, sorted := Details(txs), SortedDetails(txs);
    SortIsOrderedPermutation(ds, PriorityKey);
    forall i | 0 <= i < |sorted|
      ensures sorted[i].size > 0 && sorted[i].feePriority >= 0.0
    {
      assert sorted[i] in ds;
      var j :| 0 <= j < |ds| && ds[j] == sorted[i];
    }
  }

  lemma LowFeeNonNegative(txs: seq<Tx>)
    requires Sized(txs) && Paid(txs)
    ensures LowFee(txs) >= 0.0
  {
    if SizeOf(txs) >= 12800 {
      LowFeeIsSmallestPriority(txs);
    }
  }

  function Highest(ds: seq<Detail>): (m: real)
    ensures m >= 0.0 && forall i :: 0 <= i < |ds| ==> ds[i].feePriority <= m
  {
    if ds == [] then 0.0
    else
      var m := Highest(ds[..|ds| - 1]);
      assert forall i :: 0 <= i < |ds| - 1 ==> ds[i] == ds[..|ds| - 1][i];
      Max(m, ds[|ds| - 1].feePriority)
  }

  /** The size of a block is where its last transaction ends. */
  lemma {:induction false} SizeIsEnd(txs: seq<Tx>)
    requires Sized(txs)
    ensures EndPos(Details(txs), 0) == SizeOf(txs)
    decreases |txs|
  {
    if txs == [] {
    } else {
      var front, last := txs[..|txs| - 1], txs[|txs| - 1];
      SizeIsEnd(front);
      assert Details(txs) == Details(front) + [Detail(last.size, Priority(last))];
      EndOfAppend(Details(front), Detail(last.size, Priority(last)), 0);
    }
  }

  lemma {:induction false} EndOfAppend(ds: seq<Detail>, d: Detail, c: nat)
    ensures EndPos(ds + [d], c) == EndPos(ds, c) + d.size
    decreases |ds|
  {
    if ds == [] {
      assert [d][1..] == [];
    } else {
      assert (ds + [d])[1..] == ds[1..] + [d];
      EndOfAppend(ds[1..], d, c + ds[0].size);
    }
  }

  /** The fees of a block, with the constants of the byte windows: the medium window lies from a
      quarter to three quarters of 15 KiB, the high one from four fifths to its end. */
  lemma FeesOfBlock(block: Block)
    requires Sized(block.transactions)
    ensures var f, ds := FeePerByte(block), SortedDetails(block.transactions);
            f.med == TotalFeePriority(ds, 0, 3840, 11520) / 7681.0 &&
            var high := TotalFeePriority(ds, 0, 12288, 15360) / 3073.0;
            f.high >= high && f.high >= 1.3 * f.med + 1.0 && (f.high == high || f.high == 1.3 * f.med + 1.0) &&
            (SizeOf(block.transactions) < 12800 ==> f.low == 0.0)
  {
    var ds := SortedDetails(block.transactions);
    WindowAverages(ds);
    MaxIsLarger(AvgFeePerByte(High, ds), 1.3 * AvgFeePerByte(Medium, ds) + 1.0);
  }

  lemma WindowAverages(ds: seq<Detail>)
    ensures AvgFeePerByte(Medium, ds) == TotalFeePriority(ds, 0, 3840, 11520) / 7681.0
    ensures AvgFeePerByte(High, ds) == TotalFeePriority(ds, 0, 12288, 15360) / 3073.0
  {
    assert LowerBytePos(Medium) == 3840 && UpperBytePos(Medium) == 11520;
    assert LowerBytePos(High) == 12288 && UpperBytePos(High) == 15360;
  }

  lemma MaxIsLarger(a: real, b: real)
    ensures Max(a, b) >= a && Max(a, b) >= b && (Max(a, b) == a || Max(a, b) == b)
  {
  }

  /** A transaction's priority is what it pays per byte above its minimum. */
  lemma PriorityPaysFee(tx: Tx)
    requires tx.size > 0
    ensures tx.minFee as real + Priority(tx) * tx.size as real == tx.fee as real
  {
  }

  // ----- The decayed average of block sizes -----

  /** The weights `1, decay, decay^2, ...` that the reduce runs through, from `weight` on. */
  function Weights(n: nat, weight: real, decay: real): (ws: seq<real>)
    ensures |ws| == n && (n > 0 ==> ws[0] == weight)
    ensures 0.0 <= weight && 0.0 <= decay ==> forall i :: 0 <= i < n ==> ws[i] >= 0.0
  {
    if n == 0 then []
    else
      assert 0.0 <= weight && 0.0 <= decay ==> 0.0 <= weight * decay;
      [weight] + Weights(n - 1, weight * decay, decay)
  }

  function Total(ws: seq<real>): (t: real)
    ensures (forall i :: 0 <= i < |ws| ==> ws[i] >= 0.0) ==> t >= 0.0 && (ws != [] ==> t >= ws[0])
  {
    if ws == [] then 0.0 else ws[0] + Total(ws[1..])
  }

  function WeightedSum(sizes: seq<nat>, ws: seq<real>): (s: real)
    requires |sizes| == |ws|
  {
    if sizes == [] then 0.0 else Times(ws[0], sizes[0]) + WeightedSum(sizes[1..], ws[1..])
  }

  function WeightedAvg(sizes: seq<nat>, decay: real): (avg: real)
    requires sizes != [] && 0.0 <= decay
  {
    var ws := Weights(|sizes|, 1.0, decay);
    WeightedSum(sizes, ws) / Total(ws)
  }

  function BlockSizes(blocks: seq<Block>): (sizes: seq<nat>) {
    seq(|blocks|, i requires 0 <= i < |blocks| => SizeOf(blocks[i].transactions))
  }

  /** `calculateWeightedAvg`: the reduce with its `weight` and `totalWeight` accumulators. */
  method CalculateWeightedAvg(blocks: seq<Block>, decay: real) returns (avg: real)
    requires blocks != [] && 0.0 <= decay
    ensures avg == WeightedAvg(BlockSizes(blocks), decay)
  {
    var sizes := BlockSizes(blocks);
    var blockSizeSum, totalWeight := AccumulateSizes(sizes, decay);
    avg := blockSizeSum / totalWeight;
  }

  method AccumulateSizes(sizes: seq<nat>, decay: real) returns (blockSizeSum: real, totalWeight: real)
    ensures blockSizeSum == WeightedSum(sizes, Weights(|sizes|, 1.0, decay))
    ensures totalWeight == Total(Weights(|sizes|, 1.0, decay))
  {
    var weight := 1.0;
    blockSizeSum, totalWeight := 0.0, 0.0;
    ghost var ws := Weights(|sizes|, 1.0, decay);
    for i := 0 to |sizes|
      invariant i < |sizes| ==> weight == ws[i]
      invariant blockSizeSum + WeightedSum(sizes[i..], ws[i..]) == WeightedSum(sizes, ws)
      invariant totalWeight + Total(ws[i..]) == Total(ws)
    {
      SumsUnfold(sizes, ws, i);
      blockSizeSum := AddScaled(blockSizeSum, sizes[i], weight);
      totalWeight := totalWeight + weight;
      weight := NextWeight(|sizes|, weight, decay, i);
    }
  }

  method AddScaled(sum: real, size: nat, weight: real) returns (sum': real)
    ensures sum' == sum + Times(weight, size)
  {
    TimesIsProduct(weight, size);
    sum' := sum + size as real * weight;
  }

  method NextWeight(n: nat, weight: real, decay: real, i: nat) returns (weight': real)
    requires i < n && weight == Weights(n, 1.0, decay)[i]
    ensures i + 1 < n ==> weight' == Weights(n, 1.0, decay)[i + 1]
  {
    if i + 1 < n {
      WeightsDecay(n, 1.0, decay, i);
    }
    weight' := weight * decay;
  }

  lemma SumsUnfold(sizes: seq<nat>, ws: seq<real>, i: nat)
    requires i < |sizes| == |ws|
    ensures WeightedSum(sizes[i..], ws[i..]) == Times(ws[i], sizes[i]) + WeightedSum(sizes[i + 1..], ws[i + 1..])
    ensures Total(ws[i..]) == ws[i] + Total(ws[i + 1..])
  {
    assert sizes[i..][1..] == sizes[i + 1..] && ws[i..][1..] == ws[i + 1..];
  }

  lemma {:induction false} WeightsDecay(n: nat, weight: real, decay: real, i: nat)
    requires i + 1 < n
    ensures Weights(n, weight, decay)[i + 1] == Weights(n, weight, decay)[i] * decay
    decreases n
  {
    if i == 0 {
    } else {
      WeightsDecay(n - 1, weight * decay, decay, i - 1);
    }
  }

  lemma {:induction false} WeightedSumBounds(sizes: seq<nat>, ws: seq<real>, least: nat, most: nat)
    requires |sizes| == |ws| && forall i :: 0 <= i < |ws| ==> ws[i] >= 0.0
    requires forall i :: 0 <= i < |sizes| ==> least <= sizes[i] <= most
    ensures Times(Total(ws), least) <= WeightedSum(sizes, ws) <= Times(Total(ws), most)
    decreases |sizes|
  {
    if sizes != [] {
      WeightedSumBounds(sizes[1..], ws[1..], least, most);
      TimesAdds(ws[0], Total(ws[1..]), least);
      TimesAdds(ws[0], Total(ws[1..]), most);
      TimesGrows(ws[0], least, sizes[0]);
      TimesGrows(ws[0], sizes[0], most);
    } else {
      TimesAdds(0.0, 0.0, least);
      TimesAdds(0.0, 0.0, most);
    }
  }

  lemma {:induction false} TimesAdds(p: real, q: real, w: nat)
    ensures Times(p + q, w) == Times(p, w) + Times(q, w)
  {
    if w == 0 {
    } else {
      TimesAdds(p, q, w - 1);
    }
  }

  lemma {:induction false} TimesGrows(p: real, v: nat, w: nat)
    requires p >= 0.0 && v <= w
    ensures Times(p, v) <= Times(p, w)
    decreases w
  {
    if v < w {
      TimesGrows(p, v, w - 1);
    }
  }

  lemma NonNegative(a: real, b: real)
    requires a >= 0.0 && b >= 0.0
    ensures a * b >= 0.0
  {
  }

  /** The average lies between the smallest and the largest block of the batch. */
  lemma WeightedAvgBetween(sizes: seq<nat>, decay: real, least: nat, most: nat)
    requires sizes != [] && 0.0 <= decay
    requires forall i :: 0 <= i < |sizes| ==> least <= sizes[i] <= most
    ensures least as real <= WeightedAvg(sizes, decay) <= most as real
  {
    var ws := Weights(|sizes|, 1.0, decay);
    WeightedSumBounds(sizes, ws, least, most);
    QuotientBetween(WeightedSum(sizes, ws), Total(ws), least, most);
  }

  lemma QuotientBetween(sum: real, total: real, least: nat, most: nat)
    requires total > 0.0 && Times(total, least) <= sum <= Times(total, most)
    ensures least as real <= sum / total <= most as real
  {
    TimesIsProduct(total, least);
    TimesIsProduct(total, most);
    QuotientGrows(Times(total, least), sum, total);
    QuotientGrows(sum, Times(total, most), total);
    QuotientOfProduct(total, least as real, Times(total, least));
    QuotientOfProduct(total, most as real, Times(total, most));
  }

  lemma QuotientGrows(a: real, b: real, total: real)
    requires total > 0.0 && a <= b
    ensures a / total <= b / total
  {
    NonNegative(b - a, 1.0 / total);
  }

  lemma QuotientOfProduct(total: real, x: real, p: real)
    requires total > 0.0 && p == total * x
    ensures p / total == x
  {
  }

  function Pow(x: real, k: nat): (p: real) {
    if k == 0 then 1.0 else x * Pow(x, k - 1)
  }

  function Powers(x: real, n: nat): (ps: seq<real>) {
    seq(n, i requires 0 <= i < n => Pow(x, i))
  }

  /** The sum over `i < n` of `ws[i]` times `sizes[i]`. */
  function SumTo(sizes: seq<nat>, ws: seq<real>, n: nat): (s: real)
    requires n <= |sizes| == |ws|
  {
    if n == 0 then 0.0 else SumTo(sizes, ws, n - 1) + Times(ws[n - 1], sizes[n - 1])
  }

  function TotalTo(ws: seq<real>, n: nat): (t: real)
    requires n <= |ws|
  {
    if n == 0 then 0.0 else TotalTo(ws, n - 1) + ws[n - 1]
  }

  lemma {:induction false} SumsAreSumsTo(sizes: seq<nat>, ws: seq<real>, n: nat)
    requires n <= |sizes| == |ws|
    ensures SumTo(sizes, ws, n) + WeightedSum(sizes[n..], ws[n..]) == WeightedSum(sizes, ws)
    ensures TotalTo(ws, n) + Total(ws[n..]) == Total(ws)
  {
    if n == 0 {
      assert sizes[0..] == sizes && ws[0..] == ws;
    } else {
      SumsAreSumsTo(sizes, ws, n - 1);
      SumsUnfold(sizes, ws, n - 1);
    }
  }

  lemma {:induction false} WeightIsPower(n: nat, decay: real, i: nat)
    requires i < n
    ensures Weights(n, 1.0, decay)[i] == Pow(decay, i)
    decreases i
  {
    if i == 0 {
    } else {
      WeightIsPower(n, decay, i - 1);
      WeightsDecay(n, 1.0, decay, i - 1);
    }
  }

  /** The size of the `i`-th newest block weighs `decay` to the power of `i`. */
  lemma WeightedAvgDecays(sizes: seq<nat>, decay: real)
    requires sizes != [] && 0.0 <= decay
    ensures var ws := Powers(decay, |sizes|);
            TotalTo(ws, |ws|) > 0.0 && WeightedAvg(sizes, decay) == SumTo(sizes, ws, |ws|) / TotalTo(ws, |ws|)
  {
    var ws := Weights(|sizes|, 1.0, decay);
    forall i | 0 <= i < |sizes|
      ensures ws[i] == Powers(decay, |sizes|)[i]
    {
      WeightIsPower(|sizes|, decay, i);
    }
    assert ws == Powers(decay, |sizes|);
    SumsAreSumsTo(sizes, ws, |sizes|);
  }

  // ----- One estimation step -----

  function Smooth(alpha: real, fee: real, prev: real): (r: real) {
    alpha * fee + (1.0 - alpha) * prev
  }

  /** `getEstimateFeePerByteForBlock`. */
  function EstimateForBlock(batch: seq<Block>, prev: Estimate, cfg: Config): (e: Estimate)
    requires batch != [] && Sized(batch[0].transactions) && Sane(cfg)
  {
    var fees := FeePerByte(batch[0]);
    if WeightedAvg(BlockSizes(batch), cfg.decayFactor) > 12800.0 || SizeOf(batch[0].transactions) as real > 15155.2 then
      Estimate(batch[0].height, batch[0].id, Smooth(cfg.alpha, fees.low, prev.low),
               Smooth(cfg.alpha, fees.med, prev.med), Smooth(cfg.alpha, fees.high, prev.high))
    else
      Estimate(batch[0].height, batch[0].id, 0.0, 0.0, 0.0)
  }

  method GetEstimateFeePerByteForBlock(batch: seq<Block>, prev: Estimate, cfg: Config) returns (e: Estimate)
    requires batch != [] && Sized(batch[0].transactions) && Sane(cfg)
    ensures e == EstimateForBlock(batch, prev, cfg)
  {
    var wavgBlockBatch := CalculateWeightedAvg(batch, cfg.decayFactor);
    var sizeLastBlock := CalculateBlockSize(batch[0]);
    var fees := CalculateFeePerByte(batch[0]);
    if wavgBlockBatch > 12800.0 || sizeLastBlock as real > 15155.2 {
      e := Estimate(batch[0].height, batch[0].id, Smooth(cfg.alpha, fees.low, prev.low),
                    Smooth(cfg.alpha, fees.med, prev.med), Smooth(cfg.alpha, fees.high, prev.high));
    } else {
      e := Estimate(batch[0].height, batch[0].id, 0.0, 0.0, 0.0);
    }
  }

  /** The smoothing condition, by the decayed average size and the size of the newest block. */
  predicate Busy(batch: seq<Block>, cfg: Config)
    requires batch != [] && 0.0 <= cfg.decayFactor
  {
    WeightedAvg(BlockSizes(batch), cfg.decayFactor) > 12.5 * 1024.0 ||
    SizeOf(batch[0].transactions) as real > 14.8 * 1024.0
  }

  /** Each estimate moves towards its fee by the share `alpha` of their distance. */
  predicate Moves(e: Estimate, prev: Estimate, f: Fees, alpha: real) {
    e.low - prev.low == alpha * (f.low - prev.low) && e.med - prev.med == alpha * (f.med - prev.med) &&
    e.high - prev.high == alpha * (f.high - prev.high)
  }

  /** A step moves each estimate towards the newest block's fee by the share `alpha` of their
      distance when the batch is busy, and resets it otherwise. */
  lemma StepMovesByAlpha(batch: seq<Block>, prev: Estimate, cfg: Config)
    requires batch != [] && Sized(batch[0].transactions) && Sane(cfg)
    ensures var e, f := EstimateForBlock(batch, prev, cfg), FeePerByte(batch[0]);
            e.blockHeight == batch[0].height && e.blockID == batch[0].id &&
            if Busy(batch, cfg) then Moves(e, prev, f, cfg.alpha) else e.low == e.med == e.high == 0.0
  {
    var f := FeePerByte(batch[0]);
    SmoothMoves(cfg.alpha, f.low, prev.low);
    SmoothMoves(cfg.alpha, f.med, prev.med);
    SmoothMoves(cfg.alpha, f.high, prev.high);
  }

  lemma SmoothMoves(alpha: real, fee: real, prev: real)
    ensures Smooth(alpha, fee, prev) - prev == alpha * (fee - prev)
  {
  }

  /** How far the estimate is from the fees, as a share of how far another one is. */
  predicate Distance(e: Estimate, from: Estimate, f: Fees, share: real) {
    e.low - f.low == share * (from.low - f.low) && e.med - f.med == share * (from.med - f.med) &&
    e.high - f.high == share * (from.high - f.high)
  }

  /** A busy step leaves the share `1 - alpha` of the distance to the newest block's fees. */
  lemma BusyStepShrinks(batch: seq<Block>, prev: Estimate, from: Estimate, f: Fees, cfg: Config, share: real,
                        share': real)
    requires batch != [] && Sized(batch[0].transactions) && Sane(cfg) && Busy(batch, cfg)
    requires f == FeePerByte(batch[0]) && Distance(prev, from, f, share) && share' == (1.0 - cfg.alpha) * share
    ensures Distance(EstimateForBlock(batch, prev, cfg), from, f, share')
  {
    StepMovesByAlpha(batch, prev, cfg);
    ShrinkDistance(EstimateForBlock(batch, prev, cfg), prev, from, f, cfg.alpha, share, share');
  }

  lemma ShrinkDistance(e: Estimate, prev: Estimate, from: Estimate, f: Fees, alpha: real, share: real, share': real)
    requires Moves(e, prev, f, alpha) && Distance(prev, from, f, share) && share' == (1.0 - alpha) * share
    ensures Distance(e, from, f, share')
  {
    Shrink(alpha, e.low, prev.low, f.low, share, from.low - f.low);
    Shrink(alpha, e.med, prev.med, f.med, share, from.med - f.med);
    Shrink(alpha, e.high, prev.high, f.high, share, from.high - f.high);
  }

  lemma Shrink(alpha: real, e: real, prev: real, fee: real, share: real, first: real)
    requires e - prev == alpha * (fee - prev) && prev - fee == share * first
    ensures e - fee == ((1.0 - alpha) * share) * first
  {
    assert e - fee == (1.0 - alpha) * (prev - fee);
  }

  // ----- Order of the estimates -----

  predicate InOrder(e: Estimate) {
    e.low >= 0.0 && e.med >= 0.0 && e.high >= 0.0 && e.high >= 1.3 * e.med
  }

  lemma SmoothKeepsOrder(alpha: real, fees: Fees, prev: Estimate)
    requires 0.0 <= alpha <= 1.0 && InOrder(prev)
    requires fees.low >= 0.0 && fees.med >= 0.0 && fees.high >= 1.3 * fees.med
    ensures Smooth(alpha, fees.low, prev.low) >= 0.0
    ensures Smooth(alpha, fees.med, prev.med) >= 0.0
    ensures Smooth(alpha, fees.high, prev.high) >= 1.3 * Smooth(alpha, fees.med, prev.med)
  {
    NonNegative(alpha, fees.low);
    NonNegative(1.0 - alpha, prev.low);
    NonNegative(alpha, fees.med);
    NonNegative(1.0 - alpha, prev.med);
    NonNegative(alpha, fees.high - 1.3 * fees.med);
    NonNegative(1.0 - alpha, prev.high - 1.3 * prev.med);
  }

  /** Smoothing and resetting both keep the estimates ordered. */
  lemma EstimateKeepsOrder(batch: seq<Block>, prev: Estimate, cfg: Config)
    requires batch != [] && Sized(batch[0].transactions) && Paid(batch[0].transactions) && Sane(cfg) && InOrder(prev)
    ensures InOrder(EstimateForBlock(batch, prev, cfg))
  {
    BlockFeesOrdered(batch[0]);
    SmoothKeepsOrder(cfg.alpha, FeePerByte(batch[0]), prev);
  }

  // ----- What a step does -----

  predicate Between(x: real, a: real, b: real) {
    (a <= x <= b) || (b <= x <= a)
  }

  lemma SmoothIsBetween(alpha: real, fee: real, prev: real)
    requires 0.0 <= alpha <= 1.0
    ensures Between(Smooth(alpha, fee, prev), fee, prev)
  {
    if fee <= prev {
      NonNegative(alpha, prev - fee);
      NonNegative(1.0 - alpha, prev - fee);
    } else {
      NonNegative(alpha, fee - prev);
      NonNegative(1.0 - alpha, fee - prev);
    }
  }

  /** When every block of the batch is above 12.5 KiB, or the newest is above 14.8 KiB, each fee
      moves to a value between the previous estimate and the newest block's fee. */
  lemma BusyBlocksSmooth(batch: seq<Block>, prev: Estimate, cfg: Config)
    requires batch != [] && Sized(batch[0].transactions) && Sane(cfg)
    requires (forall i :: 0 <= i < |batch| ==> SizeOf(batch[i].transactions) >= 12801) ||
             SizeOf(batch[0].transactions) >= 15156
    ensures var e, f := EstimateForBlock(batch, prev, cfg), FeePerByte(batch[0]);
            Between(e.low, f.low, prev.low) && Between(e.med, f.med, prev.med) && Between(e.high, f.high, prev.high)
  {
    var f := FeePerByte(batch[0]);
    SmoothIsBetween(cfg.alpha, f.low, prev.low);
    SmoothIsBetween(cfg.alpha, f.med, prev.med);
    SmoothIsBetween(cfg.alpha, f.high, prev.high);
    if SizeOf(batch[0].transactions) < 15156 {
      WeightedAvgBetween(BlockSizes(batch), cfg.decayFactor, 12801, Largest(BlockSizes(batch)));
    }
  }

  /** When no block of the batch is above 12.5 KiB, the estimate is reset. */
  lemma QuietBlocksReset(batch: seq<Block>, prev: Estimate, cfg: Config)
    requires batch != [] && Sized(batch[0].transactions) && Sane(cfg)
    requires forall i :: 0 <= i < |batch| ==> SizeOf(batch[i].transactions) <= 12800
    ensures EstimateForBlock(batch, prev, cfg) == Estimate(batch[0].height, batch[0].id, 0.0, 0.0, 0.0)
  {
    WeightedAvgBetween(BlockSizes(batch), cfg.decayFactor, 0, 12800);
  }

  function Largest(sizes: seq<nat>): (m: nat)
    ensures forall i :: 0 <= i < |sizes| ==> sizes[i] <= m
  {
    if sizes == [] then 0
    else
      var m := Largest(sizes[..|sizes| - 1]);
      assert forall i :: 0 <= i < |sizes| - 1 ==> sizes[i] == sizes[..|sizes| - 1][i];
      if m < sizes[|sizes| - 1] then sizes[|sizes| - 1] else m
  }
}
