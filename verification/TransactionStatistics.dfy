/**
  Daily transaction statistics: transactions are reduced into counts and volumes per module
  command and value bucket, stored as rows per day, and read back as a distribution by type.
  JavaScript objects are lists of entries in insertion order.
 */
module TransactionStatistics {
  import opened Sorting
  import opened Filtering
  import opened Paging

  datatype Tx = Tx(moduleCommand: string, fee: int, amounts: seq<int>, tokenID: string)

  datatype Stat = Stat(count: nat, volume: int, tokenID: string)

  datatype Entry<V> = Entry(key: string, value: V)

  type Ranges = seq<Entry<Stat>>
  type Stats = seq<Entry<Ranges>>

  const ANY := "any"
  const UNAVAILABLE := "na"

  /** The value bucket of an amount, which the service derives from a logarithm. */
  type Bucket = int -> string

  // ----- Objects as entry lists -----

  /** `object[key]`, or `default` when the key is absent. */
  function Get<V>(es: seq<Entry<V>>, key: string, default: V): (v: V) {
    if es == [] then default
    else if es[0].key == key then es[0].value
    else Get(es[1..], key, default)
  }

  /** `{ ...object, [key]: v }`. */
  function Put<V>(es: seq<Entry<V>>, key: string, v: V): (r: seq<Entry<V>>) {
    if es == [] then [Entry(key, v)]
    else if es[0].key == key then [Entry(key, v)] + es[1..]
    else [es[0]] + Put(es[1..], key, v)
  }

  lemma {:induction false} GetPut<V>(es: seq<Entry<V>>, key: string, v: V, k: string, default: V)
    ensures Get(Put(es, key, v), k, default) == if k == key then v else Get(es, k, default)
    decreases |es|
  {
    if es != [] && es[0].key != key {
      GetPut(es[1..], key, v, k, default);
    }
  }

  // ----- Computing the statistics of a day -----

  function SumAmounts(xs: seq<int>): (t: int) {
    if xs == [] then 0 else SumAmounts(xs[..|xs| - 1]) + xs[|xs| - 1]
  }

  /** `getTxValue`: the fee plus the amount and fee parameters. */
  function TxValue(tx: Tx): (v: int) {
    tx.fee + SumAmounts(tx.amounts)
  }

  const DEFAULT := Stat(0, 0, UNAVAILABLE)

  /** `getTxStatsWithFallback`. */
  function StatOf(stats: Stats, moduleCommand: string, range: string): (s: Stat) {
    Get(Get(stats, moduleCommand, []), range, DEFAULT)
  }

  /** `{ ...stats, [moduleCommand]: { ...stats[moduleCommand], [range]: s } }`. */
  function PutStat(stats: Stats, moduleCommand: string, range: string, s: Stat): (r: Stats) {
    Put(stats, moduleCommand, Put(Get(stats, moduleCommand, []), range, s))
  }

  function AddTx(stats: Stats, tx: Tx, bucket: Bucket): (r: Stats) {
    var range := bucket(TxValue(tx));
    var s := StatOf(stats, tx.moduleCommand, range);
    PutStat(stats, tx.moduleCommand, range, Stat(s.count + 1, s.volume + TxValue(tx), tx.tokenID))
  }

  /** The entry that gives every day at least one row. */
  function InitialStats(bucket: Bucket): (r: Stats) {
    [Entry(ANY, [Entry(bucket(0), DEFAULT)])]
  }

  lemma InitialIsEmpty(bucket: Bucket, moduleCommand: string, range: string)
    ensures StatOf(InitialStats(bucket), moduleCommand, range) == DEFAULT
  {
    var stats := InitialStats(bucket);
    assert stats[1..] == [] && stats[0].value[1..] == [];
    if moduleCommand == ANY {
      var ranges := stats[0].value;
      assert Get(stats, moduleCommand, []) == ranges;
      assert Get(ranges[1..], range, DEFAULT) == DEFAULT;
      assert ranges[0] == Entry(bucket(0), DEFAULT);
    } else {
      assert Get(stats, moduleCommand, []) == [];
    }
  }

  /** `computeTransactionStats`: the reduce over the transactions of a day. */
  function ComputeStats(txs: seq<Tx>, bucket: Bucket): (r: Stats) {
    if txs == [] then InitialStats(bucket)
    else AddTx(ComputeStats(txs[..|txs| - 1], bucket), txs[|txs| - 1], bucket)
  }

  /** What bucket `range` of `moduleCommand` should hold, read off the transactions. */
  function CountOf(txs: seq<Tx>, moduleCommand: string, range: string, bucket: Bucket): (n: nat) {
    if txs == [] then 0
    else
      var tx := txs[|txs| - 1];
      CountOf(txs[..|txs| - 1], moduleCommand, range, bucket) +
      if tx.moduleCommand == moduleCommand && bucket(TxValue(tx)) == range then 1 else 0
  }

  function VolumeOf(txs: seq<Tx>, moduleCommand: string, range: string, bucket: Bucket): (v: int) {
    if txs == [] then 0
    else
      var tx := txs[|txs| - 1];
      VolumeOf(txs[..|txs| - 1], moduleCommand, range, bucket) +
      if tx.moduleCommand == moduleCommand && bucket(TxValue(tx)) == range then TxValue(tx) else 0
  }

  /** Every bucket holds exactly the transactions that belong to it. */
  lemma {:induction false} BucketsAreExact(txs: seq<Tx>, bucket: Bucket, moduleCommand: string, range: string)
    ensures var s := StatOf(ComputeStats(txs, bucket), moduleCommand, range);
            s.count == CountOf(txs, moduleCommand, range, bucket) &&
            s.volume == VolumeOf(txs, moduleCommand, range, bucket)
    decreases |txs|
  {
    if txs == [] {
      InitialIsEmpty(bucket, moduleCommand, range);
    } else {
      var front, tx := txs[..|txs| - 1], txs[|txs| - 1];
      BucketsAreExact(front, bucket, moduleCommand, range);
      StatOfAdd(ComputeStats(front, bucket), tx, bucket, moduleCommand, range);
    }
  }

  lemma StatOfAdd(stats: Stats, tx: Tx, bucket: Bucket, moduleCommand: string, range: string)
    ensures var before := StatOf(stats, moduleCommand, range);
            var after := StatOf(AddTx(stats, tx, bucket), moduleCommand, range);
            if tx.moduleCommand == moduleCommand && bucket(TxValue(tx)) == range then
              after == Stat(before.count + 1, before.volume + TxValue(tx), tx.tokenID)
            else after == before
  {
    var r := bucket(TxValue(tx));
    var s := StatOf(stats, tx.moduleCommand, r);
    StatOfPut(stats, tx.moduleCommand, r, Stat(s.count + 1, s.volume + TxValue(tx), tx.tokenID), moduleCommand, range);
  }

  lemma StatOfPut(stats: Stats, mc: string, range: string, s: Stat, mc': string, range': string)
    ensures StatOf(PutStat(stats, mc, range, s), mc', range') ==
            if mc == mc' && range == range' then s else StatOf(stats, mc', range')
  {
    var inner := Get(stats, mc, []);
    GetPut(stats, mc, Put(inner, range, s), mc', []);
    GetPut(inner, range, s, range', DEFAULT);
  }

  // ----- Rows -----

  datatype Row = Row(date: int, moduleCommand: string, range: string, count: nat, volume: int, tokenID: string)

  /** The rows `transformStatsObjectToList` makes of one module command. */
  function RangeRows(date: int, moduleCommand: string, ranges: Ranges): (rows: seq<Row>) {
    if ranges == [] then []
    else
      var s := ranges[0].value;
      [Row(date, moduleCommand, ranges[0].key, s.count, s.volume, s.tokenID)] +
      RangeRows(date, moduleCommand, ranges[1..])
  }

  function ToRows(date: int, stats: Stats): (rows: seq<Row>) {
    if stats == [] then [] else RangeRows(date, stats[0].key, stats[0].value) + ToRows(date, stats[1..])
  }

  /** The transactions counted by the rows of one module command. */
  function RowCount(rows: seq<Row>, moduleCommand: string): (n: nat) {
    if rows == [] then 0
    else
      var last := rows[|rows| - 1];
      RowCount(rows[..|rows| - 1], moduleCommand) + if last.moduleCommand == moduleCommand then last.count else 0
  }

  function TotalVolume(rows: seq<Row>): (v: int) {
    if rows == [] then 0 else TotalVolume(rows[..|rows| - 1]) + rows[|rows| - 1].volume
  }

  function TotalCount(rows: seq<Row>): (n: nat) {
    if rows == [] then 0 else TotalCount(rows[..|rows| - 1]) + rows[|rows| - 1].count
  }

  /** From `before` to `after` the three sums grow by the given amounts. */
  predicate SumsGrow(before: seq<Row>, after: seq<Row>, moduleCommand: string, byCommand: int, count: int,
                     volume: int) {
    RowCount(after, moduleCommand) == RowCount(before, moduleCommand) + byCommand &&
    TotalCount(after) == TotalCount(before) + count &&
    TotalVolume(after) == TotalVolume(before) + volume
  }

  lemma {:induction false} SumsAppend(a: seq<Row>, b: seq<Row>, moduleCommand: string)
    ensures RowCount(a + b, moduleCommand) == RowCount(a, moduleCommand) + RowCount(b, moduleCommand)
    ensures TotalVolume(a + b) == TotalVolume(a) + TotalVolume(b)
    ensures TotalCount(a + b) == TotalCount(a) + TotalCount(b)
    decreases |b|
  {
    if b == [] {
      assert a + b == a;
    } else {
      SumsAppend(a, b[..|b| - 1], moduleCommand);
      assert (a + b)[..|a + b| - 1] == a + b[..|b| - 1];
    }
  }

  lemma SumsOfOne(row: Row, moduleCommand: string)
    ensures RowCount([row], moduleCommand) == if row.moduleCommand == moduleCommand then row.count else 0
    ensures TotalVolume([row]) == row.volume && TotalCount([row]) == row.count
  {
    assert [row][..0] == [];
  }

  /** Replacing one bucket changes the sums of the rows by the difference of the two stats. */
  lemma {:induction false} PutRangeSums(date: int, mc: string, ranges: Ranges, range: string, s: Stat,
                                        moduleCommand: string)
    ensures var before, after := RangeRows(date, mc, ranges), RangeRows(date, mc, Put(ranges, range, s));
            var was := Get(ranges, range, DEFAULT);
            SumsGrow(before, after, moduleCommand, if mc == moduleCommand then s.count - was.count else 0,
                     s.count - was.count, s.volume - was.volume)
    decreases |ranges|
  {
    var e := if ranges == [] || ranges[0].key == range then Entry(range, s) else ranges[0];
    var row := Row(date, mc, e.key, e.value.count, e.value.volume, e.value.tokenID);
    SumsOfOne(row, moduleCommand);
    if ranges == [] {
      assert Put(ranges, range, s)[1..] == [];
      assert [row] + [] == [row];
    } else {
      var first := Row(date, mc, ranges[0].key, ranges[0].value.count, ranges[0].value.volume, ranges[0].value.tokenID);
      SumsOfOne(first, moduleCommand);
      SumsAppend([first], RangeRows(date, mc, ranges[1..]), moduleCommand);
      if ranges[0].key == range {
        assert Put(ranges, range, s)[1..] == ranges[1..];
        SumsAppend([row], RangeRows(date, mc, ranges[1..]), moduleCommand);
      } else {
        PutRangeSums(date, mc, ranges[1..], range, s, moduleCommand);
        assert Put(ranges, range, s)[1..] == Put(ranges[1..], range, s);
        SumsAppend([row], RangeRows(date, mc, Put(ranges[1..], range, s)), moduleCommand);
      }
    }
  }

  lemma {:induction false} PutStatsSums(date: int, stats: Stats, mc: string, range: string, s: Stat,
                                        moduleCommand: string)
    ensures var before, after := ToRows(date, stats), ToRows(date, PutStat(stats, mc, range, s));
            var was := StatOf(stats, mc, range);
            SumsGrow(before, after, moduleCommand, if mc == moduleCommand then s.count - was.count else 0,
                     s.count - was.count, s.volume - was.volume)
    decreases |stats|
  {
    var inner := Get(stats, mc, []);
    var put := Put(stats, mc, Put(inner, range, s));
    if stats == [] {
      PutRangeSums(date, mc, [], range, s, moduleCommand);
      assert put[1..] == [];
      assert RangeRows(date, mc, Put(inner, range, s)) + [] == RangeRows(date, mc, Put(inner, range, s));
    } else {
      SumsAppend(RangeRows(date, stats[0].key, stats[0].value), ToRows(date, stats[1..]), moduleCommand);
      if stats[0].key == mc {
        PutRangeSums(date, mc, stats[0].value, range, s, moduleCommand);
        assert put[1..] == stats[1..];
        SumsAppend(RangeRows(date, mc, Put(inner, range, s)), ToRows(date, stats[1..]), moduleCommand);
      } else {
        PutStatsSums(date, stats[1..], mc, range, s, moduleCommand);
        assert put[1..] == Put(stats[1..], mc, Put(Get(stats[1..], mc, []), range, s));
        SumsAppend(RangeRows(date, stats[0].key, stats[0].value), ToRows(date, put[1..]), moduleCommand);
      }
    }
  }

  function CountCommand(txs: seq<Tx>, moduleCommand: string): (n: nat) {
    if txs == [] then 0
    else CountCommand(txs[..|txs| - 1], moduleCommand) + if txs[|txs| - 1].moduleCommand == moduleCommand then 1 else 0
  }

  function TotalValue(txs: seq<Tx>): (v: int) {
    if txs == [] then 0 else TotalValue(txs[..|txs| - 1]) + TxValue(txs[|txs| - 1])
  }

  lemma InitialRow(date: int, bucket: Bucket)
    ensures ToRows(date, InitialStats(bucket)) == [Row(date, ANY, bucket(0), 0, 0, UNAVAILABLE)]
  {
    var stats := InitialStats(bucket);
    var ranges := stats[0].value;
    assert stats[1..] == [] && ranges[1..] == [];
    assert RangeRows(date, ANY, []) == [] && ToRows(date, []) == [];
  }

  /** Conservation: the rows of a day count every transaction once, overall and per module
      command, and their volumes sum to the total value. */
  lemma {:induction false} DayIsConserved(date: int, txs: seq<Tx>, bucket: Bucket, moduleCommand: string)
    ensures var rows := ToRows(date, ComputeStats(txs, bucket));
            RowCount(rows, moduleCommand) == CountCommand(txs, moduleCommand) &&
            TotalCount(rows) == |txs| && TotalVolume(rows) == TotalValue(txs)
    decreases |txs|
  {
    if txs == [] {
      InitialRow(date, bucket);
      SumsOfOne(Row(date, ANY, bucket(0), 0, 0, UNAVAILABLE), moduleCommand);
    } else {
      var front, tx := txs[..|txs| - 1], txs[|txs| - 1];
      DayIsConserved(date, front, bucket, moduleCommand);
      AddTxSums(date, ComputeStats(front, bucket), tx, bucket, moduleCommand);
    }
  }

  lemma AddTxSums(date: int, stats: Stats, tx: Tx, bucket: Bucket, moduleCommand: string)
    ensures SumsGrow(ToRows(date, stats), ToRows(date, AddTx(stats, tx, bucket)), moduleCommand,
                     if tx.moduleCommand == moduleCommand then 1 else 0, 1, TxValue(tx))
  {
    var range := bucket(TxValue(tx));
    var s := StatOf(stats, tx.moduleCommand, range);
    PutStatsSums(date, stats, tx.moduleCommand, range, Stat(s.count + 1, s.volume + TxValue(tx), tx.tokenID),
                 moduleCommand);
  }

  function AllFees(txs: seq<Tx>): (fees: seq<int>) {
    if txs == [] then [] else AllFees(txs[..|txs| - 1]) + [txs[|txs| - 1].fee]
  }

  function AllAmounts(txs: seq<Tx>): (amounts: seq<int>) {
    if txs == [] then [] else AllAmounts(txs[..|txs| - 1]) + txs[|txs| - 1].amounts
  }

  lemma {:induction false} SumAppend(a: seq<int>, b: seq<int>)
    ensures SumAmounts(a + b) == SumAmounts(a) + SumAmounts(b)
    decreases |b|
  {
    if b == [] {
      assert a + b == a;
    } else {
      SumAppend(a, b[..|b| - 1]);
      assert (a + b)[..|a + b| - 1] == a + b[..|b| - 1];
    }
  }

  lemma {:induction false} ValueIsFeesAndAmounts(txs: seq<Tx>)
    ensures TotalValue(txs) == SumAmounts(AllFees(txs)) + SumAmounts(AllAmounts(txs))
    decreases |txs|
  {
    if txs == [] {
    } else {
      var front, tx := txs[..|txs| - 1], txs[|txs| - 1];
      ValueIsFeesAndAmounts(front);
      SumAppend(AllFees(front), [tx.fee]);
      SumAppend(AllAmounts(front), tx.amounts);
      assert [tx.fee][..0] == [];
    }
  }

  /** The volumes of a day's rows sum to its fees plus all its amounts. */
  lemma VolumeIsFeesAndAmounts(date: int, txs: seq<Tx>, bucket: Bucket)
    ensures TotalVolume(RowsOf(Day(date, txs), bucket)) == SumAmounts(AllFees(txs)) + SumAmounts(AllAmounts(txs))
  {
    DayIsConserved(date, txs, bucket, ANY);
    ValueIsFeesAndAmounts(txs);
  }

  /** A bucket names the token of its last transaction, or none when it has no transaction. */
  lemma {:induction false} BucketsNameTokens(txs: seq<Tx>, bucket: Bucket, moduleCommand: string, range: string)
    ensures var token := StatOf(ComputeStats(txs, bucket), moduleCommand, range).tokenID;
            (CountOf(txs, moduleCommand, range, bucket) == 0 ==> token == "na") &&
            forall i :: LastInBucket(txs, bucket, moduleCommand, range, i) ==> token == txs[i].tokenID
    decreases |txs|
  {
    if txs == [] {
      InitialIsEmpty(bucket, moduleCommand, range);
    } else {
      var front, tx := txs[..|txs| - 1], txs[|txs| - 1];
      BucketsNameTokens(front, bucket, moduleCommand, range);
      StatOfAdd(ComputeStats(front, bucket), tx, bucket, moduleCommand, range);
      forall i | LastInBucket(txs, bucket, moduleCommand, range, i)
        ensures i == |txs| - 1 || LastInBucket(front, bucket, moduleCommand, range, i)
        ensures i == |txs| - 1 || !(tx.moduleCommand == moduleCommand && bucket(TxValue(tx)) == range)
      {
        assert InBucket(tx, bucket, moduleCommand, range) ==> i == |txs| - 1;
        assert forall j :: 0 <= j < |front| ==> front[j] == txs[j];
      }
    }
  }

  predicate InBucket(tx: Tx, bucket: Bucket, moduleCommand: string, range: string) {
    tx.moduleCommand == moduleCommand && bucket(TxValue(tx)) == range
  }

  predicate LastInBucket(txs: seq<Tx>, bucket: Bucket, moduleCommand: string, range: string, i: int) {
    0 <= i < |txs| && InBucket(txs[i], bucket, moduleCommand, range) &&
    forall j :: i < j < |txs| ==> !InBucket(txs[j], bucket, moduleCommand, range)
  }

  /** Every day has at least one row, as the bucket of a zero value under `any` is always there. */
  lemma {:induction false} EveryDayHasRow(date: int, txs: seq<Tx>, bucket: Bucket)
    ensures exists row :: row in RowsOf(Day(date, txs), bucket) && row.moduleCommand == "any" && row.range == bucket(0)
    decreases |txs|
  {
    var row := Row(date, ANY, bucket(0), 0, 0, UNAVAILABLE);
    InitialRow(date, bucket);
    assert RowsOf(Day(date, []), bucket)[0] == row;
    assert HasId(RowsOf(Day(date, []), bucket), row);
    GrowthKeepsIds(date, [], txs, bucket, row);
    var rows := RowsOf(Day(date, txs), bucket);
    var i :| 0 <= i < |rows| && IdOf(rows[i]) == IdOf(row);
    assert rows[i] in rows;
  }

  // ----- Reading the distribution back -----

  datatype Day = Day(date: int, txs: seq<Tx>)

  function RowsOf(d: Day, bucket: Bucket): (rows: seq<Row>) {
    ToRows(d.date, ComputeStats(d.txs, bucket))
  }

  /** The rows of the given days, one after the other. */
  function Appended(days: seq<Day>, bucket: Bucket): (rows: seq<Row>) {
    if days == [] then []
    else Appended(days[..|days| - 1], bucket) + RowsOf(days[|days| - 1], bucket)
  }

  function InDays(from: int, to: int): (matches: Row -> bool) {
    (row: Row) => from <= row.date <= to
  }

  function Between(rows: seq<Row>, from: int, to: int): (r: seq<Row>) {
    Filter(rows, InDays(from, to))
  }

  function NewestFirst(row: Row): (k: real) {
    -(row.date as real)
  }

  /** `find` with the date range, the newest rows first and at most `limit` of them. */
  function Select(rows: seq<Row>, from: int, to: int, limit: nat): (r: seq<Row>) {
    Page(SortBy(Between(rows, from, to), NewestFirst), limit, 0)
  }

  /** A selection that is cut has the newest rows of the range: none that is left out is newer than
      one that is in. */
  lemma SelectionIsNewest(rows: seq<Row>, from: int, to: int, limit: nat)
    ensures var selected := Select(rows, from, to, limit);
            var inRange := SortBy(Between(rows, from, to), NewestFirst);
            selected <= inRange && |selected| == Min(limit, |inRange|) &&
            (forall i, j :: 0 <= i < |selected| && |selected| <= j < |inRange| ==> inRange[j].date <= selected[i].date)
  {
    var inRange := SortBy(Between(rows, from, to), NewestFirst);
    SortIsOrderedPermutation(Between(rows, from, to), NewestFirst);
    forall i, j | 0 <= i < j < |inRange|
      ensures inRange[j].date <= inRange[i].date
    {
      assert NewestFirst(inRange[i]) <= NewestFirst(inRange[j]);
    }
  }

  /** `getDistributionByType`: rows that count nothing are dropped and the rest are summed. */
  method GetDistributionByType(table: seq<Row>, from: int, to: int, limit: nat) returns (byType: map<string, nat>)
    ensures forall mc :: (if mc in byType then byType[mc] else 0) == RowCount(Select(table, from, to, limit), mc)
    ensures forall mc :: mc in byType ==> byType[mc] > 0
  {
    var rows := Select(table, from, to, limit);
    byType := map[];
    for i := 0 to |rows|
      invariant forall mc :: (if mc in byType then byType[mc] else 0) == RowCount(rows[..i], mc)
      invariant forall mc :: mc in byType ==> byType[mc] > 0
    {
      assert rows[..i + 1][..i] == rows[..i];
      if rows[i].count > 0 {
        var mc := rows[i].moduleCommand;
        byType := byType[mc := (if mc in byType then byType[mc] else 0) + rows[i].count];
      }
    }
    assert rows[..|rows|] == rows;
  }

  /** The transactions of a module command on the days of the range. */
  function CountInDays(days: seq<Day>, from: int, to: int, moduleCommand: string): (n: nat) {
    if days == [] then 0
    else
      var d := days[|days| - 1];
      CountInDays(days[..|days| - 1], from, to, moduleCommand) +
      if from <= d.date <= to then CountCommand(d.txs, moduleCommand) else 0
  }

  lemma BetweenOneDay(rows: seq<Row>, date: int, from: int, to: int)
    requires forall row :: row in rows ==> row.date == date
    ensures Between(rows, from, to) == if from <= date <= to then rows else []
  {
    if from <= date <= to {
      FilterAll(rows, InDays(from, to));
    } else {
      FilterNone(rows, InDays(from, to));
    }
  }

  lemma {:induction false} RowsHaveDate(date: int, stats: Stats)
    ensures forall i :: 0 <= i < |ToRows(date, stats)| ==> ToRows(date, stats)[i].date == date
    decreases |stats|
  {
    if stats == [] {
    } else {
      RowsHaveDate(date, stats[1..]);
      RangeRowsHaveDate(date, stats[0].key, stats[0].value);
    }
  }

  lemma {:induction false} RangeRowsHaveDate(date: int, mc: string, ranges: Ranges)
    ensures forall i :: 0 <= i < |RangeRows(date, mc, ranges)| ==> RangeRows(date, mc, ranges)[i].date == date
    decreases |ranges|
  {
    if ranges == [] {
    } else {
      RangeRowsHaveDate(date, mc, ranges[1..]);
    }
  }

  lemma {:induction false} AppendedCounts(days: seq<Day>, bucket: Bucket, from: int, to: int, moduleCommand: string)
    ensures RowCount(Between(Appended(days, bucket), from, to), moduleCommand)
         == CountInDays(days, from, to, moduleCommand)
    decreases |days|
  {
    if days == [] {
    } else {
      var front, d := days[..|days| - 1], days[|days| - 1];
      var rows := ToRows(d.date, ComputeStats(d.txs, bucket));
      AppendedCounts(front, bucket, from, to, moduleCommand);
      FilterAppend(Appended(front, bucket), rows, InDays(from, to));
      RowsHaveDate(d.date, ComputeStats(d.txs, bucket));
      BetweenOneDay(rows, d.date, from, to);
      SumsAppend(Between(Appended(front, bucket), from, to), Between(rows, from, to), moduleCommand);
      DayIsConserved(d.date, d.txs, bucket, moduleCommand);
    }
  }

  lemma {:induction false} SortKeepsCount(rows: seq<Row>, moduleCommand: string)
    ensures RowCount(SortBy(rows, NewestFirst), moduleCommand) == RowCount(rows, moduleCommand)
    decreases |rows|
  {
    if rows == [] {
    } else {
      var front, last := rows[..|rows| - 1], rows[|rows| - 1];
      SortKeepsCount(front, moduleCommand);
      InsertCounts(SortBy(front, NewestFirst), last, NewestFirst, moduleCommand);
      SumsOfOne(last, moduleCommand);
    }
  }

  lemma {:induction false} InsertCounts(rows: seq<Row>, x: Row, key: Row -> real, moduleCommand: string)
    ensures RowCount(InsertBy(rows, x, key), moduleCommand)
         == RowCount(rows, moduleCommand) + RowCount([x], moduleCommand)
    decreases |rows|
  {
    if rows == [] || key(rows[|rows| - 1]) <= key(x) {
      SumsAppend(rows, [x], moduleCommand);
    } else {
      var front, last := rows[..|rows| - 1], rows[|rows| - 1];
      InsertCounts(front, x, key, moduleCommand);
      InsertCountsStep(rows, InsertBy(front, x, key), moduleCommand);
    }
  }

  lemma InsertCountsStep(rows: seq<Row>, inserted: seq<Row>, moduleCommand: string)
    requires rows != []
    ensures var front, last := rows[..|rows| - 1], rows[|rows| - 1];
            RowCount(inserted + [last], moduleCommand) - RowCount(rows, moduleCommand)
            == RowCount(inserted, moduleCommand) - RowCount(front, moduleCommand)
  {
    SumsAppend(inserted, [rows[|rows| - 1]], moduleCommand);
    SumsAppend(rows[..|rows| - 1], [rows[|rows| - 1]], moduleCommand);
    assert rows == rows[..|rows| - 1] + [rows[|rows| - 1]];
  }

  // ----- Storing a day again -----

  /** The primary key of a row. */
  datatype RowId = RowId(date: int, moduleCommand: string, range: string)

  function IdOf(row: Row): (id: RowId) {
    RowId(row.date, row.moduleCommand, row.range)
  }

  predicate HasId(rows: seq<Row>, row: Row) {
    exists i :: 0 <= i < |rows| && IdOf(rows[i]) == IdOf(row)
  }

  predicate IdsDistinct(rows: seq<Row>) {
    forall i, j :: 0 <= i < j < |rows| ==> IdOf(rows[i]) != IdOf(rows[j])
  }

  function NotIn(rows: seq<Row>): (matches: Row -> bool) {
    (row: Row) => !HasId(rows, row)
  }

  /** The upsert by primary key: rows of the same key are replaced. Earlier rows of the day are
      not deleted, as the lookup that precedes the upsert is not awaited and always fails. */
  function Upsert(table: seq<Row>, rows: seq<Row>): (r: seq<Row>) {
    Filter(table, NotIn(rows)) + rows
  }

  /** The table after the days have been stored in turn; a day can be stored again. */
  function Table(stores: seq<Day>, bucket: Bucket): (rows: seq<Row>) {
    if stores == [] then []
    else Upsert(Table(stores[..|stores| - 1], bucket), RowsOf(stores[|stores| - 1], bucket))
  }

  function OtherDate(date: int): (matches: Row -> bool) {
    (row: Row) => row.date != date
  }

  function OtherDay(date: int): (matches: Day -> bool) {
    (d: Day) => d.date != date
  }

  /** The last store of each date. */
  function Latest(stores: seq<Day>): (days: seq<Day>) {
    if stores == [] then []
    else
      var last := stores[|stores| - 1];
      Filter(Latest(stores[..|stores| - 1]), OtherDay(last.date)) + [last]
  }

  /** The last store of the row's date has a row of the same key. */
  predicate IsFresh(row: Row, stores: seq<Day>, bucket: Bucket) {
    stores != [] &&
    var last := stores[|stores| - 1];
    if row.date == last.date then HasId(RowsOf(last, bucket), row) else IsFresh(row, stores[..|stores| - 1], bucket)
  }

  function Fresh(stores: seq<Day>, bucket: Bucket): (matches: Row -> bool) {
    (row: Row) => IsFresh(row, stores, bucket)
  }

  function Stale(stores: seq<Day>, bucket: Bucket): (matches: Row -> bool) {
    (row: Row) => !IsFresh(row, stores, bucket)
  }

  /** The rows of buckets that a later store of their day no longer has. */
  function StaleRows(stores: seq<Day>, bucket: Bucket): (rows: seq<Row>) {
    Filter(Table(stores, bucket), Stale(stores, bucket))
  }

  lemma RowsOfHaveDate(d: Day, bucket: Bucket)
    ensures forall row :: row in RowsOf(d, bucket) ==> row.date == d.date && HasId(RowsOf(d, bucket), row)
  {
    RowsHaveDate(d.date, ComputeStats(d.txs, bucket));
  }

  lemma {:induction false} AppendedOtherDates(days: seq<Day>, bucket: Bucket, date: int)
    ensures Filter(Appended(days, bucket), OtherDate(date)) == Appended(Filter(days, OtherDay(date)), bucket)
    decreases |days|
  {
    if days == [] {
    } else {
      var front, d := days[..|days| - 1], days[|days| - 1];
      var rows := RowsOf(d, bucket);
      AppendedOtherDates(front, bucket, date);
      FilterAppend(Appended(front, bucket), rows, OtherDate(date));
      RowsOfHaveDate(d, bucket);
      var kept := Filter(front, OtherDay(date));
      if d.date == date {
        FilterNone(rows, OtherDate(date));
        assert kept + [] == kept;
      } else {
        FilterAll(rows, OtherDate(date));
        assert (kept + [d])[..|kept|] == kept;
      }
    }
  }

  /** The fresh rows of the table are exactly the rows of each date's last store. */
  lemma {:induction false} FreshIsLatest(stores: seq<Day>, bucket: Bucket)
    ensures Filter(Table(stores, bucket), Fresh(stores, bucket)) == Appended(Latest(stores), bucket)
    decreases |stores|
  {
    if stores == [] {
    } else {
      var front, d := stores[..|stores| - 1], stores[|stores| - 1];
      FreshIsLatest(front, bucket);
      FreshAfterStore(stores, bucket);
      AppendedOtherDates(Latest(front), bucket, d.date);
      var kept := Filter(Latest(front), OtherDay(d.date));
      assert (kept + [d])[..|kept|] == kept;
    }
  }

  /** A store makes its own rows fresh and those of its date before it stale. */
  lemma FreshAfterStore(stores: seq<Day>, bucket: Bucket)
    requires stores != []
    ensures var front, d := stores[..|stores| - 1], stores[|stores| - 1];
            Filter(Table(stores, bucket), Fresh(stores, bucket))
            == Filter(Filter(Table(front, bucket), Fresh(front, bucket)), OtherDate(d.date)) + RowsOf(d, bucket)
  {
    var front, d := stores[..|stores| - 1], stores[|stores| - 1];
    RowsOfHaveDate(d, bucket);
    KeptByStore(Table(front, bucket), RowsOf(d, bucket), d.date, Fresh(front, bucket), Fresh(stores, bucket));
  }

  lemma KeptByStore(table: seq<Row>, rows: seq<Row>, date: int, before: Row -> bool, after: Row -> bool)
    requires forall row :: row in rows ==> row.date == date && HasId(rows, row)
    requires forall row :: after(row) <==> if row.date == date then HasId(rows, row) else before(row)
    ensures Filter(Upsert(table, rows), after) == Filter(Filter(table, before), OtherDate(date)) + rows
  {
    forall row
      ensures NotIn(rows)(row) && after(row) <==> before(row) && OtherDate(date)(row)
    {
      if HasId(rows, row) {
        var i :| 0 <= i < |rows| && IdOf(rows[i]) == IdOf(row);
        assert rows[i] in rows;
      }
    }
    KeptByUpsert(table, rows, NotIn(rows), after, before, OtherDate(date));
  }

  lemma KeptByUpsert(table: seq<Row>, rows: seq<Row>, notIn: Row -> bool, after: Row -> bool, before: Row -> bool,
                     other: Row -> bool)
    requires forall row :: row in rows ==> after(row)
    requires forall row :: notIn(row) && after(row) <==> before(row) && other(row)
    ensures Filter(Filter(table, notIn) + rows, after) == Filter(Filter(table, before), other) + rows
  {
    FilterAppend(Filter(table, notIn), rows, after);
    FilterAll(rows, after);
    FilterTwice(table, notIn, after, before, other);
  }

  function CountBetween(rows: seq<Row>, from: int, to: int, moduleCommand: string): (n: nat) {
    RowCount(Between(rows, from, to), moduleCommand)
  }

  /** The rows that satisfy `kept`, counted without listing them. */
  function CountKept(rows: seq<Row>, kept: Row -> bool, from: int, to: int, moduleCommand: string): (n: nat) {
    if rows == [] then 0
    else
      var last := rows[|rows| - 1];
      CountKept(rows[..|rows| - 1], kept, from, to, moduleCommand) +
      if kept(last) && from <= last.date <= to && last.moduleCommand == moduleCommand then last.count else 0
  }

  lemma {:induction false} CountKeptIsCount(rows: seq<Row>, kept: Row -> bool, from: int, to: int,
                                            moduleCommand: string)
    ensures CountKept(rows, kept, from, to, moduleCommand)
         == CountBetween(Filter(rows, kept), from, to, moduleCommand)
    decreases |rows|
  {
    if rows == [] {
    } else {
      var front, last := rows[..|rows| - 1], rows[|rows| - 1];
      CountKeptIsCount(front, kept, from, to, moduleCommand);
      CountOfLast(Filter(front, kept), last, kept(last), from, to, moduleCommand);
    }
  }

  lemma {:induction false} CountKeptSplit(rows: seq<Row>, all: Row -> bool, kept: Row -> bool, dropped: Row -> bool,
                                          from: int, to: int, moduleCommand: string)
    requires forall row :: all(row) && (dropped(row) <==> !kept(row))
    ensures CountKept(rows, all, from, to, moduleCommand) ==
            CountKept(rows, kept, from, to, moduleCommand) + CountKept(rows, dropped, from, to, moduleCommand)
    decreases |rows|
  {
    if rows == [] {
    } else {
      CountKeptSplit(rows[..|rows| - 1], all, kept, dropped, from, to, moduleCommand);
    }
  }

  lemma CountsSplit(rows: seq<Row>, kept: Row -> bool, dropped: Row -> bool, from: int, to: int, moduleCommand: string)
    requires forall row :: dropped(row) <==> !kept(row)
    ensures CountBetween(rows, from, to, moduleCommand) ==
            CountBetween(Filter(rows, kept), from, to, moduleCommand) +
            CountBetween(Filter(rows, dropped), from, to, moduleCommand)
  {
    var all := (row: Row) => true;
    FilterAll(rows, all);
    CountKeptSplit(rows, all, kept, dropped, from, to, moduleCommand);
    CountKeptIsCount(rows, all, from, to, moduleCommand);
    CountKeptIsCount(rows, kept, from, to, moduleCommand);
    CountKeptIsCount(rows, dropped, from, to, moduleCommand);
  }

  lemma CountOfLast(rows: seq<Row>, row: Row, kept: bool, from: int, to: int, moduleCommand: string)
    ensures CountBetween(rows + if kept then [row] else [], from, to, moduleCommand) ==
            CountBetween(rows, from, to, moduleCommand) +
            if kept && from <= row.date <= to && row.moduleCommand == moduleCommand then row.count else 0
  {
    FilterLast(rows, row, kept, InDays(from, to));
    LastCounts(Between(rows, from, to), row, kept && from <= row.date <= to, moduleCommand);
  }

  lemma LastCounts(rows: seq<Row>, row: Row, kept: bool, moduleCommand: string)
    ensures RowCount(rows + if kept then [row] else [], moduleCommand) ==
            RowCount(rows, moduleCommand) + if kept && row.moduleCommand == moduleCommand then row.count else 0
  {
    if kept {
      assert (rows + [row])[..|rows|] == rows;
    } else {
      assert rows + [] == rows;
    }
  }

  /** Below the row limit, the distribution over any days stored any number of times is the number
      of transactions in the last store of each day if and only if no stale row counts any. */
  lemma DistributionIsExactIff(stores: seq<Day>, bucket: Bucket, from: int, to: int, limit: nat, moduleCommand: string)
    requires |Between(Table(stores, bucket), from, to)| <= limit
    ensures (RowCount(Select(Table(stores, bucket), from, to, limit), moduleCommand)
             == CountInDays(Latest(stores), from, to, moduleCommand))
            <==> CountBetween(StaleRows(stores, bucket), from, to, moduleCommand) == 0
  {
    var table := Table(stores, bucket);
    var rows := Between(table, from, to);
    SortIsOrderedPermutation(rows, NewestFirst);
    PageOfWhole(SortBy(rows, NewestFirst), limit);
    SortKeepsCount(rows, moduleCommand);
    CountsSplit(table, Fresh(stores, bucket), Stale(stores, bucket), from, to, moduleCommand);
    FreshIsLatest(stores, bucket);
    AppendedCounts(Latest(stores), bucket, from, to, moduleCommand);
  }

  // ----- Row keys are unique -----

  predicate DistinctKeys<V>(es: seq<Entry<V>>) {
    forall i, j :: 0 <= i < j < |es| ==> es[i].key != es[j].key
  }

  /** An object never holds a key twice, at either level. */
  predicate WellFormed(stats: Stats) {
    DistinctKeys(stats) && forall i :: 0 <= i < |stats| ==> DistinctKeys(stats[i].value)
  }

  lemma {:induction false} PutKeys<V>(es: seq<Entry<V>>, key: string, v: V)
    requires DistinctKeys(es)
    ensures var put := Put(es, key, v);
            DistinctKeys(put) &&
            forall i :: 0 <= i < |put| ==>
              (put[i].key == key && put[i].value == v) || (put[i].key != key && put[i] in es)
    decreases |es|
  {
    if es == [] {
    } else {
      var put := Put(es, key, v);
      if es[0].key == key {
        assert forall i :: 1 <= i < |put| ==> put[i] == es[i];
      } else {
        PutKeys(es[1..], key, v);
        assert put[1..] == Put(es[1..], key, v);
        forall i | 1 <= i < |put|
          ensures put[i].key != es[0].key
          ensures (put[i].key == key && put[i].value == v) || (put[i].key != key && put[i] in es)
        {
          assert put[i] == put[1..][i - 1];
        }
        assert forall i, j :: 1 <= i < j < |put| ==> put[i] == put[1..][i - 1] && put[j] == put[1..][j - 1];
      }
    }
  }

  lemma {:induction false} GetIsDistinct(stats: Stats, key: string)
    requires WellFormed(stats)
    ensures DistinctKeys(Get(stats, key, []))
    decreases |stats|
  {
    if stats == [] || stats[0].key == key {
    } else {
      GetIsDistinct(stats[1..], key);
    }
  }

  lemma {:induction false} StatsAreWellFormed(txs: seq<Tx>, bucket: Bucket)
    ensures WellFormed(ComputeStats(txs, bucket))
    decreases |txs|
  {
    if txs == [] {
    } else {
      var front, tx := txs[..|txs| - 1], txs[|txs| - 1];
      StatsAreWellFormed(front, bucket);
      AddTxWellFormed(ComputeStats(front, bucket), tx, bucket);
    }
  }

  lemma AddTxWellFormed(stats: Stats, tx: Tx, bucket: Bucket)
    requires WellFormed(stats)
    ensures WellFormed(AddTx(stats, tx, bucket))
  {
    var range := bucket(TxValue(tx));
    var s := StatOf(stats, tx.moduleCommand, range);
    PutStatWellFormed(stats, tx.moduleCommand, range, Stat(s.count + 1, s.volume + TxValue(tx), tx.tokenID));
  }

  lemma PutStatWellFormed(stats: Stats, mc: string, range: string, s: Stat)
    requires WellFormed(stats)
    ensures WellFormed(PutStat(stats, mc, range, s))
  {
    GetIsDistinct(stats, mc);
    PutKeys(Get(stats, mc, []), range, s);
    PutKeys(stats, mc, Put(Get(stats, mc, []), range, s));
  }

  lemma {:induction false} RangeRowsAt(date: int, mc: string, ranges: Ranges)
    ensures var rows := RangeRows(date, mc, ranges);
            |rows| == |ranges| && forall i :: 0 <= i < |rows| ==> IdOf(rows[i]) == RowId(date, mc, ranges[i].key)
    decreases |ranges|
  {
    if ranges == [] {
    } else {
      RangeRowsAt(date, mc, ranges[1..]);
    }
  }

  lemma {:induction false} ToRowsDistinct(date: int, stats: Stats)
    requires WellFormed(stats)
    ensures IdsDistinct(ToRows(date, stats))
    ensures forall row :: row in ToRows(date, stats) ==>
              exists i :: 0 <= i < |stats| && stats[i].key == row.moduleCommand
    decreases |stats|
  {
    if stats == [] {
    } else {
      var first, rest := RangeRows(date, stats[0].key, stats[0].value), ToRows(date, stats[1..]);
      RangeRowsAt(date, stats[0].key, stats[0].value);
      ToRowsDistinct(date, stats[1..]);
      assert forall row: Row :: row in first ==> row.moduleCommand == stats[0].key;
      forall row | row in rest
        ensures row.moduleCommand != stats[0].key
        ensures exists i :: 0 <= i < |stats| && stats[i].key == row.moduleCommand
      {
        var i :| 0 <= i < |stats[1..]| && stats[1..][i].key == row.moduleCommand;
        assert stats[i + 1] == stats[1..][i];
      }
      DistinctAppend(first, rest);
    }
  }

  lemma DistinctAppend(a: seq<Row>, b: seq<Row>)
    requires IdsDistinct(a) && IdsDistinct(b)
    requires forall x, y :: x in a && y in b ==> IdOf(x) != IdOf(y)
    ensures IdsDistinct(a + b)
  {
  }

  lemma {:induction false} FilterDistinct(rows: seq<Row>, matches: Row -> bool)
    requires IdsDistinct(rows)
    ensures IdsDistinct(Filter(rows, matches))
    decreases |rows|
  {
    if rows == [] {
    } else {
      var front, last := rows[..|rows| - 1], rows[|rows| - 1];
      FilterDistinct(front, matches);
      if matches(last) {
        FilterElements(front, matches);
        DistinctAppend(Filter(front, matches), [last]);
      }
    }
  }

  /** The table never holds two rows of one key. */
  lemma {:induction false} TableIdsDistinct(stores: seq<Day>, bucket: Bucket)
    ensures IdsDistinct(Table(stores, bucket))
    decreases |stores|
  {
    if stores == [] {
    } else {
      var front, d := stores[..|stores| - 1], stores[|stores| - 1];
      var rows := RowsOf(d, bucket);
      TableIdsDistinct(front, bucket);
      FilterDistinct(Table(front, bucket), NotIn(rows));
      StatsAreWellFormed(d.txs, bucket);
      ToRowsDistinct(d.date, ComputeStats(d.txs, bucket));
      FilterElements(Table(front, bucket), NotIn(rows));
      DistinctAppend(Filter(Table(front, bucket), NotIn(rows)), rows);
    }
  }

  lemma {:induction false} RangeRowIsEntry(date: int, mc: string, ranges: Ranges, row: Row)
    requires DistinctKeys(ranges) && row in RangeRows(date, mc, ranges)
    ensures row.date == date && row.moduleCommand == mc
    ensures Get(ranges, row.range, DEFAULT) == Stat(row.count, row.volume, row.tokenID)
    decreases |ranges|
  {
    if ranges == [] {
    } else {
      RangeRowsAt(date, mc, ranges[1..]);
      if row in RangeRows(date, mc, ranges[1..]) {
        RangeRowIsEntry(date, mc, ranges[1..], row);
        var i :| 0 <= i < |RangeRows(date, mc, ranges[1..])| && RangeRows(date, mc, ranges[1..])[i] == row;
        assert IdOf(row) == RowId(date, mc, ranges[i + 1].key);
      }
    }
  }

  lemma {:induction false} RowIsBucket(date: int, stats: Stats, row: Row)
    requires WellFormed(stats) && row in ToRows(date, stats)
    ensures row.date == date && StatOf(stats, row.moduleCommand, row.range) == Stat(row.count, row.volume, row.tokenID)
    decreases |stats|
  {
    if stats == [] {
    } else if row in RangeRows(date, stats[0].key, stats[0].value) {
      RangeRowIsEntry(date, stats[0].key, stats[0].value, row);
    } else {
      RowIsBucket(date, stats[1..], row);
      ToRowsDistinct(date, stats[1..]);
      var i :| 0 <= i < |stats[1..]| && stats[1..][i].key == row.moduleCommand;
      assert stats[i + 1].key == row.moduleCommand;
    }
  }

  /** Each row of a day holds its own bucket: how many of the day's transactions belong to it, their
      value, and the token of the last one. */
  lemma RowsHoldBuckets(date: int, txs: seq<Tx>, bucket: Bucket, row: Row)
    requires row in RowsOf(Day(date, txs), bucket)
    ensures row.date == date && row.count == CountOf(txs, row.moduleCommand, row.range, bucket)
    ensures row.volume == VolumeOf(txs, row.moduleCommand, row.range, bucket)
    ensures forall i :: LastInBucket(txs, bucket, row.moduleCommand, row.range, i) ==> row.tokenID == txs[i].tokenID
  {
    StatsAreWellFormed(txs, bucket);
    RowIsBucket(date, ComputeStats(txs, bucket), row);
    BucketsAreExact(txs, bucket, row.moduleCommand, row.range);
    BucketsNameTokens(txs, bucket, row.moduleCommand, row.range);
  }

  // ----- When nothing is stale -----

  lemma HasIdAppend(a: seq<Row>, b: seq<Row>, row: Row)
    ensures HasId(a + b, row) <==> HasId(a, row) || HasId(b, row)
  {
    if i :| 0 <= i < |a| && IdOf(a[i]) == IdOf(row) {
      assert (a + b)[i] == a[i];
    }
    if i :| 0 <= i < |b| && IdOf(b[i]) == IdOf(row) {
      assert (a + b)[|a| + i] == b[i];
    }
  }

  lemma {:induction false} PutKeepsRangeIds(date: int, mc: string, ranges: Ranges, range: string, s: Stat, row: Row)
    requires HasId(RangeRows(date, mc, ranges), row)
    ensures HasId(RangeRows(date, mc, Put(ranges, range, s)), row)
    decreases |ranges|
  {
    if ranges == [] {
    } else {
      var put := Put(ranges, range, s);
      var first := Row(date, mc, ranges[0].key, ranges[0].value.count, ranges[0].value.volume, ranges[0].value.tokenID);
      var first' := Row(date, mc, put[0].key, put[0].value.count, put[0].value.volume, put[0].value.tokenID);
      HasIdAppend([first], RangeRows(date, mc, ranges[1..]), row);
      HasIdAppend([first'], RangeRows(date, mc, put[1..]), row);
      assert IdOf([first][0]) == IdOf([first'][0]);
      if ranges[0].key == range {
        assert put[1..] == ranges[1..];
      } else {
        assert put[1..] == Put(ranges[1..], range, s);
        if HasId(RangeRows(date, mc, ranges[1..]), row) {
          PutKeepsRangeIds(date, mc, ranges[1..], range, s, row);
        }
      }
    }
  }

  lemma {:induction false} PutKeepsIds(date: int, stats: Stats, mc: string, range: string, s: Stat, row: Row)
    requires HasId(ToRows(date, stats), row)
    ensures HasId(ToRows(date, PutStat(stats, mc, range, s)), row)
    decreases |stats|
  {
    if stats == [] {
    } else {
      var put := PutStat(stats, mc, range, s);
      HasIdAppend(RangeRows(date, stats[0].key, stats[0].value), ToRows(date, stats[1..]), row);
      HasIdAppend(RangeRows(date, put[0].key, put[0].value), ToRows(date, put[1..]), row);
      if stats[0].key == mc {
        assert put[1..] == stats[1..];
        if HasId(RangeRows(date, mc, stats[0].value), row) {
          PutKeepsRangeIds(date, mc, stats[0].value, range, s, row);
        }
      } else {
        assert put[1..] == PutStat(stats[1..], mc, range, s);
        if HasId(ToRows(date, stats[1..]), row) {
          PutKeepsIds(date, stats[1..], mc, range, s, row);
        }
      }
    }
  }

  lemma AddTxKeepsIds(date: int, stats: Stats, tx: Tx, bucket: Bucket, row: Row)
    requires HasId(ToRows(date, stats), row)
    ensures HasId(ToRows(date, AddTx(stats, tx, bucket)), row)
  {
    var range := bucket(TxValue(tx));
    var s := StatOf(stats, tx.moduleCommand, range);
    PutKeepsIds(date, stats, tx.moduleCommand, range, Stat(s.count + 1, s.volume + TxValue(tx), tx.tokenID), row);
  }

  /** More transactions of a day never lose a bucket. */
  lemma {:induction false} GrowthKeepsIds(date: int, txs: seq<Tx>, more: seq<Tx>, bucket: Bucket, row: Row)
    requires txs <= more && HasId(ToRows(date, ComputeStats(txs, bucket)), row)
    ensures HasId(ToRows(date, ComputeStats(more, bucket)), row)
    decreases |more|
  {
    if |more| == |txs| {
      assert more == txs;
    } else {
      var front := more[..|more| - 1];
      GrowthKeepsIds(date, txs, front, bucket, row);
      AddTxKeepsIds(date, ComputeStats(front, bucket), more[|more| - 1], bucket, row);
    }
  }

  /** Each later store of a day has the transactions of the earlier ones, and possibly more. */
  predicate DaysGrow(stores: seq<Day>) {
    forall i, j :: 0 <= i < j < |stores| && stores[i].date == stores[j].date ==> stores[i].txs <= stores[j].txs
  }

  lemma {:induction false} FreshHasStore(row: Row, stores: seq<Day>, bucket: Bucket)
    requires IsFresh(row, stores, bucket)
    ensures exists i :: 0 <= i < |stores| && stores[i].date == row.date && HasId(RowsOf(stores[i], bucket), row)
    decreases |stores|
  {
    var front := stores[..|stores| - 1];
    if row.date != stores[|stores| - 1].date {
      FreshHasStore(row, front, bucket);
      var i :| 0 <= i < |front| && front[i].date == row.date && HasId(RowsOf(front[i], bucket), row);
      assert stores[i] == front[i];
    }
  }

  /** Storing a day again as it grows leaves nothing stale, so the distribution stays exact. */
  lemma {:induction false} GrowingDaysAreFresh(stores: seq<Day>, bucket: Bucket)
    requires DaysGrow(stores)
    ensures StaleRows(stores, bucket) == []
    decreases |stores|
  {
    if stores == [] {
    } else {
      var front := stores[..|stores| - 1];
      assert forall i, j :: 0 <= i < j < |front| ==> front[i] == stores[i] && front[j] == stores[j];
      GrowingDaysAreFresh(front, bucket);
      forall row | row in Table(stores, bucket)
        ensures !Stale(stores, bucket)(row)
      {
        LastStoreIsFresh(stores, bucket, row);
      }
      FilterNone(Table(stores, bucket), Stale(stores, bucket));
    }
  }

  lemma LastStoreIsFresh(stores: seq<Day>, bucket: Bucket, row: Row)
    requires DaysGrow(stores) && stores != [] && StaleRows(stores[..|stores| - 1], bucket) == []
    requires row in Table(stores, bucket)
    ensures IsFresh(row, stores, bucket)
  {
    var front, d := stores[..|stores| - 1], stores[|stores| - 1];
    TableRowCases(stores, bucket, row);
    if row !in RowsOf(d, bucket) {
      assert stores == front + [d];
      OldRowIsFresh(front, d, bucket, row);
    }
  }

  lemma TableRowCases(stores: seq<Day>, bucket: Bucket, row: Row)
    requires stores != [] && row in Table(stores, bucket)
    ensures var front, d := stores[..|stores| - 1], stores[|stores| - 1];
            if row in RowsOf(d, bucket) then row.date == d.date && HasId(RowsOf(d, bucket), row)
            else row in Table(front, bucket) && !HasId(RowsOf(d, bucket), row)
  {
    var front, d := stores[..|stores| - 1], stores[|stores| - 1];
    RowsOfHaveDate(d, bucket);
    FilterElements(Table(front, bucket), NotIn(RowsOf(d, bucket)));
  }

  lemma OldRowIsFresh(front: seq<Day>, d: Day, bucket: Bucket, row: Row)
    requires DaysGrow(front + [d]) && StaleRows(front, bucket) == []
    requires row in Table(front, bucket) && !HasId(RowsOf(d, bucket), row)
    ensures row.date != d.date && IsFresh(row, front, bucket)
  {
    FilterElements(Table(front, bucket), Stale(front, bucket));
    assert row !in StaleRows(front, bucket);
    FreshHasStore(row, front, bucket);
    var i :| 0 <= i < |front| && front[i].date == row.date && HasId(RowsOf(front[i], bucket), row);
    assert (front + [d])[i] == front[i] && (front + [d])[|front|] == d;
    if row.date == d.date {
      assert front[i] == Day(d.date, front[i].txs) && d == Day(d.date, d.txs);
      GrowthKeepsIds(d.date, front[i].txs, d.txs, bucket, row);
    }
  }

  /** The guard can fail: a bucket that vanishes when its day is stored again is still counted. */
  lemma VanishedBucketStays(date: int, tx: Tx, bucket: Bucket)
    requires tx.moduleCommand != ANY
    ensures var stores := [Day(date, [tx]), Day(date, [])];
            RowCount(Table(stores, bucket), tx.moduleCommand) == 1 &&
            CountInDays(Latest(stores), date, date, tx.moduleCommand) == 0
  {
    var first, second := Day(date, [tx]), Day(date, []);
    var rows, rows' := RowsOf(first, bucket), RowsOf(second, bucket);
    TwoStores(first, second, bucket);
    EmptyDay(date, bucket, tx.moduleCommand);
    OneTransaction(date, tx, bucket);
    KeptCount(rows, NotIn(rows'), tx.moduleCommand);
    SumsAppend(Filter(rows, NotIn(rows')), rows', tx.moduleCommand);
    assert [second][..0] == [];
  }

  lemma OneTransaction(date: int, tx: Tx, bucket: Bucket)
    ensures RowCount(RowsOf(Day(date, [tx]), bucket), tx.moduleCommand) == 1
  {
    DayIsConserved(date, [tx], bucket, tx.moduleCommand);
    assert [tx][..0] == [];
  }

  lemma TwoStores(first: Day, second: Day, bucket: Bucket)
    requires first.date == second.date
    ensures Table([first, second], bucket) == Upsert(RowsOf(first, bucket), RowsOf(second, bucket))
    ensures Latest([first, second]) == [second]
  {
    assert [first, second][..1] == [first] && [first][..0] == [];
    assert Table([first], bucket) == RowsOf(first, bucket);
    assert Latest([first]) == [] + [first] == [first];
    FilterNone([first], OtherDay(second.date));
  }

  lemma EmptyDay(date: int, bucket: Bucket, moduleCommand: string)
    requires moduleCommand != ANY
    ensures var rows := RowsOf(Day(date, []), bucket);
            RowCount(rows, moduleCommand) == 0 &&
            forall row: Row :: row.moduleCommand == moduleCommand ==> NotIn(rows)(row)
  {
    InitialRow(date, bucket);
    SumsOfOne(Row(date, ANY, bucket(0), 0, 0, UNAVAILABLE), moduleCommand);
  }

  lemma {:induction false} KeptCount(rows: seq<Row>, matches: Row -> bool, moduleCommand: string)
    requires forall row: Row :: row.moduleCommand == moduleCommand ==> matches(row)
    ensures RowCount(Filter(rows, matches), moduleCommand) == RowCount(rows, moduleCommand)
    decreases |rows|
  {
    if rows == [] {
    } else {
      var front, last := rows[..|rows| - 1], rows[|rows| - 1];
      KeptCount(front, matches, moduleCommand);
      var kept := Filter(front, matches);
      assert (kept + [last])[..|kept|] == kept && kept + [] == kept;
    }
  }
}
