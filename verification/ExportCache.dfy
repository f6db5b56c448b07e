/**
  The transaction export: one fetch per day through a paged source, with two per-day caches,
  a file of past transactions and a flag for past days without any.
 */
module ExportCache {
  import opened Paging

  type Tx = string

  const MAX_NUM_TRANSACTIONS := 10000

  // ----- Paging -----

  /** The cap on the number of entries; a zero counts as omitted. */
  function Cap(most: nat): (n: nat)
    ensures n > 0
  {
    if most == 0 then 1000 else most
  }

  /** The number of entries a request for all of them collects: everything when there are at
      most as many as the cap, and otherwise the cap rounded up to whole pages. */
  function Collected(total: nat, limit: nat, most: nat): (n: nat)
    ensures total <= Cap(most) ==> n == total
    ensures n <= total && (Cap(most) < total ==> Cap(most) <= n)
  {
    if total <= Cap(most) then total else Min(total, Pages(Cap(most), PageSize(limit)) * PageSize(limit))
  }

  /** Without a page size and a cap, pages of 100 are fetched up to 1000 entries; with a cap inside a
      page, that page is fetched whole. */
  lemma CollectedExamples()
    ensures Collected(5000, 0, 0) == 1000 && Collected(1000, 0, 0) == 1000 && Collected(999, 0, 0) == 999
    ensures Collected(5000, 0, 1050) == 1100 && Collected(5000, 40, 1050) == 1080 && Collected(5000, 3000, 0) == 3000
  {
  }

  /** `requestAll` of the export service. */
  method RequestAll<T(==)>(all: seq<T>, limit: nat, most: nat) returns (data: seq<T>)
    ensures data == all[..Collected(|all|, limit, most)]
  {
    var size, cap := PageSize(limit), Cap(most);
    data := Page(all, size, 0);
    var total := |all|;
    var maxAmount := if total == 0 || total > cap then cap else total;
    assert data == Prefix(all, 1 * size);
    if maxAmount > size {
      data := RequestRest(all, size, Pages(maxAmount, size), data);
    }
    PrefixIsCollected(all, limit, most, maxAmount);
  }

  function Prefix<T>(all: seq<T>, n: nat): (p: seq<T>) {
    all[..Min(n, |all|)]
  }

  /** The page loop, with its early exit on an empty page. */
  method RequestRest<T(==)>(all: seq<T>, limit: nat, pages: nat, first: seq<T>) returns (data: seq<T>)
    requires limit > 0 && pages >= 1 && first == Prefix(all, 1 * limit)
    ensures data == Prefix(all, pages * limit)
  {
    data := first;
    var page := 1;
    while page < pages
      invariant 1 <= page <= pages
      invariant data == Prefix(all, page * limit)
    {
      var result := Page(all, limit, page * limit);
      PrefixStep(all, limit, page);
      PagesCover(page, pages, limit);
      if result == [] { return; }
      data := data + result;
      page := page + 1;
    }
  }

  lemma PrefixStep<T>(all: seq<T>, limit: nat, page: nat)
    requires limit > 0
    ensures Prefix(all, page * limit) + Page(all, limit, page * limit) == Prefix(all, (page + 1) * limit)
    ensures Page(all, limit, page * limit) == [] ==> Prefix(all, page * limit) == all
  {
    assert (page + 1) * limit == page * limit + limit;
  }

  lemma PrefixIsCollected<T>(all: seq<T>, limit: nat, most: nat, maxAmount: nat)
    requires maxAmount == if |all| == 0 || |all| > Cap(most) then Cap(most) else |all|
    ensures var size := PageSize(limit);
            var pages := if maxAmount > size then Pages(maxAmount, size) else 1;
            Prefix(all, pages * size) == all[..Collected(|all|, limit, most)]
  {
    if maxAmount <= PageSize(limit) {
      PageCountOfOne(maxAmount, PageSize(limit));
    }
  }

  lemma PageCountOfOne(amount: nat, limit: nat)
    requires 0 < amount <= limit
    ensures Pages(amount, limit) == 1
  {
    var n := Pages(amount, limit);
    if n >= 2 { PagesCover(2, n, limit); }
  }

  // ----- The caches -----

  datatype Key = Key(address: string, day: int)

  /** The account history: the transactions of each address and day. */
  type History = Key -> seq<Tx>

  /** What one day contributes to an export: its paged fetch. */
  function Fetched(history: History, limit: nat, k: Key): (txs: seq<Tx>) {
    history(k)[..Collected(|history(k)|, limit, MAX_NUM_TRANSACTIONS)]
  }

  datatype Cache = Cache(partials: map<Key, seq<Tx>>, noTransactions: set<Key>)

  /** The world of one export job: the current day, the history and the page size. */
  datatype World = World(today: int, history: History, limit: nat)

  /** The transactions an export takes for one day, from a cache or from the source. */
  function DayOutput(w: World, cache: Cache, k: Key): (txs: seq<Tx>)
  {
    if k in cache.partials then cache.partials[k]
    else if k in cache.noTransactions then []
    else Fetched(w.history, w.limit, k)
  }

  /** The caches after that day: only what was fetched is cached, and not for today. */
  function DayCache(w: World, cache: Cache, k: Key): (cache': Cache)
  {
    if k in cache.partials || k in cache.noTransactions || k.day == w.today then cache
    else if Fetched(w.history, w.limit, k) != [] then
      cache.(partials := cache.partials[k := Fetched(w.history, w.limit, k)])
    else cache.(noTransactions := cache.noTransactions + {k})
  }

  /** The caches after exporting the days before `to`, and the transactions exported. */
  function CacheAfter(w: World, cache: Cache, address: string, from: int, to: int): (cache': Cache)
    decreases (to - from)
  {
    if to <= from then cache
    else
      var before := CacheAfter(w, cache, address, from, to - 1);
      DayCache(w, before, Key(address, to - 1))
  }

  function Exported(w: World, cache: Cache, address: string, from: int, to: int): (txs: seq<Tx>)
    decreases (to - from)
  {
    if to <= from then []
    else
      Exported(w, cache, address, from, to - 1) +
      DayOutput(w, CacheAfter(w, cache, address, from, to - 1), Key(address, to - 1))
  }

  /** The same export without caches. */
  function Uncached(w: World, address: string, from: int, to: int): (txs: seq<Tx>)
    decreases (to - from)
  {
    if to <= from then []
    else Uncached(w, address, from, to - 1) + Fetched(w.history, w.limit, Key(address, to - 1))
  }

  /** The export service with its file cache and its flag cache. */
  class ExportService {
    var partials: map<Key, seq<Tx>>
    var noTransactions: set<Key>

    /** The day loop of `exportTransactionsCSV`, from day `from` to day `to` included. */
    method ExportTransactions(w: World, address: string, from: int, to: int) returns (allTransactions: seq<Tx>)
      requires from <= to
      modifies this
      ensures Cache(partials, noTransactions)
           == CacheAfter(w, old(Cache(partials, noTransactions)), address, from, to + 1)
      ensures allTransactions == Exported(w, old(Cache(partials, noTransactions)), address, from, to + 1)
    {
      ghost var start := Cache(partials, noTransactions);
      allTransactions := [];
      for day := from to to + 1
        invariant Cache(partials, noTransactions) == CacheAfter(w, start, address, from, day)
        invariant allTransactions == Exported(w, start, address, from, day)
      {
        var k := Key(address, day);
        if k in partials {
          allTransactions := allTransactions + partials[k];
        } else if k !in noTransactions {
          var transactions := RequestAll(w.history(k), w.limit, MAX_NUM_TRANSACTIONS);
          allTransactions := allTransactions + transactions;
          if day != w.today {
            if transactions != [] {
              partials := partials[k := transactions];
            } else {
              noTransactions := noTransactions + {k};
            }
          }
        } else {
          assert allTransactions + [] == allTransactions;
        }
      }
    }
  }

  // ----- Transparency -----

  /** Both caches hold past days only, and agree with what a fetch of them returns. */
  ghost predicate Transparent(w: World, cache: Cache)
  {
    (forall k :: k in cache.partials ==> k.day < w.today && cache.partials[k] == Fetched(w.history, w.limit, k)) &&
    (forall k :: k in cache.noTransactions ==> k.day < w.today && Fetched(w.history, w.limit, k) == [])
  }

  /** Cached entries agree with the source, for whatever days they are. */
  ghost predicate Agrees(w: World, cache: Cache)
  {
    (forall k :: k in cache.partials ==> cache.partials[k] == Fetched(w.history, w.limit, k)) &&
    (forall k :: k in cache.noTransactions ==> Fetched(w.history, w.limit, k) == [])
  }

  /** An export over agreeing caches equals the uncached concatenation of per-day fetches. */
  lemma {:induction false} ExportIsTransparent(w: World, cache: Cache, address: string, from: int, to: int)
    requires Agrees(w, cache)
    ensures Agrees(w, CacheAfter(w, cache, address, from, to))
    ensures Exported(w, cache, address, from, to) == Uncached(w, address, from, to)
    decreases (to - from)
  {
    if to <= from {
    } else {
      ExportIsTransparent(w, cache, address, from, to - 1);
    }
  }

  /** The histories of the days, one after the other. */
  function Histories(history: History, address: string, from: int, to: int): (txs: seq<Tx>)
    decreases (to - from)
  {
    if to <= from then []
    else Histories(history, address, from, to - 1) + history(Key(address, to - 1))
  }

  /** An uncached export of days with at most 10000 transactions each is these days' histories; of a
      longer day it has the first 10000 transactions at least. */
  lemma {:induction false} UncachedIsHistories(w: World, address: string, from: int, to: int)
    requires forall day :: from <= day < to ==> |w.history(Key(address, day))| <= 10000
    ensures Uncached(w, address, from, to) == Histories(w.history, address, from, to)
    decreases (to - from)
  {
    if to <= from {
    } else {
      UncachedIsHistories(w, address, from, to - 1);
    }
  }

  lemma LongDayIsCut(w: World, k: Key)
    requires |w.history(k)| > 10000
    ensures w.history(k)[..10000] <= Fetched(w.history, w.limit, k) <= w.history(k)
  {
  }

  /** Over agreeing caches an export delivers the histories themselves. */
  lemma ExportDeliversHistories(w: World, cache: Cache, address: string, from: int, to: int)
    requires Agrees(w, cache) && forall day :: from <= day < to ==> |w.history(Key(address, day))| <= 10000
    ensures Exported(w, cache, address, from, to) == Histories(w.history, address, from, to)
  {
    ExportIsTransparent(w, cache, address, from, to);
    UncachedIsHistories(w, address, from, to);
  }

  /** The days an export caches are exactly the uncached ones of its range other than today. */
  lemma {:induction false} CachedDays(w: World, cache: Cache, address: string, from: int, to: int, k: Key)
    ensures var after := CacheAfter(w, cache, address, from, to);
            k in after.partials || k in after.noTransactions <==>
            k in cache.partials || k in cache.noTransactions ||
            (k.address == address && from <= k.day < to && k.day != w.today)
    decreases (to - from)
  {
    if to <= from {
    } else {
      CachedDays(w, cache, address, from, to - 1, k);
    }
  }

  /** One export keeps the caches to past days if and only if it ends no later than today. */
  lemma ExportKeepsTransparentIff(w: World, cache: Cache, address: string, from: int, to: int)
    requires Transparent(w, cache) && from <= to
    ensures Transparent(w, CacheAfter(w, cache, address, from, to + 1)) <==> to <= w.today
  {
    var after := CacheAfter(w, cache, address, from, to + 1);
    ExportIsTransparent(w, cache, address, from, to + 1);
    forall k
      ensures k in after.partials || k in after.noTransactions <==>
              k in cache.partials || k in cache.noTransactions ||
              (k.address == address && from <= k.day < to + 1 && k.day != w.today)
    {
      CachedDays(w, cache, address, from, to + 1, k);
    }
    if to > w.today {
      var late := Key(address, to);
      assert late in after.partials || late in after.noTransactions;
    }
  }

  datatype Step =
    | Export(address: string, from: int, to: int)
    | NewHistory(history: History)
    | NewDay(today: int)
    | Purge(partials: set<Key>, flags: set<Key>)

  /** Days pass, past days do not change, and an interval is not inverted. */
  ghost predicate Possible(w: World, step: Step) {
    match step
    case Export(_, from, to) => from <= to
    case NewHistory(h) => forall k: Key :: k.day < w.today ==> h(k) == w.history(k)
    case NewDay(today) => w.today <= today
    case Purge(_, _) => true
  }

  function NextWorld(w: World, step: Step): (w': World) {
    match step
    case NewHistory(h) => w.(history := h)
    case NewDay(today) => w.(today := today)
    case _ => w
  }

  function NextCache(w: World, cache: Cache, step: Step): (cache': Cache)
  {
    match step
    case Export(address, from, to) => CacheAfter(w, cache, address, from, to + 1)
    case Purge(partials, flags) => Cache(cache.partials - partials, cache.noTransactions - flags)
    case _ => cache
  }

  predicate Guarded(w: World, step: Step) {
    step.Export? ==> step.to <= w.today
  }

  lemma StepTransparentIff(w: World, cache: Cache, step: Step)
    requires Transparent(w, cache) && Possible(w, step)
    ensures Transparent(NextWorld(w, step), NextCache(w, cache, step)) <==> Guarded(w, step)
  {
    if step.Export? {
      ExportKeepsTransparentIff(w, cache, step.address, step.from, step.to);
    }
  }

  ghost predicate AllPossible(w: World, steps: seq<Step>)
    decreases |steps|
  {
    steps != [] ==> Possible(w, steps[0]) && AllPossible(NextWorld(w, steps[0]), steps[1..])
  }

  predicate AlwaysGuarded(w: World, steps: seq<Step>)
    decreases |steps|
  {
    steps != [] ==> Guarded(w, steps[0]) && AlwaysGuarded(NextWorld(w, steps[0]), steps[1..])
  }

  /** Every export of a run delivers the uncached concatenation of its per-day fetches. */
  ghost predicate OutputsExact(w: World, cache: Cache, steps: seq<Step>)
    decreases |steps|
  {
    steps != [] ==>
      (match steps[0]
       case Export(address, from, to) => Exported(w, cache, address, from, to + 1) == Uncached(w, address, from, to + 1)
       case _ => true) &&
      OutputsExact(NextWorld(w, steps[0]), NextCache(w, cache, steps[0]), steps[1..])
  }

  /** Over any interleaving of new transactions, day changes, purges and exports that end no later
      than their day, every export equals the uncached concatenation of per-day fetches. */
  lemma {:induction false} GuardedOutputsExact(w: World, cache: Cache, steps: seq<Step>)
    requires Transparent(w, cache) && AllPossible(w, steps) && AlwaysGuarded(w, steps)
    ensures OutputsExact(w, cache, steps)
    decreases |steps|
  {
    if steps == [] {
    } else {
      if steps[0].Export? {
        ExportIsTransparent(w, cache, steps[0].address, steps[0].from, steps[0].to + 1);
      }
      StepTransparentIff(w, cache, steps[0]);
      GuardedOutputsExact(NextWorld(w, steps[0]), NextCache(w, cache, steps[0]), steps[1..]);
    }
  }

  /** What the caches are for: no later run of guarded exports ever delivers anything else than
      the uncached transactions. */
  ghost predicate Safe(w: World, cache: Cache) {
    forall steps: seq<Step> :: AllPossible(w, steps) && AlwaysGuarded(w, steps) ==> OutputsExact(w, cache, steps)
  }

  /** The caches are safe if and only if each entry is for a past day and agrees with its fetch. */
  lemma SafeIff(w: World, cache: Cache)
    ensures Safe(w, cache) <==> Transparent(w, cache)
  {
    if Transparent(w, cache) {
      forall steps: seq<Step> | AllPossible(w, steps) && AlwaysGuarded(w, steps)
        ensures OutputsExact(w, cache, steps)
      {
        GuardedOutputsExact(w, cache, steps);
      }
    } else if k :| k in cache.partials && !(k.day < w.today && cache.partials[k] == Fetched(w.history, w.limit, k)) {
      WrongPartial(w, cache, k);
    } else {
      var k :| k in cache.noTransactions && !(k.day < w.today && Fetched(w.history, w.limit, k) == []);
      WrongFlag(w, cache, k);
    }
  }

  function WithDay(history: History, k: Key, txs: seq<Tx>): (h: History) {
    (x: Key) => if x == k then txs else history(x)
  }

  function LaterDay(today: int, day: int): (d: int) {
    if today < day then day else today
  }

  /** A run of guarded steps, at the end of which a single day is exported wrongly. */
  lemma WrongDayIsUnsafe(w: World, cache: Cache, k: Key, purged: set<Key>, history: History)
    requires forall x: Key :: x.day < w.today ==> history(x) == w.history(x)
    requires var w' := World(LaterDay(w.today, k.day), history, w.limit);
             var cache' := Cache(cache.partials - purged, cache.noTransactions);
             DayOutput(w', cache', k) != Fetched(history, w.limit, k)
    ensures !Safe(w, cache)
  {
    var w1, w2 := World(w.today, history, w.limit), World(LaterDay(w.today, k.day), history, w.limit);
    var cache' := Cache(cache.partials - purged, cache.noTransactions);
    var last := [Export(k.address, k.day, k.day)];
    var two := [NewDay(w2.today)] + last;
    var three := [NewHistory(history)] + two;
    var steps := [Purge(purged, {})] + three;
    assert last[1..] == [] && two[1..] == last && three[1..] == two && steps[1..] == three;
    assert cache.noTransactions - {} == cache.noTransactions;
    SingleDay(w2, cache', k);
    assert last[0] == Export(k.address, k.day, k.day);
    assert !OutputsExact(w2, cache', last);
    assert !OutputsExact(w1, cache', two) && AllPossible(w1, two) && AlwaysGuarded(w1, two);
    assert !OutputsExact(w, cache', three) && AllPossible(w, three) && AlwaysGuarded(w, three);
    assert !OutputsExact(w, cache, steps) && AllPossible(w, steps) && AlwaysGuarded(w, steps);
  }

  lemma SingleDay(w: World, cache: Cache, k: Key)
    ensures Exported(w, cache, k.address, k.day, k.day + 1) == DayOutput(w, cache, k)
    ensures Uncached(w, k.address, k.day, k.day + 1) == Fetched(w.history, w.limit, k)
  {
    assert Key(k.address, k.day) == k;
    assert CacheAfter(w, cache, k.address, k.day, k.day) == cache;
    assert Exported(w, cache, k.address, k.day, k.day) == [] == Uncached(w, k.address, k.day, k.day);
  }

  lemma WrongPartial(w: World, cache: Cache, k: Key)
    requires k in cache.partials && !(k.day < w.today && cache.partials[k] == Fetched(w.history, w.limit, k))
    ensures !Safe(w, cache)
  {
    assert cache.partials - {} == cache.partials;
    if k.day < w.today {
      WrongDayIsUnsafe(w, cache, k, {}, w.history);
    } else {
      var txs := if cache.partials[k] == [] then [""] else [];
      assert Fetched(WithDay(w.history, k, txs), w.limit, k) == txs;
      WrongDayIsUnsafe(w, cache, k, {}, WithDay(w.history, k, txs));
    }
  }

  lemma WrongFlag(w: World, cache: Cache, k: Key)
    requires k in cache.noTransactions && !(k.day < w.today && Fetched(w.history, w.limit, k) == [])
    ensures !Safe(w, cache)
  {
    if k.day < w.today {
      WrongDayIsUnsafe(w, cache, k, {k}, w.history);
    } else {
      assert Fetched(WithDay(w.history, k, [""]), w.limit, k) == [""];
      WrongDayIsUnsafe(w, cache, k, {k}, WithDay(w.history, k, [""]));
    }
  }

  ghost predicate AlwaysSafe(w: World, cache: Cache, steps: seq<Step>)
    decreases |steps|
  {
    Safe(w, cache) &&
    (steps != [] ==> AlwaysSafe(NextWorld(w, steps[0]), NextCache(w, cache, steps[0]), steps[1..]))
  }

  /** Over any run the caches are safe in every state if and only if every export of the run ended
      no later than its day: after any other export some later guarded export can go wrong. */
  lemma {:induction false} CachesSafeIff(w: World, cache: Cache, steps: seq<Step>)
    requires Safe(w, cache) && AllPossible(w, steps)
    ensures AlwaysSafe(w, cache, steps) <==> AlwaysGuarded(w, steps)
    decreases |steps|
  {
    if steps == [] {
    } else {
      var w', cache' := NextWorld(w, steps[0]), NextCache(w, cache, steps[0]);
      SafeIff(w, cache);
      StepTransparentIff(w, cache, steps[0]);
      SafeIff(w', cache');
      if Safe(w', cache') {
        CachesSafeIff(w', cache', steps[1..]);
      } else {
        assert !AlwaysSafe(w', cache', steps[1..]);
      }
    }
  }

  /** The unguarded case happens: a future day is flagged as empty, and the flag later hides it. */
  lemma FutureDayIsLost(address: string, tx: Tx)
    ensures var nothing: History := k => [];
            var later: History := k => if k == Key(address, 8) then [tx] else [];
            var flagged := CacheAfter(World(7, nothing, 100), Cache(map[], {}), address, 8, 9);
            flagged == Cache(map[], {Key(address, 8)}) &&
            Exported(World(9, later, 100), flagged, address, 8, 9) == [] &&
            Uncached(World(9, later, 100), address, 8, 9) == [tx]
  {
    var nothing: History := k => [];
    var later: History := k => if k == Key(address, 8) then [tx] else [];
    var w, w' := World(7, nothing, 100), World(9, later, 100);
    var empty := Cache(map[], {});
    assert CacheAfter(w, empty, address, 8, 8) == empty;
    assert Fetched(nothing, 100, Key(address, 8)) == [];
    assert Fetched(later, 100, Key(address, 8)) == [tx];
    assert Uncached(w', address, 8, 8) == [];
    assert Exported(w', Cache(map[], {Key(address, 8)}), address, 8, 8) == [];
  }
}
