/**
  Pages over pending and confirmed transactions: the pending ones are filtered, sorted and
  sliced, and the request for the confirmed ones is adjusted so that both can be joined.
 */
module TransactionPaging {
  import opened Results
  import opened Sorting
  import opened Filtering
  import opened Paging

  datatype Answer<T> = Answer(data: seq<T>, count: nat, offset: nat, total: nat)

  /** The pending transactions a request matches, in its sort order. */
  function Pending<T>(list: seq<T>, matches: T -> bool, key: T -> real): (r: seq<T>) {
    SortBy(Filter(list, matches), key)
  }

  /** `getPendingTransactions`, with `matches` and `key` for the request's filter and sort. */
  function GetPendingTransactions<T>(list: seq<T>, matches: T -> bool, key: T -> real, offset: nat, limit: nat)
    : (r: Answer<T>) {
    var l := if limit == 0 then 10 else limit;
    if list == [] then Answer([], 0, offset, 0)
    else
      var filtered := Filter(list, matches);
      var data := Page(SortBy(filtered, key), l, offset);
      Answer(data, |data|, offset, |filtered|)
  }

  /** A pending page is a slice of the matching transactions in key order, and its total counts
      them all. */
  lemma PendingIsWindow<T(!new)>(list: seq<T>, matches: T -> bool, key: T -> real, offset: nat, limit: nat)
    ensures var r := GetPendingTransactions(list, matches, key, offset, limit);
            var all := Pending(list, matches, key);
            r.data == Page(all, if limit > 0 then limit else 10, offset) && r.count == |r.data| && r.offset == offset &&
            r.total == |all| && Ordered(all, key) &&
            forall x :: x in all <==> x in list && matches(x)
  {
    FilterElements(list, matches);
    SortIsOrderedPermutation(Filter(list, matches), key);
  }

  // ----- Joining with the confirmed ones -----

  function Max(a: int, b: int): (m: int) {
    if a < b then b else a
  }

  /** The adjusted limit and offset of the request for confirmed transactions. */
  function ConfirmedLimit(limit: nat, pendingTotal: nat, pendingCount: nat): (l: nat) {
    Max(1, limit - (pendingTotal - pendingCount))
  }

  function ConfirmedOffset(offset: nat, pendingTotal: nat): (o: nat) {
    Max(0, offset - pendingTotal)
  }

  /** The data of the merged page over pending list `p` and confirmed list `c`. */
  function Merged<T>(p: seq<T>, c: seq<T>, offset: nat, limit: nat): (data: seq<T>) {
    var pending := Page(p, limit, offset);
    var confirmed := Page(c, ConfirmedLimit(limit, |p|, |pending|), ConfirmedOffset(offset, |p|));
    if |pending| == limit then pending else Page(pending + confirmed, limit, 0)
  }

  /** `mergeTransactions`. `fails` says that the confirmed transactions cannot be read; that is
      an error only when there is no pending one to show. */
  method MergeTransactions<T(==)>(p: seq<T>, c: seq<T>, offset: nat, limit: nat, fails: bool)
    returns (r: Result<Answer<T>>)
    requires limit > 0
    ensures r.Err? <==> fails && Page(p, limit, offset) == []
    ensures r.Ok? ==> r.value.data == (if fails then Page(p, limit, offset) else Merged(p, c, offset, limit))
    ensures r.Ok? ==> r.value.count == |r.value.data| && r.value.offset == offset
    ensures r.Ok? ==> r.value.total == |p| + if fails then 0 else |c|
  {
    var pending := Page(p, limit, offset);
    var confirmed, confirmedTotal := [], 0;
    if fails {
      if pending == [] { return Err("confirmed transactions not available"); }
    } else {
      confirmed := Page(c, ConfirmedLimit(limit, |p|, |pending|), ConfirmedOffset(offset, |p|));
      confirmedTotal := |c|;
    }
    var data := if |pending| == limit then pending else Page(pending + confirmed, limit, 0);
    return Ok(Answer(data, |data|, offset, |p| + confirmedTotal));
  }

  /** The window a reader expects: that slice of pending followed by confirmed. */
  function Window<T>(p: seq<T>, c: seq<T>, offset: nat, limit: nat): (w: seq<T>) {
    Page(p + c, limit, offset)
  }

  /** The merged page is always a prefix of the window. */
  lemma MergedIsPrefix<T>(p: seq<T>, c: seq<T>, offset: nat, limit: nat)
    requires limit > 0
    ensures Merged(p, c, offset, limit) <= Window(p, c, offset, limit)
  {
    if |p| <= offset {
      MergedPastPending(p, c, offset, limit);
      ShorterPageIsPrefix(c, ConfirmedLimit(limit, |p|, 0), limit, offset - |p|);
    } else if |p| - offset < limit {
      var f := |p| - offset;
      MergedAcrossBoth(p, c, offset, limit);
      LongerPrefix(p[offset..], c, Min(limit - f, Min(ConfirmedLimit(limit, |p|, f), |c|)), Min(limit - f, |c|));
    } else {
      MergedWithinPending(p, c, offset, limit);
    }
  }

  lemma LongerPrefix<T>(a: seq<T>, c: seq<T>, m: nat, n: nat)
    requires m <= n <= |c|
    ensures a + c[..m] <= a + c[..n]
  {
  }

  lemma MergedLengths<T>(p: seq<T>, c: seq<T>, offset: nat, limit: nat)
    requires limit > 0
    ensures |Merged(p, c, offset, limit)| == MergedLength(|p|, |c|, offset, limit)
    ensures |Window(p, c, offset, limit)| == WindowLength(|p|, |c|, offset, limit)
  {
    if |p| <= offset {
      MergedPastPending(p, c, offset, limit);
    } else if |p| - offset < limit {
      MergedAcrossBoth(p, c, offset, limit);
    } else {
      MergedWithinPending(p, c, offset, limit);
    }
  }

  lemma MergedWithinPending<T>(p: seq<T>, c: seq<T>, offset: nat, limit: nat)
    requires offset < |p| && limit <= |p| - offset
    ensures Merged(p, c, offset, limit) == p[offset..offset + limit] == Window(p, c, offset, limit)
  {
  }

  lemma MergedPastPending<T>(p: seq<T>, c: seq<T>, offset: nat, limit: nat)
    requires |p| <= offset && limit > 0
    ensures Merged(p, c, offset, limit) == Page(c, ConfirmedLimit(limit, |p|, 0), offset - |p|)
    ensures Window(p, c, offset, limit) == Page(c, limit, offset - |p|)
  {
    var pending, confirmed := Page(p, limit, offset), Page(c, ConfirmedLimit(limit, |p|, 0), offset - |p|);
    assert pending == [] && pending + confirmed == confirmed;
    PageOfWhole(confirmed, limit);
    PagePastFirst(p, c, limit, offset);
  }

  lemma MergedAcrossBoth<T>(p: seq<T>, c: seq<T>, offset: nat, limit: nat)
    requires offset < |p| && |p| - offset < limit
    ensures var f := |p| - offset;
            Merged(p, c, offset, limit) == p[offset..] + c[..Min(limit - f, Min(ConfirmedLimit(limit, |p|, f), |c|))]
    ensures Window(p, c, offset, limit) == p[offset..] + c[..Min(limit - (|p| - offset), |c|)]
  {
    var f := |p| - offset;
    assert Page(p, limit, offset) == p[offset..];
    var confirmed := Page(c, ConfirmedLimit(limit, |p|, f), 0);
    assert confirmed == c[..Min(ConfirmedLimit(limit, |p|, f), |c|)];
  }

  function FromPending(p: nat, offset: nat, limit: nat): (n: nat) {
    if offset < p then Min(p - offset, limit) else 0
  }

  function ConfirmedLeft(p: nat, c: nat, offset: nat): (n: nat) {
    Max(0, c - ConfirmedOffset(offset, p))
  }

  function WindowLength(p: nat, c: nat, offset: nat, limit: nat): (n: nat) {
    Min(limit, Max(0, p + c - offset))
  }

  function MergedLength(p: nat, c: nat, offset: nat, limit: nat): (n: nat) {
    var f := FromPending(p, offset, limit);
    f + if f == limit then 0 else Min(limit - f, Min(ConfirmedLimit(limit, p, f), ConfirmedLeft(p, c, offset)))
  }

  /** The merged page is the full window exactly when the pending ones fill it, or the adjusted
      limit covers what the window still needs from the confirmed ones. */
  lemma MergedIsWindowIff<T>(p: seq<T>, c: seq<T>, offset: nat, limit: nat)
    requires limit > 0
    ensures var f := FromPending(|p|, offset, limit);
            Merged(p, c, offset, limit) == Window(p, c, offset, limit) <==>
            f == limit || Min(limit - f, ConfirmedLeft(|p|, |c|, offset)) <= ConfirmedLimit(limit, |p|, f)
    ensures Merged(p, c, offset, limit) == Window(p, c, offset, limit) <==>
            offset + limit <= |p| ||
            if offset < |p| then Min(offset + limit - |p|, |c|) <= Max(1, limit - offset)
            else Min(limit, Max(0, |p| + |c| - offset)) <= Max(1, limit - |p|)
  {
    MergedIsPrefix(p, c, offset, limit);
    MergedLengths(p, c, offset, limit);
    var m, w := Merged(p, c, offset, limit), Window(p, c, offset, limit);
    assert |m| == |w| ==> m == w;
  }

  /** The lengths of the merged page and of its window, from the sizes of the two lists and the
      request alone. Past the pending ones, the page loses as many entries as are pending. */
  lemma MergedPageLength<T>(p: seq<T>, c: seq<T>, offset: nat, limit: nat)
    requires limit > 0
    ensures |Window(p, c, offset, limit)| == Min(limit, Max(0, |p| + |c| - offset))
    ensures var n := |Merged(p, c, offset, limit)|;
            if offset + limit <= |p| then n == limit
            else if offset < |p| then n == |p| - offset + Min(Min(offset + limit - |p|, Max(1, limit - offset)), |c|)
            else n == Min(Max(1, limit - |p|), Max(0, |p| + |c| - offset))
  {
    MergedLengths(p, c, offset, limit);
  }

  /** It is the full window for a first page, and whenever nothing is pending. */
  lemma FirstPageIsWindow<T>(p: seq<T>, c: seq<T>, offset: nat, limit: nat)
    requires limit > 0 && (offset == 0 || p == [])
    ensures Merged(p, c, offset, limit) == Window(p, c, offset, limit)
  {
    MergedIsWindowIff(p, c, offset, limit);
  }

  /** The guard can fail: a page past three pending transactions is three entries short. */
  lemma LaterPageIsShort(c: seq<int>)
    requires |c| >= 5
    ensures |Merged([0, 0, 0], c, 3, 5)| == 2 && |Window([0, 0, 0], c, 3, 5)| == 5
  {
    MergedLengths([0, 0, 0], c, 3, 5);
  }
}
