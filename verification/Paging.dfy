/** Requests with a limit and an offset against a source that answers with slices of a list. */
module Paging {

  function Min(a: nat, b: nat): (m: nat) {
    if a < b then a else b
  }

  /** The page size of a request; a zero counts as omitted. */
  function PageSize(limit: nat): (n: nat)
    ensures n > 0
  {
    if limit == 0 then 100 else limit
  }

  /** `all.slice(offset, offset + limit)`. */
  function Page<T>(all: seq<T>, limit: nat, offset: nat): (page: seq<T>)
    ensures |page| == if offset < |all| then Min(limit, |all| - offset) else 0
  {
    all[Min(offset, |all|)..Min(offset + limit, |all|)]
  }

  /** `Math.ceil(amount / limit)`. */
  function Pages(amount: nat, limit: nat): (n: nat)
    requires limit > 0
    ensures amount <= n * limit < amount + limit
  {
    (amount + limit - 1) / limit
  }

  lemma PagesCover(page: nat, pages: nat, limit: nat)
    requires page <= pages
    ensures page * limit <= pages * limit
  {
  }

  lemma PageOfWhole<T>(all: seq<T>, limit: nat)
    requires |all| <= limit
    ensures Page(all, limit, 0) == all
  {
  }

  lemma PagePastFirst<T>(a: seq<T>, b: seq<T>, limit: nat, offset: nat)
    requires |a| <= offset
    ensures Page(a + b, limit, offset) == Page(b, limit, offset - |a|)
  {
  }

  lemma ShorterPageIsPrefix<T>(all: seq<T>, short: nat, limit: nat, offset: nat)
    requires short <= limit
    ensures Page(all, short, offset) <= Page(all, limit, offset)
  {
  }
}
