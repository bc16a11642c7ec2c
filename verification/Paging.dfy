/** Page windows, page counts and the loop that fetches every user. */
module Paging {
  import opened Collections

  /** `PaginatedResponse.total_pages` */
  function TotalPages(total: nat, pageSize: nat): nat
  {
    if pageSize == 0 then 0 else (total + pageSize - 1) / pageSize
  }

  /** `OFFSET (page - 1) * page_size LIMIT page_size` on an ordered result; pages count from 1. */
  function Page<T>(rows: seq<T>, page: nat, pageSize: nat): seq<T>
    requires page >= 1
  {
    rows[Min((page - 1) * pageSize, |rows|)..Min(page * pageSize, |rows|)]
  }

  function HasNext(total: nat, page: nat, pageSize: nat): bool
  {
    page * pageSize < total
  }

  /** Pages 1 to n, one after the other. */
  function Pages<T>(rows: seq<T>, n: nat, pageSize: nat): seq<T>
  {
    if n == 0 then [] else Pages(rows, n - 1, pageSize) + Page(rows, n, pageSize)
  }

  lemma {:induction false} PagesArePrefix<T>(rows: seq<T>, n: nat, pageSize: nat)
    ensures Pages(rows, n, pageSize) == rows[..Min(n * pageSize, |rows|)]
  {
    if n == 0 {
      assert 0 * pageSize == 0;
    } else {
      PagesArePrefix(rows, n - 1, pageSize);
      assert (n - 1) * pageSize <= n * pageSize;
    }
  }

  lemma LastPage(total: nat, pageSize: nat)
    requires pageSize > 0
    ensures total <= TotalPages(total, pageSize) * pageSize < total + pageSize
  {
    var t := total + pageSize - 1;
    assert t == t / pageSize * pageSize + t % pageSize;
  }

  lemma PageAgainstTotal(page: nat, pages: nat, pageSize: nat)
    requires pageSize > 0
    ensures page < pages ==> page * pageSize <= (pages - 1) * pageSize
    ensures page >= pages ==> page * pageSize >= pages * pageSize
    ensures (pages - 1) * pageSize == pages * pageSize - pageSize
  {
  }

  /** `hasNext` announces another page exactly before the last one. For a page size of 0, which the service
      function accepts although its endpoint asks for at least 1, there are no pages, yet it announces one
      whenever there are rows. */
  lemma HasNextIff(total: nat, page: nat, pageSize: nat)
    ensures pageSize > 0 ==> (HasNext(total, page, pageSize) <==> page < TotalPages(total, pageSize))
    ensures pageSize == 0 ==> TotalPages(total, pageSize) == 0 && (HasNext(total, page, pageSize) <==> total > 0)
  {
    if pageSize > 0 {
      LastPage(total, pageSize);
      PageAgainstTotal(page, TotalPages(total, pageSize), pageSize);
    } else {
      assert page * 0 == 0;
    }
  }

  lemma PageFilledIff<T>(rows: seq<T>, page: nat, pageSize: nat)
    requires pageSize > 0 && page >= 1
    ensures Page(rows, page, pageSize) != [] <==> page <= TotalPages(|rows|, pageSize)
  {
    HasNextIff(|rows|, page - 1, pageSize);
    assert page * pageSize == (page - 1) * pageSize + pageSize;
  }

  /** The pages laid end to end are the whole list, and none of them is empty. */
  lemma PagesTile<T>(rows: seq<T>, pageSize: nat)
    requires pageSize > 0
    ensures Pages(rows, TotalPages(|rows|, pageSize), pageSize) == rows
    ensures forall page | 1 <= page <= TotalPages(|rows|, pageSize) :: Page(rows, page, pageSize) != []
    ensures forall page | page > TotalPages(|rows|, pageSize) :: Page(rows, page, pageSize) == []
  {
    LastPage(|rows|, pageSize);
    PagesArePrefix(rows, TotalPages(|rows|, pageSize), pageSize);
    forall page | page >= 1
      ensures Page(rows, page, pageSize) != [] <==> page <= TotalPages(|rows|, pageSize)
    {
      PageFilledIff(rows, page, pageSize);
    }
  }

  // ----- fetch_all_users -----

  const ASKED := 100

  /** What the server sends for one request: a page of the size asked for, or of its own maximum. */
  function Batch<T>(users: seq<T>, page: nat, serverMax: nat): seq<T>
    requires page >= 1
  {
    Page(users, page, Min(ASKED, serverMax))
  }

  /** Stops at the first batch shorter than asked for. With a server that serves pages of 100, it gets
      every user once, in floor(N / 100) + 1 requests; with a smaller maximum it stops after one page. */
  method FetchAllUsers<T>(users: seq<T>, serverMax: nat) returns (fetched: seq<T>, requests: nat)
    ensures serverMax >= 100 ==> fetched == users && requests == |users| / 100 + 1
    ensures serverMax < 100 ==> fetched == users[..Min(serverMax, |users|)] && requests == 1
    ensures fetched == users <==> serverMax >= 100 || |users| <= serverMax
  {
    var size := Min(ASKED, serverMax);
    fetched := [];
    var page := 1;
    requests := 0;
    while true
      invariant page >= 1 && requests == page - 1
      invariant fetched == Pages(users, page - 1, size)
      invariant (page - 1) * size <= |users| && (page > 1 ==> size == ASKED)
      decreases |users| + ASKED - page * ASKED
    {
      var batch := Batch(users, page, serverMax);
      requests := requests + 1;
      PagesArePrefix(users, page - 1, size);
      PagesArePrefix(users, page, size);
      if |batch| == 0 { break; }
      fetched := fetched + batch;
      if |batch| < ASKED { break; }
      page := page + 1;
    }
  }
}
