/**
  Ten-per-page paging as the cleaning step (clusters of a tab) and the preview step
  (data rows and column cards) use it: page `p` shows the items from `(p-1)*10` up to
  `p*10`, the page count is the ceiling of `n / 10`, and the controls appear only when
  there is more than one page.
 */
module Paging {
  import opened Js

  const ItemsPerPage: nat := 10

  /** `items.slice((page - 1) * 10, page * 10)`: at most ten items, starting at item `(page-1)*10`. */
  function PageItems<T>(items: seq<T>, page: int): (r: seq<T>)
    requires page >= 1
    ensures |r| <= ItemsPerPage
    ensures forall k :: 0 <= k < |r| ==>
              (page - 1) * ItemsPerPage + k < |items| && r[k] == items[(page - 1) * ItemsPerPage + k]
  {
    Slice(items, (page - 1) * ItemsPerPage, (page - 1) * ItemsPerPage + ItemsPerPage)
  }

  /** `Math.ceil(n / 10)`: the fewest pages of ten that hold `n` items. */
  function TotalPages(n: nat): (pages: nat)
    ensures pages * ItemsPerPage >= n
    ensures pages == 0 || (pages - 1) * ItemsPerPage < n
  {
    CeilDiv(n, ItemsPerPage)
  }

  /** The paging controls are drawn only when there is more than one page. */
  predicate ShowsPaginationControls(n: nat)
  {
    TotalPages(n) > 1
  }

  /** The "to" figure of "Showing x to y of n items". */
  function EndItem(page: int, n: nat): (r: int)
    ensures r <= n && r <= page * ItemsPerPage
    ensures r == n || r == page * ItemsPerPage
  {
    if page * ItemsPerPage <= n then page * ItemsPerPage else n
  }

  /**
    Page `p` shows the items at positions `[(p-1)*10, p*10)`, at most ten of them; the
    controls appear exactly when there are more than ten items; "to" is `min(p*10, n)`.
   */
  lemma {:induction false} PagingSpec<T>(items: seq<T>, page: int)
    requires page >= 1
    ensures |PageItems(items, page)| <= ItemsPerPage
    ensures forall k :: 0 <= k < |PageItems(items, page)| ==>
              PageItems(items, page)[k] == items[(page - 1) * ItemsPerPage + k]
    ensures (page - 1) * ItemsPerPage < |items| ==>
              |PageItems(items, page)| == EndItem(page, |items|) - (page - 1) * ItemsPerPage
    ensures ShowsPaginationControls(|items|) <==> |items| > ItemsPerPage
  {
    var n := |items|;
    if n > ItemsPerPage {
      assert TotalPages(n) * ItemsPerPage >= n;
    } else {
      assert n == 0 || (n + 9) / 10 == 1;
    }
  }

  /** Every item is on exactly one page: item `k` sits on page `k / 10 + 1`, at position `k % 10`. */
  lemma {:induction false} EveryItemOnOnePage<T>(items: seq<T>, k: nat, page: int)
    requires k < |items| && page >= 1
    ensures 1 <= k / ItemsPerPage + 1 <= TotalPages(|items|)
    ensures PageItems(items, k / ItemsPerPage + 1)[k % ItemsPerPage] == items[k]
    ensures page != k / ItemsPerPage + 1 ==>
              !((page - 1) * ItemsPerPage <= k < (page - 1) * ItemsPerPage + |PageItems(items, page)|)
  {
    var n := |items|;
    assert TotalPages(n) * ItemsPerPage >= n;
    assert k / 10 * 10 + k % 10 == k;
    if (page - 1) * 10 <= k < (page - 1) * 10 + 10 {
      DivOfPageRange(k, page - 1);
    }
  }

  lemma DivOfPageRange(k: nat, q: nat)
    requires q * 10 <= k < q * 10 + 10
    ensures k / 10 == q
  {
  }
}
