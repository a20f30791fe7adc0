/**
 * The page arithmetic of app/utils/common.py (calculate_total_pages and
 * get_page_size) and the page-validated slice that every paginated listing
 * of the service computes from it.
 *
 * common.py also holds helpers that look posts up in the store, and the store
 * layer imports the page arithmetic from common.py; Dafny modules may not
 * import each other in a cycle, so the arithmetic lives here and the lookup
 * helpers live in module Common.
 */
module Pages {
  import opened Wrappers
  import opened Models

  function Min(a: int, b: int): int { if a <= b then a else b }

  /**
   * calculate_total_pages: the number of pages needed for `totalItems` items,
   * with the convention that an empty listing still has one (empty) page.
   * For a non-empty listing this is the ceiling of totalItems / pageSize.
   */
  function TotalPages(totalItems: nat, pageSize: nat): (pages: nat)
    requires pageSize >= 1
    ensures pages >= 1
    ensures totalItems == 0 ==> pages == 1
    ensures totalItems > 0 ==> (pages - 1) * pageSize < totalItems <= pages * pageSize
  {
    if totalItems != 0 then
      var q := (totalItems - 1) / pageSize;
      assert q * pageSize <= totalItems - 1 < (q + 1) * pageSize by {
        DivBounds(totalItems - 1, pageSize);
      }
      q + 1
    else
      1
  }

  /** Euclidean division brackets its dividend. */
  lemma DivBounds(n: nat, d: nat)
    requires d >= 1
    ensures (n / d) * d <= n < (n / d + 1) * d
  {
    assert n == (n / d) * d + n % d;
  }

  /** get_page_size: the configured page size; every page holds at least one slot. */
  function PageSize(): (size: nat)
    ensures size >= 1
  {
    PAGE_SIZE
  }

  /**
   * At most `limit` items starting at index `offset`, clamped to the end of
   * `s`: a Python slice s[offset : offset + limit] with non-negative bounds,
   * and equally SQL's OFFSET offset LIMIT limit over an ordered table.
   */
  function Window<T>(s: seq<T>, offset: nat, limit: nat): (w: seq<T>)
    ensures |w| == if offset >= |s| then 0 else Min(limit, |s| - offset)
    ensures forall i :: 0 <= i < |w| ==> w[i] == s[offset + i]
  {
    if offset >= |s| then [] else s[offset .. offset + Min(limit, |s| - offset)]
  }

  /**
   * The page-validated slice: None when `page` is past the last page,
   * otherwise the items of page `page` (counted from 1).
   */
  function PageOf<T>(items: seq<T>, page: int, pageSize: nat): (r: Option<seq<T>>)
    requires page >= 1 && pageSize >= 1
  {
    if page > TotalPages(|items|, pageSize) then None
    else Some(Window(items, (page - 1) * pageSize, pageSize))
  }

  /**
   * What a page holds: a page past TotalPages is refused; any other page
   * starts inside the listing (or at 0 for an empty one) and is exactly the
   * slice items[(page - 1) * pageSize : page * pageSize], clamped to the end
   * of the listing, which is empty only when the whole listing is empty.
   */
  lemma PageOfSpec<T>(items: seq<T>, page: int, pageSize: nat)
    requires page >= 1 && pageSize >= 1
    ensures PageOf(items, page, pageSize).None? <==> page > TotalPages(|items|, pageSize)
    ensures PageOf(items, page, pageSize).Some? ==>
      var p := PageOf(items, page, pageSize).value;
      (page - 1) * pageSize <= |items| &&
      p == items[(page - 1) * pageSize .. Min(page * pageSize, |items|)] &&
      1 <= |p| + (if |items| == 0 then 1 else 0) <= pageSize
  {
    PageEnd(page, pageSize);
    if page <= TotalPages(|items|, pageSize) && |items| > 0 {
      var tp := TotalPages(|items|, pageSize);
      assert (page - 1) * pageSize <= (tp - 1) * pageSize by {
        MulMonotone(page - 1, tp - 1, pageSize);
      }
    }
  }

  lemma PageEnd(page: int, pageSize: nat)
    ensures page * pageSize == (page - 1) * pageSize + pageSize
  {
  }

  lemma MulMonotone(a: nat, b: nat, c: nat)
    requires a <= b
    ensures a * c <= b * c
  {
  }

  /**
   * Pagination loses nothing: the item at index i is on page i / pageSize + 1,
   * which is a valid page, at position i % pageSize.
   */
  lemma {:induction false} ItemOnPage<T>(items: seq<T>, pageSize: nat, i: nat)
    requires pageSize >= 1 && i < |items|
    ensures var page := i / pageSize + 1;
      page <= TotalPages(|items|, pageSize) &&
      PageOf(items, page, pageSize).Some? &&
      i % pageSize < |PageOf(items, page, pageSize).value| &&
      PageOf(items, page, pageSize).value[i % pageSize] == items[i]
  {
    var page := i / pageSize + 1;
    var tp := TotalPages(|items|, pageSize);
    assert i == (i / pageSize) * pageSize + i % pageSize;
    DivBounds(|items| - 1, pageSize);
    assert i / pageSize <= (|items| - 1) / pageSize by {
      DivMonotone(i, |items| - 1, pageSize);
    }
    assert page <= tp;
  }

  lemma DivMonotone(a: nat, b: nat, d: nat)
    requires a <= b && d >= 1
    ensures a / d <= b / d
  {
    DivBounds(a, d);
    DivBounds(b, d);
    if a / d > b / d {
      MulMonotone(b / d + 1, a / d, d);
    }
  }
}
