/**
 * PaginationUtil.getPagination (src/adapters/util/pagination.util.ts): the
 * row offset of a page of ten. A null page is None.
 */
module Pagination {
  import opened Wrappers

  const Limit: nat := 10

  function GetPagination(page: Option<int>): (offset: nat)
    ensures offset % Limit == 0
    ensures page.None? || page.value <= 1 ==> offset == 0
    ensures page.Some? && page.value >= 1 ==> offset / Limit + 1 == page.value
  {
    if page.Some? then (if page.value <= 0 then 0 else (page.value - 1) * Limit) else 0
  }

  /** A later page never starts before an earlier one. */
  lemma Monotone(p: int, q: int)
    requires p <= q
    ensures GetPagination(Some(p)) <= GetPagination(Some(q))
  {
  }

  /** Consecutive positive pages start exactly one page of rows apart. */
  lemma Consecutive(p: int)
    requires p >= 1
    ensures GetPagination(Some(p + 1)) == GetPagination(Some(p)) + Limit
  {
  }
}
