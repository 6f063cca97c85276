/** The Pagination control: a Previous and a Next button around "Page <current> of <total>".
    A button is disabled at its end of the range; an enabled one asks for the neighbouring page. */
module Pagination {
  import opened Basics
  import TaskSearch

  datatype Button = Previous | Next

  /** Previous is disabled on the first page (or below it). */
  predicate PreviousDisabled(currentPage: int) {
    currentPage <= 1
  }

  /** Next is disabled on the last page (or past it). */
  predicate NextDisabled(currentPage: int, totalPages: int) {
    currentPage >= totalPages
  }

  /** What clicking a button hands to `onPageChange`: nothing when the button is disabled,
      otherwise the page before or after the current one. */
  function Click(currentPage: int, totalPages: int, b: Button): (r: Option<int>)
    ensures r.None? <==> (b == Previous && PreviousDisabled(currentPage)) || (b == Next && NextDisabled(currentPage, totalPages))
    ensures r.Some? && b == Previous ==> r.value == currentPage - 1 && r.value >= 1
    ensures r.Some? && b == Next ==> r.value == currentPage + 1 && r.value <= totalPages
  {
    match b
    case Previous => if PreviousDisabled(currentPage) then None else Some(currentPage - 1)
    case Next => if NextDisabled(currentPage, totalPages) then None else Some(currentPage + 1)
  }

  /** The pages a user can be on: 1 to totalPages, or page 1 when there are no pages at all. */
  predicate OnAPage(currentPage: int, totalPages: int) {
    1 <= currentPage && (currentPage <= totalPages || currentPage == 1)
  }

  /** An enabled button always requests a page in [1, totalPages], so navigating from a page
      in range never leaves the range. */
  lemma RequestedPageInRange(currentPage: int, totalPages: int, b: Button)
    requires OnAPage(currentPage, totalPages)
    ensures Click(currentPage, totalPages, b).Some? ==>
      1 <= Click(currentPage, totalPages, b).value <= totalPages
    ensures Click(currentPage, totalPages, b).Some? ==>
      OnAPage(Click(currentPage, totalPages, b).value, totalPages)
  {
  }

  /** With no pages Next is disabled on every page from 1 on, and on page 1 Previous is too. */
  lemma NoPagesDisablesNext(currentPage: int, totalPages: int)
    requires totalPages <= 0 && currentPage >= 1
    ensures Click(currentPage, totalPages, Next).None?
    ensures currentPage == 1 ==> Click(currentPage, totalPages, Previous).None?
  {
  }

  /** On page 1 of 1 both buttons are disabled and neither click reaches `onPageChange`. */
  lemma SinglePageDisablesBoth()
    ensures PreviousDisabled(1) && NextDisabled(1, 1)
    ensures Click(1, 1, Previous) == None && Click(1, 1, Next) == None
  {
  }

  /** Paired with the backend's page count for `total` matching tasks: every page an enabled
      button requests is one the search answers with at least one task. */
  lemma RequestedPageIsNonEmpty(currentPage: int, total: nat, limit: int, b: Button)
    requires limit >= 1
    requires OnAPage(currentPage, TaskSearch.CeilDiv(total, limit))
    requires Click(currentPage, TaskSearch.CeilDiv(total, limit), b).Some?
    ensures (Click(currentPage, TaskSearch.CeilDiv(total, limit), b).value - 1) * limit < total
  {
    var page := Click(currentPage, TaskSearch.CeilDiv(total, limit), b).value;
    RequestedPageInRange(currentPage, TaskSearch.CeilDiv(total, limit), b);
    TaskSearch.PageInRangeIffNonEmpty(total, limit, page);
  }
}
