/** Page indexing: the paginator widget numbers pages from zero, the remote
    catalog from one, and the widget is positioned by the offset of the
    page's first row. */
module Paging {

  /** Rows requested per page and shown per page. */
  const RowsPerPage: int := 5

  /** `onPageChange`: the one-based page number for a zero-based page index. */
  function PageFromIndex(index: int): (page: int)
  {
    index + 1
  }

  /** The paginator's `first`: offset of the first row of one-based `page`. */
  function FirstOffset(page: int): (first: int)
  {
    (page - 1) * RowsPerPage
  }

  /** The offset shown after moving to index `p` is `p` pages of rows, and
      for a non-negative index it is a non-negative multiple of the page
      size from which the widget recovers `p`. */
  lemma OffsetOfIndex(p: int)
    ensures FirstOffset(PageFromIndex(p)) == p * RowsPerPage
    ensures p >= 0 ==> FirstOffset(PageFromIndex(p)) >= 0
    ensures FirstOffset(PageFromIndex(p)) % RowsPerPage == 0
    ensures FirstOffset(PageFromIndex(p)) / RowsPerPage == p
  {
  }

  /** Translating back: the zero-based index of a one-based page. */
  lemma IndexRoundTrip(page: int)
    ensures PageFromIndex(FirstOffset(page) / RowsPerPage) == page
  {
  }
}
