/** The view's state and its three transitions. */
module App {
  import opened Artworks
  import opened Selection
  import opened Paging

  /** What one completed fetch delivers: the page's records and the total
      record count reported by the catalog. */
  datatype PagePayload = PagePayload(records: seq<Artwork>, total: int)

  class AppState {
    var data: seq<Artwork>
    var totalRecords: int
    var selectedRows: seq<Artwork>
    var page: int
    /** All rows ever reported by the grid, in order. */
    ghost var events: seq<Artwork>

    /** The selection is the merge of every reported row into the empty
        selection, and so has distinct ids. */
    ghost predicate Valid()
      reads this
    {
      selectedRows == Merge([], events) && DistinctIds(selectedRows)
    }

    /** Initial state: nothing loaded, nothing selected, page one. */
    constructor ()
      ensures Valid()
      ensures data == [] && totalRecords == 0 && selectedRows == [] && page == 1
      ensures events == []
    {
      data := [];
      totalRecords := 0;
      selectedRows := [];
      page := 1;
      events := [];
    }

    /** The paginator offset for the current page. */
    function First(): (first: int)
      reads this
    {
      FirstOffset(page)
    }

    /** The paginator reports zero-based index `index`. */
    method OnPageChange(index: int)
      requires Valid()
      modifies this
      ensures Valid()
      ensures page == PageFromIndex(index)
      ensures First() == index * RowsPerPage
      ensures data == old(data) && totalRecords == old(totalRecords)
      ensures selectedRows == old(selectedRows) && events == old(events)
    {
      page := PageFromIndex(index);
      OffsetOfIndex(index);
    }

    /** A fetch completed: records and total are replaced wholesale. */
    method OnPageLoaded(payload: PagePayload)
      requires Valid()
      modifies this
      ensures Valid()
      ensures data == payload.records && totalRecords == payload.total
      ensures selectedRows == old(selectedRows) && page == old(page) && events == old(events)
    {
      data := payload.records;
      totalRecords := payload.total;
    }

    /** The grid reported `rows` as selected on the visible page. */
    method OnRowSelect(rows: seq<Artwork>)
      requires Valid()
      modifies this
      ensures Valid()
      ensures selectedRows == Merge(old(selectedRows), rows)
      ensures old(selectedRows) <= selectedRows
      ensures events == old(events) + rows
      ensures data == old(data) && totalRecords == old(totalRecords) && page == old(page)
    {
      var updated := MergeSelection(selectedRows, rows);
      MergeConcat([], events, rows);
      MergeKeepsPrefix(selectedRows, rows);
      MergeDistinct(selectedRows, rows);
      selectedRows := updated;
      events := events + rows;
    }
  }
}
