/** The page's shared state (`ALL_CARPARK_DATA_MOCK`, `currentData`,
    `currentPage`) and the handlers that change it: loading, searching and
    turning pages of the explore table. */
module ExploreState {
  import opened Carparks
  import opened Reconcile
  import opened Search
  import opened Pagination

  /** The page the table may be on: page 1, or a page the data fills. */
  predicate PageInRange(data: seq<Carpark>, page: int) {
    1 <= page && (page == 1 || page <= TotalPages(|data|))
  }

  /** On a page in range the table shows between one and ten rows whenever
      there is any data, and nothing when there is none. */
  lemma PageInRangeShowsRows(data: seq<Carpark>, page: int)
    requires PageInRange(data, page)
    ensures data != [] ==> 1 <= |PageSlice(data, page)| <= ROWS_PER_PAGE
    ensures data == [] ==> PageSlice(data, page) == []
  {
    if data != [] {
      AcceptedPageNotEmpty(data, page);
    } else {
      PageSliceContents(data, page);
    }
  }

  class CarparkFinder {
    /** `ALL_CARPARK_DATA_MOCK`, meaningful once `loaded` holds. */
    var all: seq<Carpark>
    /** Whether `ALL_CARPARK_DATA_MOCK` has been defined. */
    var loaded: bool
    /** The rows the explore table pages through. */
    var currentData: seq<Carpark>
    var currentPage: int

    ghost predicate Valid()
      reads this
    {
      PageInRange(currentData, currentPage) && (!loaded ==> currentData == [])
    }

    constructor ()
      ensures Valid()
      ensures !loaded && currentData == [] && currentPage == 1
    {
      all := [];
      loaded := false;
      currentData := [];
      currentPage := 1;
    }

    /** `loadCarparkData` after the CSV has been parsed into `rows` and the
        live feed fetched as `feed`: the merged list is published, and the
        table starts over on page 1 of it unless it is empty. */
    method LoadCarparkData(rows: seq<CsvRow>, feed: FeedResult, project: (real, real) -> LatLon)
      requires Valid()
      modifies this
      ensures Valid()
      ensures loaded && all == Reconciled(rows, LiveEntries(feed), project)
      ensures |all| > 0 ==> currentData == all && currentPage == 1
      ensures |all| == 0 ==> currentData == old(currentData) && currentPage == old(currentPage)
    {
      var merged := MergeCarparkData(rows, feed, project);
      Publish(merged);
    }

    /** The tail of `loadCarparkData`: `merged` becomes the full list and,
        unless it is empty, the table starts over on page 1 of it. */
    method Publish(merged: seq<Carpark>)
      requires Valid()
      modifies this
      ensures Valid()
      ensures loaded && all == merged
      ensures |merged| > 0 ==> currentData == merged && currentPage == 1
      ensures |merged| == 0 ==> currentData == old(currentData) && currentPage == old(currentPage)
    {
      all, loaded := merged, true;
      if |merged| > 0 {
        currentData, currentPage := merged, 1;
      }
    }

    /** `filterExploreTable`: nothing happens before the data is loaded;
        afterwards the table shows page 1 of the matching car parks. */
    method FilterExploreTable(searchInput: string)
      requires Valid()
      modifies this
      ensures Valid()
      ensures all == old(all) && loaded == old(loaded)
      ensures !loaded ==> currentData == old(currentData) && currentPage == old(currentPage)
      ensures loaded ==> currentData == FilterCarparks(all, SearchTerm(searchInput)) && currentPage == 1
    {
      if !loaded {
        return;
      }
      currentData := FilterCarparks(all, SearchTerm(searchInput));
      currentPage := 1;
    }

    /** `changePage`: a page outside 1..TotalPages is ignored. */
    method ChangePage(page: int)
      requires Valid()
      modifies this
      ensures Valid()
      ensures all == old(all) && loaded == old(loaded) && currentData == old(currentData)
      ensures currentPage == if AcceptsPage(|currentData|, page) then page else old(currentPage)
    {
      if page < 1 || page > TotalPages(|currentData|) {
        return;
      }
      currentPage := page;
    }

    /** `renderExploreTable(currentData, currentPage)`: the rows of the current
        page and the pagination buttons under them. */
    method RenderExploreTable() returns (rows: seq<Carpark>, buttons: seq<Button>)
      requires Valid()
      ensures rows == PageSlice(currentData, currentPage)
      ensures currentData != [] ==> 1 <= |rows| <= ROWS_PER_PAGE
      ensures currentData == [] ==> rows == []
      ensures buttons == PaginationButtons(|currentData|, currentPage)
    {
      var start := (currentPage - 1) * ROWS_PER_PAGE;
      rows := JsSlice(currentData, start, start + ROWS_PER_PAGE);
      PageInRangeShowsRows(currentData, currentPage);
      buttons := SetupPagination(|currentData|, currentPage);
    }
  }
}
