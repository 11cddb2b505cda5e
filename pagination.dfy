/** The paging of the explore table: `Math.ceil` page counts, the
    `Array.prototype.slice` that cuts one page out of the data, the `changePage`
    guard and the buttons `setupPagination` lays out. */
module Pagination {
  import opened Seqs
  import opened Wrappers
  import opened JsNumbers

  /** Rows shown on one page of the explore table. */
  const ROWS_PER_PAGE: nat := 10

  /** How many page-number buttons the window shows at most. */
  const WINDOW_SIZE: nat := 5

  /** `Math.ceil(count / ROWS_PER_PAGE)`: the fewest pages that hold `count` rows. */
  function TotalPages(count: nat): (pages: nat)
    ensures (pages - 1) * ROWS_PER_PAGE < count <= pages * ROWS_PER_PAGE || (count == 0 && pages == 0)
  {
    (count + ROWS_PER_PAGE - 1) / ROWS_PER_PAGE
  }

  /** The guard of `changePage`: pages outside 1..TotalPages(count) are refused. */
  predicate AcceptsPage(count: nat, page: int) {
    !(page < 1 || page > TotalPages(count))
  }

  /** A `slice` bound: negative values count back from the end, and every
      value is clamped to 0..length. */
  function SliceBound(bound: int, length: nat): (k: nat)
    ensures k <= length
    ensures 0 <= bound <= length ==> k == bound
    ensures bound > length ==> k == length
    ensures bound < 0 ==> k == Max(length + bound, 0)
  {
    if bound < 0 then Max(length + bound, 0) else Min(bound, length)
  }

  /** `data.slice(start, end)`. */
  function JsSlice<T>(data: seq<T>, start: int, end: int): (r: seq<T>)
    ensures 0 <= start <= end <= |data| ==> r == data[start..end]
    ensures |r| == Max(SliceBound(end, |data|) - SliceBound(start, |data|), 0)
    ensures forall k :: 0 <= k < |r| ==> r[k] == data[SliceBound(start, |data|) + k]
    ensures start >= |data| || (end >= 0 && end <= start) || end <= -|data| ==> r == []
  {
    var lo, hi := SliceBound(start, |data|), SliceBound(end, |data|);
    if lo <= hi then data[lo..hi] else []
  }

  /** The rows `renderExploreTable(data, page)` shows. */
  function PageSlice<T>(data: seq<T>, page: int): seq<T> {
    var start := (page - 1) * ROWS_PER_PAGE;
    JsSlice(data, start, start + ROWS_PER_PAGE)
  }

  /** For page 1 and after, a page holds at most ten rows: exactly the rows
      from position (page - 1) * 10 on that the data has. */
  lemma PageSliceContents<T>(data: seq<T>, page: int)
    requires page >= 1
    ensures var start := (page - 1) * ROWS_PER_PAGE;
      |PageSlice(data, page)| <= ROWS_PER_PAGE
      && PageSlice(data, page) == data[Min(start, |data|)..Min(start + ROWS_PER_PAGE, |data|)]
  {
  }

  /** Every page the guard of `changePage` accepts shows between one and ten rows. */
  lemma AcceptedPageNotEmpty<T>(data: seq<T>, page: int)
    requires AcceptsPage(|data|, page)
    ensures 1 <= |PageSlice(data, page)| <= ROWS_PER_PAGE
    ensures forall k :: 0 <= k < |PageSlice(data, page)| ==>
      PageSlice(data, page)[k] == data[(page - 1) * ROWS_PER_PAGE + k]
  {
    PageSliceContents(data, page);
  }

  /** Pages 1..k, one after the other. */
  function PagesUpTo<T>(data: seq<T>, k: nat): seq<T> {
    if k == 0 then [] else PagesUpTo(data, k - 1) + PageSlice(data, k)
  }

  lemma {:induction false} PagesUpToPrefix<T>(data: seq<T>, k: nat)
    ensures PagesUpTo(data, k) == data[..Min(k * ROWS_PER_PAGE, |data|)]
  {
    if k > 0 {
      PagesUpToPrefix(data, k - 1);
      PageSliceContents(data, k);
      var a, b := Min((k - 1) * ROWS_PER_PAGE, |data|), Min(k * ROWS_PER_PAGE, |data|);
      assert data[..a] + data[a..b] == data[..b];
    }
  }

  /** Paging through every page shows every row exactly once, in order. */
  lemma PagesCoverData<T>(data: seq<T>)
    ensures PagesUpTo(data, TotalPages(|data|)) == data
  {
    PagesUpToPrefix(data, TotalPages(|data|));
  }

  /** The first and last page numbers `setupPagination` shows around `current`. */
  function PageWindow(total: int, current: int): (int, int) {
    var start := Max(1, current - 2);
    var end := Min(total, current + 2);
    if current <= 2 then (start, Min(total, WINDOW_SIZE))
    else if current >= total - 1 then (Max(1, total - (WINDOW_SIZE - 1)), end)
    else (start, end)
  }

  /** For a page in range the window lies within 1..total, contains the
      current page and shows min(5, total) consecutive page numbers. */
  lemma PageWindowShape(total: int, current: int)
    requires 1 <= current <= total
    ensures var (start, end) := PageWindow(total, current);
      1 <= start <= current <= end <= total
      && end - start + 1 == Min(WINDOW_SIZE, total)
  {
  }

  /** A pagination button: its label, the page its click asks for, and
      whether it is highlighted. */
  datatype Button = Button(text: string, page: int, active: bool)

  /** The page-number buttons start..end, the current page's highlighted. */
  function NumberButtons(start: int, end: int, current: int): (r: seq<Button>)
    ensures |r| == Max(end - start + 1, 0)
  {
    seq(Max(end - start + 1, 0), k => Button(Decimal(start + k), start + k, start + k == current))
  }

  /** Every button `setupPagination(totalItems)` creates while the current
      page is `current`: none when everything fits on one page, otherwise
      Previous, the window of page numbers and Next. */
  function PaginationButtons(totalItems: nat, current: int): seq<Button> {
    var total := TotalPages(totalItems);
    if total <= 1 then []
    else
      var (start, end) := PageWindow(total, current);
      [Button("Previous", current - 1, false)] + NumberButtons(start, end, current) + [Button("Next", current + 1, false)]
  }

  /** The `for (let i = startPage; i <= endPage; i++)` loop of `setupPagination`. */
  method AppendNumberButtons(buttons: seq<Button>, startPage: int, endPage: int, current: int)
    returns (r: seq<Button>)
    ensures r == buttons + NumberButtons(startPage, endPage, current)
  {
    ghost var numbers := NumberButtons(startPage, endPage, current);
    r := buttons;
    var i := startPage;
    while i <= endPage
      invariant startPage <= i <= Max(endPage + 1, startPage)
      invariant r == buttons + numbers[..i - startPage]
    {
      assert numbers[i - startPage] == Button(Decimal(i), i, i == current);
      assert numbers[..i + 1 - startPage] == numbers[..i - startPage] + [numbers[i - startPage]];
      r := r + [Button(Decimal(i), i, i == current)];
      i := i + 1;
    }
    assert numbers[..i - startPage] == numbers;
  }

  /** Lays out the buttons as `setupPagination` does. */
  method SetupPagination(totalItems: nat, current: int) returns (buttons: seq<Button>)
    ensures buttons == PaginationButtons(totalItems, current)
  {
    var total := TotalPages(totalItems);
    if total <= 1 {
      return [];
    }
    buttons := [Button("Previous", current - 1, false)];
    var startPage := Max(1, current - 2);
    var endPage := Min(total, current + 2);
    if current <= 2 {
      endPage := Min(total, WINDOW_SIZE);
    } else if current >= total - 1 {
      startPage := Max(1, total - (WINDOW_SIZE - 1));
    }
    buttons := AppendNumberButtons(buttons, startPage, endPage, current);
    buttons := buttons + [Button("Next", current + 1, false)];
  }

  /** The layout of the buttons when there is more than one page. */
  lemma ButtonsLayout(totalItems: nat, current: int)
    requires 1 <= current <= TotalPages(totalItems) && TotalPages(totalItems) > 1
    ensures var buttons, (start, end) := PaginationButtons(totalItems, current), PageWindow(TotalPages(totalItems), current);
      |buttons| == end - start + 3
      && buttons[0] == Button("Previous", current - 1, false)
      && buttons[|buttons| - 1] == Button("Next", current + 1, false)
      && forall k :: 0 < k < |buttons| - 1 ==>
           buttons[k] == Button(Decimal(start + k - 1), start + k - 1, start + k - 1 == current)
  {
    PageWindowShape(TotalPages(totalItems), current);
  }

  /** With the current page in range there are buttons exactly when there is
      more than one page, and then exactly one of them, the current page's,
      is highlighted. */
  lemma ButtonsHighlightCurrent(totalItems: nat, current: int)
    requires 1 <= current && (current == 1 || current <= TotalPages(totalItems))
    ensures var buttons := PaginationButtons(totalItems, current);
      (buttons == [] <==> TotalPages(totalItems) <= 1)
      && (buttons != [] ==>
        (forall k :: 0 <= k < |buttons| ==> (buttons[k].active <==> 0 < k < |buttons| - 1 && buttons[k].page == current))
        && (exists k :: 0 <= k < |buttons| && buttons[k].active))
  {
    if TotalPages(totalItems) > 1 {
      ButtonsLayout(totalItems, current);
      PageWindowShape(TotalPages(totalItems), current);
      var (start, end) := PageWindow(TotalPages(totalItems), current);
      var buttons := PaginationButtons(totalItems, current);
      assert buttons[current - start + 1].active;
    }
  }

  /** The `k`-th button, between Previous and Next, is the number button of
      a page inside the window. */
  lemma NumberButtonAt(totalItems: nat, current: int, k: int)
    requires 1 <= current <= TotalPages(totalItems) && TotalPages(totalItems) > 1
    requires 0 < k < |PaginationButtons(totalItems, current)| - 1
    ensures var (start, end) := PageWindow(TotalPages(totalItems), current);
      PaginationButtons(totalItems, current)[k] == Button(Decimal(start + k - 1), start + k - 1, start + k - 1 == current)
      && 1 <= start + k - 1 <= TotalPages(totalItems)
  {
    ButtonsLayout(totalItems, current);
    PageWindowShape(TotalPages(totalItems), current);
  }

  /** Every page-number button asks for a page `changePage` accepts and is
      labelled with a decimal that `parseInt` reads back as that page. */
  lemma NumberButtonsAccepted(totalItems: nat, current: int, k: int)
    requires 1 <= current && (current == 1 || current <= TotalPages(totalItems))
    requires 0 < k < |PaginationButtons(totalItems, current)| - 1
    ensures var b := PaginationButtons(totalItems, current)[k];
      AcceptsPage(totalItems, b.page) && ParseInt(b.text) == Some(b.page)
  {
    NumberButtonAt(totalItems, current, k);
    var (start, end) := PageWindow(TotalPages(totalItems), current);
    ParseIntOfDecimal(start + k - 1, []);
    assert Decimal(start + k - 1) + [] == Decimal(start + k - 1);
  }

  /** Previous is refused exactly on the first page, Next exactly on the last. */
  lemma EdgeButtonsRefused(totalItems: nat, current: int)
    requires 1 <= current <= TotalPages(totalItems) && TotalPages(totalItems) > 1
    ensures var buttons := PaginationButtons(totalItems, current);
      (AcceptsPage(totalItems, buttons[0].page) <==> current > 1)
      && (AcceptsPage(totalItems, buttons[|buttons| - 1].page) <==> current < TotalPages(totalItems))
  {
    ButtonsLayout(totalItems, current);
  }
}
