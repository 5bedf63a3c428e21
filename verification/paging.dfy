/** Page navigation on the front end: the numbered window of the activity-log
    viewer (components/logs/ActivityLogViewer.jsx) and the generic
    `Pagination` component (components/common/Pagination.jsx). Page numbers
    are integers; the server's `pagination.pages` may be absent, which the
    viewer's `pages > 1` test treats as "no navigation". */
module Paging {
  import opened Values

  /** `Math.min(5, pages)` as an array length: a negative length is
      clamped to zero. */
  function WindowSize(pages: int): (n: nat)
    ensures n <= 5
    ensures pages >= 5 ==> n == 5
    ensures 0 <= pages < 5 ==> n == pages
  {
    if pages >= 5 then 5 else if pages > 0 then pages else 0
  }

  /** The first numbered button: `Math.max(1, page - 2)`. */
  function WindowStart(page: int): (lo: int)
    ensures lo >= 1 && lo >= page - 2
    ensures lo == 1 || lo == page - 2
  {
    if page - 2 > 1 then page - 2 else 1
  }

  /** `count` consecutive candidates from `start`, each kept only if it is
      not beyond the last page (the `return null` of the viewer). */
  function Slots(start: int, count: nat, pages: int): seq<int>
    decreases count
  {
    if count == 0 then []
    else (if start > pages then [] else [start]) + Slots(start + 1, count - 1, pages)
  }

  /** The numbered buttons the viewer shows for the current page. */
  function Window(page: int, pages: int): seq<int> {
    Slots(WindowStart(page), WindowSize(pages), pages)
  }

  /** The kept candidates are exactly the run from `start` up to the
      smaller of the last candidate and the last page. */
  lemma {:induction false} SlotsAreRun(start: int, count: nat, pages: int)
    ensures var w := Slots(start, count, pages);
      && |w| <= count
      && (forall i :: 0 <= i < |w| ==> w[i] == start + i && w[i] <= pages)
      && (start + count - 1 <= pages ==> |w| == count)
      && (start <= pages ==> |w| >= (if pages - start + 1 < count then pages - start + 1 else count))
    decreases count
  {
    if count > 0 {
      SlotsAreRun(start + 1, count - 1, pages);
      var rest := Slots(start + 1, count - 1, pages);
      if start > pages {
        // Every later candidate is larger still, so the tail is empty too.
        assert forall i :: 0 <= i < |rest| ==> rest[i] > pages;
      } else {
        var w := Slots(start, count, pages);
        assert w == [start] + rest;
        forall i | 0 <= i < |w| ensures w[i] == start + i && w[i] <= pages {
          if i > 0 {
            assert w[i] == rest[i - 1];
          }
        }
      }
    }
  }

  /** A page number is shown exactly when it lies in the five-wide window
      from `max(1, page - 2)` and does not pass the last page; buttons are
      consecutive, at most five, and the window does not slide back near
      the end. */
  lemma WindowSpec(page: int, pages: int)
    ensures var w := Window(page, pages); var lo := WindowStart(page);
      && |w| <= 5
      && (forall i :: 0 <= i < |w| ==> w[i] == lo + i)
      && (forall x :: x in w <==> lo <= x < lo + WindowSize(pages) && x <= pages)
  {
    var w := Window(page, pages);
    var lo := WindowStart(page);
    var n := WindowSize(pages);
    SlotsAreRun(lo, n, pages);
    forall x | lo <= x < lo + n && x <= pages ensures x in w {
      assert w[x - lo] == x;
    }
  }

  /** Whenever the current page is a real page, its own button is shown. */
  lemma WindowShowsCurrentPage(page: int, pages: int)
    requires 1 <= page <= pages
    ensures page in Window(page, pages)
  {
    WindowSpec(page, pages);
  }

  /** On the last of ten pages only three buttons remain. */
  lemma WindowAtTheEnd()
    ensures Window(10, 10) == [8, 9, 10]
    ensures Window(1, 10) == [1, 2, 3, 4, 5]
  {
    WindowSpec(10, 10);
    WindowSpec(1, 10);
  }

  /** The viewer shows the navigation bar only when `pagination.pages > 1`;
      an absent count is `undefined > 1`, false. */
  function ShowNavigation(pages: Option<int>): (show: bool)
    ensures show <==> pages.Some? && pages.value > 1
  {
    match pages
    case None => false
    case Some(n) => n > 1
  }

  /** The page the previous and next arrows ask for, or `None` when the
      server says there is none and the arrow is disabled. */
  function Neighbour(page: int, forward: bool, enabled: bool): (target: Option<int>)
    ensures target.Some? <==> enabled
    ensures target.Some? ==> target.value == (if forward then page + 1 else page - 1)
  {
    if !enabled then None else if forward then Some(page + 1) else Some(page - 1)
  }

  /** For a real current page, the viewer shows the navigation bar exactly
      when the window would hold more than one numbered button. */
  lemma NavigationIffSeveralButtons(page: int, pages: int)
    requires 1 <= page <= pages
    ensures ShowNavigation(Some(pages)) <==> |Window(page, pages)| > 1
  {
    var lo, n := WindowStart(page), WindowSize(pages);
    SlotsAreRun(lo, n, pages);
    if pages > 1 {
      assert lo <= pages && pages - lo + 1 >= 2 && n >= 2;
    }
  }

  /** When the server's `has_prev`/`has_next` flags say whether a page
      exists before or after the current one, an enabled arrow asks for a
      real page, and that page has its own numbered button in the window. */
  lemma NeighbourInWindow(page: int, pages: int, forward: bool, enabled: bool)
    requires 1 <= page <= pages
    requires enabled <==> (if forward then page < pages else page > 1)
    ensures var t := Neighbour(page, forward, enabled);
      t.Some? ==> 1 <= t.value <= pages && t.value in Window(page, pages)
  {
    WindowSpec(page, pages);
  }

  /** One button of the generic `Pagination` component: its page number, whether
      it is highlighted, and the page its click hands to `onChange`. */
  datatype Button = Button(number: int, active: bool, target: int)

  /** `Pagination({currentPage, totalPages, onChange})`: nothing for at most
      one page, otherwise one button per page. */
  function PageButtons(current: int, total: int): (r: Option<seq<Button>>)
    ensures r.None? <==> total <= 1
  {
    if total <= 1 then None
    else Some(seq(total, i => Button(i + 1, i + 1 == current, i + 1)))
  }

  function ActiveCount(buttons: seq<Button>): nat {
    if |buttons| == 0 then 0
    else (if buttons[0].active then 1 else 0) + ActiveCount(buttons[1..])
  }

  /** The buttons run from 1 to the page count, each clicking through to
      its own page; exactly one is highlighted when the current page is
      one of them, and none otherwise. */
  lemma PageButtonsSpec(current: int, total: int)
    requires total > 1
    ensures var b := PageButtons(current, total).value;
      && |b| == total
      && (forall i :: 0 <= i < |b| ==> b[i].number == i + 1 && b[i].target == b[i].number)
      && (forall i :: 0 <= i < |b| ==> (b[i].active <==> b[i].number == current))
      && ActiveCount(b) == (if 1 <= current <= total then 1 else 0)
  {
    var b := PageButtons(current, total).value;
    ActiveCountOfRun(b, 1, current);
  }

  /** The highlighted buttons of a run of labels `first, first + 1, ...`
      number one when `current` falls inside the run, else zero. */
  lemma {:induction false} ActiveCountOfRun(b: seq<Button>, first: int, current: int)
    requires forall i :: 0 <= i < |b| ==> b[i].number == first + i && (b[i].active <==> b[i].number == current)
    ensures ActiveCount(b) == (if first <= current < first + |b| then 1 else 0)
    decreases |b|
  {
    if |b| > 0 {
      ActiveCountOfRun(b[1..], first + 1, current);
    }
  }
}
