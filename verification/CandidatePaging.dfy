/** Paging of the candidate window: where pages start, which one shows the selection, and how the
    two change. Counts here are plain numbers; CandidateWindow.dfy does the same in 32 bits. */
module CandidatePaging {

  datatype Window = Window(items: seq<string>, pageSize: nat, selection: nat, pages: seq<nat>, keepEmptyRows: bool)

  // ---- Page starts ----

  /** `count` page starts a page apart, the second one moved back to `first` unless that is 0. */
  function Starts(first: nat, p: nat, count: nat): (s: seq<nat>)
    ensures |s| == count
    ensures forall i :: 0 <= i < count ==>
              s[i] == if i == 0 then 0 else if first == 0 then i * p else first + (i - 1) * p
  {
    seq(count, i requires 0 <= i < count => if i == 0 then 0 else if first == 0 then i * p else first + (i - 1) * p)
  }

  /** The four cases of the source: nothing before or after the selected page, only after it, only
      before it, or both. */
  function PageCount(n: nat, p: nat, selection: nat): nat
    requires n >= p >= 1 && selection < n
  {
    var before, after := selection != 0, n > selection + p;
    if !before && !after then 1
    else if !before then (n - 1) / p + 1
    else if !after then 2 + (selection - 1) / p
    else (n - 2) / p + 2
  }

  function PagesAround(n: nat, p: nat, selection: nat): seq<nat>
    requires n >= p >= 1 && selection < n
  {
    Starts(selection % p, p, PageCount(n, p, selection))
  }

  /** Pages begin at 0, grow by at most a page at first and by exactly a page from then on, reach
      the end of the list, and have at most one start past it. */
  predicate Paged(pages: seq<nat>, n: nat, p: nat) {
    && pages != [] && pages[0] == 0
    && (|pages| > 1 ==> 0 < pages[1] <= p)
    && (forall i {:trigger pages[i]} :: 2 <= i < |pages| ==> pages[i] == pages[1] + (i - 1) * p)
    && Last(pages) + p >= n
    && (|pages| > 1 ==> pages[|pages| - 2] < n)
  }

  function Last(pages: seq<nat>): nat
    requires pages != []
  {
    pages[|pages| - 1]
  }

  lemma Divided(a: nat, p: nat)
    requires p >= 1
    ensures a == (a / p) * p + a % p && 0 <= (a / p) * p <= a
  {
  }

  lemma NextMultiple(k: nat, p: nat)
    ensures (k + 1) * p == k * p + p
  {
  }

  lemma QuotientIs(a: nat, p: nat, k: nat)
    requires p >= 1 && k * p <= a < k * p + p
    ensures a / p == k
  {
    Divided(a, p);
    if a / p < k { assert (a / p + 1) * p <= k * p; NextMultiple(a / p, p); }
    if a / p > k { assert (k + 1) * p <= (a / p) * p; NextMultiple(k, p); }
  }

  lemma QuotientBelow(a: nat, b: nat, p: nat)
    requires p >= 1 && a <= b
    ensures a / p <= b / p
  {
    Divided(a, p);
    Divided(b, p);
    if b / p < a / p { assert (b / p + 1) * p <= (a / p) * p; NextMultiple(b / p, p); }
  }

  lemma StartsArePaged(first: nat, p: nat, count: nat, n: nat)
    requires p >= 1 && first < p && count >= 1
    requires Last(Starts(first, p, count)) + p >= n
    requires count > 1 ==> Starts(first, p, count)[count - 2] < n
    ensures Paged(Starts(first, p, count), n, p)
  {
    var s := Starts(first, p, count);
    forall i {:trigger s[i]} | 2 <= i < count ensures s[i] == s[1] + (i - 1) * p {
      if first == 0 { assert i * p == p + (i - 1) * p; }
    }
    if count > 1 { assert 1 * p == p && 0 * p == 0; }
  }

  /** Where the selection itself starts a page. */
  function StartOf(p: nat, selection: nat): nat
    requires p >= 1
  {
    if selection % p == 0 then selection / p else selection / p + 1
  }

  lemma LastPageCount(p: nat, selection: nat)
    requires p >= 1 && selection >= 1
    ensures 2 + (selection - 1) / p == StartOf(p, selection) + 1
  {
    var q := selection / p;
    Divided(selection, p);
    if selection % p == 0 {
      assert q >= 1;
      NextMultiple(q - 1, p);
      QuotientIs(selection - 1, p, q - 1);
    } else {
      QuotientIs(selection - 1, p, q);
    }
  }

  /** The last start of the four cases lies within a page of the end, and the one before it is
      inside the list. */
  lemma LastStart(n: nat, p: nat, selection: nat)
    requires n >= p >= 1 && selection < n
    ensures var s := PagesAround(n, p, selection);
            && s != [] && Last(s) + p >= n
            && (|s| > 1 ==> s[|s| - 2] < n)
            && StartOf(p, selection) < |s| && s[StartOf(p, selection)] == selection
  {
    hide Starts;
    var f, q := selection % p, selection / p;
    var before, after := selection != 0, n > selection + p;
    Divided(selection, p);
    if !before {
      assert q == 0 && 0 * p == 0;
      if after {
        var m := (n - 1) / p;
        Divided(n - 1, p);
        QuotientBelow(p, n - 1, p);
        QuotientIs(p, p, 1);
        NextMultiple(m - 1, p);
      }
    } else if !after {
      LastPageCount(p, selection);
      LastIsSelection(n, p, selection);
    } else {
      BothSides(n, p, selection);
    }
  }

  lemma LastIsSelection(n: nat, p: nat, selection: nat)
    requires n >= p >= 1 && 1 <= selection < n <= selection + p
    requires PageCount(n, p, selection) == StartOf(p, selection) + 1
    ensures var s := PagesAround(n, p, selection);
            && |s| == StartOf(p, selection) + 1 && |s| > 1 && Last(s) == selection && s[|s| - 2] < n
  {
    var f, q := selection % p, selection / p;
    Divided(selection, p);
    if q >= 1 { NextMultiple(q - 1, p); }
  }

  lemma BothSides(n: nat, p: nat, selection: nat)
    requires p >= 1 && 1 <= selection && selection + p < n
    ensures var s := PagesAround(n, p, selection);
            && |s| > 1 && Last(s) + p >= n && s[|s| - 2] < n
            && StartOf(p, selection) < |s| && s[StartOf(p, selection)] == selection
  {
    var f, q, m := selection % p, selection / p, (n - 2) / p;
    Divided(selection, p);
    Divided(n - 2, p);
    QuotientBelow(selection, n - 2, p);
    NextMultiple(m, p);
    if m >= 1 { NextMultiple(m - 1, p); }
  }

  /** For any list that fills a page, the four case formulas give pages in which the selection is
      itself a page start, every gap after the first is a page, all items are covered, and at most
      one start lies past the end. */
  lemma PageCountIsRight(n: nat, p: nat, selection: nat)
    requires n >= p >= 1 && selection < n
    ensures Paged(PagesAround(n, p, selection), n, p)
    ensures StartOf(p, selection) < |PagesAround(n, p, selection)|
    ensures PagesAround(n, p, selection)[StartOf(p, selection)] == selection
  {
    LastStart(n, p, selection);
    StartsArePaged(selection % p, p, PageCount(n, p, selection), n);
  }

  // ---- The operations ----

  function Count(w: Window): nat {
    |w.items|
  }

  /** A window with a list whose pages cover it. */
  predicate Laid(w: Window) {
    w.pageSize >= 1 && w.items != [] && Paged(w.pages, Count(w), w.pageSize)
  }

  /** A laid-out window whose selection is in its list. */
  predicate Showing(w: Window) {
    Laid(w) && w.selection < Count(w)
  }

  /** The last page that starts at or before the selection, looking from page `i` on. */
  function PageFrom(pages: seq<nat>, selection: nat, i: nat): (k: nat)
    requires 1 <= i <= |pages|
    ensures i - 1 <= k < |pages|
    ensures forall j :: i <= j <= k ==> pages[j] <= selection
    ensures k + 1 < |pages| ==> pages[k + 1] > selection
    decreases |pages| - i
  {
    if i == |pages| || pages[i] > selection then i - 1 else PageFrom(pages, selection, i + 1)
  }

  /** The page the selection is on: no page up to it but the first starts past the selection, and the
      next one does. */
  function CurrentPage(pages: seq<nat>, selection: nat): (k: nat)
    requires pages != []
    ensures k < |pages|
    ensures forall j :: 1 <= j <= k ==> pages[j] <= selection
    ensures k + 1 < |pages| ==> pages[k + 1] > selection
  {
    PageFrom(pages, selection, 1)
  }

  /** A new list in an empty window: pages of the plain size, and one past the end when the list
      fills its last page. */
  function ListSet(w: Window, items: seq<string>): Window
    requires w.pageSize >= 1
  {
    w.(items := items, selection := 0, pages := Starts(0, w.pageSize, |items| / w.pageSize + 1))
  }

  /** Pages are laid out again around the selection; a list shorter than a page keeps its one. */
  function Regrouped(w: Window): Window
    requires w.pageSize >= 1 && w.selection < Count(w)
  {
    if Count(w) < w.pageSize then w else w.(pages := PagesAround(Count(w), w.pageSize, w.selection))
  }

  function Moved(w: Window, offset: int): Window {
    if 0 <= w.selection + offset < Count(w) then w.(selection := w.selection + offset, keepEmptyRows := true) else w
  }

  /** -1 stands for the last item. */
  function Selected(w: Window, index: int): Window
    requires w.pageSize >= 1
  {
    var i := if index == -1 then Count(w) - 1 else index;
    if 0 <= i < Count(w) then Regrouped(w.(selection := i)) else w
  }

  lemma NothingToSelect(w: Window, index: int)
    requires w.pageSize >= 1 && w.items == []
    ensures Selected(w, index) == w
  {
  }

  function PageMoved(w: Window, offset: int): Window
    requires Laid(w)
  {
    var page := CurrentPage(w.pages, w.selection);
    var next := page + offset;
    if offset == 0 || next < 0 || next >= |w.pages| then w
    else
      assert w.pages[page] <= w.selection;
      var target := w.pages[next] + (w.selection - w.pages[page]);
      w.(selection := if target < Count(w) then target else Count(w) - 1,
         keepEmptyRows := w.keepEmptyRows || (w.selection % w.pageSize == 0 && w.selection == w.pages[page]))
  }

  /** The first or last page has rows with nothing in them. */
  predicate HasEmptyRows(w: Window)
    requires w.pages != []
  {
    var page := CurrentPage(w.pages, w.selection);
    && (page == 0 || page == |w.pages| - 1)
    && Count(w) >= w.pageSize
    && w.pages[page] > Count(w) - w.pageSize
  }

  /** One line up or down from the scroll bar. Within a short last page nothing is laid out again. */
  function Scrolled(w: Window, offset: int): Window
    requires Laid(w)
  {
    if !(0 <= w.selection + offset < Count(w)) then w
    else
      var next := w.selection + offset;
      if (offset == 1 || offset == -1) && HasEmptyRows(w) && |w.pages| > 1 then
        var kept := w.(selection := next, keepEmptyRows := true);
        if next >= Last(w.pages) then kept else Regrouped(kept)
      else
        Regrouped(w.(selection := next))
  }

  /** A digit names a row of the page. */
  function RowSelected(w: Window, row: int): Window
    requires Laid(w)
  {
    if 0 <= row < Count(w) then w.(selection := w.pages[CurrentPage(w.pages, w.selection)] + row) else w
  }

  predicate RowIsFilled(w: Window, row: int)
    requires Laid(w)
  {
    0 <= row && w.pages[CurrentPage(w.pages, w.selection)] + row < Count(w)
  }

  /** Painting fills a short last page by moving its start back, unless the window was told to
      keep its empty rows. */
  predicate Fills(w: Window)
    requires w.pages != []
  {
    HasEmptyRows(w) && !w.keepEmptyRows
  }

  function Painted(w: Window): Window
    requires Laid(w)
  {
    if Fills(w) then
      w.(pages := PagesAround(Count(w), w.pageSize, Count(w) - w.pageSize), keepEmptyRows := false)
    else w
  }

  /** The item painting draws in its first row. */
  function DrawnFrom(w: Window): nat
    requires Laid(w)
  {
    Painted(w).pages[CurrentPage(Painted(w).pages, w.selection)]
  }

  // ---- What every operation keeps ----

  lemma PageHoldsSelection(w: Window)
    requires Showing(w)
    ensures var start := w.pages[CurrentPage(w.pages, w.selection)];
            start <= w.selection < start + w.pageSize
  {
    var k := CurrentPage(w.pages, w.selection);
    if k + 1 < |w.pages| && k >= 1 { NextMultiple(k - 1, w.pageSize); }
    if k == 1 && |w.pages| > 2 { assert w.pages[2] == w.pages[1] + 1 * w.pageSize; }
  }

  lemma PlainStarts(n: nat, p: nat)
    requires p >= 1 && n >= 1
    ensures Paged(Starts(0, p, n / p + 1), n, p)
  {
    hide Paged;
    var k := n / p;
    var s := Starts(0, p, k + 1);
    Divided(n, p);
    assert s[k] == k * p;
    if k >= 1 {
      NextMultiple(k - 1, p);
      assert s[k - 1] == (k - 1) * p;
    }
    StartsArePaged(0, p, k + 1, n);
  }

  lemma ListSetShows(w: Window, items: seq<string>)
    requires w.pageSize >= 1 && items != []
    ensures Showing(ListSet(w, items))
  {
    hide Paged, Starts;
    PlainStarts(|items|, w.pageSize);
  }

  lemma RegroupedShows(w: Window)
    requires w.pageSize >= 1 && w.selection < Count(w)
    requires Count(w) < w.pageSize ==> Paged(w.pages, Count(w), w.pageSize)
    ensures Showing(Regrouped(w))
  {
    if Count(w) >= w.pageSize { PageCountIsRight(Count(w), w.pageSize, w.selection); }
  }

  datatype Operation =
    | Move(offset: int)
    | Select(index: int)
    | MovePage(offset: int)
    | Scroll(offset: int)
    | SelectRow(row: int)
    | Paint

  function Apply(w: Window, op: Operation): Window
    requires Laid(w)
  {
    match op
    case Move(offset) => Moved(w, offset)
    case Select(index) => Selected(w, index)
    case MovePage(offset) => PageMoved(w, offset)
    case Scroll(offset) => Scrolled(w, offset)
    case SelectRow(row) => RowSelected(w, row)
    case Paint => Painted(w)
  }

  /** A digit naming a row below the last item, of a page the list does not fill. */
  predicate Misses(w: Window, op: Operation)
    requires Laid(w)
  {
    op.SelectRow? && 0 <= op.row < Count(w) && !RowIsFilled(w, op.row)
  }

  /** Wherever the selection is, no operation takes the layout away. */
  lemma ApplyLays(w: Window, op: Operation)
    requires Laid(w)
    ensures Laid(Apply(w, op)) && Apply(w, op).items == w.items && Apply(w, op).pageSize == w.pageSize
  {
    hide Paged, PagesAround, CurrentPage, PageCount, Starts;
    PagesNonempty(w);
    match op
    case Move(_) =>
    case Select(index) =>
      var i := if index == -1 then Count(w) - 1 else index;
      if 0 <= i < Count(w) { RegroupedShows(w.(selection := i)); }
    case MovePage(_) =>
    case Scroll(offset) =>
      var next := w.selection + offset;
      if 0 <= next < Count(w) {
        RegroupedShows(w.(selection := next));
        RegroupedShows(w.(selection := next, keepEmptyRows := true));
      }
    case SelectRow(_) =>
    case Paint => PaintLays(w);
  }

  /** Every operation keeps the pages laid out, and the selection in the list unless a digit names
      an empty row, which always takes it out. */
  lemma ApplyShows(w: Window, op: Operation)
    requires Showing(w)
    ensures Laid(Apply(w, op))
    ensures Showing(Apply(w, op)) <==> !Misses(w, op)
    ensures Apply(w, op).items == w.items && Apply(w, op).pageSize == w.pageSize
  {
    hide Laid, PagesAround, CurrentPage, PageCount, Starts;
    ApplyLays(w, op);
  }

  lemma PagesNonempty(w: Window)
    requires Laid(w)
    ensures w.pages != []
  {
  }

  /** Only the last page can have empty rows, so filling always starts the page a page before
      the end: the source's other branch, for the first page, is never taken. */
  lemma FillsLastPage(w: Window)
    requires Laid(w) && HasEmptyRows(w)
    ensures CurrentPage(w.pages, w.selection) == |w.pages| - 1 >= 1
    ensures w.selection > Count(w) - w.pageSize
  {
  }

  lemma PaintLays(w: Window)
    requires Laid(w)
    ensures Laid(Painted(w)) && Painted(w).selection == w.selection && Painted(w).items == w.items
    ensures Fills(w) ==> Count(w) >= w.pageSize && DrawnFrom(w) == Count(w) - w.pageSize
    ensures !Fills(w) ==> Painted(w) == w
  {
    hide Paged, PagesAround, PageCount, Starts;
    PagesNonempty(w);
    if Fills(w) {
      FillsLastPage(w);
      PageCountIsRight(Count(w), w.pageSize, Count(w) - w.pageSize);
      FilledStart(w);
    }
  }

  /** Painting keeps the selection and draws it; a page it fills starts a page before the end. */
  lemma PaintShows(w: Window)
    requires Showing(w)
    ensures Showing(Painted(w))
    ensures Painted(w).selection == w.selection
    ensures DrawnFrom(w) <= w.selection < DrawnFrom(w) + w.pageSize
    ensures Fills(w) ==> DrawnFrom(w) == Count(w) - w.pageSize
    ensures !Fills(w) ==> Painted(w) == w
  {
    hide Paged, PagesAround, PageCount, Starts, Fills, Painted;
    PaintLays(w);
    PageHoldsSelection(Painted(w));
  }

  lemma FilledStart(w: Window)
    requires Laid(w) && Fills(w)
    ensures DrawnFrom(w) == Count(w) - w.pageSize
  {
    FillsLastPage(w);
    var n, p := Count(w), w.pageSize;
    var from := n - p;
    var pages := PagesAround(n, p, from);
    PageCountIsRight(n, p, from);
    if from == 0 {
      assert |pages| == 1;
    } else {
      LastPageCount(p, from);
      assert |pages| == StartOf(p, from) + 1;
    }
    PageIs(pages, n, p, w.selection, |pages| - 1);
  }

  lemma StartsIncrease(pages: seq<nat>, n: nat, p: nat, i: nat, j: nat)
    requires p >= 1 && Paged(pages, n, p) && i <= j < |pages|
    ensures i < j ==> pages[i] < pages[j]
    decreases j
  {
    if i < j {
      StartsIncrease(pages, n, p, i, j - 1);
      if j >= 2 { NextMultiple(j - 2, p); }
      assert j == 2 ==> pages[2] == pages[1] + 1 * p;
    }
  }

  /** The current page is the one page whose rows the selection falls in. */
  lemma PageIs(pages: seq<nat>, n: nat, p: nat, selection: nat, k: nat)
    requires p >= 1 && Paged(pages, n, p) && k < |pages|
    ensures CurrentPage(pages, selection) == k
      <==> pages[k] <= selection && (k + 1 < |pages| ==> selection < pages[k + 1])
  {
    hide Paged;
    var c := CurrentPage(pages, selection);
    FirstStart(pages, n, p);
    if c < k {
      StartsIncrease(pages, n, p, c + 1, k);
    } else if k < c {
      StartsIncrease(pages, n, p, k + 1, c);
    }
  }

  lemma FirstStart(pages: seq<nat>, n: nat, p: nat)
    requires Paged(pages, n, p)
    ensures pages[0] == 0
  {
  }

  // ---- Where the operations lead ----

  /** A selected item heads its page when the list fills one. */
  lemma SelectedHeadsPage(w: Window, index: int)
    requires Showing(w) && -1 <= index < Count(w) && Count(w) >= w.pageSize
    ensures var s := Selected(w, index);
            && s.selection == (if index == -1 then Count(w) - 1 else index)
            && s.pages != [] && s.pages[CurrentPage(s.pages, s.selection)] == s.selection
  {
    RegroupedHeadsPage(w.(selection := if index == -1 then Count(w) - 1 else index));
  }

  lemma RegroupedHeadsPage(w: Window)
    requires w.pageSize >= 1 && w.selection < Count(w) && Count(w) >= w.pageSize
    ensures var s := Regrouped(w);
            s.pages != [] && s.pages[CurrentPage(s.pages, s.selection)] == w.selection == s.selection
  {
    hide Paged, PagesAround;
    var n, p, k := Count(w), w.pageSize, StartOf(w.pageSize, w.selection);
    var pages := PagesAround(n, p, w.selection);
    PageCountIsRight(n, p, w.selection);
    if k + 1 < |pages| { StartsIncrease(pages, n, p, k, k + 1); }
    PageIs(pages, n, p, w.selection, k);
  }

  /** Scrolling a line either stays within a short last page, whose starts it keeps, or makes the
      new selection head its page. */
  lemma ScrollLands(w: Window, offset: int)
    requires Showing(w) && Count(w) >= w.pageSize && (offset == 1 || offset == -1)
    requires 0 <= w.selection + offset < Count(w)
    ensures var s := Scrolled(w, offset);
            && s.selection == w.selection + offset && s.pages != []
            && var start := s.pages[CurrentPage(s.pages, s.selection)];
               if HasEmptyRows(w) && |w.pages| > 1 && s.selection >= Last(w.pages) then
                 s.pages == w.pages && start == Last(w.pages)
               else start == s.selection
  {
    hide PagesAround, PageCount, Paged, CurrentPage, Starts;
    PagesNonempty(w);
    var next := w.selection + offset;
    RegroupedHeadsPage(w.(selection := next));
    RegroupedHeadsPage(w.(selection := next, keepEmptyRows := true));
    PageIs(w.pages, Count(w), w.pageSize, next, |w.pages| - 1);
  }

  /** Paging keeps the row unless the list ends before it. The page asked for becomes the current
      one exactly when it has an item, and, for a short first page, when the row is on it. */
  lemma PageMoveLands(w: Window, offset: int)
    requires Showing(w) && offset != 0 && 0 <= CurrentPage(w.pages, w.selection) + offset < |w.pages|
    ensures var page := CurrentPage(w.pages, w.selection);
            var next := page + offset;
            var row := w.selection - w.pages[page];
            var m := PageMoved(w, offset);
            && m.pages == w.pages
            && (w.pages[next] + row < Count(w) ==> m.selection == w.pages[next] + row)
            && (w.pages[next] + row >= Count(w) ==> m.selection == Count(w) - 1)
            && (CurrentPage(w.pages, m.selection) == next <==>
                w.pages[next] < Count(w) && (next == 0 ==> row < w.pages[1]))
  {
    var n, p, next := Count(w), w.pageSize, CurrentPage(w.pages, w.selection) + offset;
    var m := PageMoved(w, offset);
    PageHoldsSelection(w);
    PageIs(w.pages, n, p, m.selection, next);
    if 1 <= next < |w.pages| - 1 { StepIsPage(w.pages, n, p, next); }
    if w.pages[next] < n && next + 1 < |w.pages| { StartsIncrease(w.pages, n, p, next + 1, |w.pages| - 1); }
  }

  lemma StepIsPage(pages: seq<nat>, n: nat, p: nat, k: nat)
    requires Paged(pages, n, p) && 1 <= k && k + 1 < |pages|
    ensures pages[k + 1] == pages[k] + p
  {
    NextMultiple(k - 1, p);
    assert k == 1 ==> pages[2] == pages[1] + 1 * p;
  }

  // ---- Where painting draws from ----

  /** Painting draws from where the page of the selection starts, or, when that is the last page and its
      rows run past the end of a list that fills a page, from a page before the end, unless the window
      was told to keep its empty rows. It leaves that word as it is. */
  lemma PaintDrawsFrom(w: Window)
    requires Showing(w)
    ensures var n, p, page := |w.items|, w.pageSize, CurrentPage(w.pages, w.selection);
            && w.pages != []
            && Painted(w).keepEmptyRows == w.keepEmptyRows
            && DrawnFrom(w) == if !w.keepEmptyRows && page == |w.pages| - 1 && n >= p && w.pages[page] + p > n
                               then n - p else w.pages[page]
  {
    hide Paged, PagesAround, CurrentPage;
    PagesNonempty(w);
    FirstStart(w.pages, Count(w), w.pageSize);
    PaintShows(w);
  }

  /** A move by lines keeps the layout and has painting keep it too: a short last page is drawn short. */
  lemma MoveDrawsFrom(w: Window, offset: int)
    requires Showing(w)
    ensures var m := Moved(w, offset);
            if 0 <= w.selection + offset < |w.items| then
              && Showing(m) && m.pages == w.pages && m.selection == w.selection + offset && Painted(m) == m
              && DrawnFrom(m) == w.pages[CurrentPage(w.pages, m.selection)]
            else m == w
  {
    hide Paged, PagesAround;
    ApplyShows(w, Move(offset));
    PaintDrawsFrom(Moved(w, offset));
    PaintShows(Moved(w, offset));
  }

  /** A selected item is drawn first, unless less than a page is left from it on and the window has not
      been told to keep empty rows. */
  lemma SelectDrawsFrom(w: Window, index: nat)
    requires Showing(w) && index < |w.items|
    ensures var s, n, p := Selected(w, index), |w.items|, w.pageSize;
            && Showing(s) && s.selection == index && s.keepEmptyRows == w.keepEmptyRows
            && (n < p ==> s.pages == w.pages)
            && (n >= p ==> DrawnFrom(s) == if w.keepEmptyRows || index + p <= n then index else n - p)
  {
    hide Paged, PagesAround;
    ApplyShows(w, Select(index));
    var s := Selected(w, index);
    PagesNonempty(s);
    if Count(w) >= w.pageSize {
      SelectedHeadsPage(w, index);
      PaintDrawsFrom(s);
      if index + w.pageSize > Count(w) { NoStartBehind(w, index); }
    }
  }

  /** Around a selection with less than a page from it on, no page starts later. */
  lemma NoStartBehind(w: Window, index: nat)
    requires Showing(w) && index < Count(w) && Count(w) >= w.pageSize && index + w.pageSize > Count(w)
    ensures var s := Selected(w, index);
            s.pages != [] && CurrentPage(s.pages, index) == |s.pages| - 1
  {
    hide Paged, CurrentPage, Starts;
    var n, p := Count(w), w.pageSize;
    var pages := PagesAround(n, p, index);
    PageCountIsRight(n, p, index);
    LastPageCount(p, index);
    assert |pages| == StartOf(p, index) + 1;
    PageIs(pages, n, p, index, |pages| - 1);
  }

  /** Turning the page tells the window to keep its empty rows when the selection headed its page and is
      a multiple of the page size. */
  lemma PageKeepsRows(w: Window, offset: int)
    requires Showing(w)
    ensures var page := CurrentPage(w.pages, w.selection);
            && w.pages != []
            && PageMoved(w, offset).keepEmptyRows ==
               (w.keepEmptyRows || (offset != 0 && 0 <= page + offset < |w.pages| && w.selection % w.pageSize == 0
                                    && w.selection == w.pages[page]))
  {
    hide Paged;
    PagesNonempty(w);
  }

  /** A line scroll on a short last page tells it so too; a digit never does. */
  lemma ScrollKeepsRows(w: Window, offset: int)
    requires Showing(w)
    ensures var n, page, t := |w.items|, CurrentPage(w.pages, w.selection), Scrolled(w, offset);
            && w.pages != []
            && t.selection == (if 0 <= w.selection + offset < n then w.selection + offset else w.selection)
            && t.keepEmptyRows ==
               (w.keepEmptyRows || (0 <= w.selection + offset < n && offset in {1, -1} && page == |w.pages| - 1
                                    && n >= w.pageSize && w.pages[page] + w.pageSize > n))
  {
    hide Paged, PagesAround, CurrentPage;
    PagesNonempty(w);
    FirstStart(w.pages, Count(w), w.pageSize);
    if HasEmptyRows(w) { FillsLastPage(w); }
  }

  lemma DigitNamesItem(w: Window, row: int)
    requires Laid(w)
    ensures var page := CurrentPage(w.pages, w.selection);
            && w.pages != []
            && RowSelected(w, row) == if 0 <= row < |w.items| then w.(selection := w.pages[page] + row) else w
  {
    PagesNonempty(w);
  }

  // ---- Whole runs ----

  function Run(w: Window, ops: seq<Operation>): (end: Window)
    requires Laid(w)
    ensures Laid(end) && end.items == w.items && end.pageSize == w.pageSize
    decreases |ops|
  {
    if ops == [] then w else ApplyLays(w, ops[0]); Run(Apply(w, ops[0]), ops[1..])
  }

  /** No digit of the run is pressed beside an empty row. */
  predicate NoMiss(w: Window, ops: seq<Operation>)
    requires Laid(w)
    decreases |ops|
  {
    ops != [] ==> !Misses(w, ops[0]) && (ApplyLays(w, ops[0]); NoMiss(Apply(w, ops[0]), ops[1..]))
  }

  /** The selection is in the list from the first state of the run to the last. */
  predicate ShowsThroughout(w: Window, ops: seq<Operation>)
    requires Laid(w)
    decreases |ops|
  {
    Showing(w) && (ops != [] ==> (ApplyLays(w, ops[0]); ShowsThroughout(Apply(w, ops[0]), ops[1..])))
  }

  /** However a list is moved through, paged, scrolled and painted, its selection stays in it exactly
      when no digit is pressed beside an empty row, and then the page found holds the selection. */
  lemma {:induction false} RunShows(w: Window, ops: seq<Operation>)
    requires Showing(w)
    ensures ShowsThroughout(w, ops) <==> NoMiss(w, ops)
    ensures NoMiss(w, ops) ==> Showing(Run(w, ops)) && HoldsSelection(Run(w, ops))
    decreases |ops|
  {
    hide Paged, Apply, Misses;
    if ops == [] {
      PageHoldsSelection(w);
    } else {
      ApplyLays(w, ops[0]);
      ApplyShows(w, ops[0]);
      if !Misses(w, ops[0]) { RunShows(Apply(w, ops[0]), ops[1..]); } else { MissedIsOut(Apply(w, ops[0]), ops[1..]); }
    }
  }

  lemma MissedIsOut(w: Window, ops: seq<Operation>)
    requires Laid(w) && !Showing(w)
    ensures !ShowsThroughout(w, ops)
  {
  }

  predicate HoldsSelection(w: Window)
    requires Laid(w)
  {
    var start := w.pages[CurrentPage(w.pages, w.selection)];
    start <= w.selection < start + w.pageSize
  }

  /** So for every list put up, from its first item on. */
  lemma NewListShows(w: Window, items: seq<string>, ops: seq<Operation>)
    requires w.pageSize >= 1 && items != []
    ensures var list := ListSet(w, items);
            && Showing(list) && Run(list, ops).items == items
            && (ShowsThroughout(list, ops) <==> NoMiss(list, ops))
            && (NoMiss(list, ops) ==> Showing(Run(list, ops)) && HoldsSelection(Run(list, ops)))
  {
    hide Laid, Showing, NoMiss, ShowsThroughout, Run;
    ListSetShows(w, items);
    RunShows(ListSet(w, items), ops);
  }

  /** Painting between two keys is felt by the second: after End in a list of twelve, Page Up selects
      the second item, or the tenth if the short last page has been filled meanwhile. */
  lemma PaintingIsFelt(items: seq<string>)
    requires |items| == 12
    ensures var end := Selected(ListSet(Window([], 10, 0, [], false), items), -1);
            && Showing(end) && PageMoved(end, -1).selection == 1
            && Laid(Painted(end)) && PageMoved(Painted(end), -1).selection == 9
  {
    var list := ListSet(Window([], 10, 0, [], false), items);
    ListSetShows(Window([], 10, 0, [], false), items);
    ApplyShows(list, Select(-1));
    var end := Selected(list, -1);
    assert end.pages == [0, 1, 11] && CurrentPage(end.pages, 11) == 2;
    PaintShows(end);
    assert Painted(end).pages == [0, 2] && CurrentPage([0, 2], 11) == 1;
  }

  /** The digit shown beside an item selects that item. */
  lemma DigitSelectsDrawnRow(w: Window, row: nat)
    requires Showing(w) && row < w.pageSize && DrawnFrom(w) + row < Count(w)
    ensures Showing(Painted(w))
    ensures RowSelected(Painted(w), row) == Painted(w).(selection := DrawnFrom(w) + row)
    ensures Showing(RowSelected(Painted(w), row))
  {
    PaintShows(w);
  }

  /** Pressing down again and again walks to the end of the list and stays there. */
  function Presses(w: Window, k: nat): Window {
    if k == 0 then w else Moved(Presses(w, k - 1), 1)
  }

  lemma {:induction false} PressesWalk(w: Window, k: nat)
    requires w.selection < Count(w)
    ensures Presses(w, k).items == w.items && Presses(w, k).pages == w.pages
    ensures Presses(w, k).selection == if w.selection + k < Count(w) then w.selection + k else Count(w) - 1
  {
    if k > 0 { PressesWalk(w, k - 1); }
  }

  // ---- Ranges, for 32-bit arithmetic ----

  lemma InRange(i: nat, k: nat, p: nat)
    requires i <= k
    ensures i * p <= k * p
  {
    assert k * p == i * p + (k - i) * p;
  }

  lemma PageCountFits(n: nat, p: nat, selection: nat)
    requires n >= p >= 1 && selection < n
    ensures 1 <= PageCount(n, p, selection) <= n + 1
    ensures |PagesAround(n, p, selection)| == PageCount(n, p, selection)
    ensures PagesAround(n, p, selection)[0] == 0
    ensures |PagesAround(n, p, selection)| > 1 && selection % p != 0
        ==> PagesAround(n, p, selection)[1] == selection % p
  {
    PageCountIsRight(n, p, selection);
    PageCountBound(PagesAround(n, p, selection), n, p);
  }

  /** Within the page starts of a selection, adding a page to one gives the next, less than a page
      past the end of the list. */
  lemma NextStart(n: nat, p: nat, selection: nat, i: nat)
    requires n >= p >= 1 && selection < n
    requires 1 <= i < PageCount(n, p, selection) && (selection % p != 0 ==> i >= 2)
    ensures var s := PagesAround(n, p, selection); s[i] == s[i - 1] + p < n + p
  {
    hide PageCount;
    var s := PagesAround(n, p, selection);
    PageCountIsRight(n, p, selection);
    StartsIncrease(s, n, p, i - 1, |s| - 2);
    if i >= 2 { StepIsPage(s, n, p, i - 1); }
    assert 1 * p == p;
  }

  lemma {:induction false} StartAtLeast(pages: seq<nat>, n: nat, p: nat, i: nat)
    requires p >= 1 && Paged(pages, n, p) && i < |pages|
    ensures pages[i] >= i
  {
    if i > 0 {
      StartAtLeast(pages, n, p, i - 1);
      StartsIncrease(pages, n, p, i - 1, i);
    }
  }

  lemma StartBound(pages: seq<nat>, n: nat, p: nat, i: nat)
    requires p >= 1 && n >= 1 && Paged(pages, n, p) && i < |pages|
    ensures pages[i] < n + p
  {
    var k := |pages|;
    if i == k - 1 {
      if k > 2 { StepIsPage(pages, n, p, k - 2); }
    } else {
      StartsIncrease(pages, n, p, i, k - 2);
    }
  }

  lemma PageCountBound(pages: seq<nat>, n: nat, p: nat)
    requires p >= 1 && Paged(pages, n, p)
    ensures |pages| <= n + 1
  {
    if |pages| > 1 { StartAtLeast(pages, n, p, |pages| - 2); }
  }
}
