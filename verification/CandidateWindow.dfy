/** The candidate window's fields and the methods that change them, in 32-bit arithmetic. */
module CandidateWindows {
  import opened Wrappers
  import opened MachineIntegers
  import opened CandidatePaging

  /** Lists are far shorter than the integers that count them. */
  const LIST_LIMIT := 0x2000_0000

  /** Unsigned arithmetic keeps the low 32 bits. */
  function Wrap(x: int): uint32 {
    x % TWO_32
  }

  lemma WrapFits(x: int)
    ensures 0 <= x < TWO_32 ==> Wrap(x) == x
    ensures -0x8000_0000 <= x < 0 ==> Wrap(x) >= 0x8000_0000
  {
  }

  datatype Row = Row(text: string, selected: bool)

  /** The rows painting shows for a window: the items from the drawn start on, at most a page. */
  function RowsFrom(w: Window, start: nat): (rows: seq<Row>)
    ensures |rows| == RowCount(w, start)
  {
    seq(RowCount(w, start),
        i requires 0 <= i < RowCount(w, start) => Row(w.items[start + i], w.selection == start + i))
  }

  function RowCount(w: Window, start: nat): nat {
    if start >= Count(w) then 0 else if Count(w) - start < w.pageSize then Count(w) - start else w.pageSize
  }

  /** Exactly one row is painted as selected, with the selected item's text. */
  lemma SelectionIsPainted(w: Window)
    requires Showing(w)
    ensures var row := w.selection - DrawnFrom(w);
            && DrawnFrom(w) < Count(w)
            && 0 <= row < |RowsFrom(Painted(w), DrawnFrom(w))|
            && RowsFrom(Painted(w), DrawnFrom(w))[row].text == w.items[w.selection]
            && (forall i :: 0 <= i < |RowsFrom(Painted(w), DrawnFrom(w))| ==>
                  (RowsFrom(Painted(w), DrawnFrom(w))[i].selected <==> i == row))
  {
    hide Paged, PagesAround;
    PaintShows(w);
  }

  class CandidateWindow {
    const pageSize: uint32
    var items: seq<string>
    var selection: uint32
    var pageIndex: seq<uint32>
    var dontAdjust: bool

    ghost function View(): Window
      reads this
    {
      Window(items, pageSize, selection, pageIndex, dontAdjust)
    }

    ghost predicate Fits()
      reads this
    {
      pageSize >= 1 && |items| + pageSize < LIST_LIMIT
    }

    ghost predicate Empty()
      reads this
    {
      items == [] && selection == 0 && (pageIndex == [] || pageIndex == [0])
    }

    ghost predicate Valid()
      reads this
    {
      Fits() && (Empty() || (Laid(View()) && selection < 2 * (|items| + pageSize)))
    }

    constructor (pageSize: uint32)
      requires 1 <= pageSize < LIST_LIMIT
      ensures Valid() && Empty() && this.pageSize == pageSize && !dontAdjust && pageIndex == []
    {
      this.pageSize := pageSize;
      items, selection, pageIndex, dontAdjust := [], 0, [], false;
    }

    method ClearList()
      requires Valid()
      modifies this
      ensures Valid() && Empty() && pageIndex == [] && dontAdjust == old(dontAdjust)
    {
      selection := 0;
      items := [];
      pageIndex := [];
    }

    method SetPageIndex(starts: array<uint32>)
      modifies `pageIndex
      ensures pageIndex == starts[..]
    {
      pageIndex := [];
      var i := 0;
      while i < starts.Length
        invariant 0 <= i <= starts.Length && pageIndex == starts[..i]
      {
        pageIndex := pageIndex + [starts[i]];
        i := i + 1;
      }
    }

    method SetPageIndexWithScrollInfo(count: nat)
      requires pageSize >= 1 && count < LIST_LIMIT
      modifies `pageIndex
      ensures pageIndex == Starts(0, pageSize, count / pageSize + 1)
    {
      Divided(count, pageSize);
      var bufferSize := count / pageSize + 1;
      var starts := new uint32[bufferSize];
      var i := 0;
      while i < bufferSize
        invariant 0 <= i <= bufferSize
        invariant forall j :: 0 <= j < i ==> starts[j] == Starts(0, pageSize, bufferSize)[j]
      {
        InRange(i, count / pageSize, pageSize);
        starts[i] := i * pageSize;
        i := i + 1;
      }
      SetPageIndex(starts);
      assert pageIndex == Starts(0, pageSize, bufferSize);
    }

    /** The presenter's new list goes behind what the window has, and the pages are those of the new
        list alone: in an empty window, a list laid out afresh. */
    method SetText(list: seq<string>)
      requires Fits() && |items| + |list| + pageSize < LIST_LIMIT
      modifies this
      ensures items == old(items) + list && selection == old(selection) && dontAdjust == old(dontAdjust)
      ensures pageIndex == Starts(0, pageSize, |list| / pageSize + 1)
      ensures old(Valid()) && old(items) == [] ==> Valid() && View() == ListSet(old(View()), list)
    {
      hide Paged;
      if Valid() && items == [] { EmptySelection(); }
      items := items + list;
      SetPageIndexWithScrollInfo(|list|);
      if old(Valid()) && old(items) == [] {
        if list == [] {
          assert pageIndex == [0];
        } else {
          ListSetShows(old(View()), list);
        }
      }
    }

    lemma EmptySelection()
      requires Valid() && items == []
      ensures selection == 0
    {
    }

    method GetCurrentPage() returns (page: Option<uint32>)
      requires |pageIndex| < TWO_32
      ensures page == if pageIndex == [] then None else Some(CurrentPage(pageIndex, selection))
    {
      if |pageIndex| == 0 { return None; }
      if |pageIndex| == 1 { return Some(0); }
      var i := 1;
      while i < |pageIndex|
        invariant 1 <= i <= |pageIndex|
        invariant CurrentPage(pageIndex, selection) == PageFrom(pageIndex, selection, i)
      {
        if pageIndex[i] > selection { break; }
        i := i + 1;
      }
      page := Some(i - 1);
    }

    method CurrentPageHasEmptyItems() returns (hasEmpty: bool)
      requires Valid()
      ensures hasEmpty <==> pageIndex != [] && HasEmptyRows(View())
    {
      hide Paged;
      PagesInRange();
      var currentPage := GetCurrentPage();
      if currentPage.None? { return false; }
      var page := currentPage.value;
      hasEmpty := (page == 0 || page == |pageIndex| - 1) && pageIndex[page] > Wrap(|items| - pageSize);
    }

    method AdjustPageIndexForSelection()
      requires Fits() && selection < |items|
      modifies `pageIndex
      ensures View() == Regrouped(old(View()))
    {
      hide Paged, Wrap, PagesAround, Starts;
      var p := pageSize;
      if |items| < p { return; }
      PageCountFits(|items|, p, selection);
      WrapFits(selection + p);
      var isBefore, isAfter := selection != 0, |items| > Wrap(selection + p);
      var newPageCnt: uint32;
      if !isBefore && !isAfter {
        newPageCnt := 1;
      } else if !isBefore && isAfter {
        newPageCnt := (|items| - 1) / p + 1;
      } else if isBefore && !isAfter {
        newPageCnt := 2 + (selection - 1) / p;
      } else {
        newPageCnt := (|items| - 2) / p + 2;
      }
      assert newPageCnt == PageCount(|items|, p, selection);
      hide PageCount;
      var starts := new uint32[newPageCnt];
      starts[0] := 0;
      var firstPage := selection % p;
      if firstPage != 0 && newPageCnt > 1 {
        starts[1] := firstPage;
      }
      var i := if firstPage != 0 then 2 else 1;
      ghost var around := PagesAround(|items|, p, selection);
      while i < newPageCnt
        invariant 1 <= i
        invariant forall j :: 0 <= j < i && j < newPageCnt ==> starts[j] == around[j]
      {
        NextStart(|items|, p, selection, i);
        WrapFits(starts[i - 1] + p);
        starts[i] := Wrap(starts[i - 1] + p);
        i := i + 1;
      }
      SetPageIndex(starts);
      assert pageIndex == around;
    }

    method MoveSelection(offset: int32) returns (ok: bool)
      requires Valid()
      modifies this
      ensures Valid() && View() == Moved(old(View()), offset)
      ensures ok <==> 0 <= old(selection) + offset < |items|
    {
      if Wrap(selection + offset) >= |items| { return false; }
      selection := Wrap(selection + offset);
      dontAdjust := true;
      ok := true;
    }

    method SetSelection(index: int32) returns (ok: bool)
      requires Valid()
      modifies this
      ensures Valid() && View() == Selected(old(View()), index)
      ensures ok <==> -1 <= index < |items| && items != []
    {
      hide Paged, PagesAround, PageCount, CurrentPage;
      var selectedIndex: int := index;
      if selectedIndex == -1 {
        selectedIndex := |items| - 1;
      }
      if selectedIndex < 0 || selectedIndex >= |items| { return false; }
      selection := selectedIndex;
      ghost var w := View();
      AdjustPageIndexForSelection();
      RegroupedShows(w);
      ok := true;
    }

    method MovePage(offset: int32) returns (ok: bool)
      requires Valid()
      modifies this
      ensures Valid()
      ensures old(Laid(View())) ==> View() == PageMoved(old(View()), offset)
      ensures old(Empty()) ==> View() == old(View())
      ensures ok == (offset == 0 || (old(pageIndex) != [] &&
                                     0 <= CurrentPage(old(pageIndex), old(selection)) + offset < |old(pageIndex)|))
    {
      hide Paged, CurrentPage, Wrap;
      if offset == 0 { return true; }
      PagesInRange();
      var current := GetCurrentPage();
      if current.None? { return false; }
      var currentPage := current.value;
      var newPage := currentPage + offset;
      if newPage < 0 || newPage >= |pageIndex| { return false; }
      if selection % pageSize == 0 && selection == pageIndex[currentPage] {
        dontAdjust := true;
      }
      var selectionOffset := selection - pageIndex[currentPage];
      WrapFits(pageIndex[newPage] + selectionOffset);
      selection := Wrap(pageIndex[newPage] + selectionOffset);
      selection := if |items| > selection then selection else |items| - 1;
      ok := true;
    }

    method SetSelectionOffset(offset: int32) returns (ok: bool)
      requires Valid()
      modifies this
      ensures Valid()
      ensures old(Laid(View())) ==> View() == Scrolled(old(View()), offset)
      ensures old(Empty()) ==> View() == old(View())
      ensures ok <==> 0 <= old(selection) + offset < |items|
    {
      hide Paged, PagesAround, PageCount, Wrap, CurrentPage;
      WrapFits(selection + offset);
      if Wrap(selection + offset) >= |items| { return false; }
      PagesInRange();
      var hasEmpty := CurrentPageHasEmptyItems();
      var adjust := true;
      var newOffset := selection + offset;
      if (offset == 1 || offset == -1) && hasEmpty && |pageIndex| > 1 {
        var last := pageIndex[|pageIndex| - 1];
        if newOffset >= last {
          adjust := false;
        }
        dontAdjust := true;
      }
      selection := newOffset;
      ghost var w := View();
      if adjust {
        RegroupedShows(w);
        AdjustPageIndexForSelection();
      }
      ok := true;
    }

    /** A row below the last item is accepted all the same: the window is then left with a
        selection past its list. */
    method SetSelectionInPage(row: int32) returns (ok: bool)
      requires Valid()
      modifies `selection
      ensures Valid()
      ensures old(Laid(View())) ==> View() == RowSelected(old(View()), row)
      ensures old(Empty()) ==> View() == old(View())
      ensures ok <==> 0 <= row < |items|
    {
      hide Paged;
      if row < 0 || row >= |items| { return false; }
      PagesInRange();
      var current := GetCurrentPage();
      if current.None? { return false; }
      selection := Wrap(pageIndex[current.value] + row);
      ok := true;
    }

    method GetSelectedCandidateString() returns (text: Option<string>)
      ensures text == if selection < |items| then Some(items[selection]) else None
    {
      if selection >= |items| { return None; }
      text := Some(items[selection]);
    }

    /** Painting first moves a short last page back so that it is full. */
    method AdjustPageIndex(currentPage: uint32) returns (start: uint32)
      requires Valid() && pageIndex != [] && currentPage == CurrentPage(pageIndex, selection)
      modifies this
      ensures Valid()
      ensures old(Laid(View())) ==> View() == Painted(old(View())) && start == DrawnFrom(old(View()))
      ensures old(Empty()) ==> View() == old(View()) && start == 0
    {
      hide Paged, PagesAround, PageCount, CurrentPage;
      ghost var w := View();
      PagesInRange();
      start := pageIndex[currentPage];
      var hasEmpty := CurrentPageHasEmptyItems();
      if !hasEmpty || dontAdjust { return; }
      PaintLays(w);
      FillsLastPage(w);
      var kept := selection;
      if start > Wrap(|items| - pageSize) && |pageIndex| > 0 && currentPage == |pageIndex| - 1 {
        selection := |items| - pageSize;
        AdjustPageIndexForSelection();
        selection := kept;
        dontAdjust := false;
        assert View() == Painted(w);
        PagesInRange();
        var current := GetCurrentPage();
        start := pageIndex[current.value];
      } else {
        assert false;
      }
    }

    method Paint() returns (rows: seq<Row>)
      requires Valid()
      modifies this
      ensures Valid()
      ensures old(Laid(View())) ==>
                && View() == Painted(old(View()))
                && rows == RowsFrom(View(), DrawnFrom(old(View())))
      ensures old(Laid(View())) ==>
                var d: int := DrawnFrom(old(View()));
                && |rows| == (if d >= |items| then 0 else if |items| - d < pageSize then |items| - d else pageSize)
                && forall i :: 0 <= i < |rows| ==> rows[i] == Row(items[d + i], selection == d + i)
      ensures old(Empty()) ==> View() == old(View()) && rows == []
    {
      hide Paged, PagesAround, PageCount, CurrentPage, HasEmptyRows, Fills, DrawnFrom, Starts;
      rows := [];
      PagesInRange();
      var current := GetCurrentPage();
      if current.None? { return; }
      ghost var w := View();
      if Laid(w) { PaintLays(w); }
      var index := AdjustPageIndex(current.value);
      ghost var start := index;
      w := View();
      var position := 0;
      while index < |items| && position < pageSize
        invariant 0 <= position <= pageSize && index == start + position
        invariant position <= RowCount(w, start) && rows == RowsFrom(w, start)[..position]
      {
        rows := rows + [Row(items[index], selection == index)];
        index, position := index + 1, position + 1;
      }
    }

    lemma PagesInRange()
      requires Valid()
      ensures |pageIndex| < LIST_LIMIT
      ensures forall i :: 0 <= i < |pageIndex| ==> pageIndex[i] < |items| + pageSize
      ensures pageIndex != [] ==> pageIndex[0] == 0
      ensures pageIndex != [] ==> pageIndex[CurrentPage(pageIndex, selection)] <= selection
      ensures Laid(View()) ==> pageIndex != []
    {
      if Laid(View()) {
        PageCountBound(pageIndex, |items|, pageSize);
        forall i | 0 <= i < |pageIndex| ensures pageIndex[i] < |items| + pageSize {
          StartBound(pageIndex, |items|, pageSize, i);
        }
      }
    }
  }
}
