/** What the user sees in the candidate window, and what the keys then report of it. */
module PaintedRows {
  import opened Wrappers
  import opened RomajiTable
  import opened CompositionBuffer
  import opened CandidatePaging
  import opened CandidateWindows
  import opened KeyRouting
  import opened KeyLaws

  /** The rows on screen once a list has been painted. */
  function Shown(w: Window): seq<Row>
    requires Laid(w)
  {
    RowsFrom(Painted(w), DrawnFrom(w))
  }

  /** Painting shows the items from the drawn one on, in order, as many as the page and the list have
      room for, and marks the selected one. */
  lemma RowsReadTheItems(w: Window)
    requires Showing(w)
    ensures var d, n, rows := DrawnFrom(w), |w.items|, Shown(w);
            && d < n
            && |rows| == (if w.pageSize <= n - d then w.pageSize else n - d)
            && (forall i :: 0 <= i < |rows| ==> rows[i].text == w.items[d + i])
            && (forall i :: 0 <= i < |rows| ==> (rows[i].selected <==> d + i == w.selection))
  {
    hide Paged, PagesAround, DrawnFrom, Painted;
    ApplyLays(w, Paint);
    PaintShows(w);
  }

  /** The digit painted beside a row reports the text in that row. */
  lemma DigitReportsShownRow(rules: seq<Rule>, s: Service, w: Window, key: Key, env: Environment)
    requires Steady(rules, s) && s.mode == Original && Showing(w) && s.presenter == Live(w) && IsDigit(key)
    requires RowOf(key.code) < |Shown(w)|
    ensures var t, text := Pressed(rules, Repainted(s), key, env), Shown(w)[RowOf(key.code)].text;
            && (text != "" ==>
                  && t.log == s.log + [Commit(ReadingText(rules, s.buffer), text, env.learn)]
                  && t.text == text && t.mode == NoCandidates && t.buffer == "" && !t.composing)
            && (text == "" ==> t.log == s.log && t.mode == Original && t.buffer == s.buffer)
  {
    hide Commits, ReadingText, Paged, PagesAround, Painted, DrawnFrom, RowSelected, RowsFrom, Pressed;
    var row := RowOf(key.code);
    RowsReadTheItems(w);
    PaintLays(w);
    PaintShows(w);
    DigitSelectsDrawnRow(w, row);
    DigitSelects(rules, Repainted(s), key, env);
  }

  /** The row painted as selected is the one that Enter reports. */
  lemma EnterReportsShownRow(rules: seq<Rule>, s: Service, w: Window, key: Key, env: Environment)
    requires Steady(rules, s) && s.mode == Original && Showing(w) && s.presenter == Live(w) && IsKey(key, VK_RETURN)
    requires w.items[w.selection] != ""
    ensures var t, row := Pressed(rules, Repainted(s), key, env), w.selection - DrawnFrom(w);
            && 0 <= row < |Shown(w)| && Shown(w)[row].selected
            && t.log == s.log + [Commit(ReadingText(rules, s.buffer), Shown(w)[row].text, env.learn)]
            && t.text == Shown(w)[row].text && t.mode == NoCandidates && t.buffer == "" && !t.composing
  {
    hide Commits, ReadingText, Paged, PagesAround, Painted, DrawnFrom, RowsFrom, Pressed;
    RowsReadTheItems(w);
    PaintLays(w);
    PaintShows(w);
    EnterCompletes(rules, Repainted(s), key, env);
  }
}
