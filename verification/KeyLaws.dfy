/** What every key press keeps, and what whole runs of keys lead to. */
module KeyLaws {
  import opened Wrappers
  import opened RomajiTable
  import opened RomajiKana
  import opened CompositionBuffer
  import opened CandidatePaging
  import opened KeyRouting

  function Commits(log: seq<Message>): nat {
    if log == [] then 0 else Commits(log[..|log| - 1]) + if log[|log| - 1].Commit? then 1 else 0
  }

  lemma CommitsAppend(log: seq<Message>, m: Message)
    ensures Commits(log + [m]) == Commits(log) + if m.Commit? then 1 else 0
  {
    assert (log + [m])[..|log|] == log;
  }

  // ---- The invariant ----

  /** No mode but the first two, and a list that is up shows the answer to the last question asked,
      which the buffer still spells. */
  ghost predicate Steady(rules: seq<Rule>, s: Service) {
    && (s.mode == NoCandidates || s.mode == Original)
    && (s.mode == NoCandidates <==> !s.presenter.Live?)
    && (s.mode == Original ==> Answered(rules, s))
    && (s.composing || s.buffer == "")
    && Counted(s)
  }

  ghost predicate Answered(rules: seq<Rule>, s: Service) {
    && s.presenter.Live? && Laid(s.presenter.window) && s.presenter.window.pageSize == ROWS
    && s.composing && s.buffer != "" && ReadingText(rules, s.buffer) != ""
    && s.log != [] && s.log[|s.log| - 1] == Convert(ReadingText(rules, s.buffer))
  }

  predicate Counted(s: Service) {
    Commits(s.log) + (if s.composing then 1 else 0) <= s.started
  }

  /** What remains once a composition has been told of and before it is ended. */
  ghost predicate Ending(s: Service) {
    && (s.presenter.Never? ==> s.mode == NoCandidates) && Commits(s.log) <= s.started
  }

  lemma EndingSettles(rules: seq<Rule>, s: Service)
    requires Ending(s)
    ensures Steady(rules, Cancelled(s)) && Steady(rules, Completed(s))
  {
  }

  lemma NotifyEnds(rules: seq<Rule>, s: Service, text: string, learn: bool)
    requires Steady(rules, s) && s.composing
    ensures Ending(Notified(rules, s, text, learn))
  {
    hide ReadingText;
    CommitsAppend(s.log, Commit(ReadingText(rules, s.buffer), text, learn));
  }

  lemma SteadyEnds(rules: seq<Rule>, s: Service)
    requires Steady(rules, s)
    ensures Ending(s)
  {
  }

  lemma FinalizeSettles(rules: seq<Rule>, s: Service, fromList: bool, learn: bool)
    requires Steady(rules, s)
    ensures Steady(rules, Finalized(rules, s, fromList, learn))
    ensures Finalized(rules, s, fromList, learn).mode == NoCandidates
    ensures !Finalized(rules, s, fromList, learn).composing
  {
    hide Notified, Commits, ReadingText, Ending;
    SteadyEnds(rules, s);
    EndingSettles(rules, s);
    if s.composing {
      var text := if |s.text| > PRECEDING_TEXT_MAX then s.text[..PRECEDING_TEXT_MAX] else s.text;
      NotifyEnds(rules, s, Selection(s), learn);
      NotifyEnds(rules, s, text, learn);
      EndingSettles(rules, Notified(rules, s, Selection(s), learn));
      EndingSettles(rules, Notified(rules, s, text, learn));
    }
  }

  lemma CandidateFinalizeSettles(rules: seq<Rule>, s: Service, learn: bool)
    requires Steady(rules, s) && s.mode == Original
    ensures Steady(rules, CandidateFinalized(rules, s, learn))
    ensures CandidateFinalized(rules, s, learn).mode == NoCandidates
    ensures !CandidateFinalized(rules, s, learn).composing
  {
    hide Notified, Commits, ReadingText, Ending;
    SteadyEnds(rules, s);
    EndingSettles(rules, s);
    var shown := s.(text := Selection(s));
    NotifyEnds(rules, shown, Selection(s), learn);
    EndingSettles(rules, Notified(rules, shown, Selection(s), learn));
  }

  lemma InputSettles(rules: seq<Rule>, s: Service, ch: char, learn: bool)
    requires Steady(rules, s) && s.mode == NoCandidates
    ensures Steady(rules, CompositionInput(rules, s, ch, learn))
  {
    hide Commits, ReadingText, DisplayText, BufferAfter;
  }

  lemma ConvertSettles(rules: seq<Rule>, s: Service, answer: Option<seq<string>>)
    requires Steady(rules, s) && s.mode == NoCandidates
    ensures Steady(rules, CompositionConverted(rules, s, answer))
  {
    hide Commits, ReadingText, ListSet, Paged;
    CommitsAppend(s.log, Convert(ReadingText(rules, s.buffer)));
    if answer.Some? && answer.value != [] { ListSetShows(EMPTY_WINDOW, answer.value); ListSetFields(answer.value); }
  }

  lemma ListSetFields(items: seq<string>)
    ensures ListSet(EMPTY_WINDOW, items).items == items && ListSet(EMPTY_WINDOW, items).pageSize == ROWS
    ensures ListSet(EMPTY_WINDOW, items).selection == 0
  {
  }

  lemma TurnedStaysLaid(w: Window, move: Function)
    requires Laid(w)
    ensures Laid(Turned(w, move)) && Turned(w, move).items == w.items && Turned(w, move).pageSize == w.pageSize
  {
    hide Paged, PagesAround, CurrentPage;
    PagesNonempty(w);
    if move == MovePageTop { RegroupedShows(w.(selection := 0)); }
    if move == MovePageBottom { RegroupedShows(w.(selection := Count(w) - 1)); }
  }

  lemma ArrowSettles(rules: seq<Rule>, s: Service, move: Function)
    requires Steady(rules, s)
    ensures Steady(rules, ArrowMoved(s, move))
  {
    hide Commits, ReadingText, Laid, Turned;
    if s.presenter.Live? { TurnedStaysLaid(s.presenter.window, move); }
  }

  lemma NumberSettles(rules: seq<Rule>, s: Service, code: nat, learn: bool)
    requires Steady(rules, s) && s.mode == Original
    ensures Steady(rules, NumberSelected(rules, s, code, learn))
  {
    hide Commits, ReadingText, CandidateFinalized, Paged;
    var row := RowOf(code);
    if 0 <= row < |s.presenter.window.items| {
      var picked := s.(presenter := Live(RowSelected(s.presenter.window, row)));
      CandidateFinalizeSettles(rules, picked, learn);
    }
  }

  /** Which functions a key can reach in the two modes. */
  lemma Routed(rules: seq<Rule>, s: Service, key: Key)
    requires Steady(rules, s)
    ensures var r := KeyEaten(key, s.buffer, s.composing, s.mode);
            && (s.mode == NoCandidates ==>
                  r == UNROUTED || r == Routing(false, InvokeSession, FinalizeTextStore)
                  || (r.eaten && r.category == Composing && r.function_ !in {FinalizeTextStoreAndInput,
                        FinalizeTextStore, FinalizeCandidateListAndInput, ConvertWildcard, SelectByNumber, NoFunction}
                      && (r.function_ in {Input, Punctuation, DoubleSingleByte} || s.composing)))
            && (s.mode == Original ==>
                  r == UNROUTED || r == Routing(false, InvokeSession, FinalizeTextStore)
                  || (r.eaten && r.category == Candidate && (key.code == VK_ESCAPE ==> r.function_ == Cancel)
                      && r.function_ !in {Input, FinalizeTextStoreAndInput, FinalizeTextStore, ConvertWildcard,
                            Backspace, DoubleSingleByte, Punctuation, MoveLeft, MoveRight, NoFunction}))
  {
  }

  /** Every key press keeps the service steady. */
  lemma PressSettles(rules: seq<Rule>, s: Service, key: Key, env: Environment)
    requires Steady(rules, s)
    ensures Steady(rules, Pressed(rules, s, key, env))
  {
    hide Steady, KeyEaten, CompositionConverted, CompositionInput, Finalized, CandidateFinalized, NumberSelected,
         ArrowMoved,
         CompositionBackspace, Cancelled;
    Routed(rules, s, key);
    Modes(rules, s);
    SteadyEnds(rules, s);
    EndingSettles(rules, s);
    FinalizeSettles(rules, s, false, env.learn);
    var f := KeyEaten(key, s.buffer, s.composing, s.mode).function_;
    ArrowSettles(rules, s, f);
    ArrowSettles(rules, s, MoveDown);
    if s.mode == NoCandidates {
      FinalizeSettles(rules, s, true, env.learn);
      InputSettles(rules, s, key.ch, env.learn);
      ConvertSettles(rules, s, env.answer);
      BackspaceSettles(rules, s);
    } else {
      CandidateFinalizeSettles(rules, s, env.learn);
      InputSettles(rules, CandidateFinalized(rules, s, env.learn), key.ch, env.learn);
      NumberSettles(rules, s, key.code, env.learn);
    }
  }

  lemma Modes(rules: seq<Rule>, s: Service)
    requires Steady(rules, s)
    ensures s.mode == NoCandidates || s.mode == Original
  {
  }

  lemma BackspaceSettles(rules: seq<Rule>, s: Service)
    requires Steady(rules, s) && s.mode == NoCandidates
    ensures Steady(rules, CompositionBackspace(rules, s))
  {
    hide Commits, ReadingText, DisplayText;
  }

  // ---- Whole runs ----

  /** What comes to the service: a key, or a request to paint the window. */
  datatype Event = Press(key: Key, env: Environment) | Repaint

  ghost function Next(rules: seq<Rule>, s: Service, e: Event): Service {
    match e
    case Press(key, env) => Pressed(rules, s, key, env)
    case Repaint => Repainted(s)
  }

  ghost function AfterKeys(rules: seq<Rule>, s: Service, events: seq<Event>): Service {
    if events == [] then s
    else Next(rules, AfterKeys(rules, s, events[..|events| - 1]), events[|events| - 1])
  }

  /** Painting changes the pages of a list and nothing else. */
  lemma RepaintKeeps(s: Service)
    ensures var t := Repainted(s);
            && t == s.(presenter := t.presenter) && (t.presenter.Live? <==> s.presenter.Live?)
            && (!s.presenter.Live? ==> t == s)
            && (s.presenter.Live? ==>
                  && t.presenter.window.items == s.presenter.window.items
                  && t.presenter.window.selection == s.presenter.window.selection
                  && t.presenter.window.pageSize == s.presenter.window.pageSize
                  && (Laid(s.presenter.window) ==> Laid(t.presenter.window)))
  {
    hide Paged, PagesAround;
    if s.presenter.Live? && Laid(s.presenter.window) { PaintLays(s.presenter.window); }
  }

  lemma RepaintSettles(rules: seq<Rule>, s: Service)
    requires Steady(rules, s)
    ensures Steady(rules, Repainted(s))
  {
    hide Repainted, Laid, ReadingText, Commits;
    RepaintKeeps(s);
  }

  lemma NextSettles(rules: seq<Rule>, s: Service, e: Event)
    requires Steady(rules, s)
    ensures Steady(rules, Next(rules, s, e))
  {
    hide Steady, Pressed, Repainted;
    if e.Press? { PressSettles(rules, s, e.key, e.env); } else { RepaintSettles(rules, s); }
  }

  /** From activation on, whatever is pressed, painted in between, and whatever the engine answers:
      only two modes are ever reached, a list is up exactly in the second and answers the last question
      asked, and no composition is reported twice. */
  lemma {:induction false} EveryRunIsSteady(rules: seq<Rule>, events: seq<Event>)
    ensures Steady(rules, AfterKeys(rules, Idle(), events))
    decreases |events|
  {
    hide Next;
    if events != [] {
      var before := events[..|events| - 1];
      EveryRunIsSteady(rules, before);
      NextSettles(rules, AfterKeys(rules, Idle(), before), events[|events| - 1]);
    }
  }

  /** Whichever way a composition ends, nothing of it stays. */
  lemma EndsEmpty(rules: seq<Rule>, s: Service)
    requires Steady(rules, s)
    ensures forall t :: t == Cancelled(s) || t == Completed(s) ==>
              t.mode == NoCandidates && t.buffer == "" && !t.composing
  {
  }

  // ---- What the engine is told ----

  /** At most one message a key, about the reading in the buffer before it; a commit ends the
      composition it reports. */
  ghost predicate Tells(rules: seq<Rule>, s: Service, t: Service) {
    t.log == s.log || exists m :: t.log == s.log + [m] && Fits(rules, s, t, m)
  }

  ghost predicate Fits(rules: seq<Rule>, s: Service, t: Service, m: Message) {
    && m.reading == ReadingText(rules, s.buffer) != ""
    && (m.Convert? ==> s.mode == NoCandidates && t.buffer == s.buffer)
    && (m.Commit? ==> s.composing && m.text != "" && t.mode == NoCandidates)
    && (m.Commit? && t.composing ==> t.started == s.started + 1)
  }

  lemma NotifyTells(rules: seq<Rule>, s: Service, text: string, learn: bool)
    ensures var t := Notified(rules, s, text, learn);
            && t == s.(log := t.log)
            && (t.log == s.log || (text != "" && ReadingText(rules, s.buffer) != ""
                                   && t.log == s.log + [Commit(ReadingText(rules, s.buffer), text, learn)]))
  {
  }

  lemma FinalizeTells(rules: seq<Rule>, s: Service, fromList: bool, learn: bool)
    requires Steady(rules, s)
    ensures Tells(rules, s, Finalized(rules, s, fromList, learn))
    ensures Finalized(rules, s, fromList, learn).started == s.started
  {
    hide Notified, Commits, ReadingText;
    var text := if |s.text| > PRECEDING_TEXT_MAX then s.text[..PRECEDING_TEXT_MAX] else s.text;
    NotifyTells(rules, s, Selection(s), learn);
    NotifyTells(rules, s, text, learn);
    var t := Finalized(rules, s, fromList, learn);
    if t.log != s.log { assert Fits(rules, s, t, t.log[|s.log|]); }
  }

  lemma CandidateFinalizeTells(rules: seq<Rule>, s: Service, learn: bool)
    requires Steady(rules, s) && s.mode == Original
    ensures Tells(rules, s, CandidateFinalized(rules, s, learn))
    ensures CandidateFinalized(rules, s, learn).started == s.started
  {
    hide Notified, Commits, ReadingText;
    NotifyTells(rules, s.(text := Selection(s)), Selection(s), learn);
    var t := CandidateFinalized(rules, s, learn);
    if t.log != s.log { assert Fits(rules, s, t, t.log[|s.log|]); }
  }

  lemma InputTells(rules: seq<Rule>, s: Service, t: Service, ch: char, learn: bool)
    requires Tells(rules, s, t) && t.mode == NoCandidates && !t.composing && t.started == s.started
    requires s.mode == Original
    ensures Tells(rules, s, CompositionInput(rules, t, ch, learn))
  {
    hide ReadingText, DisplayText, BufferAfter;
    var u := CompositionInput(rules, t, ch, learn);
    assert u.log == t.log && u.mode == NoCandidates && u.started == t.started + 1;
    if t.log != s.log {
      var m :| t.log == s.log + [m] && Fits(rules, s, t, m);
      assert Fits(rules, s, u, m);
    }
  }

  lemma SilentInput(rules: seq<Rule>, s: Service, ch: char, learn: bool)
    requires s.mode == NoCandidates
    ensures CompositionInput(rules, s, ch, learn).log == s.log
  {
    hide ReadingText, DisplayText, BufferAfter;
  }

  lemma ConvertTells(rules: seq<Rule>, s: Service, answer: Option<seq<string>>)
    requires s.mode == NoCandidates
    ensures Tells(rules, s, CompositionConverted(rules, s, answer))
  {
    hide ReadingText, ListSet;
    var t := CompositionConverted(rules, s, answer);
    if t.log != s.log { assert Fits(rules, s, t, Convert(ReadingText(rules, s.buffer))); }
  }

  lemma NumberTells(rules: seq<Rule>, s: Service, code: nat, learn: bool)
    requires Steady(rules, s) && s.mode == Original
    ensures Tells(rules, s, NumberSelected(rules, s, code, learn))
  {
    hide Commits, ReadingText, CandidateFinalized, Paged, RowSelected;
    var row := RowOf(code);
    if 0 <= row < |s.presenter.window.items| {
      var w := RowSelected(s.presenter.window, row);
      var picked := s.(presenter := Live(w));
      RowKeeps(s.presenter.window, row);
      CandidateFinalizeTells(rules, picked, learn);
      var t := NumberSelected(rules, s, code, learn);
      if t.log != s.log {
        var m :| t.log == picked.log + [m] && Fits(rules, picked, t, m);
        assert Fits(rules, s, t, m);
      }
    }
  }

  lemma RowKeeps(w: Window, row: int)
    requires Laid(w)
    ensures Laid(RowSelected(w, row)) && RowSelected(w, row).pageSize == w.pageSize
  {
  }

  lemma SilentHandlers(rules: seq<Rule>, s: Service, move: Function)
    ensures ArrowMoved(s, move).log == s.log && Cancelled(s).log == s.log
    ensures CompositionBackspace(rules, s).log == s.log
  {
    hide DisplayText;
  }

  lemma PressTells(rules: seq<Rule>, s: Service, key: Key, env: Environment)
    requires Steady(rules, s)
    ensures Tells(rules, s, Pressed(rules, s, key, env))
  {
    hide Steady, KeyEaten, CompositionConverted, CompositionInput, Finalized, CandidateFinalized, NumberSelected,
         ArrowMoved, CompositionBackspace, Cancelled, Fits;
    Routed(rules, s, key);
    Modes(rules, s);
    var f := KeyEaten(key, s.buffer, s.composing, s.mode).function_;
    SilentHandlers(rules, s, f);
    SilentHandlers(rules, s, MoveDown);
    FinalizeTells(rules, s, false, env.learn);
    if s.mode == NoCandidates {
      FinalizeTells(rules, s, true, env.learn);
      SilentInput(rules, s, key.ch, env.learn);
      ConvertTells(rules, s, env.answer);
    } else {
      CandidateFinalizeTells(rules, s, env.learn);
      CandidateFinalizeSettles(rules, s, env.learn);
      InputTells(rules, s, CandidateFinalized(rules, s, env.learn), key.ch, env.learn);
      NumberTells(rules, s, key.code, env.learn);
    }
  }

  /** Over every run, however a converted composition ends, one message at most reports it, with the
      reading last sent to be converted. */
  lemma ReadingIsTheOneConverted(rules: seq<Rule>, events: seq<Event>, key: Key, env: Environment)
    ensures var s := AfterKeys(rules, Idle(), events);
            var t := Pressed(rules, s, key, env);
            s.mode == Original ==>
              && s.log != [] && s.log[|s.log| - 1].Convert?
              && (t.log == s.log
                  || (|t.log| == |s.log| + 1 && t.log[..|s.log|] == s.log && t.mode == NoCandidates
                      && var m := t.log[|s.log|];
                         m.Commit? && m.text != "" && m.reading == s.log[|s.log| - 1].reading))
  {
    hide Pressed, ReadingText, Commits;
    var s := AfterKeys(rules, Idle(), events);
    EveryRunIsSteady(rules, events);
    PressTells(rules, s, key, env);
    var t := Pressed(rules, s, key, env);
    if s.mode == Original && t.log != s.log {
      var m :| t.log == s.log + [m] && Fits(rules, s, t, m);
    }
  }

  // ---- The conversion key ----

  predicate IsKey(key: Key, code: nat) {
    key.open && key.code == code && !IsWildcardChar(key.ch)
  }

  lemma SpaceConverts(rules: seq<Rule>, s: Service, key: Key, env: Environment)
    requires IsKey(key, VK_SPACE) && s.mode == NoCandidates && s.composing
    requires s.buffer != "" && ReadingText(rules, s.buffer) != "" && env.answer.Some? && env.answer.value != []
    ensures Pressed(rules, s, key, env) ==
            s.(log := s.log + [Convert(ReadingText(rules, s.buffer))], mode := Original,
               presenter := Live(ListSet(EMPTY_WINDOW, env.answer.value)))
  {
    hide ReadingText, ListSet;
    assert KeyEaten(key, s.buffer, s.composing, s.mode) == Routing(true, Composing, ConvertReading);
  }

  /** The question is asked whenever there is a reading and the engine is there to hear it. */
  lemma SpaceAsks(rules: seq<Rule>, s: Service, key: Key, env: Environment)
    requires IsKey(key, VK_SPACE) && s.mode == NoCandidates && s.composing
    ensures Pressed(rules, s, key, env).log ==
            if env.answer.None? || s.buffer == "" || ReadingText(rules, s.buffer) == "" then s.log
            else s.log + [Convert(ReadingText(rules, s.buffer))]
  {
    hide ReadingText, ListSet;
    assert KeyEaten(key, s.buffer, s.composing, s.mode) == Routing(true, Composing, ConvertReading);
  }

  lemma SpaceMovesDown(rules: seq<Rule>, s: Service, key: Key, env: Environment)
    requires IsKey(key, VK_SPACE) && s.mode == Original && s.presenter.Live?
    ensures Pressed(rules, s, key, env) == s.(presenter := Live(Moved(s.presenter.window, 1)))
  {
    hide ReadingText;
    assert KeyEaten(key, s.buffer, s.composing, s.mode) == Routing(true, Candidate, ConvertReading);
  }

  predicate IsPress(e: Event, code: nat) {
    e.Press? && IsKey(e.key, code)
  }

  /** How many keys a run has, painting left out. */
  function Keys(events: seq<Event>): nat {
    if events == [] then 0
    else Keys(events[..|events| - 1]) + if events[|events| - 1].Press? then 1 else 0
  }

  /** The conversion key, pressed again and again, walks down the list and commits nothing, however
      the list is painted meanwhile. */
  lemma {:induction false} SpacesWalk(rules: seq<Rule>, s: Service, events: seq<Event>)
    requires s.mode == Original && s.presenter.Live? && s.presenter.window.selection < Count(s.presenter.window)
    requires forall e :: e in events ==> e.Repaint? || IsPress(e, VK_SPACE)
    ensures var t, w := AfterKeys(rules, s, events), s.presenter.window;
            && t == s.(presenter := t.presenter) && t.presenter.Live? && t.presenter.window.items == w.items
            && t.presenter.window.selection == Lesser(w.selection + Keys(events), Count(w) - 1)
    decreases |events|
  {
    hide Pressed, IsKey, Repainted;
    if events != [] {
      var last, before := events[|events| - 1], events[..|events| - 1];
      assert last in events;
      SpacesWalk(rules, s, before);
      var t := AfterKeys(rules, s, before);
      if last.Press? { SpaceMovesDown(rules, t, last.key, last.env); } else { RepaintKeeps(t); }
    }
  }

  function Lesser(a: int, b: int): int {
    if a < b then a else b
  }

  lemma EnterCommits(rules: seq<Rule>, s: Service, key: Key, env: Environment)
    requires IsKey(key, VK_RETURN) && s.mode == Original && s.presenter.Live? && s.buffer != ""
    requires ReadingText(rules, s.buffer) != "" && Selection(s) != ""
    ensures var t := Pressed(rules, s, key, env);
            && t.log == s.log + [Commit(ReadingText(rules, s.buffer), Selection(s), env.learn)]
            && t.text == Selection(s) && t.mode == NoCandidates && t.buffer == "" && !t.composing
  {
    hide ReadingText;
    assert KeyEaten(key, s.buffer, s.composing, s.mode) == Routing(true, Candidate, FinalizeCandidateList);
  }

  /** Convert, press the conversion key k more times, press Enter, the list painted at any time: the
      engine hears the question and then exactly the candidate k places down, or the last one. */
  lemma WalkThenCommit(rules: seq<Rule>, s: Service, convert: Event, spaces: seq<Event>, enter: Event)
    requires s.mode == NoCandidates && s.composing && s.buffer != "" && ReadingText(rules, s.buffer) != ""
    requires IsPress(convert, VK_SPACE) && IsPress(enter, VK_RETURN)
    requires forall e :: e in spaces ==> e.Repaint? || IsPress(e, VK_SPACE)
    requires convert.env.answer.Some? && convert.env.answer.value != []
    requires forall text :: text in convert.env.answer.value ==> text != ""
    ensures var texts, r := convert.env.answer.value, ReadingText(rules, s.buffer);
            var chosen := texts[Lesser(Keys(spaces), |texts| - 1)];
            var walked := AfterKeys(rules, Next(rules, s, convert), spaces);
            var end := Next(rules, walked, enter);
            && walked.buffer == s.buffer && walked.mode == Original && walked.log == s.log + [Convert(r)]
            && end.log == s.log + [Convert(r), Commit(r, chosen, enter.env.learn)]
            && end.mode == NoCandidates && end.buffer == "" && !end.composing
  {
    hide Pressed, ReadingText, ListSet, IsKey, AfterKeys;
    var texts := convert.env.answer.value;
    SpaceConverts(rules, s, convert.key, convert.env);
    var listed := Next(rules, s, convert);
    ListSetFields(texts);
    SpacesWalk(rules, listed, spaces);
    var walked := AfterKeys(rules, listed, spaces);
    assert Selection(walked) in texts;
    EnterCommits(rules, walked, enter.key, enter.env);
  }

  // ---- The other keys of a list ----

  lemma ListKeyRouted(key: Key, buffer: string, composing: bool)
    requires key.open && key.code in {VK_UP, VK_DOWN, VK_PRIOR, VK_NEXT, VK_HOME, VK_END}
    ensures KeyEaten(key, buffer, composing, Original) == Routing(true, Candidate, MoveOf(key.code))
  {
  }

  /** The arrow and paging keys change the list and nothing else: up and down by one item, stopping at
      the ends, Home and End to them, and Page Up and Page Down keeping the row where the page has it. */
  lemma ListKeysMove(rules: seq<Rule>, s: Service, w: Window, key: Key, env: Environment)
    requires s.mode == Original && s.presenter == Live(w) && Showing(w)
    requires key.open && key.code in {VK_UP, VK_DOWN, VK_PRIOR, VK_NEXT, VK_HOME, VK_END}
    ensures var t := Pressed(rules, s, key, env);
            && t.presenter.Live? && t == s.(presenter := t.presenter)
            && var v, page := t.presenter.window, CurrentPage(w.pages, w.selection);
               && v.items == w.items && Showing(v)
               && (key.code == VK_UP ==> v.selection == if w.selection > 0 then w.selection - 1 else 0)
               && (key.code == VK_DOWN ==>
                     v.selection == if w.selection + 1 < Count(w) then w.selection + 1 else w.selection)
               && (key.code == VK_HOME ==> v.selection == 0)
               && (key.code == VK_END ==> v.selection == Count(w) - 1)
               && (key.code == VK_PRIOR ==>
                     v.selection == if page == 0 then w.selection
                                    else w.pages[page - 1] + (w.selection - w.pages[page]))
               && (key.code == VK_NEXT ==>
                     var row := w.selection - w.pages[page];
                     v.selection == if page + 1 == |w.pages| then w.selection
                                    else if w.pages[page + 1] + row < Count(w) then w.pages[page + 1] + row
                                    else Count(w) - 1)
  {
    hide Turned, KeyEaten, Laid;
    ListKeyRouted(key, s.buffer, s.composing);
    TurnedMoves(w, key.code);
  }

  lemma TurnedMoves(w: Window, code: nat)
    requires Showing(w) && code in {VK_UP, VK_DOWN, VK_PRIOR, VK_NEXT, VK_HOME, VK_END}
    ensures var v, page := Turned(w, MoveOf(code)), CurrentPage(w.pages, w.selection);
            && v.items == w.items && Showing(v)
            && (code == VK_UP ==> v.selection == if w.selection > 0 then w.selection - 1 else 0)
            && (code == VK_DOWN ==> v.selection == if w.selection + 1 < Count(w) then w.selection + 1 else w.selection)
            && (code == VK_HOME ==> v.selection == 0)
            && (code == VK_END ==> v.selection == Count(w) - 1)
            && (code == VK_PRIOR ==>
                  v.selection == if page == 0 then w.selection else w.pages[page - 1] + (w.selection - w.pages[page]))
            && (code == VK_NEXT ==>
                  var row := w.selection - w.pages[page];
                  v.selection == if page + 1 == |w.pages| then w.selection
                                 else if w.pages[page + 1] + row < Count(w) then w.pages[page + 1] + row
                                 else Count(w) - 1)
  {
    hide Paged, PagesAround, CurrentPage;
    PagesNonempty(w);
    TurnedStaysLaid(w, MoveOf(code));
    var page := CurrentPage(w.pages, w.selection);
    if page >= 1 { StartsIncrease(w.pages, Count(w), w.pageSize, page - 1, page); }
  }

  /** Escape and Backspace take the list and the composition away without a word to the engine. */
  lemma ListKeysCancel(rules: seq<Rule>, s: Service, key: Key, env: Environment)
    requires Steady(rules, s) && s.mode == Original && key.open && key.code in {VK_ESCAPE, VK_BACK}
    ensures var t := Pressed(rules, s, key, env);
            t.log == s.log && t.mode == NoCandidates && t.buffer == "" && !t.composing
  {
    hide Commits, ReadingText, Paged;
    assert KeyEaten(key, s.buffer, s.composing, s.mode) == Routing(true, Candidate, Cancel);
  }

  // ---- Digits ----

  predicate IsDigit(key: Key) {
    key.open && RowOf(key.code) != -1
  }

  lemma DigitSelects(rules: seq<Rule>, s: Service, key: Key, env: Environment)
    requires IsDigit(key) && s.mode == Original
    ensures Pressed(rules, s, key, env) == NumberSelected(rules, s, key.code, env.learn)
  {
    hide NumberSelected;
    assert KeyEaten(key, s.buffer, s.composing, s.mode) == Routing(true, Candidate, SelectByNumber);
  }

  /** A digit commits the text painted beside it. */
  lemma DigitCommitsDrawnText(rules: seq<Rule>, s: Service, w: Window, key: Key, env: Environment)
    requires Steady(rules, s) && s.mode == Original && Showing(w) && s.presenter == Live(w) && IsDigit(key)
    requires DrawnFrom(w) + RowOf(key.code) < Count(w) && w.items[DrawnFrom(w) + RowOf(key.code)] != ""
    ensures var t := Pressed(rules, Repainted(s), key, env);
            && t.log == s.log
               + [Commit(ReadingText(rules, s.buffer), w.items[DrawnFrom(w) + RowOf(key.code)], env.learn)]
            && t.mode == NoCandidates && t.buffer == "" && !t.composing
  {
    hide Commits, ReadingText, Paged, PagesAround, Painted, DrawnFrom, RowSelected, Pressed;
    var row := RowOf(key.code);
    PaintShows(w);
    PaintLays(w);
    DigitSelectsDrawnRow(w, row);
    DigitSelects(rules, Repainted(s), key, env);
  }

  lemma {:induction false} PaintsKeep(rules: seq<Rule>, s: Service, paints: seq<Event>)
    requires forall e :: e in paints ==> e.Repaint?
    ensures var t := AfterKeys(rules, s, paints);
            && t == s.(presenter := t.presenter) && (t.presenter.Never? <==> s.presenter.Never?)
            && Selection(t) == Selection(s)
    decreases |paints|
  {
    hide Repainted;
    if paints != [] {
      var before := paints[..|paints| - 1];
      assert paints[|paints| - 1] in paints;
      PaintsKeep(rules, s, before);
      RepaintKeeps(AfterKeys(rules, s, before));
    }
  }

  /** A digit beside an empty row of a short page is taken all the same. It commits nothing, and
      what is left has no candidate selected: Enter then ends the composition unreported, painted in
      between or not. */
  lemma MissedDigitLosesTheChoice(rules: seq<Rule>, s: Service, digit: Event, paints: seq<Event>, enter: Event)
    requires Steady(rules, s) && s.mode == Original && Showing(s.presenter.window)
    requires digit.Press? && IsDigit(digit.key) && Misses(s.presenter.window, SelectRow(RowOf(digit.key.code)))
    requires (forall e :: e in paints ==> e.Repaint?) && IsPress(enter, VK_RETURN)
    ensures var t := Next(rules, s, digit);
            && t.log == s.log && t.mode == Original && t.buffer == s.buffer && Selection(t) == ""
            && var u := Next(rules, AfterKeys(rules, t, paints), enter);
               u.log == s.log && u.mode == NoCandidates && u.buffer == ""
  {
    hide Commits, ReadingText, Paged, Pressed, AfterKeys;
    DigitSelects(rules, s, digit.key, digit.env);
    var t := Next(rules, s, digit);
    assert Selection(t) == "";
    PaintsKeep(rules, t, paints);
    EnterCompletes(rules, AfterKeys(rules, t, paints), enter.key, enter.env);
  }

  lemma EnterCompletes(rules: seq<Rule>, s: Service, key: Key, env: Environment)
    requires IsKey(key, VK_RETURN) && s.mode == Original
    ensures Pressed(rules, s, key, env) == CandidateFinalized(rules, s, env.learn)
  {
    hide CandidateFinalized;
    assert KeyEaten(key, s.buffer, s.composing, s.mode) == Routing(true, Candidate, FinalizeCandidateList);
  }

  // ---- A presenter without a window ----

  /** Typing calls into the candidate window whenever there has ever been a list: between
      compositions that window is gone. */
  lemma TypingStraysAfterAList(rules: seq<Rule>, s: Service, key: Key, env: Environment)
    requires Steady(rules, s) && key.open && IsInputKey(key)
    ensures Pressed(rules, s, key, env).strays == s.strays + if s.presenter.Never? then 0 else 1
  {
    hide Commits, ReadingText, DisplayText, BufferAfter, Notified, Laid, KeyEaten;
    Routed(rules, s, key);
    InputRouting(key, s.buffer, s.composing);
    if s.mode == Original {
      NotifyTells(rules, s.(text := Selection(s)), Selection(s), env.learn);
    }
  }

  lemma InputRouting(key: Key, buffer: string, composing: bool)
    requires key.open && IsInputKey(key)
    ensures KeyEaten(key, buffer, composing, Original) == Routing(true, Candidate, FinalizeCandidateListAndInput)
    ensures KeyEaten(key, buffer, composing, NoCandidates) == Routing(true, Composing, Input)
  {
  }

  // ---- The buffer ----

  /** What is typed into the buffer is a key the romaji table takes. */
  predicate TypesRomaji(key: Key) {
    (IsInputKey(key) || IsWildcardChar(key.ch)) && key.ch != '\0' ==> IsAccepted(key.ch)
  }

  lemma InputKeepsShape(rules: seq<Rule>, s: Service, ch: char, learn: bool)
    requires ValidRules(rules) && WellFormedBuffer(rules, s.buffer) && s.mode == NoCandidates
    requires ch == '\0' || IsAccepted(ch)
    ensures WellFormedBuffer(rules, CompositionInput(rules, s, ch, learn).buffer)
  {
    hide WellFormedBuffer, ValidRules, BufferAfter, DisplayText;
    if ch != '\0' { KeyKeepsShape(rules, s.buffer, ch); }
  }

  lemma EmptyIsWellFormed(rules: seq<Rule>)
    ensures WellFormedBuffer(rules, "")
  {
  }

  lemma BackspaceKeepsShape(rules: seq<Rule>, s: Service)
    requires ValidRules(rules) && WellFormedBuffer(rules, s.buffer)
    ensures WellFormedBuffer(rules, CompositionBackspace(rules, s).buffer)
  {
    hide WellFormedBuffer, ValidRules, DisplayText;
    EmptyIsWellFormed(rules);
    if s.buffer != "" { DeleteKeepsShape(rules, s.buffer); }
  }

  lemma SameBuffer(rules: seq<Rule>, s: Service, move: Function, answer: Option<seq<string>>)
    ensures ArrowMoved(s, move).buffer == s.buffer && CompositionConverted(rules, s, answer).buffer == s.buffer
  {
    hide ReadingText;
  }

  lemma EndedBuffer(rules: seq<Rule>, s: Service, code: nat, fromList: bool, learn: bool)
    ensures Cancelled(s).buffer == "" && Finalized(rules, s, fromList, learn).buffer == ""
    ensures CandidateFinalized(rules, s, learn).buffer == ""
    ensures NumberSelected(rules, s, code, learn).buffer in {"", s.buffer}
  {
    hide ReadingText, Notified, Selection, RowSelected, Laid;
  }

  lemma PressKeepsShape(rules: seq<Rule>, s: Service, key: Key, env: Environment)
    requires ValidRules(rules) && Steady(rules, s) && WellFormedBuffer(rules, s.buffer) && TypesRomaji(key)
    ensures WellFormedBuffer(rules, Pressed(rules, s, key, env).buffer)
  {
    hide Steady, KeyEaten, CompositionConverted, CompositionInput, Finalized, CandidateFinalized, NumberSelected,
         ArrowMoved, CompositionBackspace, Cancelled, WellFormedBuffer, ValidRules;
    Routed(rules, s, key);
    Modes(rules, s);
    EmptyIsWellFormed(rules);
    var r := KeyEaten(key, s.buffer, s.composing, s.mode);
    SameBuffer(rules, s, r.function_, env.answer);
    SameBuffer(rules, s, MoveDown, env.answer);
    EndedBuffer(rules, s, key.code, false, env.learn);
    EndedBuffer(rules, s, key.code, true, env.learn);
    BackspaceKeepsShape(rules, s);
    InputRouted(key, s.buffer, s.composing, s.mode);
    if s.mode == NoCandidates {
      if r.function_.Input? { InputKeepsShape(rules, s, key.ch, env.learn); }
    } else if r.function_.FinalizeCandidateListAndInput? {
      CandidateFinalizeSettles(rules, s, env.learn);
      InputKeepsShape(rules, CandidateFinalized(rules, s, env.learn), key.ch, env.learn);
    }
  }

  lemma InputRouted(key: Key, buffer: string, composing: bool, mode: Mode)
    ensures KeyEaten(key, buffer, composing, mode).function_ in {Input, FinalizeCandidateListAndInput}
      ==> IsInputKey(key) || IsWildcardChar(key.ch)
  {
  }

  /** Over every run of keys whose letters the table takes, the reading buffer is kana and then at
      most a syllable begun. A question mark or an asterisk in mid-composition is the exception: it
      is taken as input, and the table has no use for it. */
  lemma {:induction false} RunKeepsShape(rules: seq<Rule>, events: seq<Event>)
    requires ValidRules(rules) && forall e :: e in events && e.Press? ==> TypesRomaji(e.key)
    ensures WellFormedBuffer(rules, AfterKeys(rules, Idle(), events).buffer)
    decreases |events|
  {
    hide Pressed, Repainted, Steady, WellFormedBuffer, ValidRules, TypesRomaji;
    if events == [] {
      EmptyIsWellFormed(rules);
    } else {
      var last := events[|events| - 1];
      var before := events[..|events| - 1];
      assert last in events;
      RunKeepsShape(rules, before);
      EveryRunIsSteady(rules, before);
      var s := AfterKeys(rules, Idle(), before);
      if last.Press? { PressKeepsShape(rules, s, last.key, last.env); } else { RepaintKeeps(s); }
    }
  }

  lemma BackspaceBuffer(rules: seq<Rule>, s: Service)
    ensures CompositionBackspace(rules, s).buffer
            in {s.buffer, if s.buffer == "" then "" else s.buffer[..|s.buffer| - 1]}
  {
    hide DisplayText;
  }

  /** Only the keys with a letter or the minus code, whatever character the layout gives them, and the
      two wildcard characters ever add to the buffer: the keys of the table's other symbols and of the
      apostrophe do not. */
  lemma OtherKeysNeverType(rules: seq<Rule>, s: Service, key: Key, env: Environment)
    requires Steady(rules, s) && !IsInputKey(key) && !IsWildcardChar(key.ch)
    ensures Pressed(rules, s, key, env).buffer
            in {"", s.buffer, if s.buffer == "" then "" else s.buffer[..|s.buffer| - 1]}
  {
    hide Steady, KeyEaten, CompositionConverted, CompositionInput, Finalized, CandidateFinalized, NumberSelected,
         ArrowMoved, CompositionBackspace, Cancelled;
    Routed(rules, s, key);
    Modes(rules, s);
    var r := KeyEaten(key, s.buffer, s.composing, s.mode);
    InputRouted(key, s.buffer, s.composing, s.mode);
    SameBuffer(rules, s, r.function_, env.answer);
    SameBuffer(rules, s, MoveDown, env.answer);
    EndedBuffer(rules, s, key.code, false, env.learn);
    EndedBuffer(rules, s, key.code, true, env.learn);
    BackspaceBuffer(rules, s);
  }

  /** In mid-composition a question mark or an asterisk is input, and the converter refuses it: it goes
      into the buffer as it is. */
  lemma WildcardIsAppended(rules: seq<Rule>, s: Service, key: Key, env: Environment)
    requires Steady(rules, s) && s.mode == NoCandidates && s.buffer != ""
    requires key.open && !IsInputKey(key) && IsWildcardChar(key.ch)
    ensures Pressed(rules, s, key, env).buffer == s.buffer + [key.ch]
  {
    hide Commits, ReadingText, DisplayText, BufferAfter;
    assert KeyEaten(key, s.buffer, s.composing, s.mode) == Routing(true, Composing, Input);
    RejectedIsRaw(rules, s.buffer, key.ch);
  }

  // ---- Committing without converting ----

  /** The composition shows the buffer. */
  ghost predicate ShowsBuffer(rules: seq<Rule>, s: Service) {
    s.buffer != "" ==> s.text == DisplayText(rules, s.buffer)
  }

  lemma InputShowsBuffer(rules: seq<Rule>, s: Service)
    requires ValidRules(rules) && WellFormedBuffer(rules, s.buffer)
    ensures ShowsBuffer(rules, InputShown(rules, s)) && InputShown(rules, s).buffer == s.buffer
  {
    hide ValidRules, WellFormedBuffer, DisplayText;
    ShownAndSent(rules, s.buffer);
  }

  lemma TypingShowsBuffer(rules: seq<Rule>, s: Service, ch: char, learn: bool)
    requires ValidRules(rules) && WellFormedBuffer(rules, s.buffer) && s.mode == NoCandidates
    requires ch == '\0' || IsAccepted(ch)
    ensures ShowsBuffer(rules, CompositionInput(rules, s, ch, learn))
  {
    hide ValidRules, WellFormedBuffer, DisplayText, BufferAfter, InputShown, ShowsBuffer;
    if ch != '\0' { KeyKeepsShape(rules, s.buffer, ch); }
    var begun := Started(s);
    InputShowsBuffer(rules, if ch == '\0' then begun else begun.(buffer := BufferAfter(rules, begun.buffer, ch)));
  }

  lemma OthersShowBuffer(rules: seq<Rule>, s: Service, code: nat, fromList: bool, move: Function, env: Environment)
    requires ShowsBuffer(rules, s)
    ensures ShowsBuffer(rules, Cancelled(s)) && ShowsBuffer(rules, Finalized(rules, s, fromList, env.learn))
    ensures ShowsBuffer(rules, CandidateFinalized(rules, s, env.learn))
    ensures ShowsBuffer(rules, NumberSelected(rules, s, code, env.learn))
    ensures ShowsBuffer(rules, ArrowMoved(s, move)) && ShowsBuffer(rules, CompositionConverted(rules, s, env.answer))
  {
    hide ReadingText, DisplayText, ListSet, Notified, Selection, RowSelected, Laid, Turned;
  }

  lemma BackspaceShowsBuffer(rules: seq<Rule>, s: Service)
    requires ValidRules(rules) && WellFormedBuffer(rules, s.buffer) && ShowsBuffer(rules, s)
    ensures ShowsBuffer(rules, CompositionBackspace(rules, s))
  {
    hide ValidRules, WellFormedBuffer, DisplayText, InputShown;
    if s.composing && s.buffer != "" {
      DeleteKeepsShape(rules, s.buffer);
      InputShowsBuffer(rules, s.(buffer := s.buffer[..|s.buffer| - 1]));
    }
  }

  lemma PressShowsBuffer(rules: seq<Rule>, s: Service, key: Key, env: Environment)
    requires ValidRules(rules) && Steady(rules, s) && WellFormedBuffer(rules, s.buffer) && TypesRomaji(key)
    requires ShowsBuffer(rules, s)
    ensures ShowsBuffer(rules, Pressed(rules, s, key, env))
  {
    hide Steady, KeyEaten, CompositionConverted, CompositionInput, Finalized, CandidateFinalized, NumberSelected,
         ArrowMoved, CompositionBackspace, Cancelled, WellFormedBuffer, ValidRules, ShowsBuffer;
    Routed(rules, s, key);
    Modes(rules, s);
    EmptyIsWellFormed(rules);
    var r := KeyEaten(key, s.buffer, s.composing, s.mode);
    OthersShowBuffer(rules, s, key.code, false, r.function_, env);
    OthersShowBuffer(rules, s, key.code, true, MoveDown, env);
    BackspaceShowsBuffer(rules, s);
    InputRouted(key, s.buffer, s.composing, s.mode);
    EndedBuffer(rules, s, key.code, true, env.learn);
    if s.mode == NoCandidates {
      if r.function_.Input? { TypingShowsBuffer(rules, s, key.ch, env.learn); }
    } else if r.function_.FinalizeCandidateListAndInput? {
      CandidateFinalizeSettles(rules, s, env.learn);
      TypingShowsBuffer(rules, CandidateFinalized(rules, s, env.learn), key.ch, env.learn);
    }
  }

  lemma {:induction false} RunShowsBuffer(rules: seq<Rule>, events: seq<Event>)
    requires ValidRules(rules) && forall e :: e in events && e.Press? ==> TypesRomaji(e.key)
    ensures ShowsBuffer(rules, AfterKeys(rules, Idle(), events))
    decreases |events|
  {
    hide Pressed, Repainted, Steady, WellFormedBuffer, ValidRules, TypesRomaji, DisplayText;
    if events != [] {
      var last := events[|events| - 1];
      var before := events[..|events| - 1];
      assert last in events;
      RunShowsBuffer(rules, before);
      RunKeepsShape(rules, before);
      EveryRunIsSteady(rules, before);
      var s := AfterKeys(rules, Idle(), before);
      if last.Press? { PressShowsBuffer(rules, s, last.key, last.env); } else { RepaintKeeps(s); }
    }
  }

  lemma EnterFinalizes(rules: seq<Rule>, s: Service, key: Key, env: Environment)
    requires IsKey(key, VK_RETURN) && s.mode == NoCandidates && s.composing
    ensures Pressed(rules, s, key, env) == Finalized(rules, s, true, env.learn)
  {
    hide Finalized;
    assert KeyEaten(key, s.buffer, s.composing, s.mode) == Routing(true, Composing, FinalizeCandidateList);
  }

  /** After any run of romaji keys, Enter on unconverted kana reports the kana on screen, at most
      thirty characters of them, under the reading the buffer spells; without a syllable finished it
      reports nothing. */
  lemma EnterReportsTheKana(rules: seq<Rule>, events: seq<Event>, key: Key, env: Environment)
    requires ValidRules(rules) && (forall e :: e in events && e.Press? ==> TypesRomaji(e.key)) && IsKey(key, VK_RETURN)
    ensures var s := AfterKeys(rules, Idle(), events);
            var t := Pressed(rules, s, key, env);
            var reading, display := ReadingText(rules, s.buffer), DisplayText(rules, s.buffer);
            s.mode == NoCandidates && s.buffer != "" ==>
              && t.log == (if reading == "" then s.log
                           else s.log +
                                [Commit(reading, display[..if |display| > 30 then 30 else |display|], env.learn)])
              && reading <= display && t.buffer == "" && t.mode == NoCandidates && !t.composing
  {
    hide Pressed, WellFormedBuffer, ValidRules, TypesRomaji, DisplayText, ReadingText, IsKey;
    var s := AfterKeys(rules, Idle(), events);
    EveryRunIsSteady(rules, events);
    RunShowsBuffer(rules, events);
    RunKeepsShape(rules, events);
    ShownAndSent(rules, s.buffer);
    if s.mode == NoCandidates && s.composing { EnterFinalizes(rules, s, key, env); }
    FinalizeSettles(rules, s, true, env.learn);
    assert s.text[..if |s.text| > 30 then 30 else |s.text|] ==
           if |s.text| > PRECEDING_TEXT_MAX then s.text[..PRECEDING_TEXT_MAX] else s.text;
  }
}
