/** What each key comes to, by its code, in the two modes that are reached. */
module KeyEffects {
  import opened Wrappers
  import opened RomajiTable
  import opened RomajiKana
  import opened CompositionBuffer
  import opened CandidatePaging
  import opened KeyRouting
  import opened KeyLaws

  /** The letters A to Z and the minus key, with no modifier. */
  predicate Letter(key: Key) {
    key.open && !key.modified && (0x41 <= key.code <= 0x5A || key.code == 0xBD)
  }

  /** With the keyboard closed no key does anything. */
  lemma ClosedDoesNothing(rules: seq<Rule>, s: Service, key: Key, env: Environment)
    requires !key.open
    ensures Pressed(rules, s, key, env) == s
  {
  }

  // ---- With no list up ----

  /** A letter goes into the buffer, beginning a composition if there is none, and the composition then
      reads what the buffer displays. The engine hears nothing. */
  lemma LetterTypes(rules: seq<Rule>, s: Service, key: Key, env: Environment)
    requires ValidRules(rules) && Steady(rules, s) && s.mode == NoCandidates && WellFormedBuffer(rules, s.buffer)
    requires Letter(key) && IsAccepted(key.ch) && key.ch != '\0'
    ensures var t, buffer := Pressed(rules, s, key, env), BufferAfter(rules, s.buffer, key.ch);
            && t.buffer == buffer && (buffer != "" ==> t.text == DisplayText(rules, buffer)) && t.log == s.log
            && t.composing && t.mode == NoCandidates && t.started == s.started + if s.composing then 0 else 1
  {
    hide ValidRules, WellFormedBuffer, Commits, ReadingText, DisplayText, BufferAfter, KeyEaten;
    InputRouting(key, s.buffer, s.composing);
    KeyKeepsShape(rules, s.buffer, key.ch);
    ShownAndSent(rules, BufferAfter(rules, s.buffer, key.ch));
  }

  /** Backspace takes the last character of the buffer, and the composition with it when it was the only
      one. */
  lemma BackspaceShortens(rules: seq<Rule>, s: Service, key: Key, env: Environment)
    requires ValidRules(rules) && Steady(rules, s) && s.mode == NoCandidates && WellFormedBuffer(rules, s.buffer)
    requires IsKey(key, 0x08) && s.buffer != ""
    ensures var t, shorter := Pressed(rules, s, key, env), s.buffer[..|s.buffer| - 1];
            && t.buffer == shorter && t.log == s.log && t.mode == NoCandidates && t.started == s.started
            && t.text == (if shorter == "" then "" else DisplayText(rules, shorter))
            && (t.composing <==> shorter != "")
  {
    hide ValidRules, WellFormedBuffer, Commits, ReadingText, DisplayText;
    assert KeyEaten(key, s.buffer, s.composing, s.mode) == Routing(true, Composing, Backspace);
    DeleteKeepsShape(rules, s.buffer);
    ShownAndSent(rules, s.buffer[..|s.buffer| - 1]);
  }

  /** Escape takes everything typed away, text and all, unreported. */
  lemma EscapeClears(rules: seq<Rule>, s: Service, key: Key, env: Environment)
    requires Steady(rules, s) && s.composing && IsKey(key, 0x1B)
    ensures var t := Pressed(rules, s, key, env);
            && t.buffer == "" && t.text == "" && !t.composing && t.mode == NoCandidates
            && t.log == s.log && t.started == s.started
  {
    hide Commits, ReadingText, Paged;
    if s.mode == NoCandidates {
      assert KeyEaten(key, s.buffer, s.composing, s.mode) == Routing(true, Composing, Cancel);
    } else {
      assert KeyEaten(key, s.buffer, s.composing, s.mode) == Routing(true, Candidate, Cancel);
    }
  }

  /** Left, Right, Up, Down, Page Up, Page Down, Home and End leave a composition alone. */
  lemma CursorKeysKeep(rules: seq<Rule>, s: Service, key: Key, env: Environment)
    requires Steady(rules, s) && s.mode == NoCandidates && s.composing
    requires key.open && key.code in {0x25, 0x27, 0x26, 0x28, 0x21, 0x22, 0x24, 0x23} && !IsWildcardChar(key.ch)
    ensures var t := Pressed(rules, s, key, env);
            t == s.(strays := t.strays) && (s.presenter.Never? ==> t == s)
  {
    hide Commits, ReadingText, Paged, KeyEaten, Turned, Answered;
    CursorRouted(key, s.buffer);
  }

  lemma CursorRouted(key: Key, buffer: string)
    requires key.open && key.code in {0x25, 0x27, 0x26, 0x28, 0x21, 0x22, 0x24, 0x23} && !IsWildcardChar(key.ch)
    ensures var r := KeyEaten(key, buffer, true, NoCandidates);
            r.eaten && r.category == Composing && IsMove(r.function_)
  {
  }

  /** Enter reports the kana shown, at most thirty characters, under their reading, and ends the
      composition; without a reading it reports nothing. */
  lemma EnterEnds(rules: seq<Rule>, s: Service, key: Key, env: Environment)
    requires Steady(rules, s) && s.mode == NoCandidates && s.composing && IsKey(key, 0x0D)
    ensures Ends(rules, s, Pressed(rules, s, key, env), env.learn)
  {
    hide Commits, ReadingText;
    EnterFinalizes(rules, s, key, env);
    FinalizedEnds(rules, s, true, env.learn);
  }

  lemma FinalizedEnds(rules: seq<Rule>, s: Service, fromList: bool, learn: bool)
    requires Steady(rules, s) && s.composing && (fromList ==> s.mode == NoCandidates)
    ensures Ends(rules, s, Finalized(rules, s, fromList, learn), learn)
  {
    hide Commits, ReadingText;
    assert s.text[..if |s.text| > 30 then 30 else |s.text|] == if |s.text| > 30 then s.text[..30] else s.text;
  }

  ghost predicate Ends(rules: seq<Rule>, s: Service, t: Service, learn: bool) {
    var shown, reading := s.text[..if |s.text| > 30 then 30 else |s.text|], ReadingText(rules, s.buffer);
    && t.log == (if shown == "" || s.buffer == "" || reading == "" then s.log
                 else s.log + [Commit(reading, shown, learn)])
    && t.buffer == "" && t.text == "" && !t.composing && t.mode == NoCandidates && t.started == s.started
  }

  /** A key for none of this that types a character, a digit or a letter with a modifier, say, ends the
      composition as Enter does, list or no list, and goes on to the document. */
  lemma OtherCharactersEnd(rules: seq<Rule>, s: Service, key: Key, env: Environment)
    requires Steady(rules, s) && s.composing && key.open && key.ch != '\0' && !IsWildcardChar(key.ch)
    requires !Letter(key) && key.code !in {0x08, 0x0D, 0x1B, 0x20, 0x21, 0x22, 0x23, 0x24, 0x25, 0x26, 0x27, 0x28}
    requires if s.mode == NoCandidates then !key.punctuation && !key.wide
             else !(0x30 <= key.code <= 0x39) && !(0x60 <= key.code <= 0x69)
    ensures Ends(rules, s, Pressed(rules, s, key, env), env.learn)
    ensures !KeyEaten(key, s.buffer, s.composing, s.mode).eaten
  {
    hide Commits, ReadingText, Paged;
    assert KeyEaten(key, s.buffer, s.composing, s.mode) == Routing(false, InvokeSession, FinalizeTextStore);
    FinalizedEnds(rules, s, false, env.learn);
  }

  /** Punctuation, and a character with a wide form, take the composition away unreported. */
  lemma PunctuationClears(rules: seq<Rule>, s: Service, key: Key, env: Environment)
    requires Steady(rules, s) && s.mode == NoCandidates && key.open && !IsWildcardChar(key.ch)
    requires !Letter(key) && key.code !in {0x08, 0x0D, 0x1B, 0x20, 0x21, 0x22, 0x23, 0x24, 0x25, 0x26, 0x27, 0x28}
    requires key.punctuation || key.wide
    ensures var t := Pressed(rules, s, key, env);
            t.buffer == "" && t.text == "" && !t.composing && t.mode == NoCandidates && t.log == s.log
  {
    hide Commits, ReadingText, Paged;
  }

  /** Without a composition, Enter, Space, Backspace, Escape and the cursor keys find nothing to do. */
  lemma NothingToDo(rules: seq<Rule>, s: Service, key: Key, env: Environment)
    requires Steady(rules, s) && s.mode == NoCandidates && !s.composing && key.open && !IsWildcardChar(key.ch)
    requires key.code in {0x08, 0x0D, 0x1B, 0x20, 0x21, 0x22, 0x23, 0x24, 0x25, 0x26, 0x27, 0x28}
    requires !key.punctuation && !key.wide
    ensures var t := Pressed(rules, s, key, env);
            t.buffer == "" && !t.composing && t.mode == NoCandidates && t.log == s.log && t.started == s.started
  {
    hide Commits, ReadingText, Paged;
  }

  /** Space asks about the reading. Without an answer, or with an empty one, nothing else happens. */
  lemma SpaceWithoutAnswer(rules: seq<Rule>, s: Service, key: Key, env: Environment)
    requires Steady(rules, s) && s.mode == NoCandidates && s.composing && IsKey(key, 0x20)
    requires env.answer.None? || env.answer.value == []
    ensures var t := Pressed(rules, s, key, env);
            && t == s.(log := t.log)
            && t.log == if env.answer.None? || s.buffer == "" || ReadingText(rules, s.buffer) == "" then s.log
                        else s.log + [Convert(ReadingText(rules, s.buffer))]
  {
    hide Commits, ReadingText, Paged;
    assert KeyEaten(key, s.buffer, s.composing, s.mode) == Routing(true, Composing, ConvertReading);
  }

  /** With an answer, all of it is listed, the first candidate selected. */
  lemma SpaceLists(rules: seq<Rule>, s: Service, key: Key, env: Environment)
    requires s.mode == NoCandidates && s.composing && s.buffer != "" && ReadingText(rules, s.buffer) != ""
    requires IsKey(key, 0x20) && env.answer.Some? && env.answer.value != []
    ensures var t := Pressed(rules, s, key, env);
            && t.log == s.log + [Convert(ReadingText(rules, s.buffer))] && t.buffer == s.buffer
            && t.mode == Original && t.presenter.Live? && Showing(t.presenter.window)
            && t.presenter.window.items == env.answer.value && t.presenter.window.selection == 0
            && t.presenter.window.pageSize == 10 && Selection(t) == env.answer.value[0]
  {
    hide ReadingText, ListSet, Paged;
    SpaceConverts(rules, s, key, env);
    ListSetShows(EMPTY_WINDOW, env.answer.value);
    ListSetFields(env.answer.value);
  }

  // ---- With a list up ----

  /** A letter takes the selected candidate first: it is reported, and the letter begins the next
      composition. */
  lemma LetterOverAList(rules: seq<Rule>, s: Service, key: Key, env: Environment)
    requires Steady(rules, s) && s.mode == Original && Letter(key) && Selection(s) != ""
    ensures var t := Pressed(rules, s, key, env);
            && t.log == s.log + [Commit(ReadingText(rules, s.buffer), Selection(s), env.learn)]
            && t.buffer == (if key.ch == '\0' then "" else BufferAfter(rules, "", key.ch))
            && t.text == (if t.buffer == "" then "" else DisplayText(rules, t.buffer))
            && t.started == s.started + 1 && t.composing && t.mode == NoCandidates
  {
    hide Commits, ReadingText, DisplayText, BufferAfter, KeyEaten, Paged;
    InputRouting(key, s.buffer, s.composing);
  }

  /** Enter takes the selected candidate: it is what the document shows and what the engine is told. */
  lemma EnterChooses(rules: seq<Rule>, s: Service, key: Key, env: Environment)
    requires Steady(rules, s) && s.mode == Original && IsKey(key, 0x0D) && Selection(s) != ""
    ensures var t := Pressed(rules, s, key, env);
            && t.log == s.log + [Commit(ReadingText(rules, s.buffer), Selection(s), env.learn)]
            && t.text == Selection(s) && t.mode == NoCandidates && t.buffer == "" && !t.composing
            && t.started == s.started
  {
    hide Commits, ReadingText, Paged;
    EnterCommits(rules, s, key, env);
    EnterCompletes(rules, s, key, env);
  }

  /** Space, Down and Up move the selection by one, Home and End to the ends; nothing is reported. */
  lemma LineKeysMove(rules: seq<Rule>, s: Service, key: Key, env: Environment)
    requires Steady(rules, s) && s.mode == Original && Showing(s.presenter.window) && !IsWildcardChar(key.ch)
    requires key.open && key.code in {0x20, 0x26, 0x28, 0x24, 0x23}
    ensures var t, w := Pressed(rules, s, key, env), s.presenter.window;
            && t.presenter.Live? && t == s.(presenter := t.presenter)
            && t.presenter.window.items == w.items && Showing(t.presenter.window)
            && t.presenter.window.selection ==
               (if key.code in {0x20, 0x28} then Lesser(w.selection + 1, |w.items| - 1)
                else if key.code == 0x26 then (if w.selection == 0 then 0 else w.selection - 1)
                else if key.code == 0x24 then 0 else |w.items| - 1)
  {
    hide Commits, ReadingText, Paged, Pressed;
    if key.code == 0x20 {
      SpaceMovesDown(rules, s, key, env);
    } else {
      ListKeysMove(rules, s, s.presenter.window, key, env);
    }
  }

  /** Page Down and Page Up go to the page after or before, if there is one, keeping the row, or stopping
      at the last item; nothing is reported. */
  lemma PageKeysTurn(rules: seq<Rule>, s: Service, key: Key, env: Environment)
    requires Steady(rules, s) && s.mode == Original && Showing(s.presenter.window)
    requires key.open && key.code in {0x21, 0x22}
    ensures var t, w := Pressed(rules, s, key, env), s.presenter.window;
            var page := CurrentPage(w.pages, w.selection);
            && t.presenter.Live? && t == s.(presenter := t.presenter) && w.pages[page] <= w.selection
            && t.presenter.window.items == w.items && Showing(t.presenter.window)
            && var row := w.selection - w.pages[page];
               t.presenter.window.selection ==
               (if key.code == 0x22 then
                  if page + 1 == |w.pages| then w.selection else Lesser(w.pages[page + 1] + row, |w.items| - 1)
                else if page == 0 then w.selection else w.pages[page - 1] + row)
  {
    hide Commits, ReadingText, Paged, Pressed;
    PagesNonempty(s.presenter.window);
    PageHoldsSelection(s.presenter.window);
    ListKeysMove(rules, s, s.presenter.window, key, env);
  }
}
