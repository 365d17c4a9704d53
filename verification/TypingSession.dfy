/** From the keyboard to the engine: what typing, converting and committing come to together. */
module TypingSession {
  import opened Wrappers
  import opened RomajiTable
  import opened SyllableTable
  import opened RomajiKana
  import opened CompositionBuffer
  import opened FinalText
  import opened Morae
  import opened CandidatePaging
  import opened KeyRouting
  import opened KeyLaws
  import opened KeyEffects

  /** Keys that type: in the keystroke table, unmodified, with the keyboard open. */
  predicate Types(e: Event) {
    e.Press? && e.key.open && IsInputKey(e.key) && e.key.ch != '\0'
  }

  predicate AllType(events: seq<Event>) {
    forall e :: e in events ==> e.Repaint? || Types(e)
  }

  function Characters(events: seq<Event>): (s: string)
    ensures |s| == Keys(events)
  {
    if events == [] then []
    else
      var last, before := events[|events| - 1], Characters(events[..|events| - 1]);
      if last.Press? then before + [last.key.ch] else before
  }

  lemma TypeOne(rules: seq<Rule>, s: Service, e: Event)
    requires Types(e) && s.mode == NoCandidates
    ensures var t := Next(rules, s, e);
            && t.buffer == BufferAfter(rules, s.buffer, e.key.ch) && t.log == s.log
            && t.mode == NoCandidates && t.composing
  {
    hide BufferAfter, DisplayText, KeyEaten;
    InputRouting(e.key, s.buffer, s.composing);
  }

  /** Typing from nothing fills the buffer as the incremental form says and asks the engine nothing. */
  lemma {:induction false} TypingFillsTheBuffer(rules: seq<Rule>, events: seq<Event>)
    requires AllType(events)
    ensures var s := AfterKeys(rules, Idle(), events);
            && s.buffer == Typed(rules, Characters(events)) && s.log == [] && s.mode == NoCandidates
            && (Characters(events) != "" ==> s.composing)
    decreases |events|
  {
    hide Pressed, Repainted, BufferAfter, Types;
    if events != [] {
      var last, before := events[|events| - 1], events[..|events| - 1];
      assert last in events && forall e :: e in before ==> e in events;
      TypingFillsTheBuffer(rules, before);
      var s := AfterKeys(rules, Idle(), before);
      if last.Repaint? {
        RepaintKeeps(s);
      } else {
        TypeOne(rules, s, last);
        assert Characters(events)[..Keys(before)] == Characters(before);
      }
    }
  }

  /** What is typed and then converted goes to the engine as the whole-string converter reads it exactly
      when that is a reading and no key departs. */
  lemma TypedIsAskedWhole(rules: seq<Rule>, events: seq<Event>, convert: Event)
    requires ValidRules(rules) && SpellsNy(rules) && AllType(events) && Characters(events) != ""
    requires AllAccepted(Characters(events)) && IsPress(convert, VK_SPACE) && convert.env.answer.Some?
    ensures var whole := ReadingOf(Scan(rules, Taken(Characters(events))));
            var s := AfterKeys(rules, Idle(), events);
            && s.composing && s.mode == NoCandidates
            && (ReadingText(rules, s.buffer) == whole <==> !Departed(Taken(Characters(events))))
            && (Next(rules, s, convert).log == [Convert(whole)]
                <==> whole != "" && !Departed(Taken(Characters(events))))
  {
    hide Pressed, ValidRules, SpellsNy, Scan, Taken, ReadingText, ReadingOf, Departed, AllType, IsKey, AfterKeys;
    var keys := Characters(events);
    TypingFillsTheBuffer(rules, events);
    FinalReadingAgrees(rules, keys);
    NothingReadsEmpty(rules);
    var s := AfterKeys(rules, Idle(), events);
    SpaceAsks(rules, s, convert.key, convert.env);
    var asked := [Convert(ReadingText(rules, s.buffer))];
    assert s.log + asked == asked;
    assert asked[0].reading == ReadingText(rules, s.buffer);
  }

  lemma NothingReadsEmpty(rules: seq<Rule>)
    ensures ReadingText(rules, "") == ""
  {
    assert Taken("") == "" && Scan(rules, "") == RomajiKana.Converted("", "");
  }

  lemma KanaOfSomething(rules: seq<Rule>, morae: seq<Mora>)
    requires ValidRules(rules) && AllPronounceable(rules, morae) && morae != []
    ensures KanaAll(rules, morae) != ""
  {
    var m := morae[0];
    assert Pronounceable(rules, m);
    if m.Syllable? {
      LookupFinds(rules, m.spelling);
      assert WellFormed(Rule(m.spelling, Lookup(rules, m.spelling).value));
    }
  }

  /** Spell some morae, press the conversion key, press it k times more, press Enter, with the window
      painted at any time: the engine is asked for exactly those kana and told exactly the candidate k
      places down, or the last. */
  lemma SpellConvertCommit(rules: seq<Rule>, morae: seq<Mora>, events: seq<Event>, convert: Event,
                           spaces: seq<Event>, enter: Event)
    requires ValidRules(rules) && AllPronounceable(rules, morae) && morae != []
    requires AllType(events) && Characters(events) == SpellAll(morae)
    requires IsPress(convert, VK_SPACE) && IsPress(enter, VK_RETURN)
    requires forall e :: e in spaces ==> e.Repaint? || IsPress(e, VK_SPACE)
    requires convert.env.answer.Some? && convert.env.answer.value != []
    requires forall text :: text in convert.env.answer.value ==> text != ""
    ensures var kana, texts := KanaAll(rules, morae), convert.env.answer.value;
            var typed := AfterKeys(rules, Idle(), events);
            var walked := AfterKeys(rules, Next(rules, typed, convert), spaces);
            && typed.buffer == kana
            && Next(rules, walked, enter).log
               == [Convert(kana), Commit(kana, texts[Lesser(Keys(spaces), |texts| - 1)], enter.env.learn)]
  {
    hide Next, ValidRules, ReadingText, AllType, IsKey, AfterKeys, AllPronounceable;
    var typed := AfterKeys(rules, Idle(), events);
    SpelledReads(rules, morae);
    KanaOfSomething(rules, morae);
    TypedMoraeReadBack(rules, morae);
    TypingFillsTheBuffer(rules, events);
    assert Typed(rules, Characters(events)) != "" && Characters(events) != "";
    WalkThenCommit(rules, typed, convert, spaces, enter);
  }

  /** Spell some morae, convert, press the conversion key k times more and then a letter: the engine is
      asked for the kana and told the candidate k places down, or the last, and the letter begins the next
      composition. */
  lemma SpellConvertType(rules: seq<Rule>, morae: seq<Mora>, events: seq<Event>, convert: Event,
                         spaces: seq<Event>, next: Event)
    requires ValidRules(rules) && AllPronounceable(rules, morae) && morae != []
    requires AllType(events) && Characters(events) == SpellAll(morae)
    requires IsPress(convert, VK_SPACE) && next.Press? && Letter(next.key) && next.key.ch != '\0'
    requires forall e :: e in spaces ==> e.Repaint? || IsPress(e, VK_SPACE)
    requires convert.env.answer.Some? && convert.env.answer.value != []
    requires forall text :: text in convert.env.answer.value ==> text != ""
    ensures var kana, texts := KanaAll(rules, morae), convert.env.answer.value;
            var run := events + [convert] + spaces + [next];
            var end := AfterKeys(rules, Idle(), run);
            && end.log == [Convert(kana), Commit(kana, texts[Lesser(Keys(spaces), |texts| - 1)], next.env.learn)]
            && end.buffer == BufferAfter(rules, "", next.key.ch) && end.composing && end.mode == NoCandidates
  {
    hide Next, ValidRules, ReadingText, AllType, AfterKeys, AllPronounceable, Steady, BufferAfter, DisplayText,
         Letter, KanaAll, SpellAll, Selection;
    var run := events + [convert] + spaces;
    TypedAndWalked(rules, morae, events, convert, spaces);
    OverAList(rules, AfterKeys(rules, Idle(), run), next);
    LastEvent(rules, Idle(), run, next);
  }

  lemma OverAList(rules: seq<Rule>, s: Service, next: Event)
    requires Steady(rules, s) && s.mode == Original && Selection(s) != ""
    requires next.Press? && Letter(next.key) && next.key.ch != '\0'
    ensures var t := Next(rules, s, next);
            && t.log == s.log + [Commit(ReadingText(rules, s.buffer), Selection(s), next.env.learn)]
            && t.buffer == BufferAfter(rules, "", next.key.ch) && t.composing && t.mode == NoCandidates
  {
    hide Pressed, Steady, ReadingText, BufferAfter, DisplayText, Letter, Selection;
    LetterOverAList(rules, s, next.key, next.env);
  }

  /** Spelled, converted and walked through, the list has the candidate selected that many places down. */
  lemma TypedAndWalked(rules: seq<Rule>, morae: seq<Mora>, events: seq<Event>, convert: Event, spaces: seq<Event>)
    requires ValidRules(rules) && AllPronounceable(rules, morae) && morae != []
    requires AllType(events) && Characters(events) == SpellAll(morae)
    requires IsPress(convert, VK_SPACE) && convert.env.answer.Some? && convert.env.answer.value != []
    requires forall e :: e in spaces ==> e.Repaint? || IsPress(e, VK_SPACE)
    requires forall text :: text in convert.env.answer.value ==> text != ""
    ensures var texts, s := convert.env.answer.value, AfterKeys(rules, Idle(), events + [convert] + spaces);
            && Steady(rules, s) && s.mode == Original && s.log == [Convert(KanaAll(rules, morae))]
            && ReadingText(rules, s.buffer) == KanaAll(rules, morae)
            && Selection(s) == texts[Lesser(Keys(spaces), |texts| - 1)] != ""
  {
    hide Pressed, ValidRules, ReadingText, AllType, IsKey, AfterKeys, AllPronounceable, ListSet, Steady, KanaAll;
    var texts := convert.env.answer.value;
    var listed := Next(rules, AfterKeys(rules, Idle(), events), convert);
    TypedAndListed(rules, morae, events, convert);
    ListSetFields(texts);
    SpacesWalk(rules, listed, spaces);
    assert Selection(AfterKeys(rules, listed, spaces)) in texts;
    LastEvent(rules, Idle(), events, convert);
    AfterConcat(rules, Idle(), events + [convert], spaces);
    EveryRunIsSteady(rules, events + [convert] + spaces);
    LastQuestion(rules, AfterKeys(rules, Idle(), events + [convert] + spaces));
  }

  /** The buffer of spelled morae reads as their kana. */
  lemma SpelledReads(rules: seq<Rule>, morae: seq<Mora>)
    requires ValidRules(rules) && AllPronounceable(rules, morae)
    ensures ReadingText(rules, KanaAll(rules, morae)) == KanaAll(rules, morae)
  {
    hide ValidRules, Scan, Taken, ReadingText, NoBreak, Pronounceable, AllPronounceable;
    var keys := SpellAll(morae);
    SpelledIsPlain(rules, morae);
    PlainIsTaken(keys);
    UnambiguousKeys(keys);
    InStepReadsAlike(rules, keys);
    TypedMoraeReadBack(rules, morae);
    SpelledMoraeReadBack(rules, morae);
  }

  // ---- A digit beside an empty row ----

  lemma TypedAndListed(rules: seq<Rule>, morae: seq<Mora>, events: seq<Event>, convert: Event)
    requires ValidRules(rules) && AllPronounceable(rules, morae) && morae != []
    requires AllType(events) && Characters(events) == SpellAll(morae)
    requires IsPress(convert, VK_SPACE) && convert.env.answer.Some? && convert.env.answer.value != []
    ensures var listed := Next(rules, AfterKeys(rules, Idle(), events), convert);
            && Steady(rules, listed) && listed.mode == Original && listed.log == [Convert(KanaAll(rules, morae))]
            && listed.presenter == Live(ListSet(EMPTY_WINDOW, convert.env.answer.value))
  {
    hide Pressed, ValidRules, ReadingText, AllType, IsKey, AfterKeys, Steady, AllPronounceable, ListSet;
    SpelledReads(rules, morae);
    KanaOfSomething(rules, morae);
    TypedMoraeReadBack(rules, morae);
    TypingFillsTheBuffer(rules, events);
    assert Typed(rules, Characters(events)) != "" && Characters(events) != "";
    var typed := AfterKeys(rules, Idle(), events);
    EveryRunIsSteady(rules, events);
    SpaceConverts(rules, typed, convert.key, convert.env);
    PressSettles(rules, typed, convert.key, convert.env);
  }

  /** Page Down from the first of two pages, the second of them short: painting keeps both pages as
      they are. */
  lemma SecondPage(texts: seq<string>)
    requires ROWS < |texts| < 2 * ROWS
    ensures var w := ListSet(EMPTY_WINDOW, texts);
            var v := PageMoved(w, 1);
            && Showing(w) && Turned(w, MovePageDown) == v && Showing(v) && v.items == texts && v.selection == ROWS
            && Painted(w) == w && Painted(v) == v && v.pages[CurrentPage(v.pages, v.selection)] == ROWS
  {
    hide PagesAround;
    ListSetShows(EMPTY_WINDOW, texts);
    var w := ListSet(EMPTY_WINDOW, texts);
    assert |texts| / ROWS == 1 && |w.pages| == 2 && w.pages[0] == 0 && w.pages[1] == ROWS;
    assert CurrentPage(w.pages, 0) == 0 && CurrentPage(w.pages, ROWS) == 1;
  }

  /** Spell some morae, convert, turn to a short second page, press a digit that names one of its empty
      rows, press Enter: the engine hears the question and nothing more. Painting the list before and
      after the page is turned changes nothing. */
  lemma MissedDigitIsReached(rules: seq<Rule>, morae: seq<Mora>, events: seq<Event>, convert: Event,
                             down: Event, digit: Event, paints: seq<Event>, enter: Event)
    requires ValidRules(rules) && AllPronounceable(rules, morae) && morae != []
    requires AllType(events) && Characters(events) == SpellAll(morae)
    requires IsPress(convert, VK_SPACE) && convert.env.answer.Some?
    requires IsPress(down, VK_NEXT) && digit.Press? && IsDigit(digit.key) && IsPress(enter, VK_RETURN)
    requires forall e :: e in paints ==> e.Repaint?
    requires ROWS < |convert.env.answer.value| <= ROWS + RowOf(digit.key.code)
    ensures var kana, texts := KanaAll(rules, morae), convert.env.answer.value;
            var listed := Next(rules, AfterKeys(rules, Idle(), events), convert);
            var paged := Next(rules, listed, down);
            && Repainted(listed) == listed && Repainted(paged) == paged
            && paged.presenter.Live? && Showing(paged.presenter.window) && paged.presenter.window.items == texts
            && Misses(paged.presenter.window, SelectRow(RowOf(digit.key.code)))
            && var missed := Next(rules, paged, digit);
               && missed.mode == Original && missed.log == [Convert(kana)] && Selection(missed) == ""
               && var end := Next(rules, AfterKeys(rules, missed, paints), enter);
                  end.log == [Convert(kana)] && end.mode == NoCandidates && end.buffer == ""
  {
    hide Pressed, ValidRules, AllType, AfterKeys, Steady, AllPronounceable, ListSet, Painted, PageMoved, Turned,
         Laid, CurrentPage, SpellAll, KanaAll, Selection;
    var listed := Next(rules, AfterKeys(rules, Idle(), events), convert);
    TypedAndListed(rules, morae, events, convert);
    SecondPage(convert.env.answer.value);
    PageDownTurns(rules, listed, down.key, down.env);
    PressSettles(rules, listed, down.key, down.env);
    MissedDigitLosesTheChoice(rules, Next(rules, listed, down), digit, paints, enter);
  }

  lemma PageDownTurns(rules: seq<Rule>, s: Service, key: Key, env: Environment)
    requires IsKey(key, VK_NEXT) && s.mode == Original && s.presenter.Live?
    ensures Pressed(rules, s, key, env) == s.(presenter := Live(Turned(s.presenter.window, MovePageDown)))
  {
    hide Turned;
    ListKeyRouted(key, s.buffer, s.composing);
  }

  /** An ordinary key: the keyboard open, no modifier, no punctuation. */
  function PlainKey(code: nat, ch: char): Key {
    KeyRouting.Key.Key(code, ch, false, true, false, false)
  }

  /** The a key, the conversion key with twelve answers, Page Down, 6 and Enter, the list painted after
      each. */
  function TwelveAndSix(texts: seq<string>): seq<Event> {
    var silent := Environment(None, true);
    [Press(PlainKey(0x41, 'a'), silent), Press(PlainKey(VK_SPACE, ' '), Environment(Some(texts), true)), Repaint,
     Press(PlainKey(VK_NEXT, '\0'), silent), Repaint, Press(PlainKey(0x36, '6'), silent), Repaint,
     Press(PlainKey(VK_RETURN, '\r'), silent)]
  }

  /** With the shipped table, 6 beside the empty sixth row of the second page: あ was asked about,
      twelve candidates came, and no commit was told. */
  lemma TwelveAndSixCommitsNothing(texts: seq<string>)
    requires |texts| == 12
    ensures var end := AfterKeys(Rules(), Idle(), TwelveAndSix(texts));
            end.log == [Convert("あ")] && end.mode == NoCandidates && end.buffer == ""
  {
    hide Rules, Lookup, Pressed, Repainted, ValidRules, AfterKeys;
    RulesAreValid();
    ExamplesAreFound();
    var e, morae := TwelveAndSix(texts), [Syllable("a")];
    var start := [e[0]];
    assert morae[1..] == [] && start[..0] == [];
    assert AllPronounceable(Rules(), morae);
    assert SpellAll(morae) == "a" && Characters(start) == "a" by { assert "a" + "" == "a" && [] + ['a'] == "a"; }
    assert KanaAll(Rules(), morae) == "あ";
    MissedDigitIsReached(Rules(), morae, start, e[1], e[3], e[5], [e[6]], e[7]);
    LastEvent(Rules(), Idle(), start, e[1]);
    LastEvent(Rules(), Idle(), start + [e[1]], e[2]);
    LastEvent(Rules(), Idle(), start + [e[1]] + [e[2]], e[3]);
    LastEvent(Rules(), Idle(), start + [e[1]] + [e[2]] + [e[3]], e[4]);
    LastEvent(Rules(), Idle(), start + [e[1]] + [e[2]] + [e[3]] + [e[4]], e[5]);
    var missed := start + [e[1]] + [e[2]] + [e[3]] + [e[4]] + [e[5]];
    LastEvent(Rules(), Idle(), missed, e[6]);
    LastEvent(Rules(), Idle(), missed + [e[6]], e[7]);
    OneEvent(Rules(), AfterKeys(Rules(), Idle(), missed), e[6]);
    assert missed + [e[6]] + [e[7]] == e;
  }

  lemma LastEvent(rules: seq<Rule>, s: Service, events: seq<Event>, e: Event)
    ensures AfterKeys(rules, s, events + [e]) == Next(rules, AfterKeys(rules, s, events), e)
  {
    hide Next;
    assert (events + [e])[..|events|] == events;
  }

  lemma OneEvent(rules: seq<Rule>, s: Service, e: Event)
    ensures AfterKeys(rules, s, [e]) == Next(rules, s, e)
  {
    hide Next;
    assert [e][..0] == [];
  }

  lemma {:induction false} AfterConcat(rules: seq<Rule>, s: Service, a: seq<Event>, b: seq<Event>)
    ensures AfterKeys(rules, s, a + b) == AfterKeys(rules, AfterKeys(rules, s, a), b)
    decreases |b|
  {
    hide Next;
    if b == [] {
      assert a + b == a;
    } else {
      AfterConcat(rules, s, a, b[..|b| - 1]);
      assert (a + b)[..|a + b| - 1] == a + b[..|b| - 1];
    }
  }

  lemma LastQuestion(rules: seq<Rule>, s: Service)
    requires Steady(rules, s) && s.mode == Original
    ensures s.log != [] && s.log[|s.log| - 1] == Convert(ReadingText(rules, s.buffer))
  {
  }
}
