/** The composition engine's keystroke buffer and the text service's handlers, as they update their
    fields. Each handler is proved to do what the routing model says. */
module TextServices {
  import opened Wrappers
  import opened MachineIntegers
  import opened RomajiTable
  import opened CompositionBuffer
  import opened CandidatePaging
  import opened CandidateWindows
  import opened KeyRouting

  class CompositionProcessorEngine {
    const rules: seq<Rule>
    var keystrokes: array<char>
    var length: nat
    /** What has been sent to the engine process. */
    var log: seq<Message>

    ghost predicate Valid()
      reads this
    {
      length <= keystrokes.Length
    }

    ghost function Buffer(): string
      requires Valid()
      reads this, keystrokes
    {
      keystrokes[..length]
    }

    constructor (rules: seq<Rule>)
      ensures Valid() && fresh(keystrokes) && Buffer() == "" && log == [] && this.rules == rules
    {
      this.rules := rules;
      keystrokes, length, log := new char[0], 0, [];
    }

    method AddVirtualKey(ch: char) returns (ok: bool)
      requires Valid()
      modifies this
      ensures Valid() && log == old(log) && (keystrokes == old(keystrokes) || fresh(keystrokes))
      ensures ok <==> ch != '\0'
      ensures Buffer() == if ok then BufferAfter(rules, old(Buffer()), ch) else old(Buffer())
    {
      if ch == '\0' { return false; }
      var before := keystrokes[..length];
      var after := BufferAfterKeystroke(rules, before, ch);
      keystrokes := new char[|after|](i requires 0 <= i < |after| => after[i]);
      length := |after|;
      assert keystrokes[..length] == after;
      ok := true;
    }

    /** Deletes in place; an index past the last character deletes the last. */
    method RemoveVirtualKey(index: nat)
      requires Valid() && length > 0
      modifies this, keystrokes
      ensures Valid() && log == old(log) && keystrokes == old(keystrokes)
      ensures Buffer() == if index + 1 < old(length) then old(Buffer()[..index] + Buffer()[index + 1..])
                          else old(Buffer()[..length - 1])
    {
      if index + 1 < length {
        var i := index;
        while i + 1 < length
          invariant index <= i < length <= keystrokes.Length
          invariant forall k :: index <= k < i ==> keystrokes[k] == old(keystrokes[k + 1])
          invariant forall k :: 0 <= k < keystrokes.Length && !(index <= k < i) ==> keystrokes[k] == old(keystrokes[k])
          modifies keystrokes
        {
          keystrokes[i] := keystrokes[i + 1];
          i := i + 1;
        }
      }
      length := length - 1;
    }

    method PurgeVirtualKey()
      modifies this
      ensures Valid() && Buffer() == "" && log == old(log) && keystrokes == old(keystrokes)
    {
      length := 0;
    }

    method GetReadingString() returns (display: string)
      requires Valid()
      ensures display == if Buffer() == "" then "" else DisplayText(rules, Buffer())
    {
      if length == 0 { return ""; }
      display := BufferDisplay(rules, keystrokes[..length]);
    }

    method GetCandidateList(answer: Option<seq<string>>) returns (texts: seq<string>)
      requires Valid()
      modifies this`log
      ensures log == if answer.None? || Buffer() == "" || ReadingText(rules, Buffer()) == "" then old(log)
                     else old(log) + [Convert(ReadingText(rules, Buffer()))]
      ensures texts == if answer.None? || Buffer() == "" || ReadingText(rules, Buffer()) == "" then []
                       else answer.value
    {
      if answer.None? { return []; }
      if length == 0 { return []; }
      var reading := BufferReading(rules, keystrokes[..length]);
      if reading == "" { return []; }
      log := log + [Convert(reading)];
      texts := answer.value;
    }

    method NotifyCommitted(text: string, learn: bool)
      requires Valid()
      modifies this`log
      ensures log == if text == "" || Buffer() == "" || ReadingText(rules, Buffer()) == "" then old(log)
                     else old(log) + [Commit(ReadingText(rules, Buffer()), text, learn)]
    {
      if text == "" || length == 0 { return; }
      var reading := BufferReading(rules, keystrokes[..length]);
      if reading == "" { return; }
      log := log + [Commit(reading, text, learn)];
    }
  }

  class TextService {
    const engine: CompositionProcessorEngine
    var mode: Mode
    var hasPresenter: bool
    var window: CandidateWindow?
    var composing: bool
    var text: string
    var started: nat
    var strays: nat

    ghost function Repr(): set<object>
      reads this, engine
    {
      if window == null then {this, engine, engine.keystrokes}
      else
        var shown: CandidateWindow := window;
        {this, engine, engine.keystrokes, shown}
    }

    ghost predicate Valid()
      reads this, engine, if window == null then {} else {window}
    {
      && engine.Valid()
      && (window != null ==> hasPresenter && window.Valid() && window.pageSize == ROWS)
    }

    ghost function View(): Service
      requires Valid()
      reads this, engine, engine.keystrokes, if window == null then {} else {window}
    {
      Service(engine.Buffer(), mode,
              if !hasPresenter then Never else if window == null then Ended else Live(window.View()),
              composing, text, engine.log, started, strays)
    }

    constructor (rules: seq<Rule>)
      ensures Valid() && View() == Idle() && engine.rules == rules && fresh(Repr())
    {
      engine := new CompositionProcessorEngine(rules);
      mode, hasPresenter, window, composing := NoCandidates, false, null, false;
      text, started, strays := "", 0, 0;
    }

    method DeleteCandidateList()
      requires Valid()
      modifies this, engine
      ensures Valid() && fresh(Repr() - old(Repr())) && View() == ListDeleted(old(View()))
      ensures window == null || window == old(window)
    {
      engine.PurgeVirtualKey();
      if hasPresenter {
        window := null;
        mode := NoCandidates;
      }
    }

    method HandleComplete()
      requires Valid()
      modifies this, engine
      ensures Valid() && fresh(Repr() - old(Repr())) && View() == Completed(old(View()))
      ensures window == null || window == old(window)
    {
      DeleteCandidateList();
      composing := false;
    }

    method HandleCancel()
      requires Valid()
      modifies this, engine
      ensures Valid() && fresh(Repr() - old(Repr())) && View() == Cancelled(old(View()))
      ensures window == null || window == old(window)
    {
      text := "";
      DeleteCandidateList();
      composing := false;
    }

    method GetSelectedCandidateString() returns (candidate: string)
      requires Valid()
      ensures candidate == Selection(View())
    {
      if window == null { return ""; }
      var selected := window.GetSelectedCandidateString();
      candidate := if selected.Some? then selected.value else "";
    }

    method Notify(committed: string, learn: bool)
      requires Valid()
      modifies engine`log
      ensures Valid() && Repr() == old(Repr()) && View() == Notified(engine.rules, old(View()), committed, learn)
    {
      hide ReadingText;
      engine.NotifyCommitted(committed, learn);
    }

    lemma NothingToNotify(rules: seq<Rule>, s: Service, learn: bool)
      ensures Notified(rules, s, "", learn) == s
    {
    }

    method HandleCompositionFinalize(isCandidateList: bool, learn: bool)
      requires Valid()
      modifies this, engine
      ensures Valid() && fresh(Repr() - old(Repr()))
      ensures View() == Finalized(engine.rules, old(View()), isCandidateList, learn)
      ensures window == null || window == old(window)
    {
      hide Notified, Cancelled;
      NothingToNotify(engine.rules, View(), learn);
      if isCandidateList && hasPresenter && mode != NoCandidates {
        var candidate := GetSelectedCandidateString();
        if candidate != "" { Notify(candidate, learn); }
      } else if composing {
        var committed := if |text| > PRECEDING_TEXT_MAX then text[..PRECEDING_TEXT_MAX] else text;
        if committed != "" { Notify(committed, learn); }
      }
      HandleCancel();
    }

    method HandleCandidateFinalize(learn: bool)
      requires Valid()
      modifies this, engine
      ensures Valid() && fresh(Repr() - old(Repr()))
      ensures View() == CandidateFinalized(engine.rules, old(View()), learn)
    {
      hide Notified, Completed;
      if hasPresenter {
        var candidate := GetSelectedCandidateString();
        if candidate != "" {
          text := candidate;
          Notify(candidate, learn);
        }
      }
      HandleComplete();
    }

    method HandleCompositionInputWorker()
      requires Valid()
      modifies this, if window == null then {} else {window}
      ensures Valid() && fresh(Repr() - old(Repr()))
      ensures View() == InputShown(engine.rules, old(View()))
    {
      hide DisplayText;
      var display := engine.GetReadingString();
      if display != "" { text := display; }
      if hasPresenter {
        if window == null { strays := strays + 1; } else { window.ClearList(); }
      }
    }

    /** A list still up is settled before the new character starts a composition of its own. */
    method SettleList(learn: bool)
      requires Valid()
      modifies this, engine
      ensures Valid() && fresh(Repr() - old(Repr())) && (window == null || window == old(window))
      ensures View() == if old(hasPresenter) && old(mode) != Incremental && old(mode) != NoCandidates
                        then Finalized(engine.rules, old(View()), false, learn) else old(View())
    {
      hide DisplayText, Finalized, ReadingText;
      if hasPresenter && mode != Incremental && mode != NoCandidates {
        HandleCompositionFinalize(false, learn);
      }
    }

    method StartComposition()
      requires Valid()
      modifies this
      ensures Valid() && Repr() == old(Repr()) && window == old(window) && View() == Started(old(View()))
    {
      if !composing {
        composing, text, started := true, "", started + 1;
      }
    }

    method AddKey(ch: char)
      requires Valid()
      modifies engine
      ensures Valid() && fresh(Repr() - old(Repr()))
      ensures View() == if ch == '\0' then old(View())
                        else old(View()).(buffer := BufferAfter(engine.rules, old(View()).buffer, ch))
    {
      hide BufferAfter;
      var added := engine.AddVirtualKey(ch);
    }

    method HandleCompositionInput(ch: char, learn: bool)
      requires Valid()
      modifies this, engine, if window == null then {} else {window}
      ensures Valid() && fresh(Repr() - old(Repr()))
      ensures View() == CompositionInput(engine.rules, old(View()), ch, learn)
    {
      hide DisplayText, BufferAfter, Finalized, InputShown, ReadingText, Started;
      SettleList(learn);
      StartComposition();
      AddKey(ch);
      HandleCompositionInputWorker();
    }

    method HandleCompositionConvert(answer: Option<seq<string>>)
      requires Valid() && (answer.Some? ==> |answer.value| + ROWS < LIST_LIMIT)
      modifies this, engine
      ensures Valid() && fresh(Repr() - old(Repr()))
      ensures View() == CompositionConverted(engine.rules, old(View()), answer)
    {
      hide ReadingText, ListSet, Paged;
      var texts := engine.GetCandidateList(answer);
      if texts != [] {
        if hasPresenter {
          window, hasPresenter := null, false;
          mode := NoCandidates;
        }
        var shown := new CandidateWindow(ROWS);
        mode := Original;
        shown.SetText(texts);
        window, hasPresenter := shown, true;
      }
    }

    method HandleCompositionBackspace()
      requires Valid()
      modifies Repr()
      ensures Valid() && fresh(Repr() - old(Repr()))
      ensures View() == CompositionBackspace(engine.rules, old(View()))
    {
      hide DisplayText, InputShown;
      if !composing { return; }
      if engine.length > 0 {
        engine.RemoveVirtualKey(engine.length - 1);
        if engine.length > 0 {
          HandleCompositionInputWorker();
        } else {
          HandleCancel();
        }
      }
    }

    static method Turn(shown: CandidateWindow, move: Function)
      requires shown.Valid()
      modifies shown
      ensures shown.Valid() && shown.View() == Turned(old(shown.View()), move)
    {
      hide Paged, PagesAround, PageCount, PageMoved, Selected, Moved;
      var moved := false;
      if shown.items == [] {
        NothingToSelect(shown.View(), 0);
        NothingToSelect(shown.View(), -1);
      }
      match move
      case MoveUp => moved := shown.MoveSelection(-1);
      case MoveDown => moved := shown.MoveSelection(1);
      case MovePageUp => moved := shown.MovePage(-1);
      case MovePageDown => moved := shown.MovePage(1);
      case MovePageTop => moved := shown.SetSelection(0);
      case MovePageBottom => moved := shown.SetSelection(-1);
      case _ =>
    }

    /** The arrow keys of a composition or of a list. */
    method AdviseUIChangedByArrowKey(move: Function)
      requires Valid()
      modifies this`strays, if window == null then {} else {window}
      ensures Valid() && fresh(Repr() - old(Repr()))
      ensures View() == ArrowMoved(old(View()), move)
    {
      hide Turned, Paged;
      if !hasPresenter { return; }
      if window == null {
        if move != MoveLeft && move != MoveRight { strays := strays + 1; }
        return;
      }
      Turn(window, move);
    }

    /** The system asks for the window to be painted, whenever there is one. */
    method PaintWindow() returns (rows: seq<Row>)
      requires Valid()
      modifies if window == null then {} else {window}
      ensures Valid() && fresh(Repr() - old(Repr()))
      ensures View() == Repainted(old(View()))
    {
      hide Painted, Paged;
      rows := [];
      if window != null { rows := window.Paint(); }
    }

    method HandleCandidateWorker(phrases: seq<string>, learn: bool)
      requires Valid() && |phrases| + ROWS < LIST_LIMIT
      modifies this, engine
      ensures Valid() && fresh(Repr() - old(Repr()))
      ensures View() == CandidateWorked(engine.rules, old(View()), phrases, learn)
    {
      hide ListSet, Paged, CandidateFinalized;
      if !hasPresenter { return; }
      var candidate := GetSelectedCandidateString();
      if candidate == "" { return; }
      if phrases != [] {
        var shown := new CandidateWindow(ROWS);
        shown.SetText(phrases);
        text := candidate;
        window := shown;
        mode := WithNextComposition;
      } else {
        HandleCandidateFinalize(learn);
      }
    }

    method HandleCandidateSelectByNumber(code: nat, learn: bool)
      requires Valid()
      modifies this, engine, if window == null then {} else {window}
      ensures Valid() && fresh(Repr() - old(Repr()))
      ensures View() == NumberSelected(engine.rules, old(View()), code, learn)
    {
      hide Paged, CandidateWorked, CurrentPage;
      var row := RowOf(code);
      if row == -1 || !hasPresenter { return; }
      if window == null {
        strays := strays + 1;
        return;
      }
      var picked := window.SetSelectionInPage(row);
      if picked {
        HandleCandidateWorker([], learn);
      }
    }

    method HandlePhraseFinalize()
      requires Valid()
      modifies this, engine
      ensures Valid() && fresh(Repr() - old(Repr())) && View() == PhraseFinalized(old(View()))
    {
      var phrase := GetSelectedCandidateString();
      if phrase != "" { text := phrase; }
      HandleComplete();
    }

    method HandlePhraseSelectByNumber(code: nat)
      requires Valid()
      modifies Repr()
      ensures Valid() && fresh(Repr() - old(Repr())) && View() == PhraseSelected(old(View()), code)
    {
      hide PhraseFinalized, Paged, CurrentPage;
      var row := RowOf(code);
      if row == -1 || window == null { return; }
      var picked := window.SetSelectionInPage(row);
      if picked { HandlePhraseFinalize(); }
    }

    // ---- Dispatch ----

    method FinalizeThenInput(isCandidateList: bool, ch: char, learn: bool)
      requires Valid()
      modifies Repr()
      ensures Valid() && fresh(Repr() - old(Repr()))
      ensures View() == CompositionInput(engine.rules,
                                         Finalized(engine.rules, old(View()), isCandidateList, learn), ch, learn)
    {
      hide CompositionInput, Finalized;
      HandleCompositionFinalize(isCandidateList, learn);
      HandleCompositionInput(ch, learn);
    }

    method CommitThenInput(ch: char, learn: bool)
      requires Valid()
      modifies Repr()
      ensures Valid() && fresh(Repr() - old(Repr()))
      ensures View() == CompositionInput(engine.rules, CandidateFinalized(engine.rules, old(View()), learn), ch, learn)
    {
      hide CompositionInput, CandidateFinalized;
      HandleCandidateFinalize(learn);
      HandleCompositionInput(ch, learn);
    }

    method ComposingState(key: Key, f: Function, env: Environment)
      requires Valid() && (env.answer.Some? ==> |env.answer.value| + ROWS < LIST_LIMIT)
      modifies Repr()
      ensures Valid() && fresh(Repr() - old(Repr()))
      ensures View() == ComposingHandled(engine.rules, old(View()), key, f, env)
    {
      hide CompositionInput, Finalized, CompositionConverted, Cancelled, CompositionBackspace, ArrowMoved;
      if f.Input? {
        HandleCompositionInput(key.ch, env.learn);
      } else if f.FinalizeTextStoreAndInput? || f.FinalizeCandidateListAndInput? {
        FinalizeThenInput(f.FinalizeCandidateListAndInput?, key.ch, env.learn);
      } else if f.FinalizeTextStore? || f.FinalizeCandidateList? {
        HandleCompositionFinalize(f.FinalizeCandidateList?, env.learn);
      } else if f.ConvertReading? || f.ConvertWildcard? {
        HandleCompositionConvert(env.answer);
      } else if f.Cancel? || f.DoubleSingleByte? || f.Punctuation? {
        HandleCancel();
      } else if f.Backspace? {
        HandleCompositionBackspace();
      } else if IsMove(f) {
        AdviseUIChangedByArrowKey(f);
      }
    }

    method CandidateState(key: Key, f: Function, env: Environment)
      requires Valid()
      modifies Repr()
      ensures Valid() && fresh(Repr() - old(Repr()))
      ensures View() == CandidateHandled(engine.rules, old(View()), key, f, env)
    {
      hide CompositionInput, CandidateFinalized, NumberSelected, Cancelled, ArrowMoved;
      if f.FinalizeCandidateList? {
        HandleCandidateFinalize(env.learn);
      } else if f.FinalizeCandidateListAndInput? {
        CommitThenInput(key.ch, env.learn);
      } else if f.ConvertReading? {
        AdviseUIChangedByArrowKey(MoveDown);
      } else if f.Cancel? {
        HandleCancel();
      } else if f.SelectByNumber? {
        HandleCandidateSelectByNumber(key.code, env.learn);
      } else if IsMove(f) {
        AdviseUIChangedByArrowKey(f);
      }
    }

    method PhraseState(key: Key, f: Function)
      requires Valid()
      modifies Repr()
      ensures Valid() && fresh(Repr() - old(Repr()))
      ensures View() == PhraseHandled(old(View()), key, f)
    {
      hide PhraseFinalized, PhraseSelected, Cancelled, ArrowMoved;
      if f.FinalizeCandidateList? {
        HandlePhraseFinalize();
      } else if f.Cancel? {
        HandleCancel();
      } else if f.SelectByNumber? {
        HandlePhraseSelectByNumber(key.code);
      } else if IsMove(f) {
        AdviseUIChangedByArrowKey(f);
      }
    }

    /** The key event sink. */
    method PressKey(key: Key, env: Environment)
      requires Valid() && (env.answer.Some? ==> |env.answer.value| + ROWS < LIST_LIMIT)
      modifies Repr()
      ensures Valid() && fresh(Repr() - old(Repr()))
      ensures View() == Pressed(engine.rules, old(View()), key, env)
    {
      hide ComposingHandled, CandidateHandled, PhraseHandled, KeyNeed;
      var buffer := engine.keystrokes[..engine.length];
      var route := KeyEaten(key, buffer, composing, mode);
      if !route.eaten && route.category != InvokeSession { return; }
      var category := route.category;
      if category == InvokeSession || key.code == VK_ESCAPE { category := Composing; }
      match category
      case Composing => ComposingState(key, route.function_, env);
      case Candidate => CandidateState(key, route.function_, env);
      case PhraseList => PhraseState(key, route.function_);
      case _ =>
    }
  }
}
