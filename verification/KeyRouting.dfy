/** What a key press does: which function it is routed to, and how that function changes the reading
    buffer, the candidate mode, the candidate window and what the engine is told. Document calls are
    taken to succeed; the characters they would write are not modelled beyond the composition's own
    text. */
module KeyRouting {
  import opened Wrappers
  import opened RomajiTable
  import opened CompositionBuffer
  import opened CandidatePaging

  datatype Mode = NoCandidates | Incremental | Original | Phrase | WithNextComposition

  /** `Ended` is a presenter whose window has been disposed of; from `Live` there is no way back to
      `Never`. */
  datatype Presenter = Never | Ended | Live(window: Window)

  /** What the engine is sent. */
  datatype Message = Convert(reading: string) | Commit(reading: string, text: string, learn: bool)

  /** `text` is the composition's; `started` counts compositions begun, `strays` the calls made to a
      window that is gone. */
  datatype Service = Service(
    buffer: string, mode: Mode, presenter: Presenter, composing: bool, text: string,
    log: seq<Message>, started: nat, strays: nat)

  function Idle(): Service {
    Service("", NoCandidates, Never, false, "", [], 0, 0)
  }

  /** A key, as mapped to a character by the keyboard ('\0' if none), and what the character tables
      say of it. */
  datatype Key = Key(code: nat, ch: char, modified: bool, open: bool, punctuation: bool, wide: bool)

  /** The engine's answer, None when it cannot be reached, and whether it may learn. */
  datatype Environment = Environment(answer: Option<seq<string>>, learn: bool)

  const VK_BACK := 0x08
  const VK_RETURN := 0x0D
  const VK_ESCAPE := 0x1B
  const VK_SPACE := 0x20
  const VK_PRIOR := 0x21
  const VK_NEXT := 0x22
  const VK_END := 0x23
  const VK_HOME := 0x24
  const VK_LEFT := 0x25
  const VK_UP := 0x26
  const VK_RIGHT := 0x27
  const VK_DOWN := 0x28
  const VK_NUMPAD0 := 0x60
  const VK_OEM_MINUS := 0xBD

  const ROWS := 10
  const PRECEDING_TEXT_MAX := 30

  // ---- Which function a key is for ----

  datatype Category = NoCategory | Composing | Candidate | PhraseList | InvokeSession

  datatype Function =
    | NoFunction | Input | FinalizeTextStoreAndInput | FinalizeTextStore | FinalizeCandidateListAndInput
    | FinalizeCandidateList | ConvertReading | ConvertWildcard | Cancel | Backspace
    | MoveLeft | MoveRight | MoveUp | MoveDown | MovePageUp | MovePageDown | MovePageTop | MovePageBottom
    | DoubleSingleByte | Punctuation | SelectByNumber

  datatype Routing = Routing(eaten: bool, category: Category, function_: Function)

  const UNROUTED := Routing(false, NoCategory, NoFunction)

  /** The keystroke table: the letters and the long-vowel key, without modifiers. */
  predicate IsInputKey(key: Key) {
    !key.modified && (0x41 <= key.code <= 0x5A || key.code == VK_OEM_MINUS)
  }

  predicate IsWildcardChar(ch: char) {
    ch == '?' || ch == '*'
  }

  /** The row a digit names: 1 is the first, 0 the tenth. */
  function RowOf(code: nat): (row: int)
    ensures -1 <= row < ROWS
    ensures 0x31 <= code <= 0x39 ==> row == code - 0x31
    ensures 0x61 <= code <= 0x69 ==> row == code - 0x61
    ensures code == 0x30 || code == 0x60 ==> row == 9
    ensures row == -1 <==> !(0x30 <= code <= 0x39 || 0x60 <= code <= 0x69)
  {
    var digit :=
      if 0x30 <= code <= 0x39 then code - 0x30
      else if VK_NUMPAD0 <= code <= VK_NUMPAD0 + 9 then code - VK_NUMPAD0
      else -1;
    if digit == -1 then -1 else if digit == 0 then 9 else digit - 1
  }

  function MoveOf(code: nat): Function {
    if code == VK_UP then MoveUp
    else if code == VK_DOWN then MoveDown
    else if code == VK_PRIOR then MovePageUp
    else if code == VK_NEXT then MovePageDown
    else if code == VK_HOME then MovePageTop
    else if code == VK_END then MovePageBottom
    else NoFunction
  }

  /** The keys of a composition, outside incremental mode. */
  function ComposingFunction(code: nat): Function {
    if code == VK_LEFT then MoveLeft
    else if code == VK_RIGHT then MoveRight
    else if code == VK_RETURN then FinalizeCandidateList
    else if code == VK_ESCAPE then Cancel
    else if code == VK_BACK then Backspace
    else if code == VK_SPACE then ConvertReading
    else MoveOf(code)
  }

  /** The keys of a candidate or phrase list. */
  function ListFunction(code: nat): Function {
    if code == VK_RETURN then FinalizeCandidateList
    else if code == VK_SPACE then ConvertReading
    else if code == VK_BACK || code == VK_ESCAPE then Cancel
    else MoveOf(code)
  }

  function IncrementalRouting(code: nat): Routing {
    if code == VK_LEFT || code == VK_RIGHT then Routing(false, InvokeSession, Cancel)
    else if code == VK_BACK then Routing(true, Composing, Backspace)
    else if ListFunction(code) != NoFunction then Routing(true, Candidate, ListFunction(code))
    else UNROUTED
  }

  function DigitRouting(key: Key, mode: Mode): Routing {
    if RowOf(key.code) == -1 || mode == NoCandidates then UNROUTED
    else if mode == Phrase then
      if !key.modified then Routing(true, PhraseList, SelectByNumber)
      else Routing(false, InvokeSession, FinalizeTextStoreAndInput)
    else if mode == WithNextComposition && key.modified then UNROUTED
    else Routing(true, Candidate, SelectByNumber)
  }

  /** Whether the engine needs a key, in the order the source asks. */
  function KeyNeed(key: Key, buffer: string, composing: bool, mode: Mode): Routing {
    var list := mode == Original || mode == Phrase || mode == WithNextComposition;
    var inComposition := composing && !list;
    if !list && IsInputKey(key) then Routing(true, Composing, Input)
    else if !list && IsWildcardChar(key.ch) && buffer != "" then Routing(true, Composing, Input)
    else if list && IsInputKey(key) then
      if mode == Original then Routing(true, Candidate, FinalizeCandidateListAndInput)
      else Routing(true, Composing, Input)
    else if inComposition && mode != Incremental && ComposingFunction(key.code) != NoFunction then
      Routing(true, Composing, ComposingFunction(key.code))
    else if inComposition && mode == Incremental && IncrementalRouting(key.code) != UNROUTED then
      IncrementalRouting(key.code)
    else if mode == WithNextComposition && key.code == VK_ESCAPE then Routing(true, InvokeSession, FinalizeTextStore)
    else if (mode == Original || mode == WithNextComposition) && ListFunction(key.code) != NoFunction then
      Routing(true, Candidate, ListFunction(key.code))
    else if mode == Phrase && ListFunction(key.code) != NoFunction then
      Routing(true, if key.code == VK_BACK then Candidate else PhraseList, ListFunction(key.code))
    else if DigitRouting(key, mode) != UNROUTED then DigitRouting(key, mode)
    else if key.ch != '\0' && !IsInputKey(key) then Routing(false, InvokeSession, FinalizeTextStore)
    else UNROUTED
  }

  /** Closed, the keyboard reaches the document untouched. */
  function KeyEaten(key: Key, buffer: string, composing: bool, mode: Mode): Routing {
    if !key.open then UNROUTED
    else
      var need := KeyNeed(key, buffer, composing, mode);
      if need.eaten then need
      else if key.punctuation && mode == NoCandidates then Routing(true, Composing, Punctuation)
      else if key.wide && mode == NoCandidates then Routing(true, Composing, DoubleSingleByte)
      else need
  }

  // ---- The handlers ----

  /** The engine hears of a commit only if some kana of the reading was settled. */
  ghost function Notified(rules: seq<Rule>, s: Service, text: string, learn: bool): Service {
    if text == "" || s.buffer == "" || ReadingText(rules, s.buffer) == "" then s
    else s.(log := s.log + [Commit(ReadingText(rules, s.buffer), text, learn)])
  }

  function ListDeleted(s: Service): Service {
    if s.presenter.Never? then s.(buffer := "")
    else s.(buffer := "", presenter := Ended, mode := NoCandidates)
  }

  function Completed(s: Service): Service {
    ListDeleted(s).(composing := false)
  }

  function Cancelled(s: Service): Service {
    ListDeleted(s).(composing := false, text := "")
  }

  function Selection(s: Service): string {
    if s.presenter.Live? && s.presenter.window.selection < |s.presenter.window.items|
    then s.presenter.window.items[s.presenter.window.selection] else ""
  }

  ghost function Finalized(rules: seq<Rule>, s: Service, fromList: bool, learn: bool): Service {
    var told :=
      if fromList && !s.presenter.Never? && s.mode != NoCandidates then Notified(rules, s, Selection(s), learn)
      else if s.composing then
        Notified(rules, s, if |s.text| > PRECEDING_TEXT_MAX then s.text[..PRECEDING_TEXT_MAX] else s.text, learn)
      else s;
    Cancelled(told)
  }

  ghost function CandidateFinalized(rules: seq<Rule>, s: Service, learn: bool): Service {
    if s.presenter.Never? || Selection(s) == "" then Completed(s)
    else Completed(Notified(rules, s.(text := Selection(s)), Selection(s), learn))
  }

  function Cleared(w: Window): Window {
    w.(items := [], selection := 0, pages := [])
  }

  /** The kana on screen follow the buffer, and a list left over is emptied. */
  ghost function InputShown(rules: seq<Rule>, s: Service): Service {
    var display := if s.buffer == "" then "" else DisplayText(rules, s.buffer);
    var shown := if display == "" then s else s.(text := display);
    match shown.presenter
    case Never => shown
    case Ended => shown.(strays := shown.strays + 1)
    case Live(w) => shown.(presenter := Live(Cleared(w)))
  }

  function Started(s: Service): Service {
    if s.composing then s else s.(composing := true, text := "", started := s.started + 1)
  }

  ghost function CompositionInput(rules: seq<Rule>, s: Service, ch: char, learn: bool): Service {
    var listUp := !s.presenter.Never? && s.mode != Incremental && s.mode != NoCandidates;
    var begun := Started(if listUp then Finalized(rules, s, false, learn) else s);
    InputShown(rules, if ch == '\0' then begun else begun.(buffer := BufferAfter(rules, begun.buffer, ch)))
  }

  const EMPTY_WINDOW := Window([], ROWS, 0, [], false)

  ghost function CompositionConverted(rules: seq<Rule>, s: Service, answer: Option<seq<string>>): Service {
    if answer.None? || s.buffer == "" || ReadingText(rules, s.buffer) == "" then s
    else
      var asked := s.(log := s.log + [Convert(ReadingText(rules, s.buffer))]);
      if answer.value == [] then asked
      else asked.(presenter := Live(ListSet(EMPTY_WINDOW, answer.value)), mode := Original)
  }

  ghost function CompositionBackspace(rules: seq<Rule>, s: Service): Service {
    if !s.composing || s.buffer == "" then s
    else
      var shorter := s.(buffer := s.buffer[..|s.buffer| - 1]);
      if shorter.buffer != "" then InputShown(rules, shorter) else Cancelled(shorter)
  }

  function Turned(w: Window, move: Function): Window {
    match move
    case MoveUp => Moved(w, -1)
    case MoveDown => Moved(w, 1)
    case MovePageUp => if Laid(w) then PageMoved(w, -1) else w
    case MovePageDown => if Laid(w) then PageMoved(w, 1) else w
    case MovePageTop => if Laid(w) then Selected(w, 0) else w
    case MovePageBottom => if Laid(w) then Selected(w, -1) else w
    case _ => w
  }

  function ArrowMoved(s: Service, move: Function): Service {
    match s.presenter
    case Never => s
    case Ended => if move == MoveLeft || move == MoveRight then s else s.(strays := s.strays + 1)
    case Live(w) => s.(presenter := Live(Turned(w, move)))
  }

  /** The window is painted between keys, which may lay its pages out again. */
  function Repainted(s: Service): Service {
    if s.presenter.Live? && Laid(s.presenter.window) then s.(presenter := Live(Painted(s.presenter.window))) else s
  }

  /** The phrases the engine offers for a converted string: it has none. */
  function StringsInConverted(text: string): seq<string> {
    []
  }

  ghost function CandidateWorked(rules: seq<Rule>, s: Service, phrases: seq<string>, learn: bool): Service {
    if s.presenter.Never? || Selection(s) == "" then s
    else if phrases != [] then
      s.(text := Selection(s), presenter := Live(ListSet(EMPTY_WINDOW, phrases)), mode := WithNextComposition)
    else CandidateFinalized(rules, s, learn)
  }

  ghost function NumberSelected(rules: seq<Rule>, s: Service, code: nat, learn: bool): Service {
    var row := RowOf(code);
    if row == -1 || s.presenter.Never? then s
    else if s.presenter.Ended? then s.(strays := s.strays + 1)
    else if !Laid(s.presenter.window) || row >= |s.presenter.window.items| then s
    else
      var picked := s.(presenter := Live(RowSelected(s.presenter.window, row)));
      CandidateWorked(rules, picked, StringsInConverted(Selection(picked)), learn)
  }

  ghost function PhraseFinalized(s: Service): Service {
    Completed(if Selection(s) == "" then s else s.(text := Selection(s)))
  }

  ghost function Dispatched(rules: seq<Rule>, s: Service, key: Key, route: Routing, env: Environment): Service {
    match route.category
    case Composing => ComposingHandled(rules, s, key, route.function_, env)
    case Candidate => CandidateHandled(rules, s, key, route.function_, env)
    case PhraseList => PhraseHandled(s, key, route.function_)
    case _ => s
  }

  predicate IsMove(f: Function) {
    || f.MoveLeft? || f.MoveRight? || f.MoveUp? || f.MoveDown?
    || f.MovePageUp? || f.MovePageDown? || f.MovePageTop? || f.MovePageBottom?
  }

  ghost function ComposingHandled(rules: seq<Rule>, s: Service, key: Key, f: Function, env: Environment): Service {
    if f.Input? then CompositionInput(rules, s, key.ch, env.learn)
    else if f.FinalizeTextStoreAndInput? then
      CompositionInput(rules, Finalized(rules, s, false, env.learn), key.ch, env.learn)
    else if f.FinalizeTextStore? then Finalized(rules, s, false, env.learn)
    else if f.FinalizeCandidateListAndInput? then
      CompositionInput(rules, Finalized(rules, s, true, env.learn), key.ch, env.learn)
    else if f.FinalizeCandidateList? then Finalized(rules, s, true, env.learn)
    else if f.ConvertReading? || f.ConvertWildcard? then CompositionConverted(rules, s, env.answer)
    else if f.Cancel? || f.DoubleSingleByte? || f.Punctuation? then Cancelled(s)
    else if f.Backspace? then CompositionBackspace(rules, s)
    else if IsMove(f) then ArrowMoved(s, f)
    else s
  }

  ghost function CandidateHandled(rules: seq<Rule>, s: Service, key: Key, f: Function, env: Environment): Service {
    if f.FinalizeCandidateList? then CandidateFinalized(rules, s, env.learn)
    else if f.FinalizeCandidateListAndInput? then
      CompositionInput(rules, CandidateFinalized(rules, s, env.learn), key.ch, env.learn)
    else if f.ConvertReading? then ArrowMoved(s, MoveDown)
    else if f.Cancel? then Cancelled(s)
    else if f.SelectByNumber? then NumberSelected(rules, s, key.code, env.learn)
    else if IsMove(f) then ArrowMoved(s, f)
    else s
  }

  ghost function PhraseHandled(s: Service, key: Key, f: Function): Service {
    if f.FinalizeCandidateList? then PhraseFinalized(s)
    else if f.Cancel? then Cancelled(s)
    else if f.SelectByNumber? then PhraseSelected(s, key.code)
    else if IsMove(f) then ArrowMoved(s, f)
    else s
  }

  ghost function PhraseSelected(s: Service, code: nat): Service {
    var row := RowOf(code);
    if row == -1 || !s.presenter.Live? || !Laid(s.presenter.window) || row >= |s.presenter.window.items| then s
    else PhraseFinalized(s.(presenter := Live(RowSelected(s.presenter.window, row))))
  }

  /** One key: routed, then handled unless nothing wants it. Escape is always the composition's. */
  ghost function Pressed(rules: seq<Rule>, s: Service, key: Key, env: Environment): Service {
    var route := KeyEaten(key, s.buffer, s.composing, s.mode);
    if !route.eaten && route.category != InvokeSession then s
    else
      var category :=
        if route.category == InvokeSession || (route.eaten && key.code == VK_ESCAPE) then Composing else route.category;
      Dispatched(rules, s, key, route.(category := category), env)
  }
}
