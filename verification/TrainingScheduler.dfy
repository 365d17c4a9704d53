/** The personal model's training runs: what the main actor decides, what a detached run does to the
    directory meanwhile, and what is left when the process dies. One step is one main-actor turn,
    one file operation of a run, or one removal of an erase; any interleaving is possible. */
module TrainingScheduler {
  import opened Wrappers

  datatype Name = Generation(number: nat) | Partial(number: nat)

  /** A directory on disk: which model files it holds, and the lines they were trained on. */
  datatype Folder = Folder(files: set<string>, text: seq<string>)

  const MODEL_FILES: set<string> :=
    {"model_c_abc.marisa", "model_c_bc.marisa", "model_u_abx.marisa", "model_u_xbc.marisa", "model_r_xbx.marisa"}

  datatype Phase = Starting | Staged | Checked | Cleared | Moved | Failed

  /** A detached training run, with the settings it was started under. */
  datatype Run = Run(generation: nat, lines: seq<string>, active: bool, phase: Phase)

  /** `deferred` holds the settings captured by the queued run; `erasing` the names an erase has
      still to remove. */
  datatype State = State(
    active: bool, baseReady: bool,
    words: seq<string>, imported: seq<string>, corpus: seq<string>, folders: map<Name, Folder>,
    published: Option<nat>, training: bool, unlearned: nat, corpusLines: nat,
    deferred: Option<bool>, runs: seq<Run>, erasing: Option<seq<Name>>)

  // ---- The directory ----

  predicate Present(folders: map<Name, Folder>, generation: nat) {
    Generation(generation) in folders && MODEL_FILES <= folders[Generation(generation)].files
  }

  ghost predicate IsNewest(folders: map<Name, Folder>, newest: Option<nat>) {
    match newest
    case None => forall g: nat :: !Present(folders, g)
    case Some(n) => Present(folders, n) && forall g: nat :: Present(folders, g) ==> g <= n
  }

  /** A directory listing names what is there. */
  ghost predicate Lists(names: seq<Name>, folders: map<Name, Folder>) {
    forall name :: name in names <==> name in folders
  }

  /** The largest number among the listed generations that have all their files. */
  function NewestComplete(names: seq<Name>, folders: map<Name, Folder>): (newest: Option<nat>)
    ensures newest.Some? ==> Generation(newest.value) in names && Present(folders, newest.value)
    ensures forall g: nat :: Generation(g) in names && Present(folders, g) ==> newest.Some? && g <= newest.value
  {
    if names == [] then None
    else
      var rest := NewestComplete(names[1..], folders);
      if names[0].Generation? && Present(folders, names[0].number)
         && (rest.None? || rest.value < names[0].number)
      then Some(names[0].number) else rest
  }

  lemma NewestIsNewest(names: seq<Name>, folders: map<Name, Folder>)
    requires Lists(names, folders)
    ensures IsNewest(folders, NewestComplete(names, folders))
  {
  }

  /** The unfinished directories are swept away, all but those that could not be removed. */
  function WithoutPartials(folders: map<Name, Folder>, stuck: set<Name>): map<Name, Folder> {
    map name | name in folders && (name.Generation? || name in stuck) :: folders[name]
  }

  // ---- How often to train ----

  const LINES_PER_COMMIT := 50

  function CommitsPerTrainingRun(corpusLines: int): (n: nat)
    ensures 3 <= n <= 20
    ensures corpusLines < 200 ==> n == 3
    ensures corpusLines >= 1000 ==> n == 20
    ensures 150 <= corpusLines <= 1000 ==> n * 50 <= corpusLines < (n + 1) * 50
  {
    var scaled := (if corpusLines < 0 then 0 else corpusLines) / LINES_PER_COMMIT;
    if scaled < 3 then 3 else if scaled > 20 then 20 else scaled
  }

  const CORPUS_LIMIT := 10000

  function Trimmed(lines: seq<string>): (r: seq<string>)
    ensures |r| == if |lines| <= CORPUS_LIMIT then |lines| else CORPUS_LIMIT
    ensures r == lines[|lines| - |r|..]
  {
    if |lines| <= CORPUS_LIMIT then lines else lines[|lines| - CORPUS_LIMIT..]
  }

  const WORD_WEIGHT := 40

  function Repeated(words: seq<string>): (lines: seq<string>)
    ensures |lines| == WORD_WEIGHT * |words|
  {
    if words == [] then [] else seq(WORD_WEIGHT, i => words[0]) + Repeated(words[1..])
  }

  lemma {:induction false} RepeatedAt(words: seq<string>, i: nat)
    requires i < |Repeated(words)|
    ensures i / WORD_WEIGHT < |words| && Repeated(words)[i] == words[i / WORD_WEIGHT]
    decreases |words|
  {
    if i >= WORD_WEIGHT { RepeatedAt(words[1..], i - WORD_WEIGHT); }
  }

  // ---- Starting a run ----

  function Begin(s: State, active: bool): (r: State)
    ensures r.published == s.published && r.folders == s.folders && r.unlearned == 0
  {
    var kept := if active then Trimmed(s.corpus) else s.corpus;
    var corpus := if active then kept else [];
    var lines := Repeated(s.words) + s.imported + corpus;
    var counted := s.(corpus := kept, corpusLines := |corpus|, unlearned := 0);
    if lines == [] then counted
    else
      var generation := if s.published.Some? then s.published.value + 1 else 1;
      counted.(training := true, runs := s.runs + [Run(generation, lines, active, Starting)])
  }

  /** During a cooldown one run is queued, however many ask for it. */
  function Start(s: State, active: bool, waiting: bool): (r: State)
    ensures r.published == s.published && r.folders == s.folders
  {
    if !waiting then Begin(s, active)
    else if s.deferred.Some? then s
    else s.(deferred := Some(active))
  }

  function StartIfIdle(s: State, waiting: bool): State {
    if s.active && s.baseReady && !s.training then Start(s, s.active, waiting) else s
  }

  // ---- The steps ----

  datatype Base = Usable | Unusable | Broken

  datatype Step =
    | Record(line: string, written: bool, waiting: bool)
    | UpdateWords(words: seq<string>, waiting: bool)
    | RefreshImport(lines: seq<string>, waiting: bool)
    | TrainIfNothing(waiting: bool)
    | RunDeferred
    | Switch(active: bool, names: seq<Name>)
    | EraseNext(removed: bool)
    | EraseDone(waiting: bool)
    | Stage(run: nat, made: bool)
    | Write(run: nat, file: string)
    | Check(run: nat)
    | Clear(run: nat, removed: bool)
    | Move(run: nat, moved: bool)
    | Finish(run: nat, removed: bool, waiting: bool)
    | Restart(active: bool, swept: bool, stuck: set<Name>, base: Base, imported: seq<string>, names: seq<Name>)

  predicate OnMainActor(step: Step) {
    !step.Stage? && !step.Write? && !step.Check? && !step.Clear? && !step.Move?
  }

  predicate InPhase(s: State, run: nat, phase: Phase) {
    run < |s.runs| && s.runs[run].phase == phase
  }

  ghost predicate Enabled(s: State, step: Step) {
    match step
    case EraseNext(_) => s.erasing.Some? && s.erasing.value != []
    case EraseDone(_) => s.erasing == Some([])
    case Stage(run, _) => InPhase(s, run, Starting)
    case Write(run, file) => InPhase(s, run, Staged) && file in MODEL_FILES
    case Check(run) => InPhase(s, run, Staged)
    case Clear(run, _) => InPhase(s, run, Checked)
    case Move(run, _) => InPhase(s, run, Cleared)
    case Finish(run, _, _) => s.erasing.None? && (InPhase(s, run, Moved) || InPhase(s, run, Failed))
    case RunDeferred => s.erasing.None? && s.deferred.Some?
    case Switch(_, names) => s.erasing.None? && Lists(names, s.folders)
    case Restart(_, swept, stuck, _, _, names) =>
      Lists(names, if swept then WithoutPartials(s.folders, stuck) else s.folders)
    case _ => s.erasing.None?
  }

  function InTurn(s: State, run: nat, phase: Phase): State
    requires run < |s.runs|
  {
    s.(runs := s.runs[run := s.runs[run].(phase := phase)])
  }

  /** A run that gives up removes what it staged. */
  function GivenUp(s: State, run: nat): State
    requires run < |s.runs|
  {
    InTurn(s.(folders := s.folders - {Partial(s.runs[run].generation)}), run, Failed)
  }

  function Recorded(s: State, line: string, written: bool, waiting: bool): State {
    if !s.active || !s.baseReady then s
    else
      var counted := s.(corpus := if written then s.corpus + [line] else s.corpus,
                        unlearned := s.unlearned + 1, corpusLines := s.corpusLines + 1);
      if counted.unlearned >= CommitsPerTrainingRun(counted.corpusLines) && !s.training
      then Start(counted, s.active, waiting) else counted
  }

  function Finished(s: State, run: nat, removed: bool, waiting: bool): State
    requires run < |s.runs|
  {
    var r := s.runs[run];
    var idle := s.(training := false, runs := s.runs[..run] + s.runs[run + 1..]);
    if r.phase != Moved then idle
    else
      var stale := if removed && s.published.Some? then {Generation(s.published.value)} else {};
      var after := idle.(published := Some(r.generation), folders := s.folders - stale);
      if after.unlearned >= CommitsPerTrainingRun(after.corpusLines) then Start(after, r.active, waiting) else after
  }

  function Erased(s: State, waiting: bool): State {
    var gone := s.(erasing := None, corpus := [], published := None, unlearned := 0, corpusLines := 0);
    if s.words != [] || s.imported != [] then StartIfIdle(gone, waiting) else gone
  }

  function Blank(s: State, active: bool): State {
    State(active, false, [], [], s.corpus, s.folders, None, false, 0, 0, None, [], None)
  }

  /** A new process finds what the old one left on disk and nothing else. */
  function Prepared(s: State, swept: bool, stuck: set<Name>, base: Base,
                    imported: seq<string>, names: seq<Name>): State {
    if !swept then s
    else
      var clean := s.(folders := WithoutPartials(s.folders, stuck));
      if base.Broken? then clean
      else
        clean.(baseReady := base.Usable?, imported := imported, corpus := Trimmed(s.corpus),
               corpusLines := |Trimmed(s.corpus)|, published := NewestComplete(names, clean.folders))
  }

  function Apply(s: State, step: Step): State
    requires Enabled(s, step)
  {
    match step
    case Record(line, written, waiting) => Recorded(s, line, written, waiting)
    case UpdateWords(words, waiting) =>
      if words == s.words then s else StartIfIdle(s.(words := words), waiting)
    case RefreshImport(lines, waiting) => StartIfIdle(s.(imported := lines), waiting)
    case TrainIfNothing(waiting) =>
      if s.published.None? && (s.words != [] || s.imported != []) then StartIfIdle(s, waiting) else s
    case RunDeferred =>
      var asked := s.deferred.value && s.baseReady && !s.training;
      if asked then Begin(s.(deferred := None), s.deferred.value) else s.(deferred := None)
    case Switch(active, names) =>
      s.(active := active, erasing := if s.active && !active then Some(names) else None)
    case EraseNext(removed) =>
      s.(folders := if removed then s.folders - {s.erasing.value[0]} else s.folders,
         erasing := Some(s.erasing.value[1..]))
    case EraseDone(waiting) => Erased(s, waiting)
    case Stage(run, made) =>
      if !made then GivenUp(s, run)
      else InTurn(s.(folders := s.folders[Partial(s.runs[run].generation) := Folder({}, [])]), run, Staged)
    case Write(run, file) =>
      var name := Partial(s.runs[run].generation);
      if name !in s.folders then s
      else s.(folders := s.folders[name := Folder(s.folders[name].files + {file}, s.runs[run].lines)])
    case Check(run) =>
      var name := Partial(s.runs[run].generation);
      if name in s.folders && MODEL_FILES <= s.folders[name].files then InTurn(s, run, Checked) else GivenUp(s, run)
    case Clear(run, removed) =>
      InTurn(if removed then s.(folders := s.folders - {Generation(s.runs[run].generation)}) else s, run, Cleared)
    case Move(run, moved) =>
      var from, to := Partial(s.runs[run].generation), Generation(s.runs[run].generation);
      if moved && from in s.folders && to !in s.folders
      then InTurn(s.(folders := (s.folders - {from})[to := s.folders[from]]), run, Moved)
      else GivenUp(s, run)
    case Finish(run, removed, waiting) => Finished(s, run, removed, waiting)
    case Restart(active, swept, stuck, base, imported, names) =>
      Prepared(Blank(s, active), swept, stuck, base, imported, names)
  }

  // ---- Safety ----

  predicate OneRun(s: State) {
    |s.runs| <= 1 && (s.training <==> s.runs != [])
  }

  /** At most one run is in flight, and what is published is on disk and whole. Nothing is read
      while an erase is under way, which ends with nothing published. */
  ghost predicate Safe(s: State) {
    && OneRun(s)
    && (s.published.Some? && s.erasing.None? ==> Present(s.folders, s.published.value))
    && (s.runs != [] ==> RunKept(s, s.runs[0]))
  }

  ghost predicate RunKept(s: State, r: Run) {
    && (s.published.Some? ==> r.generation > s.published.value)
    && (r.phase == Checked || r.phase == Cleared ==>
          Partial(r.generation) in s.folders ==> MODEL_FILES <= s.folders[Partial(r.generation)].files)
    && (r.phase == Moved ==> Present(s.folders, r.generation))
  }

  /** An erase removes the directory a run has just moved into place and not yet published. */
  predicate Strikes(s: State, step: Step) {
    && step.EraseNext? && step.removed && s.erasing.Some? && s.erasing.value != []
    && s.runs != [] && s.runs[0].phase == Moved && s.erasing.value[0] == Generation(s.runs[0].generation)
  }

  lemma BeginIsSafe(s: State, active: bool)
    requires Safe(s) && !s.training
    ensures Safe(Begin(s, active))
  {
  }

  lemma StartIsSafe(s: State, active: bool, waiting: bool)
    requires Safe(s) && !s.training
    ensures Safe(Start(s, active, waiting))
  {
    BeginIsSafe(s, active);
  }

  lemma MainStepIsSafe(s: State, step: Step)
    requires Safe(s) && Enabled(s, step) && OnMainActor(step) && !step.Finish? && !step.Restart? && !step.EraseNext?
    ensures Safe(Apply(s, step))
  {
    hide Begin, Start, CommitsPerTrainingRun;
    match step
    case Record(line, written, waiting) =>
      if s.active && s.baseReady && !s.training {
        StartIsSafe(s.(corpus := if written then s.corpus + [line] else s.corpus,
                       unlearned := s.unlearned + 1, corpusLines := s.corpusLines + 1), s.active, waiting);
      }
    case UpdateWords(words, waiting) =>
      if !s.training { StartIsSafe(s.(words := words), s.active, waiting); }
    case RefreshImport(lines, waiting) =>
      if !s.training { StartIsSafe(s.(imported := lines), s.active, waiting); }
    case TrainIfNothing(waiting) =>
      if !s.training { StartIsSafe(s, s.active, waiting); }
    case RunDeferred =>
      if !s.training { BeginIsSafe(s.(deferred := None), s.deferred.value); }
    case Switch(_, _) =>
    case EraseDone(waiting) =>
      if !s.training {
        StartIsSafe(s.(erasing := None, corpus := [], published := None, unlearned := 0, corpusLines := 0),
                    s.active, waiting);
      }
  }

  lemma MoveIsSafe(s: State, step: Step)
    requires Safe(s) && Enabled(s, step) && step.Move?
    ensures Safe(Apply(s, step))
  {
    hide Begin, Start, Recorded, Finished, Erased, Prepared, StartIfIdle;
    assert step.run == 0;
    var from, to := Partial(s.runs[0].generation), Generation(s.runs[0].generation);
    if step.moved && from in s.folders && to !in s.folders {
      assert Apply(s, step).folders[to] == s.folders[from];
    }
  }

  lemma TaskStepIsSafe(s: State, step: Step)
    requires Safe(s) && Enabled(s, step) && !OnMainActor(step) && !step.Move?
    ensures Safe(Apply(s, step))
  {
    hide Begin, Start, Recorded, Finished, Erased, Prepared, StartIfIdle;
    assert step.run == 0;
    match step
    case Stage(_, _) =>
    case Write(_, _) =>
    case Check(_) =>
    case Clear(_, _) =>
  }

  lemma FinishIsSafe(s: State, step: Step)
    requires Safe(s) && Enabled(s, step) && step.Finish?
    ensures Safe(Apply(s, step))
  {
    hide Begin, Start, CommitsPerTrainingRun;
    var r := s.runs[0];
    assert s.runs[..0] + s.runs[1..] == [];
    if r.phase == Moved {
      var stale := if step.removed && s.published.Some? then {Generation(s.published.value)} else {};
      StartIsSafe(s.(training := false, runs := [], published := Some(r.generation), folders := s.folders - stale),
                  r.active, step.waiting);
    }
  }

  /** Every step keeps the directory safe, with one exception, which always breaks it. */
  lemma StepIsSafe(s: State, step: Step)
    requires Safe(s) && Enabled(s, step)
    ensures Safe(Apply(s, step)) <==> !Strikes(s, step)
  {
    if step.Move? {
      MoveIsSafe(s, step);
    } else if !OnMainActor(step) {
      TaskStepIsSafe(s, step);
    } else if step.Finish? {
      FinishIsSafe(s, step);
    } else if !step.Restart? && !step.EraseNext? {
      MainStepIsSafe(s, step);
    }
  }

  lemma TaskStepKeepsRuns(s: State, step: Step)
    requires Enabled(s, step) && !OnMainActor(step)
    ensures |Apply(s, step).runs| == |s.runs| && Apply(s, step).training == s.training
  {
    hide Begin, Start, Recorded, Finished, Erased, Prepared, StartIfIdle;
  }

  lemma StartKeepsOneRun(s: State, active: bool, waiting: bool)
    requires OneRun(s) && !s.training
    ensures OneRun(Start(s, active, waiting))
  {
    hide Trimmed, Repeated;
  }

  lemma CallKeepsOneRun(s: State, step: Step)
    requires OneRun(s) && Enabled(s, step) && OnMainActor(step) && !step.Finish? && !step.Restart? && !step.EraseNext?
    ensures OneRun(Apply(s, step))
  {
    hide Begin, CommitsPerTrainingRun, Finished, Prepared;
    if !s.training {
      match step
      case Record(line, written, waiting) =>
        StartKeepsOneRun(s.(corpus := if written then s.corpus + [line] else s.corpus,
                            unlearned := s.unlearned + 1, corpusLines := s.corpusLines + 1), s.active, waiting);
      case UpdateWords(words, waiting) => StartKeepsOneRun(s.(words := words), s.active, waiting);
      case RefreshImport(lines, waiting) => StartKeepsOneRun(s.(imported := lines), s.active, waiting);
      case TrainIfNothing(waiting) => StartKeepsOneRun(s, s.active, waiting);
      case RunDeferred => StartKeepsOneRun(s.(deferred := None), s.deferred.value, false);
      case Switch(_, _) =>
      case EraseDone(waiting) =>
        StartKeepsOneRun(s.(erasing := None, corpus := [], published := None, unlearned := 0, corpusLines := 0),
                         s.active, waiting);
    }
  }

  lemma FinishKeepsOneRun(s: State, step: Step)
    requires OneRun(s) && Enabled(s, step) && step.Finish?
    ensures OneRun(Apply(s, step))
  {
    hide Begin, Start, CommitsPerTrainingRun, Recorded, Erased, Prepared;
    var r := s.runs[0];
    assert s.runs[..0] + s.runs[1..] == [];
    var stale := if step.removed && s.published.Some? then {Generation(s.published.value)} else {};
    StartKeepsOneRun(s.(training := false, runs := [], published := Some(r.generation), folders := s.folders - stale),
                     r.active, step.waiting);
  }

  /** Even when struck, runs go one at a time. */
  lemma StepKeepsOneRun(s: State, step: Step)
    requires OneRun(s) && Enabled(s, step)
    ensures OneRun(Apply(s, step))
  {
    hide Begin, Start, CommitsPerTrainingRun, Recorded, Finished, Erased;
    if !OnMainActor(step) {
      TaskStepKeepsRuns(s, step);
    } else if step.Finish? {
      FinishKeepsOneRun(s, step);
    } else if !step.Restart? && !step.EraseNext? {
      CallKeepsOneRun(s, step);
    }
  }

  lemma RestartIsSafe(s: State, step: Step)
    requires Enabled(s, step) && step.Restart?
    ensures Safe(Apply(s, step)) && Settled(Apply(s, step)) && CaughtUp(Apply(s, step))
    ensures step.swept && !step.base.Broken? ==> IsNewest(Apply(s, step).folders, Apply(s, step).published)
  {
    if step.swept { NewestIsNewest(step.names, WithoutPartials(s.folders, step.stuck)); }
  }

  // ---- Whole runs ----

  ghost predicate Possible(s: State, steps: seq<Step>)
    decreases |steps|
  {
    steps != [] ==> Enabled(s, steps[0]) && Possible(Apply(s, steps[0]), steps[1..])
  }

  ghost function After(s: State, steps: seq<Step>): State
    requires Possible(s, steps)
    decreases |steps|
  {
    if steps == [] then s else After(Apply(s, steps[0]), steps[1..])
  }

  ghost predicate Struck(s: State, steps: seq<Step>)
    requires Possible(s, steps)
    decreases |steps|
  {
    steps != [] && (Strikes(s, steps[0]) || Struck(Apply(s, steps[0]), steps[1..]))
  }

  lemma {:induction false} StaysSafe(s: State, steps: seq<Step>)
    requires Safe(s) && Possible(s, steps) && !Struck(s, steps)
    ensures Safe(After(s, steps))
    decreases |steps|
  {
    hide Safe, Enabled, Apply, Strikes;
    if steps != [] {
      StepIsSafe(s, steps[0]);
      StaysSafe(Apply(s, steps[0]), steps[1..]);
    }
  }

  /** Whatever a process finds on disk, and however its turns, its runs, its erases and further
      restarts interleave, at most one run is in flight and what is published is there and whole,
      unless an erase strikes between a run's last move and its publication. */
  lemma EveryRunIsSafe(disk: State, steps: seq<Step>)
    requires steps != [] && steps[0].Restart? && Possible(disk, steps) && !Struck(disk, steps)
    ensures Safe(After(disk, steps))
  {
    hide Safe, Enabled, Apply;
    RestartIsSafe(disk, steps[0]);
    StaysSafe(Apply(disk, steps[0]), steps[1..]);
  }

  // ---- What a strike leads to ----

  ghost predicate Doomed(s: State, r: Run) {
    s.training && s.runs == [r] && r.phase == Moved && Generation(r.generation) !in s.folders
  }

  predicate Ends(step: Step) {
    step.Restart? || step.Finish?
  }

  lemma StrikeDooms(s: State, step: Step)
    requires Safe(s) && Enabled(s, step) && Strikes(s, step)
    ensures Doomed(Apply(s, step), s.runs[0])
  {
  }

  lemma StepStaysDoomed(s: State, r: Run, step: Step)
    requires Doomed(s, r) && Enabled(s, step) && !Ends(step)
    ensures Doomed(Apply(s, step), r)
  {
    hide Begin, CommitsPerTrainingRun;
  }

  /** A doomed run that still finishes publishes a generation that is not on disk. */
  lemma {:induction false} DoomedRunPublishesNothing(s: State, r: Run, steps: seq<Step>, finish: Step)
    requires Doomed(s, r) && Possible(s, steps) && (forall step :: step in steps ==> !Ends(step))
    requires finish.Finish? && Enabled(After(s, steps), finish)
    ensures var end := Apply(After(s, steps), finish);
            end.published == Some(r.generation) && !Present(end.folders, r.generation)
    decreases |steps|
  {
    hide CommitsPerTrainingRun;
    if steps != [] {
      assert steps[0] in steps;
      StepStaysDoomed(s, r, steps[0]);
      DoomedRunPublishesNothing(Apply(s, steps[0]), r, steps[1..], finish);
    } else {
      assert s.runs[finish.run] == r;
    }
  }

  /** Once struck, whatever happens before its end, a run publishes a generation that is not on
      disk. */
  lemma StruckRunPublishesNothing(s: State, strike: Step, steps: seq<Step>, finish: Step)
    requires Safe(s) && Enabled(s, strike) && Strikes(s, strike)
    requires Possible(Apply(s, strike), steps) && (forall step :: step in steps ==> !Ends(step))
    requires finish.Finish? && Enabled(After(Apply(s, strike), steps), finish)
    ensures var end := Apply(After(Apply(s, strike), steps), finish);
            end.published == Some(s.runs[0].generation) && !Present(end.folders, s.runs[0].generation)
  {
    hide Apply, Enabled, Safe, Possible, After, Present, Doomed;
    StrikeDooms(s, strike);
    DoomedRunPublishesNothing(Apply(s, strike), s.runs[0], steps, finish);
  }

  // ---- No commit waits for nothing ----

  /** With nothing in flight and nothing queued, too few commits are uncounted to ask for a run. */
  predicate CaughtUp(s: State) {
    !s.training && s.deferred.None? ==> s.unlearned < CommitsPerTrainingRun(s.corpusLines)
  }

  /** Runs and queued runs were asked for with personalisation on; off means nothing is counted. */
  predicate Settled(s: State) {
    && (s.deferred.Some? ==> s.deferred.value && s.baseReady)
    && (forall r :: r in s.runs ==> r.active)
    && (s.runs != [] ==> s.baseReady)
    && (!s.active && s.erasing.None? ==> s.unlearned == 0)
    && (s.erasing.Some? ==> !s.active)
  }

  lemma BeginSettles(s: State)
    requires Settled(s) && s.baseReady
    ensures Settled(Begin(s, true)) && Begin(s, true).unlearned == 0
  {
  }

  lemma StartSettles(s: State, waiting: bool)
    requires Settled(s) && s.baseReady
    ensures Settled(Start(s, true, waiting)) && CaughtUp(Start(s, true, waiting))
  {
    BeginSettles(s);
  }

  lemma TaskStepSettles(s: State, step: Step)
    requires Settled(s) && Enabled(s, step) && !OnMainActor(step)
    ensures Settled(Apply(s, step))
  {
    hide Begin, Start, Recorded, Finished, Erased, Prepared, StartIfIdle;
    assert s.runs[step.run] in s.runs;
  }

  lemma CallSettles(s: State, step: Step)
    requires Settled(s) && Enabled(s, step)
    requires step.Record? || step.UpdateWords? || step.RefreshImport? || step.TrainIfNothing? || step.RunDeferred?
    ensures Settled(Apply(s, step))
  {
    hide Begin, Start, CommitsPerTrainingRun, Finished, Erased, Prepared;
    match step
    case Record(line, written, waiting) =>
      if s.active && s.baseReady {
        StartSettles(s.(corpus := if written then s.corpus + [line] else s.corpus,
                        unlearned := s.unlearned + 1, corpusLines := s.corpusLines + 1), waiting);
      }
    case UpdateWords(words, waiting) => if s.baseReady { StartSettles(s.(words := words), waiting); }
    case RefreshImport(lines, waiting) => if s.baseReady { StartSettles(s.(imported := lines), waiting); }
    case TrainIfNothing(waiting) => if s.baseReady { StartSettles(s, waiting); }
    case RunDeferred => BeginSettles(s.(deferred := None));
  }

  lemma StepSettles(s: State, step: Step)
    requires Settled(s) && Enabled(s, step)
    ensures Settled(Apply(s, step))
  {
    hide Begin, Start, CommitsPerTrainingRun;
    if !OnMainActor(step) {
      TaskStepSettles(s, step);
    } else if step.Finish? {
      FinishSettles(s, step);
    } else if step.EraseDone? {
      EraseSettles(s, step);
    } else if !step.Restart? && !step.Switch? && !step.EraseNext? {
      CallSettles(s, step);
    }
  }

  lemma FinishSettles(s: State, step: Step)
    requires Settled(s) && Enabled(s, step) && step.Finish?
    ensures Settled(Apply(s, step))
  {
    hide Begin, Start, CommitsPerTrainingRun;
    var r := s.runs[step.run];
    assert r in s.runs;
    var stale := if step.removed && s.published.Some? then {Generation(s.published.value)} else {};
    StartSettles(s.(training := false, runs := s.runs[..step.run] + s.runs[step.run + 1..],
                    published := Some(r.generation), folders := s.folders - stale), step.waiting);
  }

  /** A failed run leaves behind the commits that arrived while it was going. */
  predicate Loses(s: State, step: Step) {
    && step.Finish? && InPhase(s, step.run, Failed) && s.deferred.None?
    && s.unlearned >= CommitsPerTrainingRun(s.corpusLines)
  }

  lemma FinishCatchesUp(s: State, step: Step)
    requires OneRun(s) && Settled(s) && CaughtUp(s) && Enabled(s, step) && step.Finish?
    ensures CaughtUp(Apply(s, step)) <==> !Loses(s, step)
  {
    hide Begin, Start, CommitsPerTrainingRun;
    var r := s.runs[0];
    var stale := if step.removed && s.published.Some? then {Generation(s.published.value)} else {};
    assert s.runs[..0] + s.runs[1..] == [];
    StartSettles(s.(training := false, runs := [], published := Some(r.generation),
                    folders := s.folders - stale), step.waiting);
  }

  lemma OtherStepCatchesUp(s: State, step: Step)
    requires OneRun(s) && Settled(s) && CaughtUp(s) && Enabled(s, step) && !step.Finish?
    ensures CaughtUp(Apply(s, step))
  {
    hide Begin, Start, CommitsPerTrainingRun, OneRun, Finished;
    CommitsBound();
    match step
    case Record(line, written, waiting) =>
      if s.active && s.baseReady {
        StartSettles(s.(corpus := if written then s.corpus + [line] else s.corpus,
                        unlearned := s.unlearned + 1, corpusLines := s.corpusLines + 1), waiting);
      }
    case UpdateWords(words, waiting) => if s.baseReady { StartSettles(s.(words := words), waiting); }
    case RefreshImport(lines, waiting) => if s.baseReady { StartSettles(s.(imported := lines), waiting); }
    case TrainIfNothing(waiting) => if s.baseReady { StartSettles(s, waiting); }
    case RunDeferred => BeginSettles(s.(deferred := None));
    case EraseDone(_) => EraseSettles(s, step);
    case _ =>
  }

  lemma CommitsBound()
    ensures forall n: nat {:trigger CommitsPerTrainingRun(n)} :: CommitsPerTrainingRun(n) >= 3
  {
  }

  /** An erase starts no run: it only follows a switch-off. */
  lemma EraseSettles(s: State, step: Step)
    requires Settled(s) && Enabled(s, step) && step.EraseDone?
    ensures Apply(s, step) ==
            s.(erasing := None, corpus := [], published := None, unlearned := 0, corpusLines := 0)
  {
  }

  /** No step leaves enough commits waiting with nothing to pick them up, but for a failed run,
      which does so exactly when enough came in during it. */
  lemma StepCatchesUp(s: State, step: Step)
    requires OneRun(s) && Settled(s) && CaughtUp(s) && Enabled(s, step)
    ensures CaughtUp(Apply(s, step)) <==> !Loses(s, step)
  {
    hide Apply, CaughtUp, Settled, Enabled, OneRun;
    if step.Finish? { FinishCatchesUp(s, step); } else { OtherStepCatchesUp(s, step); }
  }

  ghost predicate Lost(s: State, steps: seq<Step>)
    requires Possible(s, steps)
    decreases |steps|
  {
    steps != [] && (Loses(s, steps[0]) || Lost(Apply(s, steps[0]), steps[1..]))
  }

  lemma {:induction false} StaysCaughtUp(s: State, steps: seq<Step>)
    requires OneRun(s) && Settled(s) && CaughtUp(s) && Possible(s, steps) && !Lost(s, steps)
    ensures OneRun(After(s, steps)) && Settled(After(s, steps)) && CaughtUp(After(s, steps))
    decreases |steps|
  {
    hide OneRun, Settled, CaughtUp, Enabled, Apply, Loses;
    if steps != [] {
      StepKeepsOneRun(s, steps[0]);
      StepSettles(s, steps[0]);
      StepCatchesUp(s, steps[0]);
      StaysCaughtUp(Apply(s, steps[0]), steps[1..]);
    }
  }

  /** From any disk, whatever interleaves, commits that ask for a run get one, even those that came
      in during another, unless a run fails with enough of them behind it. */
  lemma EveryRunCatchesUp(disk: State, steps: seq<Step>)
    requires steps != [] && steps[0].Restart? && Possible(disk, steps) && !Lost(disk, steps)
    ensures OneRun(After(disk, steps)) && CaughtUp(After(disk, steps))
  {
    hide Safe, Enabled, Apply, Settled, CaughtUp, Loses, CommitsPerTrainingRun;
    RestartIsSafe(disk, steps[0]);
    SafeIsOneRun(Apply(disk, steps[0]));
    StaysCaughtUp(Apply(disk, steps[0]), steps[1..]);
  }

  lemma SafeIsOneRun(s: State)
    requires Safe(s)
    ensures OneRun(s)
  {
  }

  // ---- Switching off ----

  predicate HasMaterial(s: State) {
    s.words != [] || s.imported != [] || s.corpus != []
  }

  lemma BeginNeedsMaterial(s: State)
    ensures if HasMaterial(s) then |Begin(s, true).runs| == |s.runs| + 1 && Begin(s, true).training
            else Begin(s, true).runs == s.runs && Begin(s, true).training == s.training
  {
    hide Repeated;
    NothingRepeated(s.words);
  }

  lemma NothingRepeated(words: seq<string>)
    ensures Repeated(words) == [] <==> words == []
  {
  }

  /** A queued run checks the settings it was queued with, which were on. Whether personalisation has
      been switched off since makes no difference: a run starts exactly when none is going and there
      is something to train on. */
  lemma QueuedRunIgnoresTheSwitch(s: State)
    requires OneRun(s) && Settled(s) && Enabled(s, RunDeferred)
    ensures |Apply(s, RunDeferred).runs| == |s.runs| + 1 <==> !s.training && HasMaterial(s)
    ensures !s.training ==> Apply(s, RunDeferred) == Begin(s.(deferred := None), true)
  {
    hide Begin;
    BeginNeedsMaterial(s.(deferred := None));
  }

  /** A run that finishes after the switch starts no other: nothing is counted by then. */
  lemma NoFollowUpWhenOff(s: State, step: Step)
    requires Safe(s) && Settled(s) && !s.active && Enabled(s, step) && step.Finish?
    ensures Apply(s, step).runs == [] && Apply(s, step).deferred == s.deferred
  {
    hide Begin, Start;
    assert s.runs[..0] + s.runs[1..] == [];
  }
}
