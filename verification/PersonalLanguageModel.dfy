/** The personal model's own fields, its main-actor methods, and the file operations of its training
    task, each proved to be one step of the scheduler. The clock and the outcome of each file
    operation are parameters. */
module PersonalLanguageModels {
  import opened Wrappers
  import opened TrainingScheduler

  /** The newest generation first, each tried for completeness. */
  method NewestCompleteGeneration(names: seq<Name>, folders: map<Name, Folder>) returns (newest: Option<nat>)
    ensures newest == NewestComplete(names, folders)
  {
    var numbers: seq<nat> := [];
    for i := 0 to |names|
      invariant forall g: nat :: g in numbers <==> Generation(g) in names[..i]
    {
      if names[i].Generation? { numbers := numbers + [names[i].number]; }
    }
    while numbers != []
      invariant forall g: nat :: g in numbers ==> Generation(g) in names
      invariant forall g: nat :: Generation(g) in names && Present(folders, g) ==> g in numbers
      decreases |numbers|
    {
      var top := 0;
      for i := 1 to |numbers|
        invariant 0 <= top < |numbers|
        invariant forall j :: 0 <= j < i ==> numbers[j] <= numbers[top]
      {
        if numbers[i] > numbers[top] { top := i; }
      }
      if Present(folders, numbers[top]) {
        assert numbers[top] in numbers;
        return Some(numbers[top]);
      }
      var rest := numbers[..top] + numbers[top + 1..];
      forall g: nat | Generation(g) in names && Present(folders, g) ensures g in rest {
        var j :| 0 <= j < |numbers| && numbers[j] == g;
        assert if j < top then rest[j] == g else rest[j - 1] == g;
      }
      numbers := rest;
    }
    newest := None;
  }

  method TrainingLines(words: seq<string>) returns (lines: seq<string>)
    ensures lines == Repeated(words)
  {
    lines := [];
    var i := |words|;
    while i > 0
      invariant 0 <= i <= |words|
      invariant lines == Repeated(words[i..])
    {
      i := i - 1;
      assert words[i..][1..] == words[i + 1..];
      lines := seq(WORD_WEIGHT, k => words[i]) + lines;
    }
  }

  class PersonalLanguageModel {
    var active: bool
    var baseReady: bool
    var words: seq<string>
    var imported: seq<string>
    var corpus: seq<string>
    var folders: map<Name, Folder>
    var published: Option<nat>
    var training: bool
    var unlearned: nat
    var corpusLines: nat
    var deferred: Option<bool>
    var runs: seq<Run>
    var erasing: Option<seq<Name>>

    ghost function View(): State
      reads this
    {
      State(active, baseReady, words, imported, corpus, folders, published, training, unlearned,
            corpusLines, deferred, runs, erasing)
    }

    constructor (disk: State, active: bool)
      ensures View() == Blank(disk, active)
    {
      this.active, baseReady, words, imported := active, false, [], [];
      corpus, folders, published := disk.corpus, disk.folders, None;
      training, unlearned, corpusLines, deferred, runs, erasing := false, 0, 0, None, [], None;
    }

    method Prepare(swept: bool, listed: seq<Name>, stuck: set<Name>, base: Base,
                   importedText: seq<string>, names: seq<Name>)
      requires Lists(listed, folders)
      modifies this
      ensures View() == Prepared(old(View()), swept, stuck, base, importedText, names)
    {
      hide Trimmed, NewestComplete, WithoutPartials, Present;
      if !swept { return; }
      DiscardPartialGenerations(listed, stuck);
      if base.Broken? { return; }
      var newest := NewestCompleteGeneration(names, folders);
      var read := ReadCorpus();
      baseReady, corpusLines, imported, published := base.Usable?, |read|, importedText, newest;
    }

    /** Each unfinished directory of the listing goes, unless its removal fails. */
    method DiscardPartialGenerations(listed: seq<Name>, stuck: set<Name>)
      requires Lists(listed, folders)
      modifies `folders
      ensures folders == WithoutPartials(old(folders), stuck)
    {
      var i := 0;
      while i < |listed|
        invariant 0 <= i <= |listed|
        invariant forall name :: name in folders <==>
                    name in old(folders) && (name.Generation? || name in stuck || name !in listed[..i])
        invariant forall name :: name in folders ==> folders[name] == old(folders)[name]
      {
        if listed[i].Partial? && listed[i] !in stuck { folders := folders - {listed[i]}; }
        i := i + 1;
      }
    }

    method ReadCorpus() returns (lines: seq<string>)
      modifies `corpus
      ensures lines == corpus == Trimmed(old(corpus))
    {
      if |corpus| > CORPUS_LIMIT {
        corpus := corpus[|corpus| - CORPUS_LIMIT..];
      }
      lines := corpus;
    }

    method BeginTraining(settingsActive: bool)
      modifies this
      ensures View() == Begin(old(View()), settingsActive)
    {
      hide Repeated, Trimmed;
      var read: seq<string> := [];
      if settingsActive { read := ReadCorpus(); }
      corpusLines := |read|;
      var lines := TrainingLines(words);
      lines := lines + imported + read;
      unlearned := 0;
      if lines == [] { return; }
      var generation := if published.Some? then published.value + 1 else 1;
      training := true;
      runs := runs + [Run(generation, lines, settingsActive, Starting)];
    }

    method StartTraining(settingsActive: bool, waiting: bool)
      modifies this
      ensures View() == Start(old(View()), settingsActive, waiting)
    {
      if waiting {
        if deferred.Some? { return; }
        deferred := Some(settingsActive);
        return;
      }
      BeginTraining(settingsActive);
    }

    method Record(line: string, written: bool, waiting: bool)
      requires Enabled(View(), Step.Record(line, written, waiting))
      modifies this
      ensures View() == Apply(old(View()), Step.Record(line, written, waiting))
    {
      hide Start, CommitsPerTrainingRun;
      if !active || !baseReady { return; }
      if written { corpus := corpus + [line]; }
      unlearned := unlearned + 1;
      corpusLines := corpusLines + 1;
      if unlearned >= CommitsPerTrainingRun(corpusLines) && !training {
        StartTraining(active, waiting);
      }
    }

    method UpdateRegisteredWords(newWords: seq<string>, waiting: bool)
      requires Enabled(View(), UpdateWords(newWords, waiting))
      modifies this
      ensures View() == Apply(old(View()), UpdateWords(newWords, waiting))
    {
      hide Start;
      if newWords == words { return; }
      words := newWords;
      if active && baseReady && !training { StartTraining(active, waiting); }
    }

    method RefreshImportedText(lines: seq<string>, waiting: bool)
      requires Enabled(View(), RefreshImport(lines, waiting))
      modifies this
      ensures View() == Apply(old(View()), RefreshImport(lines, waiting))
    {
      hide Start;
      imported := lines;
      if active && baseReady && !training { StartTraining(active, waiting); }
    }

    method TrainIfNothingPublished(waiting: bool)
      requires Enabled(View(), TrainIfNothing(waiting))
      modifies this
      ensures View() == Apply(old(View()), TrainIfNothing(waiting))
    {
      hide Start;
      if published.Some? { return; }
      if !(active && baseReady && !training) { return; }
      if words == [] && imported == [] { return; }
      StartTraining(active, waiting);
    }

    /** The body of the queued task, once its wait is over. */
    method RunDeferredTask()
      requires Enabled(View(), RunDeferred)
      modifies this
      ensures View() == Apply(old(View()), RunDeferred)
    {
      hide Begin;
      var captured := deferred.value;
      deferred := None;
      if captured && baseReady && !training { BeginTraining(captured); }
    }

    method UpdateSettings(nowActive: bool, names: seq<Name>)
      requires Enabled(View(), Switch(nowActive, names))
      modifies this
      ensures View() == Apply(old(View()), Switch(nowActive, names))
    {
      var was := active;
      active := nowActive;
      if was && !nowActive { erasing := Some(names); }
    }

    method EraseOne(removed: bool)
      requires Enabled(View(), EraseNext(removed))
      modifies this
      ensures View() == Apply(old(View()), EraseNext(removed))
    {
      var name := erasing.value[0];
      if removed { folders := folders - {name}; }
      erasing := Some(erasing.value[1..]);
    }

    method FinishErase(waiting: bool)
      requires Enabled(View(), EraseDone(waiting))
      modifies this
      ensures View() == Erased(old(View()), waiting)
    {
      hide Start, Recorded, Finished, Prepared;
      erasing := None;
      corpus := [];
      published := None;
      unlearned := 0;
      corpusLines := 0;
      var explicit := words != [] || imported != [];
      if active && baseReady && explicit && !training { StartTraining(active, waiting); }
    }

    // ---- The training task ----

    method StageFolder(run: nat, made: bool)
      requires Enabled(View(), Stage(run, made))
      modifies this
      ensures View() == Apply(old(View()), Stage(run, made))
    {
      var staging := Partial(runs[run].generation);
      folders := folders - {staging};
      if made {
        folders := folders[staging := Folder({}, [])];
        SetPhase(run, Staged);
        assert folders == old(folders)[staging := Folder({}, [])];
      } else {
        SetPhase(run, Failed);
      }
    }

    method SetPhase(run: nat, phase: Phase)
      requires run < |runs|
      modifies `runs
      ensures View() == InTurn(old(View()), run, phase)
    {
      runs := runs[run := runs[run].(phase := phase)];
    }

    method WriteFile(run: nat, file: string)
      requires Enabled(View(), Write(run, file))
      modifies this
      ensures View() == Apply(old(View()), Write(run, file))
    {
      var staging := Partial(runs[run].generation);
      if staging in folders {
        folders := folders[staging := Folder(folders[staging].files + {file}, runs[run].lines)];
      }
    }

    method CheckComplete(run: nat)
      requires Enabled(View(), Check(run))
      modifies this
      ensures View() == Apply(old(View()), Check(run))
    {
      var staging := Partial(runs[run].generation);
      if staging in folders && MODEL_FILES <= folders[staging].files {
        SetPhase(run, Checked);
      } else {
        folders := folders - {staging};
        SetPhase(run, Failed);
      }
    }

    method ClearDestination(run: nat, removed: bool)
      requires Enabled(View(), Clear(run, removed))
      modifies this
      ensures View() == Apply(old(View()), Clear(run, removed))
    {
      if removed { folders := folders - {Generation(runs[run].generation)}; }
      SetPhase(run, Cleared);
    }

    method MoveIntoPlace(run: nat, moved: bool)
      requires Enabled(View(), Move(run, moved))
      modifies this
      ensures View() == Apply(old(View()), Move(run, moved))
    {
      var staging, destination := Partial(runs[run].generation), Generation(runs[run].generation);
      if moved && staging in folders && destination !in folders {
        folders := (folders - {staging})[destination := folders[staging]];
        SetPhase(run, Moved);
      } else {
        folders := folders - {staging};
        SetPhase(run, Failed);
      }
    }

    method FinishTraining(run: nat, removed: bool, waiting: bool)
      requires Enabled(View(), Finish(run, removed, waiting))
      modifies this
      ensures View() == Finished(old(View()), run, removed, waiting)
    {
      hide Start, CommitsPerTrainingRun, Recorded, Erased, Prepared, StartIfIdle, Present;
      var done := runs[run];
      training := false;
      runs := runs[..run] + runs[run + 1..];
      if done.phase != Moved { return; }
      var previous := published;
      published := Some(done.generation);
      if previous.Some? && removed { folders := folders - {Generation(previous.value)}; }
      assert folders == old(folders) - if removed && previous.Some? then {Generation(previous.value)} else {};
      if unlearned >= CommitsPerTrainingRun(corpusLines) {
        StartTraining(done.active, waiting);
      }
    }
  }
}
