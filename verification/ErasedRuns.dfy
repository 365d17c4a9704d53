/** What becomes of a training run that an erase catches: which runs still publish, and that a commit
    can survive the erase that was to take it back. */
module ErasedRuns {
  import opened Wrappers
  import opened TrainingScheduler

  // ---- Traces ----

  ghost predicate Leads(s: State, steps: seq<Step>, end: State) {
    Possible(s, steps) && After(s, steps) == end
  }

  lemma Here(s: State)
    ensures Leads(s, [], s)
  {
  }

  lemma {:induction false} LeadsConcat(s: State, a: seq<Step>, middle: State, b: seq<Step>, end: State)
    requires Leads(s, a, middle) && Leads(middle, b, end)
    ensures Leads(s, a + b, end)
    decreases |a|
  {
    hide Enabled, Apply;
    if a == [] {
      assert a + b == b;
    } else {
      LeadsConcat(Apply(s, a[0]), a[1..], middle, b, end);
      assert (a + b)[1..] == a[1..] + b;
    }
  }

  lemma Then(s: State, steps: seq<Step>, middle: State, step: Step)
    requires Leads(s, steps, middle) && Enabled(middle, step)
    ensures Leads(s, steps + [step], Apply(middle, step))
  {
    hide Enabled, Apply;
    Here(Apply(middle, step));
    assert [step][1..] == [];
    LeadsConcat(s, steps, middle, [step], Apply(middle, step));
  }

  // ---- A run left alone ----

  function Writes(): seq<Step> {
    [Write(0, "model_c_abc.marisa"), Write(0, "model_c_bc.marisa"), Write(0, "model_u_abx.marisa"),
     Write(0, "model_u_xbc.marisa"), Write(0, "model_r_xbx.marisa")]
  }

  function Publication(): seq<Step> {
    [Check(0), Clear(0, true), Move(0, true)]
  }

  /** What an undisturbed run does, from its first file operation to its publication. */
  function Undisturbed(): seq<Step> {
    [Stage(0, true)] + Writes() + Publication() + [Finish(0, true, true)]
  }

  /** The state with its one run in a phase and these directories. */
  function At(s: State, phase: Phase, folders: map<Name, Folder>): State
    requires s.runs != []
  {
    s.(folders := folders, runs := [s.runs[0].(phase := phase)])
  }

  function StagedWith(s: State, files: set<string>, text: seq<string>): State
    requires s.runs != []
  {
    At(s, Staged, s.folders[Partial(s.runs[0].generation) := Folder(files, text)])
  }

  /** The directories once the run's own has been moved into place. */
  function MovedFolders(s: State, folder: Folder): map<Name, Folder>
    requires s.runs != []
  {
    var g := s.runs[0].generation;
    (s.folders - {Partial(g), Generation(g)})[Generation(g) := folder]
  }

  lemma WriteStages(s: State, files: set<string>, text: seq<string>, file: string)
    requires |s.runs| == 1 && file in MODEL_FILES
    ensures Enabled(StagedWith(s, files, text), Write(0, file))
    ensures Apply(StagedWith(s, files, text), Write(0, file)) == StagedWith(s, files + {file}, s.runs[0].lines)
  {
    hide Recorded, Finished, Erased, Prepared, StartIfIdle;
  }

  lemma WriteOn(s: State, from: State, steps: seq<Step>, files: set<string>, text: seq<string>, file: string)
    requires |s.runs| == 1 && file in MODEL_FILES && Leads(from, steps, StagedWith(s, files, text))
    ensures Leads(from, steps + [Write(0, file)], StagedWith(s, files + {file}, s.runs[0].lines))
  {
    hide Leads, Enabled, Apply, StagedWith;
    WriteStages(s, files, text, file);
    Then(from, steps, StagedWith(s, files, text), Write(0, file));
  }

  lemma WritesLead(s: State, files: set<string>, text: seq<string>)
    requires |s.runs| == 1
    ensures Leads(StagedWith(s, files, text), Writes(), StagedWith(s, files + MODEL_FILES, s.runs[0].lines))
  {
    hide Leads, StagedWith;
    var from, lines, w := StagedWith(s, files, text), s.runs[0].lines, Writes();
    Here(from);
    WriteOn(s, from, [], files, text, w[0].file);
    var f1 := files + {w[0].file};
    WriteOn(s, from, [] + [w[0]], f1, lines, w[1].file);
    var f2 := f1 + {w[1].file};
    WriteOn(s, from, [] + [w[0]] + [w[1]], f2, lines, w[2].file);
    var f3 := f2 + {w[2].file};
    WriteOn(s, from, [] + [w[0]] + [w[1]] + [w[2]], f3, lines, w[3].file);
    var f4 := f3 + {w[3].file};
    WriteOn(s, from, [] + [w[0]] + [w[1]] + [w[2]] + [w[3]], f4, lines, w[4].file);
    assert [] + [w[0]] + [w[1]] + [w[2]] + [w[3]] + [w[4]] == w;
    assert f4 + {w[4].file} == files + MODEL_FILES;
  }

  lemma CheckPasses(s: State)
    requires OneRun(s) && InPhase(s, 0, Staged) && Partial(s.runs[0].generation) in s.folders
    requires MODEL_FILES <= s.folders[Partial(s.runs[0].generation)].files
    ensures Enabled(s, Check(0)) && Apply(s, Check(0)) == At(s, Checked, s.folders)
  {
    hide Recorded, Finished, Erased, Prepared, StartIfIdle;
  }

  lemma ClearClears(s: State)
    requires OneRun(s) && InPhase(s, 0, Checked)
    ensures Enabled(s, Clear(0, true))
    ensures Apply(s, Clear(0, true)) == At(s, Cleared, s.folders - {Generation(s.runs[0].generation)})
  {
    hide Recorded, Finished, Erased, Prepared, StartIfIdle;
  }

  lemma MoveMoves(s: State)
    requires OneRun(s) && InPhase(s, 0, Cleared)
    requires Partial(s.runs[0].generation) in s.folders && Generation(s.runs[0].generation) !in s.folders
    ensures Enabled(s, Move(0, true))
    ensures Apply(s, Move(0, true)) == At(s, Moved, MovedFolders(s, s.folders[Partial(s.runs[0].generation)]))
  {
    hide Recorded, Finished, Erased, Prepared, StartIfIdle;
    assert Apply(s, Move(0, true)).folders == MovedFolders(s, s.folders[Partial(s.runs[0].generation)]);
  }

  lemma ClearedLeads(s: State)
    requires OneRun(s) && InPhase(s, 0, Cleared)
    requires Partial(s.runs[0].generation) in s.folders && Generation(s.runs[0].generation) !in s.folders
    ensures Leads(s, [Move(0, true)], At(s, Moved, MovedFolders(s, s.folders[Partial(s.runs[0].generation)])))
  {
    hide Leads, Enabled, Apply, At, MovedFolders;
    Here(s);
    MoveMoves(s);
    Then(s, [], s, Move(0, true));
    assert [] + [Move(0, true)] == [Move(0, true)];
  }

  lemma CheckedLeads(s: State)
    requires OneRun(s) && InPhase(s, 0, Checked) && Partial(s.runs[0].generation) in s.folders
    ensures Leads(s, [Clear(0, true), Move(0, true)],
                  At(s, Moved, MovedFolders(s, s.folders[Partial(s.runs[0].generation)])))
  {
    hide Leads, Enabled, Apply;
    Here(s);
    ClearClears(s);
    Then(s, [], s, Clear(0, true));
    var cleared := At(s, Cleared, s.folders - {Generation(s.runs[0].generation)});
    ClearedLeads(cleared);
    LeadsConcat(s, [] + [Clear(0, true)], cleared, [Move(0, true)],
                At(cleared, Moved, MovedFolders(cleared, cleared.folders[Partial(s.runs[0].generation)])));
    assert [] + [Clear(0, true)] + [Move(0, true)] == [Clear(0, true), Move(0, true)];
    assert MovedFolders(cleared, s.folders[Partial(s.runs[0].generation)])
        == MovedFolders(s, s.folders[Partial(s.runs[0].generation)]);
  }

  lemma StagedLeads(s: State)
    requires OneRun(s) && InPhase(s, 0, Staged) && Partial(s.runs[0].generation) in s.folders
    ensures var files := s.folders[Partial(s.runs[0].generation)].files + MODEL_FILES;
            Leads(s, Writes() + Publication(), At(s, Moved, MovedFolders(s, Folder(files, s.runs[0].lines))))
  {
    hide Leads, Enabled, Apply;
    var g, lines := s.runs[0].generation, s.runs[0].lines;
    var staged := s.folders[Partial(g)];
    assert StagedWith(s, staged.files, staged.text) == s;
    WritesLead(s, staged.files, staged.text);
    var written := StagedWith(s, staged.files + MODEL_FILES, lines);
    CheckPasses(written);
    Then(s, Writes(), written, Check(0));
    var checked := At(written, Checked, written.folders);
    CheckedLeads(checked);
    var folder := Folder(staged.files + MODEL_FILES, lines);
    LeadsConcat(s, Writes() + [Check(0)], checked, [Clear(0, true), Move(0, true)],
                At(checked, Moved, MovedFolders(checked, folder)));
    assert Writes() + [Check(0)] + [Clear(0, true), Move(0, true)] == Writes() + Publication();
    assert MovedFolders(checked, folder) == MovedFolders(s, folder);
  }

  lemma StartingLeads(s: State)
    requires OneRun(s) && InPhase(s, 0, Starting)
    ensures Leads(s, [Stage(0, true)] + Writes() + Publication(),
                  At(s, Moved, MovedFolders(s, Folder(MODEL_FILES, s.runs[0].lines))))
  {
    hide Leads, Enabled, Apply;
    StageStages(s);
    Here(s);
    Then(s, [], s, Stage(0, true));
    var staged, folder := StagedWith(s, {}, []), Folder(MODEL_FILES, s.runs[0].lines);
    assert {} + MODEL_FILES == MODEL_FILES;
    StagedLeads(staged);
    LeadsConcat(s, [] + [Stage(0, true)], staged, Writes() + Publication(),
                At(staged, Moved, MovedFolders(staged, folder)));
    assert [] + [Stage(0, true)] + (Writes() + Publication()) == [Stage(0, true)] + Writes() + Publication();
    assert MovedFolders(staged, folder) == MovedFolders(s, folder);
  }

  lemma StageStages(s: State)
    requires OneRun(s) && InPhase(s, 0, Starting)
    ensures Enabled(s, Stage(0, true)) && Apply(s, Stage(0, true)) == StagedWith(s, {}, [])
  {
    hide Recorded, Finished, Erased, Prepared, StartIfIdle;
  }

  // ---- Publication ----

  /** What is published is this run's model, whole, and of exactly its lines. */
  predicate Publishes(s: State, r: Run) {
    && s.published == Some(r.generation) && Present(s.folders, r.generation)
    && s.folders[Generation(r.generation)].text == r.lines
  }

  lemma FinishPublishes(s: State, step: Step)
    requires OneRun(s) && step.Finish? && Enabled(s, step) && InPhase(s, 0, Moved)
    ensures Apply(s, step).published == Some(s.runs[0].generation)
    ensures Apply(s, step).folders ==
            if step.removed && s.published.Some? then s.folders - {Generation(s.published.value)} else s.folders
    ensures step.waiting ==> Apply(s, step).corpus == s.corpus
    ensures Apply(s, step).active == s.active
  {
    hide CommitsPerTrainingRun, Recorded, Erased, Prepared, StartIfIdle, Present, Repeated, Trimmed;
  }

  /** The run is not about to remove its own generation as the one before. */
  predicate Ahead(s: State, r: Run) {
    s.published.Some? ==> r.generation > s.published.value
  }

  lemma MovedPublishes(s: State, folders: map<Name, Folder>, step: Step)
    requires step.Finish? && step.run == 0 && OneRun(s) && s.erasing.None? && s.runs != [] && Ahead(s, s.runs[0])
    requires Present(folders, s.runs[0].generation)
    requires folders[Generation(s.runs[0].generation)].text == s.runs[0].lines
    ensures var moved := At(s, Moved, folders);
            Enabled(moved, step) && Publishes(Apply(moved, step), s.runs[0])
  {
    hide Apply;
    FinishPublishes(At(s, Moved, folders), step);
  }

  /** A run that has not yet made its directory, left alone, publishes exactly the lines it was
      given. */
  lemma UndisturbedPublishes(s: State)
    requires OneRun(s) && s.erasing.None? && InPhase(s, 0, Starting) && Ahead(s, s.runs[0])
    ensures Possible(s, Undisturbed())
    ensures Publishes(After(s, Undisturbed()), s.runs[0])
    ensures After(s, Undisturbed()).corpus == s.corpus && After(s, Undisturbed()).active == s.active
  {
    hide Enabled, Apply, Publishes, Possible, After;
    var finish := Finish(0, true, true);
    var folders := MovedFolders(s, Folder(MODEL_FILES, s.runs[0].lines));
    var moved := At(s, Moved, folders);
    StartingLeads(s);
    MovedPublishes(s, folders, finish);
    FinishPublishes(moved, finish);
    Then(s, [Stage(0, true)] + Writes() + Publication(), moved, finish);
    assert [Stage(0, true)] + Writes() + Publication() + [finish] == Undisturbed();
  }

  // ---- What a run's directories hold ----

  /** From its check on, what a run has staged, and then moved, is whole and of its own lines, if it is
      there at all. */
  ghost predicate Sound(s: State) {
    OneRun(s) && (s.runs != [] ==> Traced(s, s.runs[0]))
  }

  ghost predicate Traced(s: State, r: Run) {
    var from, to := Partial(r.generation), Generation(r.generation);
    && (r.phase == Staged && from in s.folders ==> s.folders[from].files == {} || s.folders[from].text == r.lines)
    && (r.phase in {Checked, Cleared} && from in s.folders ==>
          MODEL_FILES <= s.folders[from].files && s.folders[from].text == r.lines)
    && (r.phase == Moved && to in s.folders ==> Present(s.folders, r.generation) && s.folders[to].text == r.lines)
  }

  lemma StageStaysSound(s: State, step: Step)
    requires Sound(s) && Enabled(s, step) && step.Stage?
    ensures Sound(Apply(s, step))
  {
    hide Recorded, Finished, Erased, Prepared, StartIfIdle;
    assert step.run == 0;
  }

  lemma WriteStaysSound(s: State, step: Step)
    requires Sound(s) && Enabled(s, step) && step.Write?
    ensures Sound(Apply(s, step))
  {
    hide Recorded, Finished, Erased, Prepared, StartIfIdle;
    assert step.run == 0;
  }

  lemma CheckStaysSound(s: State, step: Step)
    requires Sound(s) && Enabled(s, step) && step.Check?
    ensures Sound(Apply(s, step))
  {
    hide Recorded, Finished, Erased, Prepared, StartIfIdle;
    assert step.run == 0;
  }

  lemma ClearStaysSound(s: State, step: Step)
    requires Sound(s) && Enabled(s, step) && step.Clear?
    ensures Sound(Apply(s, step))
  {
    hide Recorded, Finished, Erased, Prepared, StartIfIdle;
    assert step.run == 0;
  }

  lemma MoveStaysSound(s: State, step: Step)
    requires Sound(s) && Enabled(s, step) && step.Move?
    ensures Sound(Apply(s, step))
  {
    hide Recorded, Finished, Erased, Prepared, StartIfIdle;
    assert step.run == 0;
  }

  lemma TaskStepStaysSound(s: State, step: Step)
    requires Sound(s) && Enabled(s, step) && !OnMainActor(step)
    ensures Sound(Apply(s, step))
  {
    hide Apply, Enabled, Sound;
    if step.Stage? { StageStaysSound(s, step); }
    else if step.Write? { WriteStaysSound(s, step); }
    else if step.Check? { CheckStaysSound(s, step); }
    else if step.Clear? { ClearStaysSound(s, step); }
    else { MoveStaysSound(s, step); }
  }

  /** Nothing has happened to the runs and the directories, but that a run may have been started. */
  predicate AtMostStarts(s: State, t: State) {
    t.folders == s.folders && (t.runs == s.runs || (|t.runs| == |s.runs| + 1 && t.runs[|s.runs|].phase == Starting))
  }

  lemma StartOnlyStarts(s: State, active: bool, waiting: bool)
    ensures AtMostStarts(s, Start(s, active, waiting))
  {
    hide Trimmed, Repeated;
  }

  lemma CallOnlyStarts(s: State, step: Step)
    requires Enabled(s, step) && OnMainActor(step)
    requires !step.Finish? && !step.Restart? && !step.EraseNext? && !step.Switch?
    ensures AtMostStarts(s, Apply(s, step))
  {
    hide Begin, CommitsPerTrainingRun, Finished, Prepared;
    match step
    case Record(line, written, waiting) =>
      StartOnlyStarts(s.(corpus := if written then s.corpus + [line] else s.corpus,
                         unlearned := s.unlearned + 1, corpusLines := s.corpusLines + 1), s.active, waiting);
    case UpdateWords(words, waiting) => StartOnlyStarts(s.(words := words), s.active, waiting);
    case RefreshImport(lines, waiting) => StartOnlyStarts(s.(imported := lines), s.active, waiting);
    case TrainIfNothing(waiting) => StartOnlyStarts(s, s.active, waiting);
    case RunDeferred => StartOnlyStarts(s.(deferred := None), s.deferred.value, false);
    case EraseDone(waiting) => StartOnlyStarts(Forgotten(s), s.active, waiting);
  }

  lemma CallStaysSound(s: State, step: Step)
    requires Sound(s) && Enabled(s, step) && OnMainActor(step)
    requires !step.Finish? && !step.Restart? && !step.EraseNext? && !step.Switch?
    ensures Sound(Apply(s, step))
  {
    hide Apply, Enabled;
    StepKeepsOneRun(s, step);
    CallOnlyStarts(s, step);
  }

  /** Every step keeps this, even an erase that strikes. */
  lemma StepStaysSound(s: State, step: Step)
    requires Sound(s) && Enabled(s, step)
    ensures Sound(Apply(s, step))
  {
    hide Begin, CommitsPerTrainingRun, Recorded, Erased, StartIfIdle;
    if !OnMainActor(step) {
      TaskStepStaysSound(s, step);
    } else if step.Finish? {
      FinishStaysSound(s, step);
    } else if !step.Restart? && !step.EraseNext? && !step.Switch? {
      CallStaysSound(s, step);
    }
  }

  lemma FinishStaysSound(s: State, step: Step)
    requires Sound(s) && Enabled(s, step) && step.Finish?
    ensures Sound(Apply(s, step))
  {
    hide CommitsPerTrainingRun, Recorded, Erased, StartIfIdle, Prepared, Trimmed, Repeated;
    StepKeepsOneRun(s, step);
    assert s.runs[..0] + s.runs[1..] == [];
  }

  /** From any disk, over every interleaving, strikes and failed runs included. */
  lemma {:induction false} EveryRunIsSound(disk: State, steps: seq<Step>)
    requires steps != [] && steps[0].Restart? && Possible(disk, steps)
    ensures Sound(After(disk, steps)) && Settled(After(disk, steps))
  {
    hide Enabled, Apply, Settled, Safe;
    RestartIsSafe(disk, steps[0]);
    RestartStartsSound(disk, steps[0]);
    StaysSound(Apply(disk, steps[0]), steps[1..]);
  }

  lemma RestartStartsSound(s: State, step: Step)
    requires Enabled(s, step) && step.Restart?
    ensures Sound(Apply(s, step))
  {
  }

  lemma {:induction false} StaysSound(s: State, steps: seq<Step>)
    requires Sound(s) && Settled(s) && Possible(s, steps)
    ensures Sound(After(s, steps)) && Settled(After(s, steps))
    decreases |steps|
  {
    hide Enabled, Apply, Sound, Settled;
    if steps != [] {
      StepStaysSound(s, steps[0]);
      StepSettles(s, steps[0]);
      StaysSound(Apply(s, steps[0]), steps[1..]);
    }
  }

  // ---- Which runs an erase spares ----

  /** The run still goes ahead to its publication in some interleaving, without a restart. */
  ghost predicate CanStillPublish(s: State, r: Run) {
    exists steps, finish :: EndsPublished(s, r, steps, finish)
  }

  ghost predicate EndsPublished(s: State, r: Run, steps: seq<Step>, finish: Step) {
    && Possible(s, steps) && (forall step :: step in steps ==> !Ends(step))
    && finish.Finish? && Enabled(After(s, steps), finish) && Publishes(Apply(After(s, steps), finish), r)
  }

  /** The run has not made its directory, or the erase has left it where the run now has it. */
  predicate Spared(s: State)
    requires s.runs != []
  {
    var r := s.runs[0];
    || r.phase == Starting
    || (r.phase in {Staged, Checked, Cleared} && Partial(r.generation) in s.folders)
    || (r.phase == Moved && Generation(r.generation) in s.folders)
  }

  ghost predicate Beyond(s: State, generation: nat) {
    && s.training && |s.runs| == 1 && s.runs[0].generation == generation && s.published == None && !Spared(s)
  }

  lemma StepStaysBeyond(s: State, generation: nat, step: Step)
    requires Beyond(s, generation) && Enabled(s, step) && !Ends(step)
    ensures Beyond(Apply(s, step), generation)
  {
    hide Begin, CommitsPerTrainingRun;
  }

  lemma FinishBeyond(s: State, r: Run, step: Step)
    requires Beyond(s, r.generation) && Enabled(s, step) && step.Finish?
    ensures !Publishes(Apply(s, step), r)
  {
    hide CommitsPerTrainingRun, Recorded, Erased, Prepared, StartIfIdle, Trimmed, Repeated;
  }

  lemma {:induction false} BeyondNeverPublishes(s: State, r: Run, steps: seq<Step>, finish: Step)
    requires Beyond(s, r.generation)
    ensures !EndsPublished(s, r, steps, finish)
    decreases |steps|
  {
    hide Beyond, Enabled, Apply, Publishes;
    if Possible(s, steps) && (forall step :: step in steps ==> !Ends(step)) && finish.Finish? {
      if steps == [] {
        if Enabled(s, finish) { FinishBeyond(s, r, finish); }
      } else {
        assert steps[0] in steps && forall step :: step in steps[1..] ==> step in steps;
        StepStaysBeyond(s, r.generation, steps[0]);
        BeyondNeverPublishes(Apply(s, steps[0]), r, steps[1..], finish);
      }
    }
  }

  lemma LedToMoved(s: State, r: Run, steps: seq<Step>, moved: State)
    requires Leads(s, steps, moved) && forall step :: step in steps ==> !Ends(step)
    requires OneRun(moved) && moved.erasing.None? && InPhase(moved, 0, Moved) && Ahead(moved, r)
    requires moved.runs[0].generation == r.generation && moved.runs[0].lines == r.lines
    requires Present(moved.folders, r.generation) && moved.folders[Generation(r.generation)].text == r.lines
    ensures CanStillPublish(s, r)
  {
    hide Leads, Apply, Enabled, Publishes;
    var finish := Finish(0, true, true);
    assert At(moved, Moved, moved.folders) == moved;
    MovedPublishes(moved, moved.folders, finish);
    assert Publishes(Apply(moved, finish), r) by { SamePublication(Apply(moved, finish), moved.runs[0], r); }
    Led(s, steps, moved);
    assert EndsPublished(s, r, steps, finish);
  }

  lemma SamePublication(s: State, q: Run, r: Run)
    requires Publishes(s, q) && q.generation == r.generation && q.lines == r.lines
    ensures Publishes(s, r)
  {
  }

  lemma Led(s: State, steps: seq<Step>, end: State)
    requires Leads(s, steps, end)
    ensures Possible(s, steps) && After(s, steps) == end
  {
  }

  // ---- Erasing, step by step ----

  ghost function ListOf(names: set<Name>): (list: seq<Name>)
    ensures forall name :: name in list <==> name in names
  {
    if names == {} then []
    else
      var name :| name in names;
      [name] + ListOf(names - {name})
  }

  function Removals(names: seq<Name>, removed: bool): (steps: seq<Step>)
    ensures forall step :: step in steps ==> !Ends(step)
  {
    if names == [] then [] else [EraseNext(removed)] + Removals(names[1..], removed)
  }

  function Without(folders: map<Name, Folder>, names: seq<Name>): map<Name, Folder> {
    map name | name in folders && name !in names :: folders[name]
  }

  lemma {:induction false} RemovalsLead(s: State, names: seq<Name>, removed: bool)
    requires s.erasing == Some(names)
    ensures Leads(s, Removals(names, removed),
                  s.(erasing := Some([]), folders := if removed then Without(s.folders, names) else s.folders))
    decreases |names|
  {
    hide Leads, Enabled, Apply;
    if names == [] {
      Here(s);
      assert Without(s.folders, []) == s.folders;
    } else {
      var step := EraseNext(removed);
      RemoveOne(s, names, removed);
      var next := Apply(s, step);
      Here(s);
      Then(s, [], s, step);
      RemovalsLead(next, names[1..], removed);
      assert removed ==> Without(s.folders - {names[0]}, names[1..]) == Without(s.folders, names);
      LeadsConcat(s, [] + [step], next, Removals(names[1..], removed),
                  next.(erasing := Some([]),
                        folders := if removed then Without(next.folders, names[1..]) else next.folders));
      assert [] + [step] + Removals(names[1..], removed) == Removals(names, removed);
    }
  }

  lemma RemoveOne(s: State, names: seq<Name>, removed: bool)
    requires s.erasing == Some(names) && names != []
    ensures Enabled(s, EraseNext(removed))
    ensures Apply(s, EraseNext(removed)) ==
            s.(erasing := Some(names[1..]), folders := if removed then s.folders - {names[0]} else s.folders)
  {
  }

  /** The state an erase leaves once its removals are done. */
  function Forgotten(s: State): State {
    s.(erasing := None, corpus := [], published := None, unlearned := 0, corpusLines := 0)
  }

  lemma EraseEnds(s: State, waiting: bool)
    requires s.erasing == Some([]) && !s.active
    ensures Enabled(s, EraseDone(waiting)) && Apply(s, EraseDone(waiting)) == Forgotten(s)
  {
  }

  lemma SwitchOff(s: State, names: seq<Name>)
    requires s.active && s.erasing.None? && Lists(names, s.folders)
    ensures Enabled(s, Switch(false, names))
    ensures Apply(s, Switch(false, names)) == s.(active := false, erasing := Some(names))
  {
  }

  lemma SwitchOn(s: State, names: seq<Name>)
    requires s.erasing.None? && Lists(names, s.folders)
    ensures Enabled(s, Switch(true, names)) && Apply(s, Switch(true, names)) == s.(active := true)
  {
  }

  // ---- The exact condition ----

  /** The state once a second erase has removed the destination and the run has moved in. */
  function Outrun(s: State, names: seq<Name>): State
    requires s.runs != [] && Partial(s.runs[0].generation) in s.folders
  {
    At(s, Moved, MovedFolders(s, s.folders[Partial(s.runs[0].generation)])).(active := false, erasing := Some(names))
  }

  lemma SecondErase(s: State, rest: seq<Name>)
    requires OneRun(s) && s.erasing.None? && InPhase(s, 0, Cleared) && Lists(rest, s.folders)
    requires Partial(s.runs[0].generation) in s.folders && Generation(s.runs[0].generation) in s.folders
    ensures var names := [Generation(s.runs[0].generation)] + rest;
            Leads(s, [] + [Switch(true, rest)] + [Switch(false, names)] + [EraseNext(true)] + [Move(0, true)],
                  Outrun(s, rest))
  {
    hide Leads, Enabled, Apply;
    var to := Generation(s.runs[0].generation);
    var names := [to] + rest;
    Here(s);
    SwitchOn(s, rest);
    Then(s, [], s, Switch(true, rest));
    var on := s.(active := true);
    SwitchOff(on, names);
    Then(s, [] + [Switch(true, rest)], on, Switch(false, names));
    var off := on.(active := false, erasing := Some(names));
    RemoveOne(off, names, true);
    Then(s, [] + [Switch(true, rest)] + [Switch(false, names)], off, EraseNext(true));
    assert names[1..] == rest;
    var gone := off.(erasing := Some(rest), folders := s.folders - {to});
    MoveMoves(gone);
    Then(s, [] + [Switch(true, rest)] + [Switch(false, names)] + [EraseNext(true)], gone, Move(0, true));
    assert MovedFolders(gone, s.folders[Partial(s.runs[0].generation)])
        == MovedFolders(s, s.folders[Partial(s.runs[0].generation)]);
  }

  lemma EraseFinishes(s: State, rest: seq<Name>)
    requires s.erasing == Some(rest) && !s.active
    ensures Leads(s, Removals(rest, false) + [EraseDone(false)], Forgotten(s))
  {
    hide Leads, Enabled, Apply;
    RemovalsLead(s, rest, false);
    EraseEnds(s.(erasing := Some([])), false);
    Then(s, Removals(rest, false), s.(erasing := Some([])), EraseDone(false));
  }

  /** A cleared run whose destination is still there needs a second erase to take that away. */
  lemma ClearedGetsThrough(s: State)
    requires Sound(s) && s.erasing.None? && s.published.None? && s.runs != []
    requires s.runs[0].phase == Cleared && Partial(s.runs[0].generation) in s.folders
    requires Generation(s.runs[0].generation) in s.folders
    ensures CanStillPublish(s, s.runs[0])
  {
    hide Leads, Enabled, Apply, CanStillPublish;
    var r, rest := s.runs[0], ListOf(s.folders.Keys);
    var names := [Generation(r.generation)] + rest;
    var start := [] + [Switch(true, rest)] + [Switch(false, names)] + [EraseNext(true)] + [Move(0, true)];
    SecondErase(s, rest);
    EraseFinishes(Outrun(s, rest), rest);
    LeadsConcat(s, start, Outrun(s, rest), Removals(rest, false) + [EraseDone(false)], Forgotten(Outrun(s, rest)));
    LedToMoved(s, r, start + (Removals(rest, false) + [EraseDone(false)]), Forgotten(Outrun(s, rest)));
  }

  lemma SparedGetsThrough(s: State)
    requires Sound(s) && s.erasing.None? && s.published.None? && s.runs != [] && Spared(s)
    ensures CanStillPublish(s, s.runs[0])
  {
    hide Leads, Enabled, Apply, CanStillPublish;
    var r := s.runs[0];
    var from, to := Partial(r.generation), Generation(r.generation);
    if r.phase == Starting {
      StartingLeads(s);
      LedToMoved(s, r, [Stage(0, true)] + Writes() + Publication(),
                 At(s, Moved, MovedFolders(s, Folder(MODEL_FILES, r.lines))));
    } else if r.phase == Staged {
      StagedLeads(s);
      LedToMoved(s, r, Writes() + Publication(),
                 At(s, Moved, MovedFolders(s, Folder(s.folders[from].files + MODEL_FILES, r.lines))));
    } else if r.phase == Checked {
      CheckedLeads(s);
      LedToMoved(s, r, [Clear(0, true), Move(0, true)], At(s, Moved, MovedFolders(s, s.folders[from])));
    } else if r.phase == Cleared && to in s.folders {
      ClearedGetsThrough(s);
    } else if r.phase == Cleared {
      ClearedLeads(s);
      LedToMoved(s, r, [Move(0, true)], At(s, Moved, MovedFolders(s, s.folders[from])));
    } else {
      Here(s);
      LedToMoved(s, r, [], s);
    }
  }

  lemma LostForGood(s: State, r: Run)
    requires Beyond(s, r.generation)
    ensures !CanStillPublish(s, r)
  {
    hide Beyond, EndsPublished;
    forall steps, finish ensures !EndsPublished(s, r, steps, finish) {
      BeyondNeverPublishes(s, r, steps, finish);
    }
  }

  /** An erase takes back what a run in flight has read exactly when it caught the run's directory
      between its making and its publication: otherwise, its removals done and the record gone, some
      interleaving still publishes a model of those very lines. */
  lemma EraseSparesExactly(s: State, waiting: bool)
    requires Sound(s) && Settled(s) && s.erasing == Some([]) && s.runs != []
    ensures Apply(s, EraseDone(waiting)).corpus == [] && Apply(s, EraseDone(waiting)).published == None
    ensures CanStillPublish(Apply(s, EraseDone(waiting)), s.runs[0]) <==> Spared(s)
  {
    hide Apply, CanStillPublish;
    var erased := Forgotten(s);
    EraseEnds(s, waiting);
    if Spared(s) { SparedGetsThrough(erased); } else { LostForGood(erased, s.runs[0]); }
  }

  // ---- A commit that outlives its erase ----

  /** Recorded, read by the run it starts, and erased before that run has made its directory: the run
      goes on to publish a model of lines that end with the commit, from a record that is gone. */
  lemma ErasedCommitComesBack(s: State, line: string, names: seq<Name>)
    requires Safe(s) && s.active && s.baseReady && !s.training && s.erasing.None?
    requires s.unlearned + 1 >= CommitsPerTrainingRun(s.corpusLines + 1) && Lists(names, s.folders)
    ensures var steps := [Record(line, true, false), Switch(false, names)] + Removals(names, true)
                         + [EraseDone(false)] + Undisturbed();
            && Possible(s, steps)
            && var end := After(s, steps);
               && !end.active && end.corpus == [] && end.published.Some? && Present(end.folders, end.published.value)
               && var text := end.folders[Generation(end.published.value)].text;
                  text != [] && text[|text| - 1] == line
  {
    hide Leads, Enabled, Apply, Possible, After, Safe, CommitsPerTrainingRun, Present;
    var record, off := Record(line, true, false), Switch(false, names);
    RecordStarts(s, line);
    var recorded := Apply(s, record);
    Here(s);
    Then(s, [], s, record);
    SwitchOff(recorded, names);
    Then(s, [] + [record], recorded, off);
    var switched := recorded.(active := false, erasing := Some(names));
    RemovalsLead(switched, names, true);
    var swept := switched.(erasing := Some([]), folders := Without(switched.folders, names));
    LeadsConcat(s, [] + [record] + [off], switched, Removals(names, true), swept);
    EraseEnds(swept, false);
    Then(s, [] + [record] + [off] + Removals(names, true), swept, EraseDone(false));
    var erased := Forgotten(swept);
    UndisturbedPublishes(erased);
    var end := After(erased, Undisturbed());
    assert Leads(erased, Undisturbed(), end) by { Leading(erased, Undisturbed()); }
    LeadsConcat(s, [] + [record] + [off] + Removals(names, true) + [EraseDone(false)], erased, Undisturbed(), end);
    assert [] + [record] + [off] + Removals(names, true) + [EraseDone(false)] + Undisturbed()
        == [record, off] + Removals(names, true) + [EraseDone(false)] + Undisturbed();
    Led(s, [record, off] + Removals(names, true) + [EraseDone(false)] + Undisturbed(), end);
  }

  lemma Leading(s: State, steps: seq<Step>)
    requires Possible(s, steps)
    ensures Leads(s, steps, After(s, steps))
  {
  }

  /** The commit that reaches the threshold starts a run whose lines end with it. */
  lemma RecordStarts(s: State, line: string)
    requires Safe(s) && s.active && s.baseReady && !s.training && s.erasing.None?
    requires s.unlearned + 1 >= CommitsPerTrainingRun(s.corpusLines + 1)
    ensures Enabled(s, Record(line, true, false))
    ensures var t := Apply(s, Record(line, true, false));
            && OneRun(t) && InPhase(t, 0, Starting) && Ahead(t, t.runs[0])
            && t.active && t.erasing.None? && t.folders == s.folders && t.published == s.published
            && t.runs[0].lines != [] && t.runs[0].lines[|t.runs[0].lines| - 1] == line
  {
    hide Trimmed, Repeated, CommitsPerTrainingRun, Present;
    EndsWith(s.corpus, line);
  }

  lemma EndsWith(corpus: seq<string>, line: string)
    ensures var kept := Trimmed(corpus + [line]); kept != [] && kept[|kept| - 1] == line
  {
  }

  /** The commit that reaches the threshold is learned: left alone, the run it starts publishes a
      model of lines that end with it. */
  lemma CommitIsLearned(s: State, line: string)
    requires Safe(s) && s.active && s.baseReady && !s.training && s.erasing.None?
    requires s.unlearned + 1 >= CommitsPerTrainingRun(s.corpusLines + 1)
    ensures var recorded := Apply(s, Record(line, true, false));
            && Possible(recorded, Undisturbed())
            && var end := After(recorded, Undisturbed());
               && end.published.Some? && Present(end.folders, end.published.value)
               && var text := end.folders[Generation(end.published.value)].text;
                  text != [] && text[|text| - 1] == line
  {
    hide Apply, Enabled, Safe, CommitsPerTrainingRun, Present, Possible, After;
    RecordStarts(s, line);
    UndisturbedPublishes(Apply(s, Record(line, true, false)));
  }

  /** A directory moved into place after the erase has listed what to remove is not on its list. */
  lemma MoveAfterListingSurvives(s: State, names: seq<Name>)
    requires Sound(s) && s.active && s.erasing.None? && s.runs != [] && s.runs[0].phase == Cleared
    requires Partial(s.runs[0].generation) in s.folders && Generation(s.runs[0].generation) !in s.folders
    requires Lists(names, s.folders)
    ensures var steps := [Switch(false, names), Move(0, true)] + Removals(names, true)
                         + [EraseDone(false), Finish(0, true, true)];
            && Possible(s, steps) && Publishes(After(s, steps), s.runs[0])
            && After(s, steps).corpus == [] && !After(s, steps).active
  {
    hide Leads, Enabled, Apply, Possible, After, Publishes;
    var r, off, finish := s.runs[0], Switch(false, names), Finish(0, true, true);
    var folder := s.folders[Partial(r.generation)];
    Here(s);
    SwitchOff(s, names);
    Then(s, [], s, off);
    var switched := s.(active := false, erasing := Some(names));
    MoveMoves(switched);
    Then(s, [] + [off], switched, Move(0, true));
    var moved := At(switched, Moved, MovedFolders(switched, folder));
    RemovalsLead(moved, names, true);
    var swept := moved.(erasing := Some([]), folders := Without(moved.folders, names));
    LeadsConcat(s, [] + [off] + [Move(0, true)], moved, Removals(names, true), swept);
    EraseEnds(swept, false);
    Then(s, [] + [off] + [Move(0, true)] + Removals(names, true), swept, EraseDone(false));
    var erased := Forgotten(swept);
    assert At(erased, Moved, erased.folders) == erased;
    MovedPublishes(erased, erased.folders, finish);
    FinishPublishes(erased, finish);
    SamePublication(Apply(erased, finish), erased.runs[0], r);
    Then(s, [] + [off] + [Move(0, true)] + Removals(names, true) + [EraseDone(false)], erased, finish);
    var steps := [off, Move(0, true)] + Removals(names, true) + [EraseDone(false), finish];
    assert [] + [off] + [Move(0, true)] + Removals(names, true) + [EraseDone(false)] + [finish] == steps;
    Led(s, steps, Apply(erased, finish));
  }
}
