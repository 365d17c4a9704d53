/** What an erase leaves that can be published again, in the same process or after a restart. */
module ErasedRecords {
  import opened Wrappers
  import opened TrainingScheduler
  import opened ErasedRuns

  // ---- Coming back ----

  /** A whole model of exactly these lines is in this generation's directory. */
  predicate HoldsModel(folders: map<Name, Folder>, generation: nat, text: seq<string>) {
    Present(folders, generation) && folders[Generation(generation)].text == text
  }

  /** What is published is a whole model of exactly these lines. */
  predicate Serves(s: State, text: seq<string>) {
    s.published.Some? && HoldsModel(s.folders, s.published.value, text)
  }

  /** The step starts a run that reads these lines anew. */
  ghost predicate Reads(s: State, step: Step, text: seq<string>)
    requires Enabled(s, step)
  {
    exists r :: r in Apply(s, step).runs && r !in s.runs && r.phase == Starting && r.lines == text
  }

  ghost predicate ReadAgain(s: State, steps: seq<Step>, text: seq<string>)
    requires Possible(s, steps)
    decreases |steps|
  {
    steps != [] && (Reads(s, steps[0], text) || ReadAgain(Apply(s, steps[0]), steps[1..], text))
  }

  /** In some interleaving, restarts among its steps, these lines are published though no run has read
      them since. */
  ghost predicate CanComeBack(s: State, text: seq<string>) {
    exists steps :: ComesBack(s, steps, text)
  }

  ghost predicate ComesBack(s: State, steps: seq<Step>, text: seq<string>) {
    Possible(s, steps) && !ReadAgain(s, steps, text) && Serves(After(s, steps), text)
  }

  ghost predicate OnDisk(s: State, text: seq<string>) {
    exists g: nat :: HoldsModel(s.folders, g, text)
  }

  predicate InFlight(s: State, text: seq<string>) {
    s.runs != [] && s.runs[0].lines == text && Spared(s)
  }

  /** A whole model of the lines is left on disk, or the run in flight has read them and is spared. */
  ghost predicate Kept(s: State, text: seq<string>) {
    OnDisk(s, text) || InFlight(s, text)
  }

  // ---- No step brings anything back ----

  lemma TaskModel(s: State, step: Step, g: nat, text: seq<string>)
    requires Sound(s) && Enabled(s, step) && !OnMainActor(step) && HoldsModel(Apply(s, step).folders, g, text)
    ensures HoldsModel(s.folders, g, text) || InFlight(s, text)
  {
    hide Recorded, Finished, Erased, Prepared, StartIfIdle;
    assert step.run == 0;
  }

  lemma TaskRun(s: State, step: Step, text: seq<string>)
    requires Sound(s) && Enabled(s, step) && !OnMainActor(step) && InFlight(Apply(s, step), text)
    ensures InFlight(s, text)
  {
    hide Recorded, Finished, Erased, Prepared, StartIfIdle, Present;
    assert step.run == 0;
  }

  /** No directory appears, and no run but one that starts. */
  predicate NothingMore(s: State, t: State) {
    && (forall name :: name in t.folders ==> name in s.folders && t.folders[name] == s.folders[name])
    && (t.runs == s.runs || t.runs == [] || (t.runs[0].phase == Starting && t.runs[0] !in s.runs))
  }

  lemma FinishAddsNothing(s: State, step: Step)
    requires OneRun(s) && Enabled(s, step) && step.Finish?
    ensures NothingMore(s, Apply(s, step))
  {
    hide CommitsPerTrainingRun, Recorded, Erased, Prepared, StartIfIdle, Trimmed, Repeated;
    assert s.runs[..0] + s.runs[1..] == [];
  }

  lemma MainStepAddsNothing(s: State, step: Step)
    requires OneRun(s) && Enabled(s, step) && OnMainActor(step)
    ensures NothingMore(s, Apply(s, step))
  {
    hide Begin, Start, CommitsPerTrainingRun, Recorded, Finished, Erased, StartIfIdle, Trimmed, NewestComplete;
    if step.Finish? {
      FinishAddsNothing(s, step);
    } else if !step.Restart? && !step.EraseNext? && !step.Switch? {
      CallOnlyStarts(s, step);
      StepKeepsOneRun(s, step);
    }
  }

  lemma MainStepKeepsNoMore(s: State, step: Step, text: seq<string>)
    requires OneRun(s) && Enabled(s, step) && OnMainActor(step)
    requires Kept(Apply(s, step), text) && !Reads(s, step, text)
    ensures Kept(s, text)
  {
    hide Apply, Enabled;
    var t := Apply(s, step);
    MainStepAddsNothing(s, step);
    if t.runs != [] && t.runs != s.runs {
      assert t.runs[0] in t.runs && t.runs[0] !in s.runs && t.runs[0].phase == Starting;
    }
    if OnDisk(t, text) {
      var g: nat :| HoldsModel(t.folders, g, text);
      assert HoldsModel(s.folders, g, text);
    }
  }

  /** A step that does not read the lines anew leaves nothing of them that was not there. */
  lemma StepKeepsNoMore(s: State, step: Step, text: seq<string>)
    requires Sound(s) && Enabled(s, step) && Kept(Apply(s, step), text) && !Reads(s, step, text)
    ensures Kept(s, text)
  {
    hide Apply, Enabled, HoldsModel, InFlight;
    if OnMainActor(step) {
      MainStepKeepsNoMore(s, step, text);
    } else if InFlight(Apply(s, step), text) {
      TaskRun(s, step, text);
    } else {
      var g: nat :| HoldsModel(Apply(s, step).folders, g, text);
      TaskModel(s, step, g, text);
    }
  }

  lemma {:induction false} OnlyKeptComesBack(s: State, steps: seq<Step>, text: seq<string>)
    requires Sound(s) && ComesBack(s, steps, text)
    ensures Kept(s, text)
    decreases |steps|
  {
    hide Apply, Enabled, Reads, Sound, HoldsModel;
    if steps == [] {
      assert HoldsModel(s.folders, s.published.value, text);
    } else {
      StepStaysSound(s, steps[0]);
      OnlyKeptComesBack(Apply(s, steps[0]), steps[1..], text);
      StepKeepsNoMore(s, steps[0], text);
    }
  }

  // ---- A spared run comes back ----

  /** While a run is in flight no other starts. */
  lemma BusyReadsNothing(s: State, step: Step, text: seq<string>)
    requires OneRun(s) && s.runs != [] && Enabled(s, step) && !Ends(step)
    ensures !Reads(s, step, text) && Apply(s, step).runs != []
  {
    hide Begin, Start, CommitsPerTrainingRun, Recorded, Finished, Erased, StartIfIdle;
    if OnMainActor(step) {
      if !step.EraseNext? && !step.Switch? { CallOnlyStarts(s, step); }
      StepKeepsOneRun(s, step);
    } else {
      BusyTask(s, step);
    }
  }

  lemma BusyTask(s: State, step: Step)
    requires OneRun(s) && Enabled(s, step) && !OnMainActor(step)
    ensures |Apply(s, step).runs| == 1
    ensures Apply(s, step).runs[0] in s.runs || Apply(s, step).runs[0].phase != Starting
  {
    hide Recorded, Finished, Erased, Prepared, StartIfIdle;
    assert step.run == 0;
  }

  lemma {:induction false} InFlightComesBack(s: State, r: Run, steps: seq<Step>, finish: Step)
    requires OneRun(s) && s.runs != [] && EndsPublished(s, r, steps, finish) && finish.waiting
    ensures ComesBack(s, steps + [finish], r.lines)
    decreases |steps|
  {
    hide Apply, Enabled, Publishes, Reads, OneRun;
    if steps == [] {
      LastFinish(s, r, finish);
      assert ComesBack(Apply(s, finish), [], r.lines);
      FirstStep(s, finish, [], r.lines);
      assert [] + [finish] == [finish] + [];
    } else {
      var next := Apply(s, steps[0]);
      assert steps[0] in steps && forall step :: step in steps[1..] ==> step in steps;
      BusyReadsNothing(s, steps[0], r.lines);
      StepKeepsOneRun(s, steps[0]);
      InFlightComesBack(next, r, steps[1..], finish);
      assert (steps + [finish])[1..] == steps[1..] + [finish];
    }
  }

  lemma LastFinish(s: State, r: Run, finish: Step)
    requires OneRun(s) && Enabled(s, finish) && finish.Finish? && finish.waiting
    requires Publishes(Apply(s, finish), r)
    ensures !Reads(s, finish, r.lines) && Serves(Apply(s, finish), r.lines)
  {
    hide Begin, CommitsPerTrainingRun, Recorded, Erased, Prepared, StartIfIdle, Present;
    assert s.runs[..0] + s.runs[1..] == [];
  }

  /** Whether the follow-up of a finish has to wait changes nothing in what it publishes. */
  lemma WaitingPublishes(s: State, r: Run, finish: Step)
    requires Enabled(s, finish) && finish.Finish? && Publishes(Apply(s, finish), r)
    ensures var waiting := Finish(finish.run, finish.removed, true);
            Enabled(s, waiting) && Publishes(Apply(s, waiting), r)
  {
    hide Begin, CommitsPerTrainingRun, Recorded, Erased, Prepared, StartIfIdle, Present;
  }

  lemma SparedComesBack(s: State, text: seq<string>)
    requires Sound(s) && s.erasing.None? && s.published.None? && InFlight(s, text)
    ensures CanComeBack(s, text)
  {
    hide Apply, Enabled, Publishes, Spared, ComesBack;
    var r := s.runs[0];
    SparedGetsThrough(s);
    var steps, finish :| EndsPublished(s, r, steps, finish);
    WaitingPublishes(After(s, steps), r, finish);
    var waiting := Finish(finish.run, finish.removed, true);
    assert EndsPublished(s, r, steps, waiting);
    InFlightComesBack(s, r, steps, waiting);
  }

  // ---- A model left on disk comes back ----

  /** The removals of an erase, all but one of which succeed. */
  function AllBut(names: seq<Name>, kept: Name): seq<Step> {
    if names == [] then [] else [EraseNext(names[0] != kept)] + AllBut(names[1..], kept)
  }

  function Left(folders: map<Name, Folder>, names: seq<Name>, kept: Name): map<Name, Folder> {
    map name | name in folders && (name !in names || name == kept) :: folders[name]
  }

  lemma {:induction false} AllButLead(s: State, names: seq<Name>, kept: Name)
    requires s.erasing == Some(names)
    ensures Leads(s, AllBut(names, kept), s.(erasing := Some([]), folders := Left(s.folders, names, kept)))
    decreases |names|
  {
    hide Leads, Enabled, Apply;
    Here(s);
    if names == [] {
      assert Left(s.folders, [], kept) == s.folders;
    } else {
      var step := EraseNext(names[0] != kept);
      RemoveOne(s, names, names[0] != kept);
      var next := Apply(s, step);
      Then(s, [], s, step);
      AllButLead(next, names[1..], kept);
      assert Left(next.folders, names[1..], kept) == Left(s.folders, names, kept);
      LeadsConcat(s, [] + [step], next, AllBut(names[1..], kept),
                  next.(erasing := Some([]), folders := Left(next.folders, names[1..], kept)));
      assert [] + [step] + AllBut(names[1..], kept) == AllBut(names, kept);
    }
  }

  /** The steps of an erase and of a restart start no run once personalisation is off. */
  predicate Idles(step: Step) {
    step.EraseNext? || step.EraseDone? || step.Switch? || (step.Restart? && !step.active)
  }

  lemma IdleReadsNothing(s: State, step: Step, text: seq<string>)
    requires Enabled(s, step) && Idles(step) && (step.EraseDone? ==> !s.active)
    ensures !Reads(s, step, text)
  {
    hide CommitsPerTrainingRun, Recorded, Finished, Present, Lists, NewestComplete;
  }

  lemma {:induction false} OffReadsNothing(s: State, steps: seq<Step>, text: seq<string>)
    requires !s.active && Possible(s, steps)
    requires forall step :: step in steps ==> Idles(step) && !step.Switch?
    ensures !ReadAgain(s, steps, text)
    decreases |steps|
  {
    hide Enabled, Reads;
    if steps != [] {
      assert steps[0] in steps && forall step :: step in steps[1..] ==> step in steps;
      IdleReadsNothing(s, steps[0], text);
      OffReadsNothing(Apply(s, steps[0]), steps[1..], text);
    }
  }

  lemma {:induction false} AllButIdles(names: seq<Name>, kept: Name)
    ensures forall step :: step in AllBut(names, kept) ==> Idles(step) && !step.Switch?
  {
    if names != [] { AllButIdles(names[1..], kept); }
  }

  function Revival(names: seq<Name>, kept: Name): seq<Step> {
    AllBut(names, kept) + [EraseDone(false), Restart(false, true, {}, Usable, [], [kept])]
  }

  lemma RestartFinds(s: State, g: nat, text: seq<string>)
    requires HoldsModel(s.folders, g, text) && s.folders.Keys == {Generation(g)}
    ensures var restart := Restart(false, true, {}, Usable, [], [Generation(g)]);
            && Enabled(s, restart) && Serves(Apply(s, restart), text)
            && !Apply(s, restart).active && (s.corpus == [] ==> Apply(s, restart).corpus == [])
  {
    assert WithoutPartials(s.folders, {}) == s.folders;
  }

  /** An erase under way whose removals fail for one directory, and a restart: the record is gone, and
      the model that was learned from it is published again. */
  lemma RevivalLeads(s: State, names: seq<Name>, g: nat, text: seq<string>)
    requires s.erasing == Some(names) && !s.active && Lists(names, s.folders) && HoldsModel(s.folders, g, text)
    ensures ComesBack(s, Revival(names, Generation(g)), text)
    ensures var end := After(s, Revival(names, Generation(g))); !end.active && end.corpus == []
  {
    hide Leads, Enabled, Apply, Reads, Possible, After, ReadAgain;
    var kept := Generation(g);
    var swept := s.(erasing := Some([]), folders := Left(s.folders, names, kept));
    AllButLead(s, names, kept);
    EraseEnds(swept, false);
    Then(s, AllBut(names, kept), swept, EraseDone(false));
    var erased, restart := Forgotten(swept), Restart(false, true, {}, Usable, [], [kept]);
    assert erased.folders.Keys == {kept};
    assert HoldsModel(erased.folders, g, text) by { SameModel(s.folders, erased.folders, g, text); }
    RestartFinds(erased, g, text);
    Then(s, AllBut(names, kept) + [EraseDone(false)], erased, restart);
    assert AllBut(names, kept) + [EraseDone(false)] + [restart] == Revival(names, kept);
    Led(s, Revival(names, kept), Apply(erased, restart));
    AllButIdles(names, kept);
    OffReadsNothing(s, Revival(names, kept), text);
  }

  lemma SameModel(a: map<Name, Folder>, b: map<Name, Folder>, g: nat, text: seq<string>)
    requires HoldsModel(a, g, text) && Generation(g) in b && b[Generation(g)] == a[Generation(g)]
    ensures HoldsModel(b, g, text)
  {
  }

  /** A model on disk, the newest or not: switch on, switch off with every removal but its own
      succeeding, restart. */
  lemma LeftComesBack(s: State, text: seq<string>)
    requires s.erasing.None? && OnDisk(s, text)
    ensures CanComeBack(s, text)
  {
    hide Enabled, Apply, Reads, Present, HoldsModel, Lists;
    var g: nat :| HoldsModel(s.folders, g, text);
    var names := ListOf(s.folders.Keys);
    assert Lists(names, s.folders) by { ListsAll(s.folders); }
    var on, off := Switch(true, names), Switch(false, names);
    SwitchOn(s, names);
    var active := Apply(s, on);
    SwitchOff(active, names);
    var erasing := Apply(active, off);
    RevivalLeads(erasing, names, g, text);
    var revival := Revival(names, Generation(g));
    IdleReadsNothing(s, on, text);
    IdleReadsNothing(active, off, text);
    FirstStep(active, off, revival, text);
    FirstStep(s, on, [off] + revival, text);
    assert ComesBack(s, [on] + ([off] + revival), text);
  }

  lemma ListsAll(folders: map<Name, Folder>)
    ensures Lists(ListOf(folders.Keys), folders)
  {
  }

  lemma FirstStep(s: State, step: Step, steps: seq<Step>, text: seq<string>)
    requires Enabled(s, step) && !Reads(s, step, text) && ComesBack(Apply(s, step), steps, text)
    ensures ComesBack(s, [step] + steps, text)
  {
    hide Enabled, Apply, Reads, Serves;
    assert ([step] + steps)[0] == step && ([step] + steps)[1..] == steps;
  }

  // ---- The condition for the whole property ----

  /** At the end of an erase, lines read before it can be published again without being read again,
      restarts allowed, exactly when a whole model of them is still on disk or the run in flight has
      read them and was spared. */
  lemma EraseForgetsExactly(s: State, waiting: bool, text: seq<string>)
    requires Sound(s) && Settled(s) && s.erasing == Some([])
    ensures CanComeBack(Apply(s, EraseDone(waiting)), text) <==> Kept(s, text)
  {
    hide Apply, ComesBack, Spared;
    var erased := Forgotten(s);
    EraseEnds(s, waiting);
    assert SameRun(s, erased);
    SparedAlike(s, erased);
    assert OnDisk(erased, text) <==> OnDisk(s, text);
    if OnDisk(s, text) { LeftComesBack(erased, text); }
    if InFlight(s, text) { SparedComesBack(erased, text); }
    if CanComeBack(erased, text) {
      var steps :| ComesBack(erased, steps, text);
      OnlyKeptComesBack(erased, steps, text);
    }
  }

  predicate SameRun(s: State, t: State) {
    s.runs == t.runs && s.folders == t.folders
  }

  lemma SparedAlike(s: State, t: State)
    requires SameRun(s, t)
    ensures s.runs != [] ==> (Spared(s) <==> Spared(t))
  {
  }

  /** So an erase leaves nothing to come back exactly when no whole generation is left and no run was
      spared. */
  lemma EraseForgetsAll(s: State, waiting: bool)
    requires Sound(s) && Settled(s) && s.erasing == Some([])
    ensures (forall text :: !CanComeBack(Apply(s, EraseDone(waiting)), text))
            <==> (forall g: nat :: !Present(s.folders, g)) && (s.runs == [] || !Spared(s))
  {
    hide Apply, CanComeBack, Spared, Present;
    var end := Apply(s, EraseDone(waiting));
    forall text ensures CanComeBack(end, text) <==> Kept(s, text) { EraseForgetsExactly(s, waiting, text); }
    if g: nat :| Present(s.folders, g) {
      assert HoldsModel(s.folders, g, s.folders[Generation(g)].text) by { ItsOwnModel(s.folders, g); }
      assert Kept(s, s.folders[Generation(g)].text);
    }
    if s.runs != [] && Spared(s) { assert Kept(s, s.runs[0].lines); }
  }

  lemma ItsOwnModel(folders: map<Name, Folder>, g: nat)
    requires Present(folders, g)
    ensures Generation(g) in folders && HoldsModel(folders, g, folders[Generation(g)].text)
  {
  }
}
