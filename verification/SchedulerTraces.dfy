/** Runs that reach the scheduler's exceptions: a strike, commits lost behind a failed run, a queued
    run that starts after personalisation was switched off, and commits that outlive their erase. */
module SchedulerTraces {
  import opened Wrappers
  import opened TrainingScheduler
  import opened ErasedRecords
  import opened ErasedRuns

  /** A process that has never run, beside an empty directory. */
  const NOTHING: State := State(false, false, [], [], [], map[], None, false, 0, 0, None, [], None)

  /** Startup with some imported text and no model yet: a first run is asked for. */
  function Opening(imported: seq<string>): seq<Step> {
    [Restart(true, true, {}, Usable, imported, []), TrainIfNothing(false)]
  }

  function Opened(imported: seq<string>): State {
    State(true, true, [], imported, [], map[], None, true, 0, 0, None, [Run(1, imported, true, Starting)], None)
  }

  lemma OpeningLeads(imported: seq<string>)
    requires imported != []
    ensures Leads(NOTHING, Opening(imported), Opened(imported)) && OneRun(Opened(imported))
  {
    hide Leads;
    var ready := Opened(imported).(training := false, runs := []);
    var restart := Restart(true, true, {}, Usable, imported, []);
    Here(NOTHING);
    RestartReady(imported);
    Then(NOTHING, [], NOTHING, restart);
    TrainStarts(imported);
    Then(NOTHING, [] + [restart], ready, TrainIfNothing(false));
    assert [] + [restart] + [TrainIfNothing(false)] == Opening(imported);
  }

  lemma RestartReady(imported: seq<string>)
    ensures Enabled(NOTHING, Opening(imported)[0])
    ensures Apply(NOTHING, Opening(imported)[0]) == Opened(imported).(training := false, runs := [])
  {
    assert WithoutPartials(map[], {}) == map[];
  }

  lemma TrainStarts(imported: seq<string>)
    requires imported != []
    ensures var ready := Opened(imported).(training := false, runs := []);
            Enabled(ready, TrainIfNothing(false)) && Apply(ready, TrainIfNothing(false)) == Opened(imported)
  {
    assert [] + imported + [] == imported;
  }

  // ---- A strike ----

  lemma {:induction false} StruckLater(s: State, a: seq<Step>, middle: State, b: seq<Step>)
    requires Leads(s, a, middle) && Possible(middle, b) && Struck(middle, b)
    ensures Possible(s, a + b) && Struck(s, a + b)
    decreases |a|
  {
    hide Enabled, Apply, Strikes;
    if a == [] {
      assert a + b == b;
    } else {
      StruckLater(Apply(s, a[0]), a[1..], middle, b);
      assert (a + b)[1..] == a[1..] + b;
    }
  }

  lemma {:induction false} StruckSooner(s: State, a: seq<Step>, end: State, b: seq<Step>)
    requires Leads(s, a, end) && Struck(s, a) && Possible(end, b)
    ensures Possible(s, a + b) && Struck(s, a + b)
    decreases |a|
  {
    hide Enabled, Apply, Strikes;
    Leading(end, b);
    LeadsConcat(s, a, end, b, After(end, b));
    assert (a + b)[0] == a[0];
    if !Strikes(s, a[0]) {
      StruckSooner(Apply(s, a[0]), a[1..], end, b);
      assert (a + b)[1..] == a[1..] + b;
    }
  }

  /** Removals that come to the directory a run has moved into place strike it. */
  lemma {:induction false} RemovalsStrike(s: State, names: seq<Name>)
    requires OneRun(s) && InPhase(s, 0, Moved) && s.erasing == Some(names)
    requires Generation(s.runs[0].generation) in names
    ensures Possible(s, Removals(names, true)) && Struck(s, Removals(names, true))
    decreases |names|
  {
    hide Apply, Enabled;
    var steps := Removals(names, true);
    RemovalsLead(s, names, true);
    RemoveOne(s, names, true);
    assert steps == [EraseNext(true)] + Removals(names[1..], true);
    assert steps[1..] == Removals(names[1..], true);
    if names[0] != Generation(s.runs[0].generation) {
      RemovalsStrike(Apply(s, EraseNext(true)), names[1..]);
    }
  }

  function StrikingErase(names: seq<Name>): seq<Step> {
    [Switch(false, names)] + Removals(names, true) + [EraseDone(false), Finish(0, true, true)]
  }

  /** Switching off between a run's move and its publication strikes it, and the generation it then
      publishes is not there. */
  lemma MovedRunIsStruck(s: State, names: seq<Name>)
    requires OneRun(s) && s.active && s.erasing.None? && InPhase(s, 0, Moved)
    requires Generation(s.runs[0].generation) in s.folders && Lists(names, s.folders)
    ensures Possible(s, StrikingErase(names)) && Struck(s, StrikingErase(names))
    ensures var end := After(s, StrikingErase(names));
            end.published == Some(s.runs[0].generation) && !Present(end.folders, s.runs[0].generation)
  {
    hide Leads, Apply, Enabled, Struck, Possible, After;
    var off, finish := Switch(false, names), Finish(0, true, true);
    Here(s);
    SwitchOff(s, names);
    Then(s, [], s, off);
    var switched := s.(active := false, erasing := Some(names));
    RemovalsLead(switched, names, true);
    var swept := switched.(erasing := Some([]), folders := Without(s.folders, names));
    LeadsConcat(s, [] + [off], switched, Removals(names, true), swept);
    RemovalsStrike(switched, names);
    StruckLater(s, [] + [off], switched, Removals(names, true));
    EraseEnds(swept, false);
    Here(swept);
    Then(swept, [], swept, EraseDone(false));
    var erased := Forgotten(swept);
    FinishAbsent(erased, finish);
    Then(swept, [] + [EraseDone(false)], erased, finish);
    var last := [] + [EraseDone(false)] + [finish];
    Led(swept, last, Apply(erased, finish));
    StruckSooner(s, [] + [off] + Removals(names, true), swept, last);
    LeadsConcat(s, [] + [off] + Removals(names, true), swept, last, Apply(erased, finish));
    assert [] + [off] + Removals(names, true) + last == StrikingErase(names);
    Led(s, StrikingErase(names), Apply(erased, finish));
  }

  lemma FinishAbsent(s: State, finish: Step)
    requires s.runs != [] && Doomed(s, s.runs[0]) && s.erasing.None? && finish == Finish(0, true, true)
    ensures Enabled(s, finish)
    ensures Apply(s, finish).published == Some(s.runs[0].generation)
    ensures !Present(Apply(s, finish).folders, s.runs[0].generation)
  {
    Here(s);
    DoomedRunPublishesNothing(s, s.runs[0], [], finish);
  }

  /** From a machine that has never run: the first run is struck. */
  lemma StrikeIsReached(imported: seq<string>)
    requires imported != []
    ensures var steps := Opening(imported) + [Stage(0, true)] + Writes() + Publication()
                         + StrikingErase([Generation(1)]);
            && Possible(NOTHING, steps) && Struck(NOTHING, steps)
            && After(NOTHING, steps).published == Some(1) && !Present(After(NOTHING, steps).folders, 1)
  {
    hide Leads, Apply, Enabled, Struck, Possible, After;
    var running, names := Opened(imported), [Generation(1)];
    var work := [Stage(0, true)] + Writes() + Publication();
    var moved := At(running, Moved, MovedFolders(running, Folder(MODEL_FILES, imported)));
    OpeningLeads(imported);
    StartingLeads(running);
    LeadsConcat(NOTHING, Opening(imported), running, work, moved);
    MovedRunIsStruck(moved, names);
    Leading(moved, StrikingErase(names));
    var end := After(moved, StrikingErase(names));
    StruckLater(NOTHING, Opening(imported) + work, moved, StrikingErase(names));
    LeadsConcat(NOTHING, Opening(imported) + work, moved, StrikingErase(names), end);
    var steps := Opening(imported) + [Stage(0, true)] + Writes() + Publication() + StrikingErase(names);
    assert Opening(imported) + work + StrikingErase(names) == steps;
    Led(NOTHING, steps, end);
  }

  // ---- Commits lost behind a failed run ----

  lemma {:induction false} LostLater(s: State, a: seq<Step>, middle: State, step: Step)
    requires Leads(s, a, middle) && Enabled(middle, step) && Loses(middle, step)
    ensures Possible(s, a + [step]) && Lost(s, a + [step])
    decreases |a|
  {
    hide Enabled, Apply, Loses;
    if a == [] {
      assert a + [step] == [step] && [step][1..] == [];
      assert Possible(Apply(middle, step), []);
    } else {
      LostLater(Apply(s, a[0]), a[1..], middle, step);
      assert (a + [step])[1..] == a[1..] + [step];
    }
  }

  /** A commit during a run is kept and counted, and starts nothing. */
  lemma RecordDuringRun(s: State, line: string)
    requires s.active && s.baseReady && s.training && s.erasing.None?
    ensures Enabled(s, Record(line, true, false))
    ensures Apply(s, Record(line, true, false)) ==
            s.(corpus := s.corpus + [line], unlearned := s.unlearned + 1, corpusLines := s.corpusLines + 1)
  {
    hide Start;
  }

  lemma StageFails(s: State)
    requires OneRun(s) && InPhase(s, 0, Starting)
    ensures Enabled(s, Stage(0, false))
    ensures Apply(s, Stage(0, false)) == At(s, Failed, s.folders - {Partial(s.runs[0].generation)})
  {
    hide Recorded, Finished, Erased, Prepared, StartIfIdle;
  }

  lemma FailedFinish(s: State)
    requires OneRun(s) && s.erasing.None? && InPhase(s, 0, Failed)
    ensures Enabled(s, Finish(0, true, false))
    ensures Apply(s, Finish(0, true, false)) == s.(training := false, runs := [])
  {
    hide Recorded, Erased, Prepared, StartIfIdle, Start, CommitsPerTrainingRun;
    assert s.runs[..0] + s.runs[1..] == [];
  }

  /** Three commits during a run that then cannot make its directory: they reach the threshold, and
      nothing is going, or queued, to learn them. */
  lemma LossIsReached(imported: seq<string>, a: string, b: string, c: string)
    requires imported != []
    ensures var steps := Opening(imported) + [Record(a, true, false), Record(b, true, false), Record(c, true, false),
                                              Stage(0, false), Finish(0, true, false)];
            && Possible(NOTHING, steps) && Lost(NOTHING, steps)
            && var end := After(NOTHING, steps);
               end.corpus == [a, b, c] && !end.training && end.deferred.None? && !CaughtUp(end)
  {
    hide Leads, Apply, Enabled, Lost, Possible, After;
    var s0, start := Opened(imported), Opening(imported);
    OpeningLeads(imported);
    RecordDuringRun(s0, a);
    Then(NOTHING, start, s0, Record(a, true, false));
    assert [] + [a] == [a] && [a] + [b] == [a, b] && [a, b] + [c] == [a, b, c];
    var s1 := s0.(corpus := [a], unlearned := 1, corpusLines := 1);
    RecordDuringRun(s1, b);
    Then(NOTHING, start + [Record(a, true, false)], s1, Record(b, true, false));
    var s2 := s0.(corpus := [a, b], unlearned := 2, corpusLines := 2);
    RecordDuringRun(s2, c);
    Then(NOTHING, start + [Record(a, true, false)] + [Record(b, true, false)], s2, Record(c, true, false));
    var s3 := s0.(corpus := [a, b, c], unlearned := 3, corpusLines := 3);
    var begun := start + [Record(a, true, false)] + [Record(b, true, false)] + [Record(c, true, false)];
    StageFails(s3);
    Then(NOTHING, begun, s3, Stage(0, false));
    var failed := At(s3, Failed, s3.folders - {Partial(1)});
    FailedFinish(failed);
    Then(NOTHING, begun + [Stage(0, false)], failed, Finish(0, true, false));
    LostLater(NOTHING, begun + [Stage(0, false)], failed, Finish(0, true, false));
    var steps := start + [Record(a, true, false), Record(b, true, false), Record(c, true, false),
                          Stage(0, false), Finish(0, true, false)];
    assert begun + [Stage(0, false)] + [Finish(0, true, false)] == steps;
    Led(NOTHING, steps, failed.(training := false, runs := []));
  }

  // ---- A queued run after the switch ----

  lemma FirstPublication(s: State)
    requires OneRun(s) && s.erasing.None? && InPhase(s, 0, Moved) && s.published.None?
    requires s.unlearned == 0
    ensures Enabled(s, Finish(0, true, false))
    ensures Apply(s, Finish(0, true, false)) ==
            s.(training := false, runs := [], published := Some(s.runs[0].generation))
  {
    hide Recorded, Erased, Prepared, StartIfIdle, Start;
    assert s.runs[..0] + s.runs[1..] == [] && s.folders - {} == s.folders;
  }

  lemma RefreshQueues(s: State, lines: seq<string>)
    requires s.active && s.baseReady && !s.training && s.erasing.None? && s.deferred.None?
    ensures Enabled(s, RefreshImport(lines, true))
    ensures Apply(s, RefreshImport(lines, true)) == s.(imported := lines, deferred := Some(true))
  {
    hide Begin;
  }

  /** A change of import queues a run during the cooldown, personalisation is switched off and the
      record erased, and the queued run starts all the same. */
  lemma QueuedRunIsReached(imported: seq<string>, changed: seq<string>)
    requires imported != [] && changed != []
    ensures var steps := Opening(imported) + [Stage(0, true)] + Writes() + Publication()
                         + [Finish(0, true, false), RefreshImport(changed, true), Switch(false, [Generation(1)]),
                            EraseNext(true), EraseDone(false), RunDeferred];
            && Possible(NOTHING, steps)
            && var end := After(NOTHING, steps);
               !end.active && end.training && |end.runs| == 1 && end.runs[0].lines == changed
  {
    hide Leads, Apply, Enabled, Possible, After;
    var running, names := Opened(imported), [Generation(1)];
    var work := Opening(imported) + [Stage(0, true)] + Writes() + Publication();
    var moved := At(running, Moved, MovedFolders(running, Folder(MODEL_FILES, imported)));
    OpeningLeads(imported);
    StartingLeads(running);
    LeadsConcat(NOTHING, Opening(imported), running, [Stage(0, true)] + Writes() + Publication(), moved);
    assert Opening(imported) + ([Stage(0, true)] + Writes() + Publication()) == work;
    FirstPublication(moved);
    Then(NOTHING, work, moved, Finish(0, true, false));
    var done := moved.(training := false, runs := [], published := Some(1));
    QueuedAndSwitched(done, changed);
    var rest := [RefreshImport(changed, true), Switch(false, names), EraseNext(true), EraseDone(false), RunDeferred];
    Leading(done, rest);
    LeadsConcat(NOTHING, work + [Finish(0, true, false)], done, rest, After(done, rest));
    var steps := work + [Finish(0, true, false), RefreshImport(changed, true), Switch(false, names),
                         EraseNext(true), EraseDone(false), RunDeferred];
    assert work + [Finish(0, true, false)] + rest == steps;
    Led(NOTHING, steps, After(done, rest));
  }

  lemma QueuedAndSwitched(s: State, changed: seq<string>)
    requires s.active && s.baseReady && OneRun(s) && !s.training && s.erasing.None? && s.deferred.None? && s.words == []
    requires changed != [] && s.folders.Keys == {Generation(1)}
    ensures var steps := [RefreshImport(changed, true), Switch(false, [Generation(1)]), EraseNext(true),
                          EraseDone(false), RunDeferred];
            && Possible(s, steps)
            && var end := After(s, steps);
               !end.active && end.training && |end.runs| == 1 && end.runs[0].lines == changed
  {
    hide Leads, Apply, Enabled, Possible, After;
    var names, refresh := [Generation(1)], RefreshImport(changed, true);
    Here(s);
    RefreshQueues(s, changed);
    Then(s, [], s, refresh);
    var queued := s.(imported := changed, deferred := Some(true));
    SwitchOff(queued, names);
    Then(s, [] + [refresh], queued, Switch(false, names));
    var off := queued.(active := false, erasing := Some(names));
    RemoveOne(off, names, true);
    assert names[1..] == [];
    Then(s, [] + [refresh] + [Switch(false, names)], off, EraseNext(true));
    var swept := off.(erasing := Some([]), folders := s.folders - {Generation(1)});
    EraseEnds(swept, false);
    Then(s, [] + [refresh] + [Switch(false, names)] + [EraseNext(true)], swept, EraseDone(false));
    DeferredRuns(Forgotten(swept));
    Then(s, [] + [refresh] + [Switch(false, names)] + [EraseNext(true)] + [EraseDone(false)],
         Forgotten(swept), RunDeferred);
    var steps := [refresh, Switch(false, names), EraseNext(true), EraseDone(false), RunDeferred];
    assert [] + [refresh] + [Switch(false, names)] + [EraseNext(true)] + [EraseDone(false)] + [RunDeferred] == steps;
    Led(s, steps, Apply(Forgotten(swept), RunDeferred));
  }

  lemma DeferredRuns(s: State)
    requires s.baseReady && OneRun(s) && !s.training && s.erasing.None? && s.deferred == Some(true)
    requires s.words == [] && s.corpus == [] && s.imported != []
    ensures Enabled(s, RunDeferred)
    ensures var t := Apply(s, RunDeferred);
            t.active == s.active && t.training && |t.runs| == 1 && t.runs[0].lines == s.imported
  {
    assert Repeated([]) + s.imported + [] == s.imported;
  }

  // ---- Commits that outlive their erase ----

  const START: seq<Step> := [Restart(true, true, {}, Usable, [], [])]

  function Noted(lines: seq<string>): State {
    State(true, true, [], [], lines, map[], None, false, |lines|, |lines|, None, [], None)
  }

  /** Below the threshold a commit is only kept and counted. */
  lemma RecordWaits(lines: seq<string>, line: string)
    requires |lines| < 2
    ensures Enabled(Noted(lines), Record(line, true, false))
    ensures Apply(Noted(lines), Record(line, true, false)) == Noted(lines + [line])
  {
    hide Begin, Start;
  }

  lemma TwoRecorded(a: string, b: string)
    ensures Leads(NOTHING, START + [Record(a, true, false), Record(b, true, false)], Noted([a, b]))
  {
    hide Leads, Enabled, Apply;
    Here(NOTHING);
    StartReady();
    Then(NOTHING, [], NOTHING, START[0]);
    assert [] + [START[0]] == START && [] + [a] == [a] && [a] + [b] == [a, b];
    RecordWaits([], a);
    Then(NOTHING, START, Noted([]), Record(a, true, false));
    RecordWaits([a], b);
    Then(NOTHING, START + [Record(a, true, false)], Noted([a]), Record(b, true, false));
    assert START + [Record(a, true, false)] + [Record(b, true, false)]
        == START + [Record(a, true, false), Record(b, true, false)];
  }

  lemma StartReady()
    ensures Enabled(NOTHING, START[0]) && Apply(NOTHING, START[0]) == Noted([])
  {
    assert WithoutPartials(map[], {}) == map[];
  }

  /** The third commit is recorded, read, and erased before the run has made its directory; it is then
      published from a record that is gone. */
  lemma ErasedCommitIsReached(a: string, b: string, c: string)
    ensures var steps := START + [Record(a, true, false), Record(b, true, false), Record(c, true, false),
                                  Switch(false, []), EraseDone(false)] + Undisturbed();
            && Possible(NOTHING, steps)
            && var end := After(NOTHING, steps);
               && !end.active && end.corpus == []
               && end.published.Some? && Present(end.folders, end.published.value)
               && var text := end.folders[Generation(end.published.value)].text; text != [] && text[|text| - 1] == c
  {
    hide Leads, Enabled, Apply, Possible, After, Present;
    var two := START + [Record(a, true, false), Record(b, true, false)];
    TwoRecorded(a, b);
    NotedIsSafe([a, b]);
    ErasedCommitComesBack(Noted([a, b]), c, []);
    var rest := [Record(c, true, false), Switch(false, [])] + Removals([], true) + [EraseDone(false)] + Undisturbed();
    Leading(Noted([a, b]), rest);
    LeadsConcat(NOTHING, two, Noted([a, b]), rest, After(Noted([a, b]), rest));
    var steps := START + [Record(a, true, false), Record(b, true, false), Record(c, true, false),
                          Switch(false, []), EraseDone(false)] + Undisturbed();
    assert two + rest == steps;
    Led(NOTHING, steps, After(Noted([a, b]), rest));
  }

  lemma NotedIsSafe(lines: seq<string>)
    ensures Safe(Noted(lines)) && Lists([], Noted(lines).folders)
    ensures |lines| == 2 ==> |lines| + 1 >= CommitsPerTrainingRun(|lines| + 1)
  {
  }

  function Learning(lines: seq<string>): State {
    Noted(lines).(training := true, unlearned := 0, runs := [Run(1, lines, true, Starting)])
  }

  lemma ThirdRecordStarts(lines: seq<string>, line: string)
    requires |lines| == 2
    ensures Enabled(Noted(lines), Record(line, true, false))
    ensures Apply(Noted(lines), Record(line, true, false)) == Learning(lines + [line])
  {
    assert Repeated([]) + [] + (lines + [line]) == lines + [line];
  }

  /** Three commits are learned and published; the record is erased, but the model's directory cannot be
      removed; the next process publishes it again. */
  lemma FailedRemovalIsReached(a: string, b: string, c: string)
    ensures var steps := START + [Record(a, true, false), Record(b, true, false), Record(c, true, false),
                                  Stage(0, true)]
                         + Writes() + Publication()
                         + [Finish(0, true, false), Switch(false, [Generation(1)]), EraseNext(false), EraseDone(false),
                            Restart(false, true, {}, Usable, [], [Generation(1)])];
            && Possible(NOTHING, steps)
            && var end := After(NOTHING, steps);
               !end.active && end.corpus == [] && Serves(end, [a, b, c])
  {
    hide Leads, Enabled, Apply, Possible, After, Serves, HoldsModel;
    var lines, two := [a, b, c], START + [Record(a, true, false), Record(b, true, false)];
    var learning, work := Learning(lines), [Stage(0, true)] + Writes() + Publication();
    var moved := At(learning, Moved, MovedFolders(learning, Folder(MODEL_FILES, lines)));
    TwoRecorded(a, b);
    ThirdRecordStarts([a, b], c);
    assert [a, b] + [c] == lines;
    Then(NOTHING, two, Noted([a, b]), Record(c, true, false));
    StartingLeads(learning);
    LeadsConcat(NOTHING, two + [Record(c, true, false)], learning, work, moved);
    FirstPublication(moved);
    Then(NOTHING, two + [Record(c, true, false)] + work, moved, Finish(0, true, false));
    var done := moved.(training := false, runs := [], published := Some(1));
    SwitchOff(done, [Generation(1)]);
    Then(NOTHING, two + [Record(c, true, false)] + work + [Finish(0, true, false)],
         done, Switch(false, [Generation(1)]));
    var off := done.(active := false, erasing := Some([Generation(1)]));
    assert HoldsModel(off.folders, 1, lines) by { MovedModel(learning, lines); }
    RevivalLeads(off, [Generation(1)], 1, lines);
    var revival := Revival([Generation(1)], Generation(1));
    Revived(off, revival, lines);
    var begun := two + [Record(c, true, false)] + work + [Finish(0, true, false)] + [Switch(false, [Generation(1)])];
    LeadsConcat(NOTHING, begun, off, revival, After(off, revival));
    var steps := START + [Record(a, true, false), Record(b, true, false), Record(c, true, false), Stage(0, true)]
                 + Writes() + Publication()
                 + [Finish(0, true, false), Switch(false, [Generation(1)]), EraseNext(false), EraseDone(false),
                    Restart(false, true, {}, Usable, [], [Generation(1)])];
    OneRemoval();
    assert begun + revival == steps;
    Led(NOTHING, steps, After(off, revival));
  }

  lemma MovedModel(s: State, lines: seq<string>)
    requires s.runs != [] && s.runs[0].generation == 1
    ensures HoldsModel(MovedFolders(s, Folder(MODEL_FILES, lines)), 1, lines)
  {
  }

  lemma Revived(s: State, steps: seq<Step>, text: seq<string>)
    requires ComesBack(s, steps, text)
    ensures Leads(s, steps, After(s, steps)) && Serves(After(s, steps), text)
  {
  }

  lemma OneRemoval()
    ensures Revival([Generation(1)], Generation(1))
            == [EraseNext(false), EraseDone(false), Restart(false, true, {}, Usable, [], [Generation(1)])]
  {
    assert [Generation(1)][1..] == [];
  }
}
