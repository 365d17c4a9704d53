/** What a training run reads, when one is started or queued, and what each step makes of the rest of
    the scheduler's state. */
module TrainingMaterial {
  import opened Wrappers
  import opened TrainingScheduler
  import opened ErasedRuns

  // ---- What a run reads ----

  /** The newest ten thousand lines. */
  function Newest(lines: seq<string>): (r: seq<string>)
    ensures |r| == if |lines| > 10000 then 10000 else |lines|
    ensures forall i :: 0 <= i < |r| ==> r[i] == lines[|lines| - |r| + i]
  {
    lines[if |lines| > 10000 then |lines| - 10000 else 0..]
  }

  /** The lines are every word forty times, then every imported line, then the record. */
  predicate ReadsAll(lines: seq<string>, words: seq<string>, imported: seq<string>, record: seq<string>) {
    var w, m := 40 * |words|, |imported|;
    && |lines| == w + m + |record|
    && (forall i :: 0 <= i < w ==> lines[i] == words[i / 40])
    && (forall i :: 0 <= i < m ==> lines[w + i] == imported[i])
    && (forall i :: 0 <= i < |record| ==> lines[w + m + i] == record[i])
  }

  /** A run reads the registered words, forty times each, the imported lines, and, if personalisation was
      on when it was asked for, the newest ten thousand lines of the record. With nothing to read there
      is no run. */
  lemma BeginReadsAll(s: State, active: bool)
    ensures var t, record := Begin(s, active), if active then Newest(s.corpus) else [];
            && t.unlearned == 0 && t.corpusLines == |record|
            && t.corpus == (if active then Newest(s.corpus) else s.corpus)
            && t == s.(corpus := t.corpus, unlearned := 0, corpusLines := |record|,
                       training := t.training, runs := t.runs)
            && if s.words == [] && s.imported == [] && record == [] then
                 t.runs == s.runs && t.training == s.training
               else
                 && t.training && |t.runs| == |s.runs| + 1 && t.runs[..|s.runs|] == s.runs
                 && var r := t.runs[|s.runs|];
                    && ReadsAll(r.lines, s.words, s.imported, record)
                    && r.generation == (if s.published.Some? then s.published.value + 1 else 1)
                    && r.active == active && r.phase == Starting
  {
    hide Repeated;
    var record := if active then Newest(s.corpus) else [];
    assert active ==> Trimmed(s.corpus) == record;
    LinesReadAll(s.words, s.imported, record);
    NothingRepeated(s.words);
  }

  lemma LinesReadAll(words: seq<string>, imported: seq<string>, record: seq<string>)
    ensures ReadsAll(Repeated(words) + imported + record, words, imported, record)
  {
    hide Repeated;
    var lines := Repeated(words) + imported + record;
    forall i | 0 <= i < 40 * |words| ensures lines[i] == words[i / 40] { RepeatedAt(words, i); }
  }

  /** So every registered word stands there at least forty times, and every import and every line of the
      record at least once. */
  lemma EverythingIsRead(lines: seq<string>, words: seq<string>, imported: seq<string>, record: seq<string>)
    requires ReadsAll(lines, words, imported, record)
    ensures forall w :: w in words ==> multiset(lines)[w] >= 40
    ensures forall l :: l in imported || l in record ==> l in lines
  {
    forall w | w in words ensures multiset(lines)[w] >= 40 {
      var k :| 0 <= k < |words| && words[k] == w;
      var block := lines[40 * k..40 * k + 40];
      assert lines == lines[..40 * k] + (block + lines[40 * k + 40..]);
      assert forall i :: 0 <= i < 40 ==> block[i] == lines[40 * k + i] && (40 * k + i) / 40 == k;
      AllTheSame(block, w);
    }
    forall l | l in imported ensures l in lines {
      var i :| 0 <= i < |imported| && imported[i] == l;
      assert lines[40 * |words| + i] == l;
    }
    forall l | l in record ensures l in lines {
      var i :| 0 <= i < |record| && record[i] == l;
      assert lines[40 * |words| + |imported| + i] == l;
    }
  }

  lemma {:induction false} AllTheSame(lines: seq<string>, w: string)
    requires forall i :: 0 <= i < |lines| ==> lines[i] == w
    ensures multiset(lines)[w] == |lines|
  {
    if lines != [] {
      AllTheSame(lines[1..], w);
      assert lines == [lines[0]] + lines[1..];
    }
  }

  // ---- When a run starts, and when one is queued ----

  predicate Material(words: seq<string>, imported: seq<string>, record: seq<string>) {
    words != [] || imported != [] || record != []
  }

  /** Everything that asks for a run now: a commit that reaches the threshold, changed words, a change of
      imports, explicit material without a model, the queued run, the end of an erase, and a success that
      leaves enough commits behind. */
  predicate Asks(s: State, step: Step) {
    match step
    case Record(_, _, _) =>
      s.active && s.baseReady && !s.training && s.unlearned + 1 >= CommitsPerTrainingRun(s.corpusLines + 1)
    case UpdateWords(words, _) => words != s.words && s.active && s.baseReady && !s.training
    case RefreshImport(_, _) => s.active && s.baseReady && !s.training
    case TrainIfNothing(_) =>
      s.published.None? && Material(s.words, s.imported, []) && s.active && s.baseReady && !s.training
    case RunDeferred => s.deferred == Some(true) && s.baseReady && !s.training
    case EraseDone(_) => Material(s.words, s.imported, []) && s.active && s.baseReady && !s.training
    case Finish(run, _, _) => InPhase(s, run, Moved) && s.unlearned >= CommitsPerTrainingRun(s.corpusLines)
    case _ => false
  }

  predicate Waits(step: Step) {
    match step
    case Record(_, _, waiting) => waiting
    case UpdateWords(_, waiting) => waiting
    case RefreshImport(_, waiting) => waiting
    case TrainIfNothing(waiting) => waiting
    case EraseDone(waiting) => waiting
    case Finish(_, _, waiting) => waiting
    case _ => false
  }

  /** The words, imports and record a run started by the step would find. */
  function WordsAt(s: State, step: Step): seq<string> {
    if step.UpdateWords? then step.words else s.words
  }

  function ImportsAt(s: State, step: Step): seq<string> {
    if step.RefreshImport? then step.lines else s.imported
  }

  function RecordAt(s: State, step: Step): seq<string> {
    if step.Record? && step.written then s.corpus + [step.line]
    else if step.EraseDone? then []
    else s.corpus
  }

  /** One run was started, and of these things. */
  predicate Starts(t: State, words: seq<string>, imported: seq<string>, record: seq<string>) {
    && |t.runs| == 1 && t.training && t.unlearned == 0 && t.corpusLines == |record|
    && t.runs[0].phase == Starting && ReadsAll(t.runs[0].lines, words, imported, record)
  }

  /** When what asks for a run need not wait and there is something to read, a run starts and reads all of
      it, the newest ten thousand lines of the record included. */
  lemma AskedRunStarts(s: State, step: Step)
    requires OneRun(s) && Settled(s) && Enabled(s, step) && Asks(s, step) && !Waits(step)
    requires Material(WordsAt(s, step), ImportsAt(s, step), RecordAt(s, step))
    ensures Starts(Apply(s, step), WordsAt(s, step), ImportsAt(s, step), Newest(RecordAt(s, step)))
  {
    hide Begin, CommitsPerTrainingRun, Repeated, Trimmed, ReadsAll, Newest;
    var from := Asked(s, step);
    AskBegins(s, step);
    BeginReadsAll(from, true);
    NewestOfSome(RecordAt(s, step));
  }

  lemma NewestOfSome(lines: seq<string>)
    ensures Newest(lines) == [] <==> lines == []
  {
  }

  /** The state in which the run asked for is begun. */
  function Asked(s: State, step: Step): State
    requires Asks(s, step) && OneRun(s)
  {
    match step
    case Record(_, _, _) =>
      s.(corpus := RecordAt(s, step), unlearned := s.unlearned + 1, corpusLines := s.corpusLines + 1)
    case UpdateWords(words, _) => s.(words := words)
    case RefreshImport(lines, _) => s.(imported := lines)
    case RunDeferred => s.(deferred := None)
    case EraseDone(_) => Forgotten(s)
    case Finish(run, removed, _) =>
      var gone := if removed && s.published.Some? then {Generation(s.published.value)} else {};
      s.(training := false, runs := [], published := Some(s.runs[0].generation), folders := s.folders - gone)
    case _ => s
  }

  lemma AskBegins(s: State, step: Step)
    requires OneRun(s) && Settled(s) && Enabled(s, step) && Asks(s, step)
    ensures Apply(s, step) == (if !Waits(step) then Begin(Asked(s, step), true)
                               else if Asked(s, step).deferred.Some? then Asked(s, step)
                               else Asked(s, step).(deferred := Some(true)))
    ensures Asked(s, step).runs == [] && !Asked(s, step).training
  {
    hide Begin, CommitsPerTrainingRun;
    if step.Finish? { FinishAsked(s, step); }
  }

  lemma FinishAsked(s: State, step: Step)
    requires OneRun(s) && Settled(s) && Enabled(s, step) && step.Finish? && Asks(s, step)
    ensures Apply(s, step) == Start(Asked(s, step), true, step.waiting)
  {
    hide Begin, CommitsPerTrainingRun, Recorded, Erased, Prepared, StartIfIdle;
    assert s.runs[..0] + s.runs[1..] == [];
    assert s.runs[0] in s.runs;
  }

  /** During a cooldown a run is queued instead, unless one is queued already; it starts when the wait is
      over. */
  lemma AskedRunWaits(s: State, step: Step)
    requires OneRun(s) && Settled(s) && Enabled(s, step) && Asks(s, step) && Waits(step)
    ensures var t := Apply(s, step);
            && t.runs == [] && !t.training && t.deferred == Some(true)
            && t.words == WordsAt(s, step) && t.imported == ImportsAt(s, step) && t.corpus == RecordAt(s, step)
  {
    hide Begin, CommitsPerTrainingRun;
    AskBegins(s, step);
  }

  /** A run queued already stays as it was queued. */
  lemma QueueKeepsTheFirst(s: State, active: bool, waiting: bool)
    ensures waiting && s.deferred.Some? ==> Start(s, active, waiting) == s
    ensures waiting && s.deferred.None? ==> Start(s, active, waiting) == s.(deferred := Some(active))
  {
  }

  /** Nothing else starts a run or queues one. */
  lemma NothingElseStarts(s: State, step: Step)
    requires OneRun(s) && Settled(s) && Enabled(s, step) && !Asks(s, step) && !step.Restart?
    ensures var t := Apply(s, step);
            && (t.runs != [] ==> s.runs != [] && t.runs[0].generation == s.runs[0].generation
                                 && t.runs[0].lines == s.runs[0].lines && !step.Finish?)
            && (step.RunDeferred? ==> t.deferred == None) && (!step.RunDeferred? ==> t.deferred == s.deferred)
  {
    hide Begin, Start, CommitsPerTrainingRun;
    if step.Finish? { assert s.runs[..0] + s.runs[1..] == []; }
    if !OnMainActor(step) { TaskKeepsLines(s, step); }
  }

  lemma TaskKeepsLines(s: State, step: Step)
    requires OneRun(s) && Enabled(s, step) && !OnMainActor(step)
    ensures var t := Apply(s, step);
            && |t.runs| == 1 && |s.runs| == 1 && t.deferred == s.deferred
            && t.runs[0] == s.runs[0].(phase := t.runs[0].phase)
  {
    hide Recorded, Finished, Erased, Prepared, StartIfIdle;
    assert step.run == 0;
  }

  /** Asked for with nothing to read, a run does not start. */
  lemma AskedForNothing(s: State, step: Step)
    requires OneRun(s) && Settled(s) && Enabled(s, step) && Asks(s, step) && !Waits(step)
    requires !Material(WordsAt(s, step), ImportsAt(s, step), RecordAt(s, step))
    ensures Apply(s, step).runs == [] && !Apply(s, step).training
  {
    hide Begin, CommitsPerTrainingRun;
    AskBegins(s, step);
    BeginReadsAll(Asked(s, step), true);
  }

  /** Left alone, a run that was asked for publishes a model of all there was to read. */
  lemma AskedRunPublishes(s: State, step: Step)
    requires Safe(s) && Settled(s) && Enabled(s, step) && Asks(s, step) && !Waits(step)
    requires Material(WordsAt(s, step), ImportsAt(s, step), RecordAt(s, step))
    ensures var t := Apply(s, step);
            && Possible(t, Undisturbed())
            && var end := After(t, Undisturbed());
               && end.published.Some? && Present(end.folders, end.published.value)
               && ReadsAll(end.folders[Generation(end.published.value)].text,
                           WordsAt(s, step), ImportsAt(s, step), Newest(RecordAt(s, step)))
  {
    hide Begin, CommitsPerTrainingRun, Repeated, Trimmed, ReadsAll, Newest, Present, Possible, After, Undisturbed;
    AskedRunStarts(s, step);
    AskBegins(s, step);
    AskedIsAhead(s, step);
    BeginReadsAll(Asked(s, step), true);
    UndisturbedPublishes(Apply(s, step));
  }

  lemma AskedIsAhead(s: State, step: Step)
    requires Safe(s) && Settled(s) && Enabled(s, step) && Asks(s, step)
    ensures Asked(s, step).erasing.None?
  {
    hide Begin, Start, CommitsPerTrainingRun;
  }

  // ---- What else a step does ----

  /** A commit is counted, and kept if it could be written, while personalisation is on and the base is
      ready; otherwise it is nothing. */
  lemma RecordCounts(s: State, line: string, written: bool, waiting: bool)
    requires OneRun(s) && Settled(s) && Enabled(s, Record(line, written, waiting))
    requires !Asks(s, Record(line, written, waiting))
    ensures Apply(s, Record(line, written, waiting)) ==
            if !s.active || !s.baseReady then s
            else s.(corpus := if written then s.corpus + [line] else s.corpus,
                    unlearned := s.unlearned + 1, corpusLines := s.corpusLines + 1)
  {
    hide Begin, Start, CommitsPerTrainingRun;
  }

  /** New words and imports are taken in whether a run is asked for or not. */
  lemma NewMaterialIsKept(s: State, step: Step)
    requires OneRun(s) && Settled(s) && Enabled(s, step) && !Asks(s, step)
    requires step.UpdateWords? || step.RefreshImport? || step.TrainIfNothing? || step.RunDeferred?
    ensures Apply(s, step) == match step
                              case UpdateWords(words, _) => s.(words := words)
                              case RefreshImport(lines, _) => s.(imported := lines)
                              case RunDeferred => s.(deferred := None)
                              case _ => s
  {
    hide Begin, Start, CommitsPerTrainingRun;
  }

  /** A run that has moved its directory is published, and the generation before it goes if it can be
      removed; any other leaves what was published. */
  lemma FinishReplaces(s: State, step: Step)
    requires OneRun(s) && Settled(s) && Enabled(s, step) && step.Finish?
    ensures var t, r := Apply(s, step), s.runs[0];
            if r.phase == Moved then
              && t.published == Some(r.generation)
              && t.folders == (if step.removed && s.published.Some? then s.folders - {Generation(s.published.value)}
                               else s.folders)
            else t == s.(training := false, runs := [])
  {
    hide Begin, CommitsPerTrainingRun, Recorded, Erased, Prepared, StartIfIdle;
    assert s.runs[..0] + s.runs[1..] == [];
  }

  /** Switching off what was on begins an erase of all that is listed; nothing else does. */
  lemma SwitchErases(s: State, active: bool, names: seq<Name>)
    requires Enabled(s, Switch(active, names))
    ensures var t := Apply(s, Switch(active, names));
            && t == s.(active := active, erasing := t.erasing)
            && t.erasing == if s.active && !active then Some(names) else None
  {
  }

  /** An erase forgets the record, the published generation and the counts, and nothing else. */
  lemma EraseForgets(s: State, waiting: bool)
    requires Settled(s) && s.erasing == Some([])
    ensures Enabled(s, EraseDone(waiting))
    ensures Apply(s, EraseDone(waiting)) ==
            s.(erasing := None, corpus := [], published := None, unlearned := 0, corpusLines := 0)
  {
    EraseEnds(s, waiting);
  }

  /** A new process has the record and the whole generations of the old one, the imports it reads, and
      nothing in flight. A base that cannot be used leaves it unready, and one that breaks startup leaves
      it with nothing read. */
  lemma RestartReads(s: State, step: Step)
    requires Enabled(s, step) && step.Restart?
    ensures var t, read := Apply(s, step), step.swept && step.base != Broken;
            && t.active == step.active && (t.baseReady <==> step.swept && step.base == Usable)
            && t.words == [] && t.imported == (if read then step.imported else [])
            && t.corpus == (if read then Newest(s.corpus) else s.corpus)
            && t.corpusLines == (if read then |Newest(s.corpus)| else 0) && t.unlearned == 0
            && !t.training && t.runs == [] && t.deferred == None && t.erasing == None
            && (!read ==> t.published == None)
    ensures var t := Apply(s, step);
            && (forall g: nat :: Generation(g) in t.folders <==> Generation(g) in s.folders)
            && (forall g: nat :: Partial(g) in t.folders <==>
                  Partial(g) in s.folders && (!step.swept || Partial(g) in step.stuck))
            && (forall name :: name in t.folders ==> t.folders[name] == s.folders[name])
  {
    hide NewestComplete, Present;
    assert Trimmed(s.corpus) == Newest(s.corpus);
  }

  /** A run that gives up leaves no staging directory behind, and every other directory as it was. */
  lemma FailureCleansUp(s: State, step: Step)
    requires OneRun(s) && Enabled(s, step) && !OnMainActor(step) && Apply(s, step).runs[0].phase == Failed
    ensures Apply(s, step).folders == s.folders - {Partial(s.runs[0].generation)}
  {
    hide Recorded, Finished, Erased, Prepared, StartIfIdle, GivenUp;
    assert step.run == 0;
    GivenUpCleans(s);
  }

  lemma GivenUpCleans(s: State)
    requires s.runs != []
    ensures GivenUp(s, 0).folders == s.folders - {Partial(s.runs[0].generation)}
  {
  }

  /** A generation is whole when its directory is there with all five files of a model. */
  lemma WholeByName(folders: map<Name, Folder>, g: nat)
    ensures Present(folders, g) <==>
              && Generation(g) in folders
              && {"model_c_abc.marisa", "model_c_bc.marisa", "model_u_abx.marisa", "model_u_xbc.marisa",
                  "model_r_xbx.marisa"} <= folders[Generation(g)].files
  {
  }

  /** A run passes its check exactly when its staging directory is there with all five; otherwise it gives
      up. */
  lemma CheckNeedsAllFiles(s: State)
    requires OneRun(s) && InPhase(s, 0, Staged)
    ensures var t, from := Apply(s, Check(0)), Partial(s.runs[0].generation);
            t.runs[0].phase == if from in s.folders
                                  && {"model_c_abc.marisa", "model_c_bc.marisa", "model_u_abx.marisa",
                                      "model_u_xbc.marisa", "model_r_xbx.marisa"} <= s.folders[from].files
                               then Checked else Failed
  {
    hide Recorded, Finished, Erased, Prepared, StartIfIdle;
  }
}
