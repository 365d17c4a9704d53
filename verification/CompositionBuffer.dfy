/** The buffer the text service keeps: kana followed by the romaji that has not resolved. It is
    advanced by replaying only that tail, so the question is what replaying loses. */
module CompositionBuffer {
  import opened Wrappers
  import opened RomajiTable
  import opened RomajiKana
  import opened RomajiLaws

  /** Where the trailing run of ASCII starts. */
  function PendingStart(buffer: string): (k: nat)
    ensures k <= |buffer|
    ensures forall i :: k <= i < |buffer| ==> IsAscii(buffer[i])
    ensures k > 0 ==> !IsAscii(buffer[k - 1])
  {
    if buffer != [] && IsAscii(buffer[|buffer| - 1]) then PendingStart(buffer[..|buffer| - 1]) else |buffer|
  }

  ghost function BufferAfter(rules: seq<Rule>, buffer: string, ch: char): string {
    var split := PendingStart(buffer);
    var replay := buffer[split..] + [ch];
    if AllAccepted(replay) then
      var c := Scan(rules, Taken(replay));
      buffer[..split] + c.kana + c.pending
    else
      buffer + [ch]
  }

  ghost function DisplayText(rules: seq<Rule>, buffer: string): string {
    var split := PendingStart(buffer);
    buffer[..split] + DisplayOf(Scan(rules, Taken(buffer[split..])))
  }

  ghost function ReadingText(rules: seq<Rule>, buffer: string): string {
    var split := PendingStart(buffer);
    buffer[..split] + ReadingOf(Scan(rules, Taken(buffer[split..])))
  }

  // ---- The source's loops ----

  method FindPendingStart(buffer: string) returns (i: nat)
    ensures i == PendingStart(buffer)
  {
    i := |buffer|;
    while i > 0 && IsAscii(buffer[i - 1])
      invariant i <= |buffer|
      invariant PendingStart(buffer[..i]) == PendingStart(buffer)
    {
      assert buffer[..i][..i - 1] == buffer[..i - 1];
      i := i - 1;
    }
  }

  /** Feeds the unresolved tail and the new key to a new converter. */
  method Replay(rules: seq<Rule>, replay: string) returns (converter: Converter, accepted: bool)
    ensures fresh(converter) && converter.Valid()
    ensures converter.rules == rules && converter.romaji == Taken(replay)
    ensures accepted <==> AllAccepted(replay)
  {
    hide Scan, IsAccepted, AllAccepted, Taken, Lower;
    NothingTaken();
    converter := new Converter(rules);
    accepted := true;
    for i := 0 to |replay|
      invariant fresh(converter) && converter.Valid() && converter.rules == rules
      invariant converter.romaji == Taken(replay[..i])
      invariant accepted <==> AllAccepted(replay[..i])
    {
      var ok := converter.Append(replay[i]);
      if !ok {
        accepted := false;
      }
      assert replay[..i + 1] == replay[..i] + [replay[i]];
      TakenAppend(replay[..i], replay[i]);
      AcceptedAppend(replay[..i], replay[i]);
    }
    assert replay[..|replay|] == replay;
  }

  method BufferAfterKeystroke(rules: seq<Rule>, buffer: string, ch: char) returns (r: string)
    ensures r == BufferAfter(rules, buffer, ch)
  {
    hide Scan, IsAccepted, PendingStart, Taken;
    var split := FindPendingStart(buffer);
    var settled, pending := buffer[..split], buffer[split..];
    var converter, accepted := Replay(rules, pending + [ch]);
    if !accepted {
      return buffer + [ch];
    }
    return settled + converter.kana + converter.pending;
  }

  method BufferDisplay(rules: seq<Rule>, buffer: string) returns (r: string)
    ensures r == DisplayText(rules, buffer)
  {
    hide Scan, PendingStart, Taken;
    var split := FindPendingStart(buffer);
    var converter := Feed(rules, buffer[split..]);
    return buffer[..split] + converter.Display();
  }

  method BufferReading(rules: seq<Rule>, buffer: string) returns (r: string)
    ensures r == ReadingText(rules, buffer)
  {
    hide Scan, PendingStart, Taken;
    var split := FindPendingStart(buffer);
    var converter := Feed(rules, buffer[split..]);
    return buffer[..split] + converter.Reading();
  }

  // ---- The shape of the buffer ----

  predicate NoAscii(s: string) {
    forall i :: 0 <= i < |s| ==> !IsAscii(s[i])
  }

  ghost predicate Held(rules: seq<Rule>, s: string) {
    s == [] || IsPrefixOfRule(rules, s)
  }

  /** Kana, followed by nothing or by the beginning of a spelling. */
  ghost predicate WellFormedBuffer(rules: seq<Rule>, buffer: string) {
    NoAscii(buffer[..PendingStart(buffer)]) && Held(rules, buffer[PendingStart(buffer)..])
  }

  lemma {:induction false} SplitIsRecovered(kana: string, tail: string)
    requires NoAscii(kana) && forall i :: 0 <= i < |tail| ==> IsAscii(tail[i])
    ensures PendingStart(kana + tail) == |kana|
    ensures (kana + tail)[..|kana|] == kana && (kana + tail)[|kana|..] == tail
  {
    var s := kana + tail;
    if tail != [] {
      SplitIsRecovered(kana, tail[..|tail| - 1]);
      assert s[..|s| - 1] == kana + tail[..|tail| - 1];
      assert s[|s| - 1] == tail[|tail| - 1];
    }
  }

  lemma {:induction false} PlainIsTaken(s: string)
    requires forall i :: 0 <= i < |s| ==> IsAccepted(s[i]) && Lower(s[i]) == s[i]
    ensures Taken(s) == s
  {
    if s != [] { PlainIsTaken(s[..|s| - 1]); }
  }

  lemma HeldTail(rules: seq<Rule>, s: string)
    requires ValidRules(rules) && Held(rules, s)
    ensures |s| <= 3
    ensures forall i :: 0 <= i < |s| ==> IsAscii(s[i]) && IsAccepted(s[i]) && Lower(s[i]) == s[i]
    ensures Taken(s) == s && Scan(rules, s) == Converted("", s)
  {
    hide NextStep;
    if s != [] {
      HeldIsPartial(rules, s);
      HeldIsHeld(rules, s);
    }
    PlainIsTaken(s);
  }

  lemma HoldMeansPrefix(rules: seq<Rule>, s: string)
    requires s != [] && NextStep(rules, s).Hold?
    ensures IsPrefixOfRule(rules, s)
  {
  }

  lemma {:induction false} ScanShape(rules: seq<Rule>, s: string)
    requires ValidRules(rules)
    ensures NoAscii(Scan(rules, s).kana) && Held(rules, Scan(rules, s).pending)
    decreases |s|
  {
    hide ValidRules, NextStep;
    if s != [] {
      match NextStep(rules, s)
      case Hold => HoldMeansPrefix(rules, s);
      case Emit(kana, count) =>
        ScanShape(rules, s[count..]);
        StepKana(rules, s);
    }
  }

  lemma StepKana(rules: seq<Rule>, s: string)
    requires ValidRules(rules) && s != [] && NextStep(rules, s).Emit?
    ensures NoAscii(NextStep(rules, s).kana)
  {
    var limit := LongestMatch(rules, s, MatchLimit(s));
    if limit.Some? { SpellingShape(rules, s[..limit.value]); }
  }

  // ---- Incremental against whole ----

  ghost function Text(c: Converted): string {
    c.kana + c.pending
  }

  /** The buffer after typing `keys` one at a time into an empty one. */
  ghost function Typed(rules: seq<Rule>, keys: string): string {
    if keys == [] then [] else BufferAfter(rules, Typed(rules, keys[..|keys| - 1]), keys[|keys| - 1])
  }

  /** The same keys fed to a single converter. */
  ghost function Whole(rules: seq<Rule>, keys: string): string {
    Text(Scan(rules, Taken(keys)))
  }

  lemma TextIsUnique(rules: seq<Rule>, a: Converted, b: Converted)
    requires ValidRules(rules)
    requires NoAscii(a.kana) && Held(rules, a.pending) && NoAscii(b.kana) && Held(rules, b.pending)
    requires Text(a) == Text(b)
    ensures a == b
  {
    hide ValidRules, PendingStart, Scan, Taken, IsPrefixOfRule;
    HeldTail(rules, a.pending);
    HeldTail(rules, b.pending);
    SplitIsRecovered(a.kana, a.pending);
    SplitIsRecovered(b.kana, b.pending);
  }

  /** One accepted key on settled kana and a held tail. */
  lemma KeyOnTail(rules: seq<Rule>, kana: string, tail: string, c: char)
    requires ValidRules(rules) && NoAscii(kana) && Held(rules, tail) && IsAccepted(c)
    ensures var replayed := Scan(rules, tail + [Lower(c)]);
            && BufferAfter(rules, kana + tail, c) == kana + replayed.kana + replayed.pending
            && NoAscii(kana + replayed.kana) && Held(rules, replayed.pending)
  {
    hide ValidRules, PendingStart, Scan, Taken, Held, Lower;
    HeldTail(rules, tail);
    SplitIsRecovered(kana, tail);
    TakenAppend(tail, c);
    assert AllAccepted(tail + [c]);
    ScanShape(rules, tail + [Lower(c)]);
  }

  /** One accepted key on a buffer that is still in step with the whole scan. */
  lemma KeystrokeLaw(rules: seq<Rule>, keys: string, c: char)
    requires ValidRules(rules) && IsAccepted(c)
    ensures BufferAfter(rules, Whole(rules, keys), c) == Whole(rules, keys + [c]) <==> !Breaks(Taken(keys), Lower(c))
  {
    hide ValidRules, Breaks, BufferAfter, Scan, Taken, Held, Lower;
    var s := Taken(keys);
    var before := Scan(rules, s);
    ScanShape(rules, s);
    TakenAppend(keys, c);
    KeyOnTail(rules, before.kana, before.pending, c);
    var replayed := Scan(rules, before.pending + [Lower(c)]);
    var after := Converted(before.kana + replayed.kana, replayed.pending);
    ScanShape(rules, s + [Lower(c)]);
    assert BufferAfter(rules, Whole(rules, keys), c) == Text(after);
    OneStepLaw(rules, s, Lower(c));
    if Text(after) == Whole(rules, keys + [c]) {
      TextIsUnique(rules, after, Scan(rules, s + [Lower(c)]));
    }
  }

  lemma AcceptedAppend(s: string, c: char)
    ensures AllAccepted(s + [c]) <==> AllAccepted(s) && IsAccepted(c)
  {
    hide IsAccepted;
    var t := s + [c];
    assert t[|s|] == c && forall i :: 0 <= i < |s| ==> t[i] == s[i];
  }

  lemma NothingTaken()
    ensures Taken("") == "" && AllAccepted("")
  {
  }

  lemma TakenAppend(s: string, c: char)
    ensures Taken(s + [c]) == if IsAccepted(c) then Taken(s) + [Lower(c)] else Taken(s)
  {
    assert (s + [c])[..|s|] == s;
  }

  ghost predicate NoBreak(keys: string) {
    forall i :: 0 <= i < |keys| ==> !Breaks(Taken(keys[..i]), Lower(keys[i]))
  }

  ghost predicate InStep(rules: seq<Rule>, keys: string) {
    forall n :: 0 <= n <= |keys| ==> Typed(rules, keys[..n]) == Whole(rules, keys[..n])
  }

  lemma NoBreakStep(init: string, c: char)
    ensures NoBreak(init + [c]) <==> NoBreak(init) && !Breaks(Taken(init), Lower(c))
  {
    hide Breaks, Taken, Lower;
    var keys := init + [c];
    assert forall i :: 0 <= i < |init| ==> keys[..i] == init[..i] && keys[i] == init[i];
    assert keys[..|init|] == init && keys[|init|] == c;
  }

  lemma InStepStep(rules: seq<Rule>, init: string, c: char)
    ensures InStep(rules, init + [c]) <==> InStep(rules, init) && Typed(rules, init + [c]) == Whole(rules, init + [c])
  {
    hide Typed, Whole;
    var keys := init + [c];
    assert forall n :: 0 <= n <= |init| ==> keys[..n] == init[..n];
    assert keys[..|keys|] == keys;
  }

  lemma InStepAtEnd(rules: seq<Rule>, keys: string)
    requires InStep(rules, keys)
    ensures Typed(rules, keys) == Whole(rules, keys)
  {
    hide Typed, Whole;
    assert keys[..|keys|] == keys;
  }

  lemma NothingTyped(rules: seq<Rule>)
    ensures InStep(rules, "") && NoBreak("")
  {
    assert ""[..0] == "";
    assert Scan(rules, "") == Converted("", "");
  }

  /** The incremental buffer shows what the whole string would, after every key of the run,
      exactly when no key of the run is one of the two shapes. */
  lemma {:induction false} IncrementalRefinesWhole(rules: seq<Rule>, keys: string)
    requires ValidRules(rules) && AllAccepted(keys)
    ensures InStep(rules, keys) <==> NoBreak(keys)
  {
    hide ValidRules, NoBreak, Breaks, Taken, Lower, BufferAfter, Whole;
    if keys == [] {
      NothingTyped(rules);
    } else {
      var init, c := keys[..|keys| - 1], keys[|keys| - 1];
      assert keys == init + [c];
      IncrementalRefinesWhole(rules, init);
      KeystrokeLaw(rules, init, c);
      NoBreakStep(init, c);
      InStepStep(rules, init, c);
      if InStep(rules, init) { InStepAtEnd(rules, init); }
    }
  }

  lemma ReadsBack(rules: seq<Rule>, kana: string, tail: string)
    requires ValidRules(rules) && NoAscii(kana) && Held(rules, tail)
    ensures DisplayText(rules, kana + tail) == DisplayOf(Converted(kana, tail))
    ensures ReadingText(rules, kana + tail) == ReadingOf(Converted(kana, tail))
  {
    hide ValidRules, PendingStart, IsPrefixOfRule, Held;
    HeldTail(rules, tail);
    SplitIsRecovered(kana, tail);
  }

  /** When the buffer is in step, what is shown and what is sent to the engine are what the
      whole romaji converts to. */
  lemma InStepReadsAlike(rules: seq<Rule>, keys: string)
    requires ValidRules(rules) && AllAccepted(keys) && NoBreak(keys)
    ensures DisplayText(rules, Typed(rules, keys)) == DisplayOf(Scan(rules, Taken(keys)))
    ensures ReadingText(rules, Typed(rules, keys)) == ReadingOf(Scan(rules, Taken(keys)))
  {
    hide ValidRules, Typed, Scan, Taken, InStep, DisplayText, ReadingText, NoBreak;
    IncrementalRefinesWhole(rules, keys);
    InStepAtEnd(rules, keys);
    var c := Scan(rules, Taken(keys));
    ScanShape(rules, Taken(keys));
    ReadsBack(rules, c.kana, c.pending);
  }

  /** The plain reading of the condition: no nn right before a vowel or y, and no qq. */
  predicate Unambiguous(s: string) {
    && (forall i {:trigger s[i]} :: 2 <= i < |s| && ContinuesN(s[i]) ==> !(s[i - 2] == 'n' && s[i - 1] == 'n'))
    && (forall i {:trigger s[i]} :: 1 <= i < |s| && s[i] == 'q' ==> s[i - 1] != 'q')
  }

  lemma UnambiguousDoesNotBreak(s: string, c: char)
    requires Unambiguous(s + [c])
    ensures !Breaks(s, c)
  {
    var t := s + [c];
    assert t[|s|] == c;
    if TrailingNs(s) >= 2 {
      var init := s[..|s| - 1];
      assert TrailingNs(s) == 1 + TrailingNs(init);
      assert init[|init| - 1] == 'n';
      assert t[|s| - 1] == 'n' && t[|s| - 2] == 'n';
    }
  }

  lemma {:induction false} UnambiguousKeys(keys: string)
    requires AllAccepted(keys) && Unambiguous(Taken(keys))
    ensures NoBreak(keys)
  {
    hide NoBreak, Breaks;
    if keys == [] {
      NothingTyped([]);
    } else {
      var init, c := keys[..|keys| - 1], keys[|keys| - 1];
      assert keys == init + [c];
      TakenAppend(init, c);
      var s, t := Taken(init), Taken(keys);
      assert forall i :: 0 <= i < |s| ==> s[i] == t[i];
      UnambiguousKeys(init);
      UnambiguousDoesNotBreak(s, Lower(c));
      NoBreakStep(init, c);
    }
  }

  // ---- Any interleaving of keystrokes and deletions ----

  datatype Edit = Key(ch: char) | DeleteLast

  ghost function Apply(rules: seq<Rule>, buffer: string, e: Edit): string {
    match e
    case Key(ch) => BufferAfter(rules, buffer, ch)
    case DeleteLast => if buffer == [] then [] else buffer[..|buffer| - 1]
  }

  ghost function Edited(rules: seq<Rule>, edits: seq<Edit>): string {
    if edits == [] then [] else Apply(rules, Edited(rules, edits[..|edits| - 1]), edits[|edits| - 1])
  }

  lemma SplitWellFormed(rules: seq<Rule>, kana: string, tail: string)
    requires ValidRules(rules) && NoAscii(kana) && Held(rules, tail)
    ensures WellFormedBuffer(rules, kana + tail)
    ensures PendingStart(kana + tail) == |kana|
  {
    hide ValidRules, PendingStart, Scan, Taken, IsPrefixOfRule;
    HeldTail(rules, tail);
    SplitIsRecovered(kana, tail);
  }

  lemma KeyKeepsShape(rules: seq<Rule>, buffer: string, ch: char)
    requires ValidRules(rules) && WellFormedBuffer(rules, buffer) && IsAccepted(ch)
    ensures WellFormedBuffer(rules, BufferAfter(rules, buffer, ch))
  {
    hide ValidRules, PendingStart, Scan, Taken, IsPrefixOfRule;
    var split := PendingStart(buffer);
    var tail := buffer[split..];
    HeldTail(rules, tail);
    assert AllAccepted(tail + [ch]);
    var c := Scan(rules, Taken(tail + [ch]));
    ScanShape(rules, Taken(tail + [ch]));
    SplitWellFormed(rules, buffer[..split] + c.kana, c.pending);
  }

  lemma DeleteKeepsShape(rules: seq<Rule>, buffer: string)
    requires ValidRules(rules) && WellFormedBuffer(rules, buffer) && buffer != []
    ensures WellFormedBuffer(rules, buffer[..|buffer| - 1])
  {
    hide ValidRules, PendingStart, Scan, Taken;
    var split := PendingStart(buffer);
    var tail := buffer[split..];
    var shorter := buffer[..|buffer| - 1];
    if tail == [] {
      assert shorter == buffer[..split][..|buffer| - 1] + [];
      SplitWellFormed(rules, buffer[..split][..|buffer| - 1], []);
    } else {
      assert shorter == buffer[..split] + tail[..|tail| - 1];
      var r :| r in rules && tail < r.romaji;
      assert tail[..|tail| - 1] < r.romaji;
      SplitWellFormed(rules, buffer[..split], tail[..|tail| - 1]);
    }
  }

  lemma {:induction false} BufferInvariant(rules: seq<Rule>, edits: seq<Edit>)
    requires ValidRules(rules)
    requires forall e :: e in edits && e.Key? ==> IsAccepted(e.ch)
    ensures WellFormedBuffer(rules, Edited(rules, edits))
  {
    hide ValidRules, WellFormedBuffer, BufferAfter;
    if edits == [] {
      SplitWellFormed(rules, [], []);
    } else {
      var init, e := edits[..|edits| - 1], edits[|edits| - 1];
      BufferInvariant(rules, init);
      var buffer := Edited(rules, init);
      if e.Key? {
        KeyKeepsShape(rules, buffer, e.ch);
      } else if buffer != [] {
        DeleteKeepsShape(rules, buffer);
      }
    }
  }

  /** The display has a character for each of the buffer's; the reading is as much of it as is
      settled, and holds no letter. */
  lemma ShownAndSent(rules: seq<Rule>, buffer: string)
    requires ValidRules(rules) && WellFormedBuffer(rules, buffer)
    ensures |DisplayText(rules, buffer)| == |buffer|
    ensures ReadingText(rules, buffer) <= DisplayText(rules, buffer)
    ensures NoAscii(ReadingText(rules, buffer))
    ensures |buffer| - PendingStart(buffer) <= 3
  {
    hide ValidRules, PendingStart, Scan, IsPrefixOfRule;
    HeldTail(rules, buffer[PendingStart(buffer)..]);
  }

  // ---- Keys the converter does not take ----

  /** Once such a key is in the tail, every later ASCII key is kept as it came, unresolved. */
  lemma RejectedKeyStaysRaw(rules: seq<Rule>, buffer: string, ch: char)
    requires !AllAccepted(buffer[PendingStart(buffer)..])
    ensures BufferAfter(rules, buffer, ch) == buffer + [ch]
  {
    hide Scan, Taken, PendingStart;
    var tail := buffer[PendingStart(buffer)..];
    var i :| 0 <= i < |tail| && !IsAccepted(tail[i]);
    assert (tail + [ch])[i] == tail[i];
  }

  /** The same keys, from any buffer on. */
  ghost function TypedFrom(rules: seq<Rule>, buffer: string, keys: string): string {
    if keys == [] then buffer
    else BufferAfter(rules, TypedFrom(rules, buffer, keys[..|keys| - 1]), keys[|keys| - 1])
  }

  lemma {:induction false} RejectedRunStaysRaw(rules: seq<Rule>, buffer: string, keys: string)
    requires !AllAccepted(buffer[PendingStart(buffer)..])
    requires forall i :: 0 <= i < |keys| ==> IsAscii(keys[i])
    ensures TypedFrom(rules, buffer, keys) == buffer + keys
    ensures PendingStart(buffer + keys) == PendingStart(buffer)
    ensures !AllAccepted((buffer + keys)[PendingStart(buffer)..])
  {
    hide BufferAfter, IsAccepted;
    if keys == [] {
      assert buffer + keys == buffer;
    } else {
      var before, ch := keys[..|keys| - 1], keys[|keys| - 1];
      RejectedRunStaysRaw(rules, buffer, before);
      RejectedKeyStaysRaw(rules, buffer + before, ch);
      assert buffer + keys == (buffer + before) + [ch];
      assert (buffer + keys)[..|buffer + before|] == buffer + before;
      var tail := (buffer + before)[PendingStart(buffer)..];
      var i :| 0 <= i < |tail| && !IsAccepted(tail[i]);
      assert (buffer + keys)[PendingStart(buffer)..][i] == tail[i];
    }
  }

  lemma RejectedIsRaw(rules: seq<Rule>, buffer: string, ch: char)
    requires !IsAccepted(ch)
    ensures BufferAfter(rules, buffer, ch) == buffer + [ch]
  {
    hide Scan, Taken, PendingStart;
    var tail := buffer[PendingStart(buffer)..];
    assert (tail + [ch])[|tail|] == ch;
  }

  lemma RejectedAsciiIsHidden(rules: seq<Rule>, buffer: string, ch: char)
    requires ValidRules(rules) && WellFormedBuffer(rules, buffer)
    requires !IsAccepted(ch) && IsAscii(ch)
    ensures DisplayText(rules, buffer + [ch]) == DisplayText(rules, buffer)
  {
    hide ValidRules, Scan, IsPrefixOfRule;
    var split := PendingStart(buffer);
    var tail := buffer[split..];
    var after := buffer + [ch];
    assert after[..|buffer|] == buffer;
    assert PendingStart(after) == split;
    assert after[split..] == tail + [ch] && after[..split] == buffer[..split];
    TakenAppend(tail, ch);
  }

  lemma NonAsciiSettles(rules: seq<Rule>, buffer: string, ch: char)
    requires !IsAscii(ch)
    ensures DisplayText(rules, buffer + [ch]) == buffer + [ch]
  {
    var after := buffer + [ch];
    assert after[|after|..] == [] && after[..|after|] == after;
    assert Taken([]) == [] && Scan(rules, []) == Converted([], []);
    assert after + [] == after;
  }

  /** A key is visible exactly when it is accepted or is not ASCII. A rejected ASCII key stays in the
      buffer and leaves what is shown as it was; one that is not ASCII settles all before it. */
  lemma KeyIsShown(rules: seq<Rule>, buffer: string, ch: char)
    requires ValidRules(rules) && WellFormedBuffer(rules, buffer)
    ensures var after := BufferAfter(rules, buffer, ch);
            && (|DisplayText(rules, after)| == |after| <==> IsAccepted(ch) || !IsAscii(ch))
            && (!IsAccepted(ch) ==> after == buffer + [ch])
            && (!IsAccepted(ch) && IsAscii(ch) ==> DisplayText(rules, after) == DisplayText(rules, buffer))
            && (!IsAscii(ch) ==> DisplayText(rules, after) == buffer + [ch])
  {
    hide ValidRules, WellFormedBuffer, BufferAfter, DisplayText;
    if IsAccepted(ch) {
      KeyKeepsShape(rules, buffer, ch);
      ShownAndSent(rules, BufferAfter(rules, buffer, ch));
    } else {
      RejectedIsRaw(rules, buffer, ch);
      if IsAscii(ch) {
        RejectedAsciiIsHidden(rules, buffer, ch);
        ShownAndSent(rules, buffer);
      } else {
        NonAsciiSettles(rules, buffer, ch);
      }
    }
  }

  /** Kana and a syllable begun are shown as they are and read without the letters, but that a single n
      is shown and read as ん. */
  lemma KanaAndTail(rules: seq<Rule>, kana: string, tail: string)
    requires ValidRules(rules) && NoAscii(kana) && Held(rules, tail)
    ensures DisplayText(rules, kana + tail) == if tail == "n" then kana + "ん" else kana + tail
    ensures ReadingText(rules, kana + tail) == if tail == "n" then kana + "ん" else kana
  {
    hide ValidRules, Held, DisplayText, ReadingText;
    ReadsBack(rules, kana, tail);
  }

  // ---- The keys that are taken ----

  const SMALL_LETTERS := "abcdefghijklmnopqrstuvwxyz"
  const CAPITALS := "ABCDEFGHIJKLMNOPQRSTUVWXYZ"

  /** The converter takes the letters, the symbols the table spells, and the apostrophe. */
  lemma TakenKeys(c: char)
    ensures IsAccepted(c) <==> c in SMALL_LETTERS || c in CAPITALS || c in "-,./[]'"
  {
    if c in SMALL_LETTERS {
      var i :| 0 <= i < 26 && SMALL_LETTERS[i] == c;
    } else if c in CAPITALS {
      var i :| 0 <= i < 26 && CAPITALS[i] == c;
    }
    if 'a' <= c <= 'z' { assert SMALL_LETTERS[c as int - 'a' as int] == c; }
    if 'A' <= c <= 'Z' { assert CAPITALS[c as int - 'A' as int] == c; }
  }

  /** The same keys, some of them shifted. */
  ghost predicate SameLetters(a: string, b: string) {
    |a| == |b| && forall i :: 0 <= i < |a| ==> SameLetter(a[i], b[i])
  }

  ghost predicate SameLetter(x: char, y: char) {
    x == y || exists k :: 0 <= k < 26 && x == CAPITALS[k] && y == SMALL_LETTERS[k]
  }

  lemma SameKey(x: char, y: char)
    requires SameLetter(x, y)
    ensures Lower(x) == Lower(y) && (IsAccepted(x) <==> IsAccepted(y))
  {
  }

  lemma {:induction false} SameTaken(a: string, b: string)
    requires SameLetters(a, b)
    ensures Taken(a) == Taken(b) && (AllAccepted(a) <==> AllAccepted(b))
  {
    hide SameLetter, Lower, IsAccepted;
    forall i | 0 <= i < |a| ensures IsAccepted(a[i]) <==> IsAccepted(b[i]) { SameKey(a[i], b[i]); }
    if a != [] {
      SameKey(a[|a| - 1], b[|b| - 1]);
      SameTaken(a[..|a| - 1], b[..|b| - 1]);
    }
  }
}
