/** When scanning one keystroke at a time agrees with scanning the whole romaji, and why every
    spelling is read back as the kana it stands for. */
module RomajiLaws {
  import opened Wrappers
  import opened RomajiTable
  import opened RomajiKana

  // ---- What the table gives ----

  lemma PrefixFree(x: string, y: string)
    requires Shape(x) && Shape(y) && x <= y
    ensures x == y
  {
  }

  /** What is held back is a run of at most three consonants that begins some spelling. */
  predicate Partial(s: string) {
    || (|s| == 1 && IsConsonant(s[0]))
    || (|s| == 2 && IsConsonant(s[0]) && IsConsonant(s[1])
        && s[0] != s[1] && s[1] != 'n' && (s[0] == 'n' ==> s[1] == 'y'))
    || (|s| == 3 && IsConsonant(s[0]) && IsConsonant(s[1]) && IsConsonant(s[2])
        && s[0] != s[1] && s[1] != s[2] && s[0] != 'n' && s[1] != 'n' && s[2] != 'n')
  }

  lemma SpellingShape(rules: seq<Rule>, s: string)
    requires ValidRules(rules) && Lookup(rules, s).Some?
    ensures WellFormed(Rule(s, Lookup(rules, s).value))
  {
    LookupFinds(rules, s);
  }

  predicate EndsSyllable(s: string) {
    s != [] && (IsVowel(s[|s| - 1]) || IsSymbol(s[|s| - 1]))
  }

  lemma ShapeEnds(s: string)
    requires Shape(s)
    ensures EndsSyllable(s)
  {
  }

  lemma SpellingEnds(rules: seq<Rule>, s: string)
    requires ValidRules(rules) && Lookup(rules, s).Some?
    ensures EndsSyllable(s)
  {
    SpellingShape(rules, s);
    ShapeEnds(s);
  }

  lemma HeldIsPartial(rules: seq<Rule>, s: string)
    requires ValidRules(rules) && s != [] && IsPrefixOfRule(rules, s)
    ensures Partial(s)
  {
    var r :| r in rules && s < r.romaji;
    assert WellFormed(r);
    assert |s| < |r.romaji|;
    assert forall i :: 0 <= i < |s| ==> s[i] == r.romaji[i];
  }

  lemma PartialIsNotSpelled(rules: seq<Rule>, s: string)
    requires ValidRules(rules) && Partial(s)
    ensures Lookup(rules, s).None?
  {
    if Lookup(rules, s).Some? { SpellingShape(rules, s); }
  }

  lemma {:induction false} MatchIsUnique(rules: seq<Rule>, s: string, k: nat, length: nat)
    requires ValidRules(rules) && 1 <= k <= length <= |s|
    requires Lookup(rules, s[..k]).Some?
    ensures LongestMatch(rules, s, length) == Some(k)
  {
    if k < length {
      if Lookup(rules, s[..length]).Some? {
        SpellingShape(rules, s[..k]);
        SpellingShape(rules, s[..length]);
        assert s[..k] <= s[..length];
        PrefixFree(s[..k], s[..length]);
      }
      MatchIsUnique(rules, s, k, length - 1);
    }
  }

  lemma {:induction false} NoMatch(rules: seq<Rule>, s: string, length: nat)
    requires length <= |s|
    requires forall k :: 1 <= k <= length ==> Lookup(rules, s[..k]).None?
    ensures LongestMatch(rules, s, length).None?
  {
    if length > 0 { NoMatch(rules, s, length - 1); }
  }

  lemma {:induction false} NoMatchInverse(rules: seq<Rule>, s: string, length: nat, k: nat)
    requires 1 <= k <= length <= |s|
    requires LongestMatch(rules, s, length).None?
    ensures Lookup(rules, s[..k]).None?
  {
    if k < length { NoMatchInverse(rules, s, length - 1, k); }
  }

  /** The match at the front does not depend on what follows it. */
  lemma SpellingMatches(rules: seq<Rule>, spelling: string, rest: string)
    requires ValidRules(rules) && Lookup(rules, spelling).Some?
    ensures spelling != []
    ensures MatchStep(rules, spelling + rest) == Emit(Lookup(rules, spelling).value, |spelling|)
  {
    SpellingShape(rules, spelling);
    var s := spelling + rest;
    assert s[..|spelling|] == spelling;
    MatchIsUnique(rules, s, |spelling|, MatchLimit(s));
  }

  /** What is held is held as a whole: nothing in it can be resolved yet. */
  lemma HeldIsHeld(rules: seq<Rule>, s: string)
    requires ValidRules(rules) && s != [] && IsPrefixOfRule(rules, s)
    ensures NextStep(rules, s) == Hold && Scan(rules, s) == Converted("", s)
  {
    HeldIsPartial(rules, s);
    forall k | 1 <= k <= MatchLimit(s) ensures Lookup(rules, s[..k]).None? {
      PartialIsNotSpelled(rules, s[..k]);
    }
    NoMatch(rules, s, MatchLimit(s));
  }

  /** A dropped letter is dropped whatever is typed next. */
  lemma DropIsStable(rules: seq<Rule>, s: string, c: char)
    requires ValidRules(rules) && s != []
    requires LongestMatch(rules, s, MatchLimit(s)).None? && !IsPrefixOfRule(rules, s)
    ensures MatchStep(rules, s + [c]) == Emit("", 1)
  {
    var t := s + [c];
    forall k | 1 <= k <= MatchLimit(t) ensures Lookup(rules, t[..k]).None? {
      if k <= |s| {
        assert t[..k] == s[..k];
        NoMatchInverse(rules, s, MatchLimit(s), k);
      } else {
        assert t[..k] == t;
        if Lookup(rules, t).Some? { GrownFromHeld(rules, s, c); }
      }
    }
    NoMatch(rules, t, MatchLimit(t));
    if IsPrefixOfRule(rules, t) { GrownFromHeld(rules, s, c); }
  }

  /** A spelling, or the beginning of one, is reached only through what would have been held. */
  lemma GrownFromHeld(rules: seq<Rule>, s: string, c: char)
    requires ValidRules(rules)
    requires Lookup(rules, s + [c]).Some? || IsPrefixOfRule(rules, s + [c])
    ensures IsPrefixOfRule(rules, s)
  {
    if Lookup(rules, s + [c]).Some? {
      LookupFinds(rules, s + [c]);
      assert WellFormed(Rule(s + [c], Lookup(rules, s + [c]).value));
      assert s < s + [c];
    } else {
      var r :| r in rules && s + [c] < r.romaji;
      assert s < r.romaji;
    }
  }

  lemma MatchIsStable(rules: seq<Rule>, s: string, c: char)
    requires ValidRules(rules) && s != [] && MatchStep(rules, s).Emit?
    ensures MatchStep(rules, s + [c]) == MatchStep(rules, s)
  {
    match LongestMatch(rules, s, MatchLimit(s))
    case Some(n) =>
      assert s + [c] == s[..n] + (s[n..] + [c]);
      SpellingMatches(rules, s[..n], s[n..] + [c]);
    case None => DropIsStable(rules, s, c);
  }

  /** Only two steps look at a letter that has not been typed yet. */
  predicate Undecided(s: string, c: char) {
    (s == "nn" && ContinuesN(c)) || (s == "q" && c == 'q')
  }

  lemma StepIsStable(rules: seq<Rule>, s: string, c: char)
    requires ValidRules(rules) && s != [] && NextStep(rules, s).Emit? && !Undecided(s, c)
    ensures NextStep(rules, s + [c]) == NextStep(rules, s)
  {
    if |s| == 1 && DoublesToSokuon(s[0]) && c == s[0] {
      assert s == [c];
      assert IsConsonant(c);
      HeldIsHeld(rules, s);
    } else if |s| == 1 && s[0] == 'n' {
      assert s == ['n'];
      HeldIsHeld(rules, s);
    } else if NextStep(rules, s) == MatchStep(rules, s) {
      MatchIsStable(rules, s, c);
    }
  }

  // ---- The two shapes that one letter of lookahead decides ----

  /** How many n's the romaji ends in. */
  function TrailingNs(s: string): nat {
    if s == [] || s[|s| - 1] != 'n' then 0 else 1 + TrailingNs(s[..|s| - 1])
  }

  /** The keystrokes on which the incremental form loses: a vowel or y after an nn that was
      already closed into ん, and a second q. A caller can test this on the romaji typed so far. */
  predicate Breaks(s: string, c: char) {
    || (TrailingNs(s) > 0 && TrailingNs(s) % 2 == 0 && ContinuesN(c))
    || (s != [] && s[|s| - 1] == 'q' && c == 'q')
  }

  lemma {:induction false} TrailingNsOfSuffix(s: string, k: nat)
    requires k < |s|
    ensures TrailingNs(s[k..]) <= |s| - k
    ensures TrailingNs(s) == if TrailingNs(s[k..]) == |s| - k then |s| - k + TrailingNs(s[..k]) else TrailingNs(s[k..])
  {
    var last := |s| - 1;
    assert s[k..][|s| - k - 1] == s[last];
    if s[last] == 'n' {
      assert s[k..][..|s| - k - 1] == s[..last][k..];
      if k < last {
        TrailingNsOfSuffix(s[..last], k);
        assert s[..last][..k] == s[..k];
      } else {
        assert s[..last][k..] == [];
        assert s[..last] == s[..k];
      }
    }
  }

  /** A step that is not one of the undecided ones leaves the question to what follows it. */
  lemma BreaksIsDecidedLater(rules: seq<Rule>, s: string, c: char)
    requires ValidRules(rules) && s != [] && NextStep(rules, s).Emit? && !Undecided(s, c)
    ensures Breaks(s, c) <==> Breaks(s[NextStep(rules, s).count..], c)
  {
    var n := NextStep(rules, s).count;
    if n < |s| {
      TrailingNsOfSuffix(s, n);
      assert s[n..][|s| - n - 1] == s[|s| - 1];
      if TrailingNs(s[n..]) == |s| - n {
        AllNs(s[n..]);
        forall i | n <= i < |s| ensures s[i] == 'n' { assert s[i] == s[n..][i - n]; }
        StepBeforeNs(rules, s);
      }
    } else {
      LastStep(rules, s);
      assert s[n..] == [];
    }
  }

  /** The last letter a match consumes is a vowel or a symbol. */
  lemma MatchEnds(rules: seq<Rule>, s: string)
    requires ValidRules(rules) && s != [] && MatchStep(rules, s).Emit?
    ensures var n := MatchStep(rules, s).count;
            n == 1 || EndsSyllable(s[..n])
  {
    match LongestMatch(rules, s, MatchLimit(s))
    case Some(n) => SpellingEnds(rules, s[..n]);
    case None =>
  }

  /** A step that stops right before a run of n's has consumed no n of it, or a pair. */
  lemma StepBeforeNs(rules: seq<Rule>, s: string)
    requires ValidRules(rules) && s != [] && NextStep(rules, s).Emit?
    requires NextStep(rules, s).count < |s| && s[NextStep(rules, s).count] == 'n'
    requires forall i :: NextStep(rules, s).count <= i < |s| ==> s[i] == 'n'
    ensures TrailingNs(s[..NextStep(rules, s).count]) % 2 == 0
  {
    var n := NextStep(rules, s).count;
    if n == 2 && s[0] == 'n' && s[1] == 'n' {
      assert s[..2][..1] == ['n'];
      assert ['n'][..0] == [];
    } else {
      if NextStep(rules, s) == MatchStep(rules, s) { MatchEnds(rules, s); }
      assert s[..n][n - 1] != 'n';
    }
  }

  /** A step that consumes everything leaves a trailing run only when it closes nn. */
  lemma LastStep(rules: seq<Rule>, s: string)
    requires ValidRules(rules) && s != [] && NextStep(rules, s).Emit?
    requires NextStep(rules, s).count == |s|
    ensures s == "nn" || s[|s| - 1] != 'n'
    ensures s == "q" || s[|s| - 1] != 'q'
  {
    if s[0] == 'n' && |s| == 1 {
      assert s == "n";
      HeldIsHeld(rules, s);
    } else if NextStep(rules, s) == MatchStep(rules, s) {
      MatchEnds(rules, s);
    }
  }

  lemma {:induction false} AllNs(s: string)
    requires TrailingNs(s) == |s|
    ensures forall i :: 0 <= i < |s| ==> s[i] == 'n'
  {
    if s != [] { AllNs(s[..|s| - 1]); }
  }

  // ---- The one-step law ----

  /** Scanning one more keystroke is the same as keeping the kana and replaying the held tail. */
  ghost predicate Replays(rules: seq<Rule>, s: string, c: char) {
    var before := Scan(rules, s);
    var replayed := Scan(rules, before.pending + [c]);
    Scan(rules, s + [c]) == Converted(before.kana + replayed.kana, replayed.pending)
  }

  lemma ReplaysAfterStep(rules: seq<Rule>, s: string, c: char)
    requires s != [] && NextStep(rules, s).Emit? && NextStep(rules, s + [c]) == NextStep(rules, s)
    ensures Replays(rules, s, c) <==> Replays(rules, s[NextStep(rules, s).count..], c)
  {
    var step := NextStep(rules, s);
    var tail := s[step.count..];
    assert (s + [c])[step.count..] == tail + [c];
    var whole := Scan(rules, tail + [c]).kana;
    var before := Scan(rules, tail);
    var parts := before.kana + Scan(rules, before.pending + [c]).kana;
    assert Scan(rules, s).kana + Scan(rules, before.pending + [c]).kana == step.kana + parts;
    if step.kana + whole == step.kana + parts {
      assert whole == (step.kana + whole)[|step.kana|..];
      assert parts == (step.kana + parts)[|step.kana|..];
    }
  }

  /** A vowel alone and the same vowel after n are different kana; y alone and ny are different
      held tails. */
  lemma NChangesTheSyllable(rules: seq<Rule>, c: char)
    requires ValidRules(rules) && ContinuesN(c)
    ensures Scan(rules, ['n', c]) != Scan(rules, [c])
  {
    if c == 'y' {
      assert ['n', c] == "ny" && [c] == "y";
      assert IsPrefixOfRule(rules, "ny") && IsPrefixOfRule(rules, [c]);
      HeldIsHeld(rules, "ny");
      HeldIsHeld(rules, [c]);
    } else {
      OneSpelling(rules, [c]);
      OneSpelling(rules, ['n', c]);
      SpellingShape(rules, [c]);
      SpellingShape(rules, ['n', c]);
    }
  }

  lemma OneSpelling(rules: seq<Rule>, s: string)
    requires ValidRules(rules) && Lookup(rules, s).Some?
    ensures Scan(rules, s) == Converted(Lookup(rules, s).value, "")
  {
    SpellingStep(rules, s, "");
    assert s + "" == s && s[|s|..] == "";
  }

  lemma SpellingStep(rules: seq<Rule>, spelling: string, rest: string)
    requires ValidRules(rules) && Lookup(rules, spelling).Some?
    ensures spelling != []
    ensures NextStep(rules, spelling + rest) == Emit(Lookup(rules, spelling).value, |spelling|)
  {
    SpellingMatches(rules, spelling, rest);
    SpellingShape(rules, spelling);
  }

  lemma ClosedN(rules: seq<Rule>, c: char)
    requires ContinuesN(c)
    ensures Scan(rules, "nn") == Converted("ん", "")
    ensures Scan(rules, "nn" + [c]) == Converted("ん" + Scan(rules, ['n', c]).kana, Scan(rules, ['n', c]).pending)
  {
    assert NextStep(rules, "nn") == Emit("ん", 2) && "nn"[2..] == [];
    assert "ん" + [] == "ん";
    var t := "nn" + [c];
    assert NextStep(rules, t) == Emit("ん", 1) && t[1..] == ['n', c];
  }

  lemma ClosedNDoesNotReplay(rules: seq<Rule>, c: char)
    requires ValidRules(rules) && ContinuesN(c)
    ensures !Replays(rules, "nn", c)
  {
    ClosedN(rules, c);
    NChangesTheSyllable(rules, c);
    var whole, replayed := Scan(rules, ['n', c]), Scan(rules, [c]);
    assert "" + [c] == [c];
    if "ん" + whole.kana == "ん" + replayed.kana {
      assert whole.kana == ("ん" + whole.kana)[1..];
      assert replayed.kana == ("ん" + replayed.kana)[1..];
    }
  }

  lemma StrayQDoesNotReplay(rules: seq<Rule>)
    requires ValidRules(rules)
    ensures !Replays(rules, "q", 'q')
  {
    StrayQ(rules);
    assert "q" + ['q'] == "qq" && "qq"[1..] == "q" && "" + ['q'] == "q";
    assert NextStep(rules, "qq") == Emit("っ", 1);
  }

  lemma UndecidedDoesNotReplay(rules: seq<Rule>, s: string, c: char)
    requires ValidRules(rules) && Undecided(s, c)
    ensures Breaks(s, c) && !Replays(rules, s, c)
  {
    if s == "nn" {
      assert s[..1] == "n" && "n"[..0] == "";
      assert TrailingNs(s) == 2;
      ClosedNDoesNotReplay(rules, c);
    } else {
      StrayQDoesNotReplay(rules);
    }
  }

  lemma StrayQ(rules: seq<Rule>)
    requires ValidRules(rules)
    ensures NextStep(rules, "q") == Emit("", 1) && Scan(rules, "q") == Converted("", "")
  {
    if Lookup(rules, "q"[..1]).Some? { SpellingShape(rules, "q"[..1]); }
    NoMatch(rules, "q", 1);
    if IsPrefixOfRule(rules, "q") { HeldIsPartial(rules, "q"); }
    assert "q"[1..] == [];
  }

  /** The incremental form agrees with the whole-string form on one more keystroke exactly when
      the keystroke is not one of the two shapes. */
  lemma {:induction false} OneStepLaw(rules: seq<Rule>, s: string, c: char)
    requires ValidRules(rules)
    ensures Replays(rules, s, c) <==> !Breaks(s, c)
    decreases |s|
  {
    if s == [] {
      assert [] + [c] == [c];
      assert Scan(rules, s) == Converted([], []);
      assert [] + Scan(rules, [c]).kana == Scan(rules, [c]).kana;
    } else if NextStep(rules, s).Hold? {
      HeldReplays(rules, s, c);
    } else if Undecided(s, c) {
      UndecidedDoesNotReplay(rules, s, c);
    } else {
      StepIsStable(rules, s, c);
      ReplaysAfterStep(rules, s, c);
      BreaksIsDecidedLater(rules, s, c);
      OneStepLaw(rules, s[NextStep(rules, s).count..], c);
    }
  }

  lemma HeldReplays(rules: seq<Rule>, s: string, c: char)
    requires ValidRules(rules) && s != [] && NextStep(rules, s).Hold?
    ensures Replays(rules, s, c) && !Breaks(s, c)
  {
    HeldIsPartial(rules, s);
    assert [] + Scan(rules, s + [c]).kana == Scan(rules, s + [c]).kana;
    if s == "n" { assert s[..0] == []; assert TrailingNs(s) == 1; }
  }

  // ---- What the whole scan makes of a keystroke that breaks ----

  /** The letter before is taken back and read together with the new one. */
  function TakenBack(c: char): string {
    if c == 'q' then "qq" else ['n', c]
  }

  lemma QqScans(rules: seq<Rule>)
    requires ValidRules(rules)
    ensures Scan(rules, "qq") == Converted("っ", "") && Scan(rules, "q") == Converted("", "")
  {
    StrayQ(rules);
    assert "qq"[1..] == "q" && NextStep(rules, "qq") == Emit("っ", 1);
    assert "っ" + "" == "っ";
  }

  /** With nothing held, the whole scan goes on from the letter taken back. */
  lemma {:induction false} BreakScans(rules: seq<Rule>, s: string, c: char)
    requires ValidRules(rules) && Breaks(s, c)
    ensures var back := Scan(rules, TakenBack(c));
            && Scan(rules, s).pending == ""
            && Scan(rules, s + [c]).pending == back.pending
            && Scan(rules, s + [c]).kana == Scan(rules, s).kana + back.kana
    decreases |s|
  {
    hide ValidRules;
    if NextStep(rules, s).Hold? {
      HeldReplays(rules, s, c);
    } else if Undecided(s, c) {
      if s == "nn" {
        ClosedN(rules, c);
      } else {
        QqScans(rules);
        assert s + [c] == "qq" && "" + "っ" == "っ";
      }
    } else {
      StepIsStable(rules, s, c);
      BreaksIsDecidedLater(rules, s, c);
      var n := NextStep(rules, s).count;
      BreakScans(rules, s[n..], c);
      assert (s + [c])[n..] == s[n..] + [c];
      Grouped(NextStep(rules, s).kana, Scan(rules, s[n..]).kana, Scan(rules, TakenBack(c)).kana);
    }
  }

  lemma Grouped(a: string, b: string, c: string)
    ensures (a + b) + c == a + (b + c)
  {
  }

  // ---- Letters that come to nothing ----

  /** A letter that begins nothing with what follows it is dropped, and the scan goes on behind it. */
  lemma StrayIsDropped(rules: seq<Rule>, s: string)
    requires s != [] && s[0] != 'n' && (|s| >= 2 ==> s[0] != s[1])
    requires forall k :: 1 <= k <= |s| ==> Lookup(rules, s[..k]).None?
    requires forall r :: r in rules ==> !(s < r.romaji)
    ensures Scan(rules, s) == Scan(rules, s[1..])
  {
    NoMatch(rules, s, MatchLimit(s));
    assert NextStep(rules, s) == Emit("", 1);
    assert "" + Scan(rules, s[1..]).kana == Scan(rules, s[1..]).kana;
  }
}
