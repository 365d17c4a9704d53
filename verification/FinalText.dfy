/** When the buffer typed key by key ends as the whole romaji would be read, whatever it was on the
    way there. */
module FinalText {
  import opened Wrappers
  import opened RomajiTable
  import opened RomajiKana
  import opened RomajiLaws
  import opened CompositionBuffer

  /** Keeping the kana and replaying the held tail, from the first letter on. */
  ghost function Replayed(rules: seq<Rule>, s: string): Converted {
    if s == [] then Converted("", "")
    else
      var before := Replayed(rules, s[..|s| - 1]);
      var last := Scan(rules, before.pending + [s[|s| - 1]]);
      Converted(before.kana + last.kana, last.pending)
  }

  lemma {:induction false} TypedIsReplayed(rules: seq<Rule>, keys: string)
    requires ValidRules(rules) && AllAccepted(keys)
    ensures var r := Replayed(rules, Taken(keys));
            Typed(rules, keys) == Text(r) && NoAscii(r.kana) && Held(rules, r.pending)
  {
    hide ValidRules, Scan, BufferAfter, Held, Lower;
    if keys == [] {
      assert Held(rules, "") by { EmptyIsHeld(rules); }
    } else {
      var init, c := keys[..|keys| - 1], keys[|keys| - 1];
      TypedIsReplayed(rules, init);
      var r := Replayed(rules, Taken(init));
      KeyOnTail(rules, r.kana, r.pending, c);
      assert Taken(keys)[..|Taken(keys)| - 1] == Taken(init);
    }
  }

  lemma EmptyIsHeld(rules: seq<Rule>)
    ensures Held(rules, "")
  {
  }

  // ---- The condition ----

  /** The romaji so far ends in n's that have closed pairwise into ん. */
  predicate ClosedNs(s: string) {
    TrailingNs(s) > 0 && TrailingNs(s) % 2 == 0
  }

  /** A y right after closed n's: read whole, the last n goes with it; typed, it stands alone. */
  predicate Ajar(s: string) {
    s != [] && s[|s| - 1] == 'y' && ClosedNs(s[..|s| - 1])
  }

  /** The keystroke after which the two can no longer end alike: a second q, and a vowel after
      closed n's, with or without a y between. */
  predicate Departs(s: string, c: char) {
    || (s != [] && s[|s| - 1] == 'q' && c == 'q')
    || (IsVowel(c) && (ClosedNs(s) || Ajar(s)))
  }

  predicate Departed(s: string) {
    s != [] && (Departed(s[..|s| - 1]) || Departs(s[..|s| - 1], s[|s| - 1]))
  }

  // ---- How the two differ ----

  /** Different for good: appending as much to the first as to the second, or less, cannot make
      them equal. */
  predicate Apart(a: string, b: string) {
    |a| < |b| || exists j :: 0 <= j < |a| && j < |b| && a[j] != b[j]
  }

  lemma ApartGrows(a: string, b: string, x: string, y: string)
    requires Apart(a, b) && |x| <= |y|
    ensures Apart(a + x, b + y)
  {
    if |a| >= |b| {
      var j :| 0 <= j < |a| && j < |b| && a[j] != b[j];
      assert (a + x)[j] == a[j] && (b + y)[j] == b[j];
    }
  }

  lemma ComesApart(a: string, x: string, y: string)
    requires |x| < |y| || (x != "" && y != "" && x[0] != y[0])
    ensures Apart(a + x, a + y)
  {
    if |x| >= |y| {
      assert (a + x)[|a|] == x[0] && (a + y)[|a|] == y[0];
    }
  }

  lemma EitherWay(departed: bool, a: string, b: string, x: string, y: string)
    requires if departed then Apart(a, b) else a == b
    requires |x| < |y| || (|x| == |y| && x != "" && x[0] != y[0])
    ensures Apart(a + x, b + y)
  {
    if departed { ApartGrows(a, b, x, y); } else { ComesApart(a, x, y); }
  }

  ghost predicate Related(rules: seq<Rule>, s: string) {
    var typed, whole := Replayed(rules, s), Scan(rules, s);
    && (if Departed(s) then Apart(typed.kana, whole.kana) else typed.kana == whole.kana)
    && (if Ajar(s) then typed.pending == "y" && whole.pending == "ny" else typed.pending == whole.pending)
  }

  // ---- After nn and y ----

  /** With a vowel, ny and y are different syllables. */
  lemma NyVowel(rules: seq<Rule>, c: char)
    requires ValidRules(rules) && SpellsNy(rules) && IsVowel(c)
    ensures var alone, joined := Scan(rules, "y" + [c]), Scan(rules, "ny" + [c]);
            && alone.pending == "" && joined.pending == ""
            && alone.kana != "" && |alone.kana| <= |joined.kana| && alone.kana[0] != joined.kana[0]
  {
    var ny, y := ['n', 'y', c], ['y', c];
    assert "ny" + [c] == ny && "y" + [c] == y;
    OneSpelling(rules, ny);
    LookupFinds(rules, ny);
    assert NyShape(Rule(ny, Lookup(rules, ny).value));
    OneSpelling(rules, [c]);
    SpellingShape(rules, [c]);
    if Lookup(rules, y).Some? {
      OneSpelling(rules, y);
      LookupFinds(rules, y);
      assert NyShape(Rule(y, Lookup(rules, y).value)) && WellFormed(Rule(y, Lookup(rules, y).value));
    } else {
      if IsPrefixOfRule(rules, y) { HeldIsPartial(rules, y); }
      assert y[..2] == y;
      StrayFirst(rules, y);
      assert y[1..] == [c] && "" + Scan(rules, [c]).kana == Scan(rules, [c]).kana;
    }
  }

  /** A first letter that neither is nor begins a spelling with what follows is dropped. */
  lemma StrayFirst(rules: seq<Rule>, s: string)
    requires ValidRules(rules) && 2 <= |s| <= 3 && s[0] != s[1] && IsConsonant(s[0])
    requires s[0] == 'n' ==> s[1] == 'y'
    requires Lookup(rules, s[..2]).None? && Lookup(rules, s).None? && !IsPrefixOfRule(rules, s)
    ensures NextStep(rules, s) == Emit("", 1)
  {
    PartialIsNotSpelled(rules, s[..1]);
    forall k | 1 <= k <= MatchLimit(s) ensures Lookup(rules, s[..k]).None? {
      if k == |s| { assert s[..k] == s; }
    }
    NoMatch(rules, s, MatchLimit(s));
  }

  /** With anything else, the n of ny is dropped and the two are alike again. */
  lemma NyRejoins(rules: seq<Rule>, c: char)
    requires ValidRules(rules) && !IsVowel(c)
    ensures Scan(rules, "ny" + [c]) == Scan(rules, "y" + [c])
  {
    var s := "ny" + [c];
    assert s[1..] == "y" + [c] && s[..2] == "ny";
    PartialIsNotSpelled(rules, "ny");
    if Lookup(rules, s).Some? { SpellingShape(rules, s); }
    if IsPrefixOfRule(rules, s) { HeldIsPartial(rules, s); }
    StrayFirst(rules, s);
    assert "" + Scan(rules, "y" + [c]).kana == Scan(rules, "y" + [c]).kana;
  }

  // ---- The law ----

  lemma DepartedStep(s: string, c: char)
    ensures Departed(s + [c]) <==> Departed(s) || Departs(s, c)
    ensures Ajar(s + [c]) <==> c == 'y' && ClosedNs(s)
  {
    assert (s + [c])[..|s|] == s;
  }

  lemma ReplayedStep(rules: seq<Rule>, s: string, c: char)
    ensures var before := Replayed(rules, s);
            var last := Scan(rules, before.pending + [c]);
            Replayed(rules, s + [c]) == Converted(before.kana + last.kana, last.pending)
  {
    assert (s + [c])[..|s|] == s;
  }

  lemma AjarDoesNotBreak(s: string, c: char)
    requires Ajar(s)
    ensures !Breaks(s, c) && !ClosedNs(s) && s != [] && s[|s| - 1] == 'y'
  {
  }

  lemma AjarStep(rules: seq<Rule>, s: string, c: char)
    requires ValidRules(rules) && SpellsNy(rules) && Related(rules, s) && Ajar(s)
    ensures Related(rules, s + [c])
  {
    hide ValidRules, SpellsNy, Scan, Replayed, Apart, Ajar, Departed, Breaks, ClosedNs;
    var typed, whole := Replayed(rules, s), Scan(rules, s);
    AjarDoesNotBreak(s, c);
    OneStepLaw(rules, s, c);
    ReplayedStep(rules, s, c);
    DepartedStep(s, c);
    var alone, joined := Scan(rules, "y" + [c]), Scan(rules, "ny" + [c]);
    if IsVowel(c) {
      NyVowel(rules, c);
      EitherWay(Departed(s), typed.kana, whole.kana, alone.kana, joined.kana);
    } else {
      NyRejoins(rules, c);
      if Departed(s) { ApartGrows(typed.kana, whole.kana, alone.kana, joined.kana); }
    }
  }

  lemma BreakStep(rules: seq<Rule>, s: string, c: char)
    requires ValidRules(rules) && Related(rules, s) && !Ajar(s) && Breaks(s, c)
    ensures Related(rules, s + [c])
  {
    hide ValidRules, Scan, Replayed, Apart, Ajar, Departed;
    var typed, whole := Replayed(rules, s), Scan(rules, s);
    BreakScans(rules, s, c);
    ReplayedStep(rules, s, c);
    DepartedStep(s, c);
    assert "" + [c] == [c];
    var alone, joined := Scan(rules, [c]), Scan(rules, TakenBack(c));
    BreakKana(rules, c);
    if c == 'y' {
      assert typed.kana + "" == typed.kana && whole.kana + "" == whole.kana;
    } else {
      EitherWay(Departed(s), typed.kana, whole.kana, alone.kana, joined.kana);
    }
  }

  /** What the new letter comes to alone, and with the one taken back. */
  lemma BreakKana(rules: seq<Rule>, c: char)
    requires ValidRules(rules) && (ContinuesN(c) || c == 'q')
    ensures var alone, joined := Scan(rules, [c]), Scan(rules, TakenBack(c));
            && (c == 'y' ==> alone == Converted("", "y") && joined == Converted("", "ny"))
            && (c != 'y' ==>
                  && alone.pending == "" && joined.pending == ""
                  && (|alone.kana| < |joined.kana|
                      || (|alone.kana| == |joined.kana| && alone.kana != "" && alone.kana[0] != joined.kana[0])))
  {
    if c == 'q' {
      QqScans(rules);
      assert [c] == "q";
    } else if c == 'y' {
      assert ['n', c] == "ny" && [c] == "y";
      assert IsPrefixOfRule(rules, "ny") && IsPrefixOfRule(rules, [c]);
      HeldIsHeld(rules, "ny");
      HeldIsHeld(rules, [c]);
    } else {
      OneSpelling(rules, [c]);
      OneSpelling(rules, ['n', c]);
      SpellingShape(rules, [c]);
      SpellingShape(rules, ['n', c]);
    }
  }

  lemma PlainStep(rules: seq<Rule>, s: string, c: char)
    requires ValidRules(rules) && Related(rules, s) && !Ajar(s) && !Breaks(s, c)
    ensures Related(rules, s + [c])
  {
    hide ValidRules, Scan, Replayed, Apart, Ajar, Departed;
    var typed, whole := Replayed(rules, s), Scan(rules, s);
    OneStepLaw(rules, s, c);
    ReplayedStep(rules, s, c);
    DepartedStep(s, c);
    var last := Scan(rules, typed.pending + [c]);
    if Departed(s) { ApartGrows(typed.kana, whole.kana, last.kana, last.kana); }
  }

  lemma {:induction false} EveryPrefixIsRelated(rules: seq<Rule>, s: string)
    requires ValidRules(rules) && SpellsNy(rules)
    ensures Related(rules, s)
  {
    hide ValidRules, SpellsNy, Related, Breaks, Ajar;
    if s == [] {
      NothingIsRelated(rules);
    } else {
      var init, c := s[..|s| - 1], s[|s| - 1];
      assert init + [c] == s;
      EveryPrefixIsRelated(rules, init);
      if Ajar(init) { AjarStep(rules, init, c); }
      else if Breaks(init, c) { BreakStep(rules, init, c); }
      else { PlainStep(rules, init, c); }
    }
  }

  lemma NothingIsRelated(rules: seq<Rule>)
    ensures Related(rules, "")
  {
    assert Scan(rules, "") == Converted("", "");
  }

  /** The buffer ends as the whole romaji is read exactly when no key of the run departs and the run
      does not stop at a y after closed n's. */
  lemma FinalTextAgrees(rules: seq<Rule>, keys: string)
    requires ValidRules(rules) && SpellsNy(rules) && AllAccepted(keys)
    ensures Typed(rules, keys) == Whole(rules, keys) <==> !Departed(Taken(keys)) && !Ajar(Taken(keys))
  {
    hide ValidRules, SpellsNy, Scan, Replayed, Ajar, Departed, Typed, Held;
    var s := Taken(keys);
    TypedIsReplayed(rules, keys);
    EveryPrefixIsRelated(rules, s);
    ScanShape(rules, s);
    if Typed(rules, keys) == Whole(rules, keys) { TextIsUnique(rules, Replayed(rules, s), Scan(rules, s)); }
  }

  lemma ApartDiffers(a: string, b: string, x: string, y: string)
    requires Apart(a, b) && |x| <= |y|
    ensures a + x != b + y
  {
    ApartGrows(a, b, x, y);
  }

  lemma ReadingStays(typed: Converted, whole: Converted)
    requires typed.pending == whole.pending || (typed.pending == "y" && whole.pending == "ny")
    ensures typed.kana == whole.kana ==> ReadingOf(typed) == ReadingOf(whole)
    ensures Apart(typed.kana, whole.kana) ==> ReadingOf(typed) != ReadingOf(whole)
  {
    hide Apart;
    assert typed.kana + "" == typed.kana && whole.kana + "" == whole.kana;
    if Apart(typed.kana, whole.kana) {
      ApartDiffers(typed.kana, whole.kana, "", "");
      ApartDiffers(typed.kana, whole.kana, "ん", "ん");
    }
  }

  /** What the buffer reads, which is what the engine is asked, is what the whole romaji reads exactly
      when no key of the run departs: a last y left open shows differently and reads the same. */
  lemma FinalReadingAgrees(rules: seq<Rule>, keys: string)
    requires ValidRules(rules) && SpellsNy(rules) && AllAccepted(keys)
    ensures ReadingText(rules, Typed(rules, keys)) == ReadingOf(Scan(rules, Taken(keys))) <==> !Departed(Taken(keys))
  {
    hide ValidRules, SpellsNy, Scan, Replayed, Ajar, Departed, Typed, Held, ReadingText, ReadingOf, Apart;
    var s := Taken(keys);
    TypedIsReplayed(rules, keys);
    EveryPrefixIsRelated(rules, s);
    ReadsBack(rules, Replayed(rules, s).kana, Replayed(rules, s).pending);
    ReadingStays(Replayed(rules, s), Scan(rules, s));
  }

  lemma DisplayStays(typed: Converted, whole: Converted)
    requires typed.pending == whole.pending || (typed.pending == "y" && whole.pending == "ny")
    ensures typed.kana == whole.kana ==> (DisplayOf(typed) == DisplayOf(whole) <==> typed.pending == whole.pending)
    ensures Apart(typed.kana, whole.kana) ==> DisplayOf(typed) != DisplayOf(whole)
  {
    hide Apart;
    if Apart(typed.kana, whole.kana) {
      ApartDiffers(typed.kana, whole.kana, typed.pending, whole.pending);
      ApartDiffers(typed.kana, whole.kana, "ん", "ん");
    }
    if typed.pending != whole.pending {
      assert |typed.kana + "y"| == |typed.kana| + 1 && |whole.kana + "ny"| == |whole.kana| + 2;
    }
  }

  /** What is shown agrees under the condition of the text. */
  lemma FinalDisplayAgrees(rules: seq<Rule>, keys: string)
    requires ValidRules(rules) && SpellsNy(rules) && AllAccepted(keys)
    ensures DisplayText(rules, Typed(rules, keys)) == DisplayOf(Scan(rules, Taken(keys)))
            <==> !Departed(Taken(keys)) && !Ajar(Taken(keys))
  {
    hide ValidRules, SpellsNy, Scan, Replayed, Ajar, Departed, Typed, Held, DisplayText, DisplayOf, Apart;
    var s := Taken(keys);
    TypedIsReplayed(rules, keys);
    EveryPrefixIsRelated(rules, s);
    ReadsBack(rules, Replayed(rules, s).kana, Replayed(rules, s).pending);
    DisplayStays(Replayed(rules, s), Scan(rules, s));
  }

  /** Capitals are read as small letters: keys come to the same buffer, and the same reading, however
      they are shifted. */
  lemma ShiftDoesNotMatter(rules: seq<Rule>, a: string, b: string)
    requires ValidRules(rules) && SameLetters(a, b) && AllAccepted(b)
    ensures Typed(rules, a) == Typed(rules, b) && Scan(rules, Taken(a)) == Scan(rules, Taken(b))
  {
    hide ValidRules, SameLetters, Typed, Replayed, Scan, Held, IsAccepted;
    SameTaken(a, b);
    TypedIsReplayed(rules, a);
    TypedIsReplayed(rules, b);
  }
}
