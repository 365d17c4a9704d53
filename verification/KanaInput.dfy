/** The conversion laws for the table the input method ships with. */
module KanaInput {
  import opened Wrappers
  import opened RomajiTable
  import opened SyllableTable
  import opened RomajiKana
  import opened RomajiLaws
  import opened CompositionBuffer
  import opened FinalText
  import opened Morae

  lemma ShippedIncremental(keys: string)
    requires AllAccepted(keys)
    ensures InStep(Rules(), keys) <==> NoBreak(keys)
  {
    RulesAreValid();
    IncrementalRefinesWhole(Rules(), keys);
  }

  lemma ShippedRoundTrip(morae: seq<Mora>)
    requires AllPronounceable(Rules(), morae)
    ensures Scan(Rules(), SpellAll(morae)) == Converted(KanaAll(Rules(), morae), "")
    ensures Typed(Rules(), SpellAll(morae)) == KanaAll(Rules(), morae)
  {
    RulesAreValid();
    SpelledMoraeReadBack(Rules(), morae);
    TypedMoraeReadBack(Rules(), morae);
  }

  lemma ShippedBuffer(edits: seq<Edit>)
    requires forall e :: e in edits && e.Key? ==> IsAccepted(e.ch)
    ensures var buffer := Edited(Rules(), edits);
            && WellFormedBuffer(Rules(), buffer)
            && |DisplayText(Rules(), buffer)| == |buffer|
            && ReadingText(Rules(), buffer) <= DisplayText(Rules(), buffer)
            && NoAscii(ReadingText(Rules(), buffer))
  {
    RulesAreValid();
    BufferInvariant(Rules(), edits);
    ShownAndSent(Rules(), Edited(Rules(), edits));
  }

  /** The buffer typed key by key ends as the whole string is read exactly when no second q was typed
      and no vowel after closed n's, a y between them or not, and the last key is not that y. */
  lemma ShippedFinalText(keys: string)
    requires AllAccepted(keys)
    ensures Typed(Rules(), keys) == Whole(Rules(), keys) <==> !Departed(Taken(keys)) && !Ajar(Taken(keys))
  {
    hide Rules, ValidRules, SpellsNy, Departed, Ajar, Typed, Whole;
    RulesAreValid();
    RulesSpellNy();
    FinalTextAgrees(Rules(), keys);
  }

  lemma ShippedFinalReading(keys: string)
    requires AllAccepted(keys)
    ensures ReadingText(Rules(), Typed(Rules(), keys)) == ReadingOf(Scan(Rules(), Taken(keys)))
            <==> !Departed(Taken(keys))
  {
    hide Rules, ValidRules, SpellsNy, Departed, Typed, Scan, ReadingText;
    RulesAreValid();
    RulesSpellNy();
    FinalReadingAgrees(Rules(), keys);
  }

  lemma SanninBreaks()
    ensures AllAccepted("sannin") && !NoBreak("sannin")
  {
    var keys := "sannin";
    assert keys[..4] == "sann" && keys[4] == 'i';
    PlainIsTaken("sann");
    assert TrailingNs("sann") == 2 by {
      assert "sann"[..3] == "san" && "san"[..2] == "sa";
    }
    assert Breaks(Taken(keys[..4]), Lower(keys[4]));
  }

  // ---- "sannin" ----

  lemma NnBeforeN()
    ensures Scan(Rules(), "nn") == Converted("ん", "")
    ensures Scan(Rules(), "nin") == Converted("に", "n")
    ensures Scan(Rules(), "nnin") == Converted("んに", "n")
    ensures Scan(Rules(), "i") == Converted("い", "") && Scan(Rules(), "n") == Converted("", "n")
  {
    hide Rules, Lookup, ValidRules, MatchStep;
    RulesAreValid();
    ExamplesAreFound();
    ClosedN(Rules(), 'i');
    OneSpelling(Rules(), "i");
    SingleNIsHeld();
    assert "ni" + "n" == "nin";
    SyllableRead(Rules(), "ni", "n");
    assert "nnin"[1..] == "nin" && NextStep(Rules(), "nnin") == Emit("ん", 1);
  }

  lemma SingleNIsHeld()
    ensures IsPrefixOfRule(Rules(), "n") && Scan(Rules(), "n") == Converted("", "n")
  {
    hide Rules, Lookup;
    RulesAreValid();
    assert "n" == ['n'];
    assert IsPrefixOfRule(Rules(), ['n']);
    HeldIsHeld(Rules(), "n");
  }

  /** Read whole, as the comment beside the scan promises, "sannin" is さんにん. */
  lemma SanninWhole()
    ensures Scan(Rules(), "sann") == Converted("さん", "")
    ensures ReadingOf(Scan(Rules(), "sannin")) == "さんにん"
  {
    hide Rules, Lookup, ValidRules, Scan;
    RulesAreValid();
    ExamplesAreFound();
    NnBeforeN();
    SyllableRead(Rules(), "sa", "nn");
    assert "sa" + "nn" == "sann" && "さ" + "ん" == "さん";
    SyllableRead(Rules(), "sa", "nnin");
    assert "sa" + "nnin" == "sannin" && "さ" + "んに" == "さんに" && "さんに" + "ん" == "さんにん";
  }

  /** Typed key by key it reads さんいん: the second n has already been closed into ん when the i
      arrives. */
  lemma SanninIsNotTyped()
    ensures ReadingOf(Scan(Rules(), "sannin")) == "さんにん"
    ensures ReadingText(Rules(), Typed(Rules(), "sannin")) == "さんいん"
    ensures !InStep(Rules(), "sannin")
  {
    hide Rules, ValidRules, Scan, BufferAfter, ReadingText, Taken, NoBreak, InStep, Held;
    RulesAreValid();
    SanninBreaks();
    ShippedIncremental("sannin");
    SanninWhole();
    NnBeforeN();
    SannTyped();
    HeldEnds();
    assert "sanni"[..4] == "sann" && "sannin"[..5] == "sanni";
    KeyOnTail(Rules(), "さん", "", 'i');
    assert "" + ['i'] == "i" && "さん" + "" == "さん" && "さん" + "い" + "" == "さんい";
    KeyOnTail(Rules(), "さんい", "", 'n');
    assert "" + ['n'] == "n" && "さんい" + "" == "さんい" && "さんい" + "" + "n" == "さんいn";
    ReadsBack(Rules(), "さんい", "n");
    assert "さんい" + "n" == "さんいn" && "さんい" + "ん" == "さんいん";
  }

  lemma HeldEnds()
    ensures Held(Rules(), "") && Held(Rules(), "n")
  {
    SingleNIsHeld();
  }

  lemma SannTyped()
    ensures Typed(Rules(), "sann") == "さん"
  {
    hide Rules, ValidRules, Scan, InStep, NoBreak, Typed;
    RulesAreValid();
    PlainIsTaken("sann");
    UnambiguousKeys("sann");
    ShippedIncremental("sann");
    InStepAtEnd(Rules(), "sann");
    SanninWhole();
    assert "さん" + "" == "さん";
  }

  lemma KitteWhole()
    ensures Scan(Rules(), "kitte") == Converted("きって", "")
  {
    hide Rules, Lookup, ValidRules, NextStep;
    RulesAreValid();
    ExamplesAreFound();
    DoubledRead(Rules(), "te", "");
    assert "t" + "te" + "" == "tte" && "っ" + "て" + "" == "って" && "te"[0] == 't' && ['t'] == "t";
    SyllableRead(Rules(), "ki", "tte");
    assert "ki" + "tte" == "kitte" && "き" + "って" == "きって";
  }

  /** "kitte" is きって, whole and typed. */
  lemma KitteDoubles()
    ensures Scan(Rules(), "kitte") == Converted("きって", "") && Typed(Rules(), "kitte") == "きって"
  {
    hide Rules, ValidRules, Scan, InStep, NoBreak, Typed;
    PlainIsTaken("kitte");
    UnambiguousKeys("kitte");
    ShippedIncremental("kitte");
    InStepAtEnd(Rules(), "kitte");
    KitteWhole();
    assert "きって" + "" == "きって";
  }
}
