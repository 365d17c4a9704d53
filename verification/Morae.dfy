/** Print-then-parse: spelling out a sequence of morae and converting the romaji gives their kana
    back, fed whole or typed key by key. */
module Morae {
  import opened Wrappers
  import opened RomajiTable
  import opened RomajiKana
  import opened RomajiLaws
  import opened CompositionBuffer

  /** A table syllable, a syllable with its first consonant doubled, or ん spelled n', nn or n. */
  datatype Mora = Syllable(spelling: string) | Doubled(spelling: string) | SyllabicN(spelling: string)

  /** The letters that double: a consonant, n excepted. */
  predicate Geminate(c: char) {
    'a' <= c <= 'z' && c !in {'a', 'i', 'u', 'e', 'o', 'n'}
  }

  predicate Pronounceable(rules: seq<Rule>, m: Mora) {
    match m
    case Syllable(s) => Lookup(rules, s).Some?
    case Doubled(s) => Lookup(rules, s).Some? && s != [] && Geminate(s[0])
    case SyllabicN(s) => s == "n'" || s == "nn" || s == "n"
  }

  function Spell(m: Mora): string {
    match m
    case Syllable(s) => s
    case Doubled(s) => s[..if s == [] then 0 else 1] + s
    case SyllabicN(s) => s
  }

  function SpellAll(morae: seq<Mora>): string {
    if morae == [] then [] else Spell(morae[0]) + SpellAll(morae[1..])
  }

  /** An ん spelled nn or n takes a vowel, y or n after it for its own, and a last n is still open. */
  predicate Precedes(m: Mora, rest: string) {
    m.SyllabicN? && m.spelling != "n'" ==>
      if rest == [] then m.spelling == "nn"
      else rest[0] !in {'a', 'i', 'u', 'e', 'o', 'y', 'n', '\''}
  }

  predicate AllPronounceable(rules: seq<Rule>, morae: seq<Mora>) {
    morae != [] ==>
      && Pronounceable(rules, morae[0]) && Precedes(morae[0], SpellAll(morae[1..]))
      && AllPronounceable(rules, morae[1..])
  }

  function KanaOf(rules: seq<Rule>, m: Mora): string
    requires Pronounceable(rules, m)
  {
    match m
    case Syllable(s) => Lookup(rules, s).value
    case Doubled(s) => "っ" + Lookup(rules, s).value
    case SyllabicN(_) => "ん"
  }

  function KanaAll(rules: seq<Rule>, morae: seq<Mora>): string
    requires AllPronounceable(rules, morae)
  {
    if morae == [] then [] else KanaOf(rules, morae[0]) + KanaAll(rules, morae[1..])
  }

  lemma SyllableRead(rules: seq<Rule>, spelling: string, rest: string)
    requires ValidRules(rules) && Lookup(rules, spelling).Some?
    ensures var tail := Scan(rules, rest);
            Scan(rules, spelling + rest) == Converted(Lookup(rules, spelling).value + tail.kana, tail.pending)
  {
    SpellingStep(rules, spelling, rest);
    assert (spelling + rest)[|spelling|..] == rest;
  }

  /** A consonant typed twice in front of its syllable is っ, whatever follows. */
  lemma DoubledRead(rules: seq<Rule>, spelling: string, rest: string)
    requires ValidRules(rules) && Lookup(rules, spelling).Some? && spelling != []
    requires 'a' <= spelling[0] <= 'z' && spelling[0] !in {'a', 'i', 'u', 'e', 'o', 'n'}
    ensures var tail := Scan(rules, rest);
            Scan(rules, [spelling[0]] + spelling + rest)
            == Converted("っ" + Lookup(rules, spelling).value + tail.kana, tail.pending)
  {
    hide ValidRules, Lookup, MatchStep;
    var whole := [spelling[0]] + spelling + rest;
    assert whole[1..] == spelling + rest;
    assert NextStep(rules, whole) == Emit("っ", 1);
    SyllableRead(rules, spelling, rest);
    Grouped("っ", Lookup(rules, spelling).value, Scan(rules, rest).kana);
  }

  /** Nothing else doubles: a vowel is read by itself, n becomes ん, and a symbol or an apostrophe is read
      by itself or, not being spelled, is dropped. */
  lemma NothingElseDoubles(rules: seq<Rule>, c: char, rest: string)
    requires ValidRules(rules) && c in {'a', 'i', 'u', 'e', 'o', 'n', '-', ',', '.', '/', '[', ']', '\''}
    ensures var whole, tail := Scan(rules, [c, c] + rest), Scan(rules, [c] + rest);
            && (c == 'n' ==> whole.kana != "" && whole.kana[0] == 'ん')
            && (c in {'a', 'i', 'u', 'e', 'o'} ==> Lookup(rules, [c]).Some?)
            && (c != 'n' ==>
                  && whole.pending == tail.pending
                  && whole.kana == (if Lookup(rules, [c]).Some? then Lookup(rules, [c]).value else "") + tail.kana)
  {
    var s := [c, c] + rest;
    assert s[1..] == [c] + rest;
    if c == 'n' {
      assert NextStep(rules, s).kana == "ん";
    } else if Lookup(rules, [c]).Some? {
      SyllableRead(rules, [c], [c] + rest);
      assert s == [c] + ([c] + rest);
    } else {
      forall k | 1 <= k <= MatchLimit(s) ensures Lookup(rules, s[..k]).None? {
        assert s[..1] == [c];
        if Lookup(rules, s[..k]).Some? { SpellingShape(rules, s[..k]); }
      }
      NoMatch(rules, s, MatchLimit(s));
      if IsPrefixOfRule(rules, s) { HeldIsPartial(rules, s); }
      assert NextStep(rules, s) == Emit("", 1);
    }
  }

  lemma SyllabicNRead(rules: seq<Rule>, spelling: string, rest: string)
    requires Pronounceable(rules, SyllabicN(spelling)) && Precedes(SyllabicN(spelling), rest)
    ensures var tail := Scan(rules, rest);
            Scan(rules, spelling + rest) == Converted("ん" + tail.kana, tail.pending)
  {
    hide Lookup, MatchStep;
    var whole := spelling + rest;
    assert whole[|spelling|..] == rest;
    assert rest != [] ==> whole[|spelling|] == rest[0];
    assert NextStep(rules, whole) == Emit("ん", |spelling|);
  }

  lemma MoraRead(rules: seq<Rule>, m: Mora, rest: string)
    requires ValidRules(rules) && Pronounceable(rules, m) && Precedes(m, rest)
    ensures var tail := Scan(rules, rest);
            Scan(rules, Spell(m) + rest) == Converted(KanaOf(rules, m) + tail.kana, tail.pending)
  {
    hide Scan, ValidRules, Lookup;
    match m
    case Syllable(s) => SyllableRead(rules, s, rest);
    case Doubled(s) =>
      assert s[..1] == [s[0]];
      DoubledRead(rules, s, rest);
    case SyllabicN(s) => SyllabicNRead(rules, s, rest);
  }

  /** Converting the spelling of any morae gives exactly their kana, with nothing pending. */
  lemma {:induction false} SpelledMoraeReadBack(rules: seq<Rule>, morae: seq<Mora>)
    requires ValidRules(rules) && AllPronounceable(rules, morae)
    ensures Scan(rules, SpellAll(morae)) == Converted(KanaAll(rules, morae), "")
  {
    if morae != [] {
      SpelledMoraeReadBack(rules, morae[1..]);
      MoraRead(rules, morae[0], SpellAll(morae[1..]));
    }
  }

  // ---- The same, typed into the composition buffer ----

  /** Lower-case accepted keys with no q, and no vowel or y right after nn. */
  predicate Plain(s: string) {
    && (forall i :: 0 <= i < |s| ==> IsAccepted(s[i]) && Lower(s[i]) == s[i] && s[i] != 'q')
    && Unambiguous(s)
  }

  lemma ShapeIsPlain(s: string)
    requires Shape(s)
    ensures Plain(s) && s[|s| - 1] != 'n'
  {
  }

  lemma PlainMora(rules: seq<Rule>, m: Mora)
    requires ValidRules(rules) && Pronounceable(rules, m)
    ensures Plain(Spell(m)) && Spell(m) != [] && (!m.SyllabicN? ==> Spell(m)[|Spell(m)| - 1] != 'n')
  {
    if !m.SyllabicN? {
      SpellingShape(rules, m.spelling);
      ShapeIsPlain(m.spelling);
    }
  }

  lemma UnambiguousAppend(a: string, b: string)
    requires Unambiguous(a) && Unambiguous(b) && a != [] && 'q' !in b
    requires a[|a| - 1] == 'n' && b != [] ==> !ContinuesN(b[0]) && b[0] != 'n'
    ensures Unambiguous(a + b)
  {
    hide ContinuesN;
    var s := a + b;
    forall i {:trigger s[i]} | 2 <= i < |s| && ContinuesN(s[i]) ensures !(s[i - 2] == 'n' && s[i - 1] == 'n') {
      if i < |a| { assert s[i] == a[i]; }
      if i >= |a| + 2 { assert s[i] == b[i - |a|]; }
    }
    assert forall i :: |a| <= i < |s| ==> s[i] == b[i - |a|];
    forall i {:trigger s[i]} | 1 <= i < |s| && s[i] == 'q' ensures s[i - 1] != 'q' {
      if i < |a| { assert s[i] == a[i]; }
    }
  }

  lemma PlainAppend(m: Mora, rest: string)
    requires Plain(Spell(m)) && Plain(rest) && Precedes(m, rest) && Spell(m) != []
    requires if m.SyllabicN? then m.spelling in {"n'", "nn", "n"} else Spell(m)[|Spell(m)| - 1] != 'n'
    ensures Plain(Spell(m) + rest)
  {
    hide Unambiguous, IsAccepted, Lower;
    UnambiguousAppend(Spell(m), rest);
  }

  lemma {:induction false} SpelledIsPlain(rules: seq<Rule>, morae: seq<Mora>)
    requires ValidRules(rules) && AllPronounceable(rules, morae)
    ensures Plain(SpellAll(morae))
  {
    hide ValidRules, Plain;
    if morae == [] {
      NothingIsPlain();
    } else {
      PlainMora(rules, morae[0]);
      SpelledIsPlain(rules, morae[1..]);
      PlainAppend(morae[0], SpellAll(morae[1..]));
    }
  }

  lemma NothingIsPlain()
    ensures Plain("")
  {
  }

  /** Typing the spelling of any morae leaves exactly their kana in the buffer. */
  lemma TypedMoraeReadBack(rules: seq<Rule>, morae: seq<Mora>)
    requires ValidRules(rules) && AllPronounceable(rules, morae)
    ensures Typed(rules, SpellAll(morae)) == KanaAll(rules, morae)
  {
    hide ValidRules, AllPronounceable, Scan, Typed, NoBreak, InStep;
    var keys := SpellAll(morae);
    SpelledIsPlain(rules, morae);
    PlainIsTaken(keys);
    UnambiguousKeys(keys);
    IncrementalRefinesWhole(rules, keys);
    InStepAtEnd(rules, keys);
    SpelledMoraeReadBack(rules, morae);
    assert KanaAll(rules, morae) + "" == KanaAll(rules, morae);
  }

  /** The same typed key by key. */
  lemma DoubledTyped(rules: seq<Rule>, spelling: string)
    requires ValidRules(rules) && Lookup(rules, spelling).Some? && spelling != []
    requires 'a' <= spelling[0] <= 'z' && spelling[0] !in {'a', 'i', 'u', 'e', 'o', 'n'}
    ensures Typed(rules, [spelling[0]] + spelling) == "っ" + Lookup(rules, spelling).value
  {
    hide ValidRules, Lookup, Typed;
    var morae := [Doubled(spelling)];
    assert morae[1..] == [] && spelling[..1] == [spelling[0]];
    assert SpellAll(morae) == [spelling[0]] + spelling;
    assert KanaAll(rules, morae) == "っ" + Lookup(rules, spelling).value;
    TypedMoraeReadBack(rules, morae);
  }
}
