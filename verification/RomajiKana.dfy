/** The converter of tsf/Ohagey/RomajiKana.cpp: an index-driven scan over the romaji, and the
    class whose fields that scan rebuilds after every keystroke. */
module RomajiKana {
  import opened Wrappers
  import opened RomajiTable

  /** What one turn of the scan does at the front of the romaji that is left: produce `kana`
      (possibly none, for a stray key) and consume `count` letters, or hold everything back. */
  datatype Step = Emit(kana: string, count: nat) | Hold

  datatype Converted = Converted(kana: string, pending: string)

  /** The longest of the first `length` prefixes of `s` that is a spelling. */
  function LongestMatch(rules: seq<Rule>, s: string, length: nat): (r: Option<nat>)
    requires length <= |s|
    ensures r.Some? ==> 1 <= r.value <= length && Lookup(rules, s[..r.value]).Some?
  {
    if length == 0 then None
    else if Lookup(rules, s[..length]).Some? then Some(length)
    else LongestMatch(rules, s, length - 1)
  }

  function MatchLimit(s: string): (n: nat)
    ensures n <= |s| && n <= MAX_RULE_LENGTH
  {
    if |s| > MAX_RULE_LENGTH then MAX_RULE_LENGTH else |s|
  }

  ghost function MatchStep(rules: seq<Rule>, s: string): (t: Step)
    requires s != []
    ensures t.Emit? ==> 1 <= t.count <= |s|
  {
    match LongestMatch(rules, s, MatchLimit(s))
    case Some(n) => Emit(Lookup(rules, s[..n]).value, n)
    case None => if IsPrefixOfRule(rules, s) then Hold else Emit("", 1)
  }

  predicate ContinuesN(c: char) {
    IsVowel(c) || c == 'y'
  }

  ghost function NextStep(rules: seq<Rule>, s: string): (t: Step)
    requires s != []
    ensures t.Emit? ==> 1 <= t.count <= |s|
  {
    if |s| >= 2 && s[0] == 'n' && s[1] == 'n' then
      Emit("ん", if |s| >= 3 && ContinuesN(s[2]) then 1 else 2)
    else if |s| >= 2 && s[0] == 'n' && s[1] == '\'' then
      Emit("ん", 2)
    else if |s| >= 2 && s[0] == 'n' && !ContinuesN(s[1]) then
      Emit("ん", 1)
    else if |s| >= 2 && s[0] == s[1] && DoublesToSokuon(s[0]) then
      Emit("っ", 1)
    else
      MatchStep(rules, s)
  }

  ghost function Scan(rules: seq<Rule>, s: string): Converted
    decreases |s|
  {
    if s == [] then Converted([], [])
    else
      match NextStep(rules, s)
      case Hold => Converted([], s)
      case Emit(kana, count) =>
        var rest := Scan(rules, s[count..]);
        Converted(kana + rest.kana, rest.pending)
  }

  /** Kana input is case-insensitive. */
  function Lower(c: char): char {
    if 'A' <= c <= 'Z' then ((c as int - 'A' as int) + 'a' as int) as char else c
  }

  predicate AllAccepted(s: string) {
    forall i :: 0 <= i < |s| ==> IsAccepted(s[i])
  }

  /** What a converter holds after being fed `s` key by key: keys it does not take are skipped. */
  function Taken(s: string): string {
    if s == [] then []
    else if IsAccepted(s[|s| - 1]) then Taken(s[..|s| - 1]) + [Lower(s[|s| - 1])]
    else Taken(s[..|s| - 1])
  }

  /** A trailing lone n reads as ん; any other unresolved romaji is not a reading. */
  function ReadingOf(c: Converted): string {
    if c.pending == "n" then c.kana + "ん" else c.kana
  }

  function DisplayOf(c: Converted): string {
    if c.pending == "n" then c.kana + "ん" else c.kana + c.pending
  }

  // ---- The loops of the source ----

  method FindKana(rules: seq<Rule>, romaji: string) returns (kana: Option<string>)
    ensures kana == Lookup(rules, romaji)
  {
    for i := 0 to |rules|
      invariant Lookup(rules, romaji) == Lookup(rules[i..], romaji)
    {
      if romaji == rules[i].romaji {
        return Some(rules[i].kana);
      }
    }
    return None;
  }

  method CouldGrow(rules: seq<Rule>, romaji: string) returns (b: bool)
    ensures b <==> IsPrefixOfRule(rules, romaji)
  {
    if |romaji| >= MAX_RULE_LENGTH {
      return false;
    }
    for i := 0 to |rules|
      invariant forall k :: 0 <= k < i ==> !(romaji < rules[k].romaji)
    {
      var rule := rules[i].romaji;
      if |rule| > |romaji| && rule[..|romaji|] == romaji {
        return true;
      }
    }
    return false;
  }

  /** The downward search for the longest spelling at the front of `s`. */
  method LongestSpelling(rules: seq<Rule>, s: string) returns (matched: bool, length: nat, kana: string)
    ensures matched == LongestMatch(rules, s, MatchLimit(s)).Some?
    ensures matched ==> Some(length) == LongestMatch(rules, s, MatchLimit(s))
    ensures matched ==> kana == Lookup(rules, s[..length]).value
  {
    var maxLength := |s|;
    if maxLength > MAX_RULE_LENGTH {
      maxLength := MAX_RULE_LENGTH;
    }
    matched, length, kana := false, maxLength, "";
    while length >= 1
      invariant 0 <= length <= maxLength
      invariant LongestMatch(rules, s, MatchLimit(s)) == LongestMatch(rules, s, length)
    {
      var found := FindKana(rules, s[..length]);
      if found.Some? {
        return true, length, found.value;
      }
      length := length - 1;
    }
  }

  /** The body of the scan's loop, on the romaji still to be resolved. */
  method Turn(rules: seq<Rule>, s: string) returns (t: Step)
    requires s != []
    ensures t == NextStep(rules, s)
  {
    if s[0] == 'n' && 1 < |s| {
      var next := s[1];
      if next == 'n' {
        var secondStartsSyllable := 2 < |s| && (IsVowel(s[2]) || s[2] == 'y');
        return Emit("ん", if secondStartsSyllable then 1 else 2);
      }
      if next == '\'' {
        return Emit("ん", 2);
      }
      if !IsVowel(next) && next != 'y' {
        return Emit("ん", 1);
      }
    }
    if 1 < |s| && s[0] == s[1] && DoublesToSokuon(s[0]) {
      return Emit("っ", 1);
    }
    var matched, length, found := LongestSpelling(rules, s);
    if matched {
      return Emit(found, length);
    }
    var held := CouldGrow(rules, s);
    return if held then Hold else Emit("", 1);
  }

  /** The scan of `s` is `done` followed by the scan of what is left from `i` on. */
  ghost predicate Resumes(rules: seq<Rule>, s: string, i: nat, done: string)
    requires i <= |s|
  {
    var rest := Scan(rules, s[i..]);
    Scan(rules, s) == Converted(done + rest.kana, rest.pending)
  }

  lemma Advance(rules: seq<Rule>, s: string, i: nat, done: string)
    requires i < |s| && Resumes(rules, s, i, done)
    ensures match NextStep(rules, s[i..])
            case Hold => Scan(rules, s) == Converted(done, s[i..])
            case Emit(kana, count) => Resumes(rules, s, i + count, done + kana)
  {
    hide NextStep;
    match NextStep(rules, s[i..])
    case Hold => assert done + [] == done;
    case Emit(kana, count) =>
      assert s[i..][count..] == s[i + count..];
      assert done + (kana + Scan(rules, s[i + count..]).kana) == (done + kana) + Scan(rules, s[i + count..]).kana;
  }

  class Converter {
    const rules: seq<Rule>
    var romaji: string
    var kana: string
    var pending: string

    /** The fields the source keeps in step: kana and pending are the scan of the romaji. */
    ghost predicate Valid()
      reads this
    {
      Converted(kana, pending) == Scan(rules, romaji)
    }

    constructor (rules: seq<Rule>)
      ensures Valid()
      ensures this.rules == rules && romaji == ""
    {
      this.rules := rules;
      romaji, kana, pending := "", "", "";
    }

    /** Feeds one keystroke; a character that is not accepted changes nothing. */
    method Append(ch: char) returns (ok: bool)
      requires Valid()
      modifies this
      ensures Valid()
      ensures ok == IsAccepted(ch)
      ensures romaji == if ok then old(romaji) + [Lower(ch)] else old(romaji)
      ensures !ok ==> kana == old(kana) && pending == old(pending)
    {
      if !IsAccepted(ch) {
        return false;
      }
      romaji := romaji + [Lower(ch)];
      Rebuild();
      return true;
    }

    /** Backs out one letter of romaji, not one kana. */
    method Backspace()
      requires Valid()
      modifies this
      ensures Valid()
      ensures romaji == if old(romaji) == "" then "" else old(romaji)[..|old(romaji)| - 1]
    {
      if romaji == [] {
        return;
      }
      romaji := romaji[..|romaji| - 1];
      Rebuild();
    }

    method Clear()
      modifies this
      ensures Valid()
      ensures romaji == "" && kana == "" && pending == ""
    {
      romaji, kana, pending := "", "", "";
    }

    function Reading(): string
      reads this
    {
      if pending == "n" then kana + "ん" else kana
    }

    function Display(): string
      reads this
    {
      if pending == "n" then kana + "ん" else kana + pending
    }

    /** Rescans the whole romaji. Whatever kana and pending held before does not matter. */
    method Rebuild()
      modifies this`kana, this`pending
      ensures Valid()
    {
      hide NextStep, LongestMatch, MatchStep, IsPrefixOfRule, Lookup;
      kana, pending := "", "";
      var size := |romaji|;
      var i := 0;
      while i < size
        invariant 0 <= i <= size
        invariant pending == ""
        invariant Resumes(rules, romaji, i, kana)
      {
        Advance(rules, romaji, i, kana);
        var turn := Turn(rules, romaji[i..]);
        if turn.Hold? {
          pending := romaji[i..];
          return;
        }
        kana := kana + turn.kana;
        i := i + turn.count;
      }
      assert romaji[i..] == [];
    }
  }

  /** Feeds a whole string to a new converter. */
  method Feed(rules: seq<Rule>, s: string) returns (c: Converter)
    ensures fresh(c) && c.Valid()
    ensures c.rules == rules && c.romaji == Taken(s)
  {
    c := new Converter(rules);
    for i := 0 to |s|
      invariant fresh(c) && c.Valid() && c.rules == rules
      invariant c.romaji == Taken(s[..i])
    {
      var ok := c.Append(s[i]);
      assert s[..i + 1][..i] == s[..i];
    }
    assert s[..|s|] == s;
  }
}
