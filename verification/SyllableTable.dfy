/** What the spelling table says, told apart from it: each syllable by its place in the Unicode
    hiragana block, which lists the kana vowel by vowel. */
module SyllableTable {
  import opened Wrappers
  import opened RomajiTable

  const VOWELS := {'a', 'i', 'u', 'e', 'o'}

  /** The place of a vowel in a row of the syllabary: a, i, u, e, o. */
  function Column(v: char): nat {
    if v == 'a' then 0 else if v == 'i' then 1 else if v == 'u' then 2 else if v == 'e' then 3 else 4
  }

  /** A consonant and a vowel. */
  predicate Pair(s: string, consonants: set<char>) {
    |s| == 2 && s[0] in consonants && s[1] in VOWELS
  }

  /** A consonant, y and a vowel. */
  predicate Youon(s: string, consonants: set<char>) {
    |s| == 3 && s[0] in consonants && s[1] == 'y' && s[2] in VOWELS
  }

  /** sh or ch, and a vowel. */
  predicate Digraph(s: string, c: char) {
    |s| == 3 && s[0] == c && s[1] == 'h' && s[2] in VOWELS
  }

  function SmallVowel(v: char): char {
    (0x3041 + 2 * Column(v)) as char
  }

  /** The small kana after a youon: those of y where there is one, else of the vowel. */
  function SmallY(v: char): char {
    if v in {'a', 'u', 'o'} then (0x3083 + Column(v)) as char else SmallVowel(v)
  }

  /** The kana of a row in the column of i, which youon are built on. */
  function YouonBase(c: char): char {
    if c == 'k' then '\U{304D}' else if c == 'g' then '\U{304E}'
    else if c == 's' then '\U{3057}' else if c in {'z', 'j'} then '\U{3058}'
    else if c in {'t', 'c'} then '\U{3061}' else if c == 'd' then '\U{3062}'
    else if c == 'n' then '\U{306B}' else if c == 'h' then '\U{3072}'
    else if c == 'b' then '\U{3073}' else if c == 'p' then '\U{3074}'
    else if c == 'm' then '\U{307F}' else if c == 'r' then '\U{308A}'
    else if c == 'f' then '\U{3075}' else '\U{3094}'
  }

  function OfPair(c: char, v: char): string {
    var n := Column(v);
    if c == 'k' then [(0x304B + 2 * n) as char] else if c == 'g' then [(0x304C + 2 * n) as char]
    else if c == 's' then [(0x3055 + 2 * n) as char] else if c == 'z' then [(0x3056 + 2 * n) as char]
    else if c == 't' then [(0x305F + 2 * n + if n >= 2 then 1 else 0) as char]
    else if c == 'd' then [(0x3060 + 2 * n + if n >= 2 then 1 else 0) as char]
    else if c == 'n' then [(0x306A + n) as char] else if c == 'h' then [(0x306F + 3 * n) as char]
    else if c == 'b' then [(0x3070 + 3 * n) as char] else if c == 'p' then [(0x3071 + 3 * n) as char]
    else if c == 'm' then [(0x307E + n) as char] else if c == 'r' then [(0x3089 + n) as char]
    else if c in {'x', 'l'} then [SmallVowel(v)]
    else if c == 'y' then
      if v in {'a', 'u', 'o'} then [(0x3084 + n) as char] else if v == 'i' then "い" else "いぇ"
    else if c == 'w' then
      if v == 'a' then "わ" else if v == 'o' then "を" else if v == 'u' then "う" else ['う', SmallVowel(v)]
    else if c == 'j' then if v == 'i' then "じ" else ['じ', SmallY(v)]
    else if c == 'f' then if v == 'u' then "ふ" else ['ふ', SmallVowel(v)]
    else if v == 'u' then "ゔ" else ['ゔ', SmallVowel(v)]
  }

  function OfSymbol(c: char): string {
    if c == '-' then "ー" else if c == ',' then "、" else if c == '.' then "。"
    else if c == '/' then "・" else if c == '[' then "「" else "」"
  }

  const PAIRED := {'k', 'g', 's', 'z', 't', 'd', 'n', 'h', 'b', 'p', 'm', 'r', 'x', 'l', 'y', 'w', 'j', 'f', 'v'}
  const YOUON := {'k', 'g', 's', 'z', 'j', 't', 'c', 'd', 'n', 'h', 'b', 'p', 'm', 'r'}

  function OfThree(c: char, m: char, v: char): Option<string> {
    if m == 'y' && c in YOUON then Some([YouonBase(c), SmallY(v)])
    else if m == 'y' && c in {'f', 'v'} && v in {'a', 'u', 'o'} then Some([YouonBase(c), SmallY(v)])
    else if m == 'y' && c in {'x', 'l'} && v in {'a', 'u', 'o'} then Some([SmallY(v)])
    else if m == 'h' && c in {'s', 'c'} then Some(if v == 'i' then [YouonBase(c)] else [YouonBase(c), SmallY(v)])
    else if m == 's' && c == 't' && v == 'u' then Some("つ")
    else if m == 't' && c in {'x', 'l'} && v == 'u' then Some("っ")
    else if m == 'w' && c in {'x', 'l'} && v == 'a' then Some("ゎ")
    else None
  }

  function OfOne(c: char): Option<string> {
    if c in VOWELS then Some([(0x3042 + 2 * Column(c)) as char])
    else if c in {'-', ',', '.', '/', '[', ']'} then Some(OfSymbol(c))
    else None
  }

  /** The kana of a spelling, None for what is no spelling. */
  function Expected(s: string): Option<string> {
    if |s| == 1 then OfOne(s[0])
    else if |s| == 2 then if s[0] in PAIRED && s[1] in VOWELS then Some(OfPair(s[0], s[1])) else None
    else if |s| == 3 then if s[2] in VOWELS then OfThree(s[0], s[1], s[2]) else None
    else if s == "xtsu" || s == "ltsu" then Some("っ")
    else None
  }

  predicate AsExpected(r: Rule) {
    Expected(r.romaji) == Some(r.kana)
  }

  // ---- Every entry is as expected ----

  lemma YouonKtoGAsExpected()
    ensures forall r :: r in YouonKtoG() ==> AsExpected(r)
  {
    var t := YouonKtoG();
    assert AsExpected(t[0]); assert AsExpected(t[1]); assert AsExpected(t[2]); assert AsExpected(t[3]);
    assert AsExpected(t[4]); assert AsExpected(t[5]); assert AsExpected(t[6]); assert AsExpected(t[7]);
    assert AsExpected(t[8]); assert AsExpected(t[9]);
    assert forall i :: 0 <= i < |t| ==> AsExpected(t[i]);
  }

  lemma YouonSAsExpected()
    ensures forall r :: r in YouonS() ==> AsExpected(r)
  {
    var t := YouonS();
    assert AsExpected(t[0]); assert AsExpected(t[1]); assert AsExpected(t[2]); assert AsExpected(t[3]);
    assert AsExpected(t[4]); assert AsExpected(t[5]); assert AsExpected(t[6]); assert AsExpected(t[7]);
    assert AsExpected(t[8]); assert AsExpected(t[9]);
    assert forall i :: 0 <= i < |t| ==> AsExpected(t[i]);
  }

  lemma YouonJAsExpected()
    ensures forall r :: r in YouonJ() ==> AsExpected(r)
  {
    var t := YouonJ();
    assert AsExpected(t[0]); assert AsExpected(t[1]); assert AsExpected(t[2]); assert AsExpected(t[3]);
    assert AsExpected(t[4]); assert AsExpected(t[5]); assert AsExpected(t[6]); assert AsExpected(t[7]);
    assert AsExpected(t[8]); assert AsExpected(t[9]);
    assert forall i :: 0 <= i < |t| ==> AsExpected(t[i]);
  }

  lemma YouonZAsExpected()
    ensures forall r :: r in YouonZ() ==> AsExpected(r)
  {
    var t := YouonZ();
    assert AsExpected(t[0]); assert AsExpected(t[1]); assert AsExpected(t[2]); assert AsExpected(t[3]);
    assert AsExpected(t[4]);
    assert forall i :: 0 <= i < |t| ==> AsExpected(t[i]);
  }

  lemma YouonCAsExpected()
    ensures forall r :: r in YouonC() ==> AsExpected(r)
  {
    var t := YouonC();
    assert AsExpected(t[0]); assert AsExpected(t[1]); assert AsExpected(t[2]); assert AsExpected(t[3]);
    assert AsExpected(t[4]); assert AsExpected(t[5]); assert AsExpected(t[6]); assert AsExpected(t[7]);
    assert AsExpected(t[8]); assert AsExpected(t[9]);
    assert forall i :: 0 <= i < |t| ==> AsExpected(t[i]);
  }

  lemma YouonTAsExpected()
    ensures forall r :: r in YouonT() ==> AsExpected(r)
  {
    var t := YouonT();
    assert AsExpected(t[0]); assert AsExpected(t[1]); assert AsExpected(t[2]); assert AsExpected(t[3]);
    assert AsExpected(t[4]); assert AsExpected(t[5]);
    assert forall i :: 0 <= i < |t| ==> AsExpected(t[i]);
  }

  lemma YouonDAsExpected()
    ensures forall r :: r in YouonD() ==> AsExpected(r)
  {
    var t := YouonD();
    assert AsExpected(t[0]); assert AsExpected(t[1]); assert AsExpected(t[2]); assert AsExpected(t[3]);
    assert AsExpected(t[4]);
    assert forall i :: 0 <= i < |t| ==> AsExpected(t[i]);
  }

  lemma YouonNtoHAsExpected()
    ensures forall r :: r in YouonNtoH() ==> AsExpected(r)
  {
    var t := YouonNtoH();
    assert AsExpected(t[0]); assert AsExpected(t[1]); assert AsExpected(t[2]); assert AsExpected(t[3]);
    assert AsExpected(t[4]); assert AsExpected(t[5]); assert AsExpected(t[6]); assert AsExpected(t[7]);
    assert AsExpected(t[8]); assert AsExpected(t[9]);
    assert forall i :: 0 <= i < |t| ==> AsExpected(t[i]);
  }

  lemma YouonBtoPAsExpected()
    ensures forall r :: r in YouonBtoP() ==> AsExpected(r)
  {
    var t := YouonBtoP();
    assert AsExpected(t[0]); assert AsExpected(t[1]); assert AsExpected(t[2]); assert AsExpected(t[3]);
    assert AsExpected(t[4]); assert AsExpected(t[5]); assert AsExpected(t[6]); assert AsExpected(t[7]);
    assert AsExpected(t[8]); assert AsExpected(t[9]);
    assert forall i :: 0 <= i < |t| ==> AsExpected(t[i]);
  }

  lemma YouonMtoRAsExpected()
    ensures forall r :: r in YouonMtoR() ==> AsExpected(r)
  {
    var t := YouonMtoR();
    assert AsExpected(t[0]); assert AsExpected(t[1]); assert AsExpected(t[2]); assert AsExpected(t[3]);
    assert AsExpected(t[4]); assert AsExpected(t[5]); assert AsExpected(t[6]); assert AsExpected(t[7]);
    assert AsExpected(t[8]); assert AsExpected(t[9]);
    assert forall i :: 0 <= i < |t| ==> AsExpected(t[i]);
  }

  lemma YouonFtoVAsExpected()
    ensures forall r :: r in YouonFtoV() ==> AsExpected(r)
  {
    var t := YouonFtoV();
    assert AsExpected(t[0]); assert AsExpected(t[1]); assert AsExpected(t[2]); assert AsExpected(t[3]);
    assert AsExpected(t[4]); assert AsExpected(t[5]);
    assert forall i :: 0 <= i < |t| ==> AsExpected(t[i]);
  }

  lemma SmallYouonAsExpected()
    ensures forall r :: r in SmallYouon() ==> AsExpected(r)
  {
    var t := SmallYouon();
    assert AsExpected(t[0]); assert AsExpected(t[1]); assert AsExpected(t[2]); assert AsExpected(t[3]);
    assert AsExpected(t[4]); assert AsExpected(t[5]);
    assert forall i :: 0 <= i < |t| ==> AsExpected(t[i]);
  }

  lemma SmallTsuAsExpected()
    ensures forall r :: r in SmallTsu() ==> AsExpected(r)
  {
    var t := SmallTsu();
    assert AsExpected(t[0]); assert AsExpected(t[1]); assert AsExpected(t[2]); assert AsExpected(t[3]);
    assert AsExpected(t[4]); assert AsExpected(t[5]);
    assert forall i :: 0 <= i < |t| ==> AsExpected(t[i]);
  }

  lemma SmallVowelsXAsExpected()
    ensures forall r :: r in SmallVowelsX() ==> AsExpected(r)
  {
    var t := SmallVowelsX();
    assert AsExpected(t[0]); assert AsExpected(t[1]); assert AsExpected(t[2]); assert AsExpected(t[3]);
    assert AsExpected(t[4]);
    assert forall i :: 0 <= i < |t| ==> AsExpected(t[i]);
  }

  lemma SmallVowelsLAsExpected()
    ensures forall r :: r in SmallVowelsL() ==> AsExpected(r)
  {
    var t := SmallVowelsL();
    assert AsExpected(t[0]); assert AsExpected(t[1]); assert AsExpected(t[2]); assert AsExpected(t[3]);
    assert AsExpected(t[4]);
    assert forall i :: 0 <= i < |t| ==> AsExpected(t[i]);
  }

  lemma TwoLetterKtoGAsExpected()
    ensures forall r :: r in TwoLetterKtoG() ==> AsExpected(r)
  {
    var t := TwoLetterKtoG();
    assert AsExpected(t[0]); assert AsExpected(t[1]); assert AsExpected(t[2]); assert AsExpected(t[3]);
    assert AsExpected(t[4]); assert AsExpected(t[5]); assert AsExpected(t[6]); assert AsExpected(t[7]);
    assert AsExpected(t[8]); assert AsExpected(t[9]);
    assert forall i :: 0 <= i < |t| ==> AsExpected(t[i]);
  }

  lemma TwoLetterStoZAsExpected()
    ensures forall r :: r in TwoLetterStoZ() ==> AsExpected(r)
  {
    var t := TwoLetterStoZ();
    assert AsExpected(t[0]); assert AsExpected(t[1]); assert AsExpected(t[2]); assert AsExpected(t[3]);
    assert AsExpected(t[4]); assert AsExpected(t[5]); assert AsExpected(t[6]); assert AsExpected(t[7]);
    assert AsExpected(t[8]); assert AsExpected(t[9]);
    assert forall i :: 0 <= i < |t| ==> AsExpected(t[i]);
  }

  lemma TwoLetterTtoDAsExpected()
    ensures forall r :: r in TwoLetterTtoD() ==> AsExpected(r)
  {
    var t := TwoLetterTtoD();
    assert AsExpected(t[0]); assert AsExpected(t[1]); assert AsExpected(t[2]); assert AsExpected(t[3]);
    assert AsExpected(t[4]); assert AsExpected(t[5]); assert AsExpected(t[6]); assert AsExpected(t[7]);
    assert AsExpected(t[8]); assert AsExpected(t[9]);
    assert forall i :: 0 <= i < |t| ==> AsExpected(t[i]);
  }

  lemma TwoLetterNtoHAsExpected()
    ensures forall r :: r in TwoLetterNtoH() ==> AsExpected(r)
  {
    var t := TwoLetterNtoH();
    assert AsExpected(t[0]); assert AsExpected(t[1]); assert AsExpected(t[2]); assert AsExpected(t[3]);
    assert AsExpected(t[4]); assert AsExpected(t[5]); assert AsExpected(t[6]); assert AsExpected(t[7]);
    assert AsExpected(t[8]); assert AsExpected(t[9]);
    assert forall i :: 0 <= i < |t| ==> AsExpected(t[i]);
  }

  lemma TwoLetterBtoPAsExpected()
    ensures forall r :: r in TwoLetterBtoP() ==> AsExpected(r)
  {
    var t := TwoLetterBtoP();
    assert AsExpected(t[0]); assert AsExpected(t[1]); assert AsExpected(t[2]); assert AsExpected(t[3]);
    assert AsExpected(t[4]); assert AsExpected(t[5]); assert AsExpected(t[6]); assert AsExpected(t[7]);
    assert AsExpected(t[8]); assert AsExpected(t[9]);
    assert forall i :: 0 <= i < |t| ==> AsExpected(t[i]);
  }

  lemma TwoLetterFtoMAsExpected()
    ensures forall r :: r in TwoLetterFtoM() ==> AsExpected(r)
  {
    var t := TwoLetterFtoM();
    assert AsExpected(t[0]); assert AsExpected(t[1]); assert AsExpected(t[2]); assert AsExpected(t[3]);
    assert AsExpected(t[4]); assert AsExpected(t[5]); assert AsExpected(t[6]); assert AsExpected(t[7]);
    assert AsExpected(t[8]); assert AsExpected(t[9]);
    assert forall i :: 0 <= i < |t| ==> AsExpected(t[i]);
  }

  lemma TwoLetterYtoRAsExpected()
    ensures forall r :: r in TwoLetterYtoR() ==> AsExpected(r)
  {
    var t := TwoLetterYtoR();
    assert AsExpected(t[0]); assert AsExpected(t[1]); assert AsExpected(t[2]); assert AsExpected(t[3]);
    assert AsExpected(t[4]); assert AsExpected(t[5]); assert AsExpected(t[6]); assert AsExpected(t[7]);
    assert AsExpected(t[8]); assert AsExpected(t[9]);
    assert forall i :: 0 <= i < |t| ==> AsExpected(t[i]);
  }

  lemma TwoLetterWtoVAsExpected()
    ensures forall r :: r in TwoLetterWtoV() ==> AsExpected(r)
  {
    var t := TwoLetterWtoV();
    assert AsExpected(t[0]); assert AsExpected(t[1]); assert AsExpected(t[2]); assert AsExpected(t[3]);
    assert AsExpected(t[4]); assert AsExpected(t[5]); assert AsExpected(t[6]); assert AsExpected(t[7]);
    assert AsExpected(t[8]); assert AsExpected(t[9]);
    assert forall i :: 0 <= i < |t| ==> AsExpected(t[i]);
  }

  lemma SingleLettersAsExpected()
    ensures forall r :: r in SingleLetters() ==> AsExpected(r)
  {
    var t := SingleLetters();
    assert AsExpected(t[0]); assert AsExpected(t[1]); assert AsExpected(t[2]); assert AsExpected(t[3]);
    assert AsExpected(t[4]); assert AsExpected(t[5]); assert AsExpected(t[6]); assert AsExpected(t[7]);
    assert AsExpected(t[8]); assert AsExpected(t[9]); assert AsExpected(t[10]);
    assert forall i :: 0 <= i < |t| ==> AsExpected(t[i]);
  }

  lemma YouonKtoZAsExpected()
    ensures forall r :: r in YouonKtoZ() ==> AsExpected(r)
  {
    hide AsExpected, YouonKtoG, YouonS, YouonJ, YouonZ;
    YouonKtoGAsExpected();
    YouonSAsExpected();
    YouonJAsExpected();
    YouonZAsExpected();
  }

  lemma YouonCtoDAsExpected()
    ensures forall r :: r in YouonCtoD() ==> AsExpected(r)
  {
    hide AsExpected, YouonC, YouonT, YouonD;
    YouonCAsExpected();
    YouonTAsExpected();
    YouonDAsExpected();
  }

  lemma YouonNtoVAsExpected()
    ensures forall r :: r in YouonNtoV() ==> AsExpected(r)
  {
    hide AsExpected, YouonNtoH, YouonBtoP, YouonMtoR, YouonFtoV;
    YouonNtoHAsExpected();
    YouonBtoPAsExpected();
    YouonMtoRAsExpected();
    YouonFtoVAsExpected();
  }

  lemma SmallKanaAsExpected()
    ensures forall r :: r in SmallKana() ==> AsExpected(r)
  {
    hide AsExpected, SmallYouon, SmallTsu, SmallVowelsX, SmallVowelsL;
    SmallYouonAsExpected();
    SmallTsuAsExpected();
    SmallVowelsXAsExpected();
    SmallVowelsLAsExpected();
  }

  lemma TwoLetterKtoHAsExpected()
    ensures forall r :: r in TwoLetterKtoH() ==> AsExpected(r)
  {
    hide AsExpected, TwoLetterKtoG, TwoLetterStoZ, TwoLetterTtoD, TwoLetterNtoH;
    TwoLetterKtoGAsExpected();
    TwoLetterStoZAsExpected();
    TwoLetterTtoDAsExpected();
    TwoLetterNtoHAsExpected();
  }

  lemma TwoLetterBtoVAsExpected()
    ensures forall r :: r in TwoLetterBtoV() ==> AsExpected(r)
  {
    hide AsExpected, TwoLetterBtoP, TwoLetterFtoM, TwoLetterYtoR, TwoLetterWtoV;
    TwoLetterBtoPAsExpected();
    TwoLetterFtoMAsExpected();
    TwoLetterYtoRAsExpected();
    TwoLetterWtoVAsExpected();
  }

  lemma EntriesAreExpected()
    ensures forall r :: r in Rules() ==> AsExpected(r)
  {
    hide AsExpected, YouonKtoZ, YouonCtoD, YouonNtoV, SmallKana, TwoLetterKtoH, TwoLetterBtoV, SingleLetters;
    YouonKtoZAsExpected();
    YouonCtoDAsExpected();
    YouonNtoVAsExpected();
    SmallKanaAsExpected();
    TwoLetterKtoHAsExpected();
    TwoLetterBtoVAsExpected();
    SingleLettersAsExpected();
  }

  // ---- Everything expected has an entry ----

  /** The table has an entry for the spelling. */
  ghost predicate Has(rules: seq<Rule>, s: string) {
    exists r :: r in rules && r.romaji == s
  }

  lemma HasAt(rules: seq<Rule>, s: string, i: nat)
    requires i < |rules| && rules[i].romaji == s
    ensures Has(rules, s)
  {
    assert rules[i] in rules;
  }

  lemma YouonKtoGHas(s: string)
    requires Youon(s, {'k', 'g'})
    ensures Has(YouonKtoG(), s)
  {
    hide Has;
    var t := YouonKtoG();
    assert t[0].romaji == s || t[1].romaji == s || t[2].romaji == s || t[3].romaji == s || t[4].romaji == s
        || t[5].romaji == s || t[6].romaji == s || t[7].romaji == s || t[8].romaji == s || t[9].romaji == s;
    var i :| 0 <= i < |t| && t[i].romaji == s;
    HasAt(t, s, i);
  }

  lemma YouonSHas(s: string)
    requires Youon(s, {'s'}) || Digraph(s, 's')
    ensures Has(YouonS(), s)
  {
    hide Has;
    var t := YouonS();
    assert t[0].romaji == s || t[1].romaji == s || t[2].romaji == s || t[3].romaji == s || t[4].romaji == s
        || t[5].romaji == s || t[6].romaji == s || t[7].romaji == s || t[8].romaji == s || t[9].romaji == s;
    var i :| 0 <= i < |t| && t[i].romaji == s;
    HasAt(t, s, i);
  }

  lemma YouonJHas(s: string)
    requires Youon(s, {'j'}) || Pair(s, {'j'})
    ensures Has(YouonJ(), s)
  {
    hide Has;
    var t := YouonJ();
    assert t[0].romaji == s || t[1].romaji == s || t[2].romaji == s || t[3].romaji == s || t[4].romaji == s
        || t[5].romaji == s || t[6].romaji == s || t[7].romaji == s || t[8].romaji == s || t[9].romaji == s;
    var i :| 0 <= i < |t| && t[i].romaji == s;
    HasAt(t, s, i);
  }

  lemma YouonZHas(s: string)
    requires Youon(s, {'z'})
    ensures Has(YouonZ(), s)
  {
    hide Has;
    var t := YouonZ();
    assert t[0].romaji == s || t[1].romaji == s || t[2].romaji == s || t[3].romaji == s || t[4].romaji == s;
    var i :| 0 <= i < |t| && t[i].romaji == s;
    HasAt(t, s, i);
  }

  lemma YouonCHas(s: string)
    requires Youon(s, {'c'}) || Digraph(s, 'c')
    ensures Has(YouonC(), s)
  {
    hide Has;
    var t := YouonC();
    assert t[0].romaji == s || t[1].romaji == s || t[2].romaji == s || t[3].romaji == s || t[4].romaji == s
        || t[5].romaji == s || t[6].romaji == s || t[7].romaji == s || t[8].romaji == s || t[9].romaji == s;
    var i :| 0 <= i < |t| && t[i].romaji == s;
    HasAt(t, s, i);
  }

  lemma YouonTHas(s: string)
    requires Youon(s, {'t'}) || s == "tsu"
    ensures Has(YouonT(), s)
  {
    hide Has;
    var t := YouonT();
    assert t[0].romaji == s || t[1].romaji == s || t[2].romaji == s || t[3].romaji == s || t[4].romaji == s
        || t[5].romaji == s;
    var i :| 0 <= i < |t| && t[i].romaji == s;
    HasAt(t, s, i);
  }

  lemma YouonDHas(s: string)
    requires Youon(s, {'d'})
    ensures Has(YouonD(), s)
  {
    hide Has;
    var t := YouonD();
    assert t[0].romaji == s || t[1].romaji == s || t[2].romaji == s || t[3].romaji == s || t[4].romaji == s;
    var i :| 0 <= i < |t| && t[i].romaji == s;
    HasAt(t, s, i);
  }

  lemma YouonNtoHHas(s: string)
    requires Youon(s, {'n', 'h'})
    ensures Has(YouonNtoH(), s)
  {
    hide Has;
    var t := YouonNtoH();
    assert t[0].romaji == s || t[1].romaji == s || t[2].romaji == s || t[3].romaji == s || t[4].romaji == s
        || t[5].romaji == s || t[6].romaji == s || t[7].romaji == s || t[8].romaji == s || t[9].romaji == s;
    var i :| 0 <= i < |t| && t[i].romaji == s;
    HasAt(t, s, i);
  }

  lemma YouonBtoPHas(s: string)
    requires Youon(s, {'b', 'p'})
    ensures Has(YouonBtoP(), s)
  {
    hide Has;
    var t := YouonBtoP();
    assert t[0].romaji == s || t[1].romaji == s || t[2].romaji == s || t[3].romaji == s || t[4].romaji == s
        || t[5].romaji == s || t[6].romaji == s || t[7].romaji == s || t[8].romaji == s || t[9].romaji == s;
    var i :| 0 <= i < |t| && t[i].romaji == s;
    HasAt(t, s, i);
  }

  lemma YouonMtoRHas(s: string)
    requires Youon(s, {'m', 'r'})
    ensures Has(YouonMtoR(), s)
  {
    hide Has;
    var t := YouonMtoR();
    assert t[0].romaji == s || t[1].romaji == s || t[2].romaji == s || t[3].romaji == s || t[4].romaji == s
        || t[5].romaji == s || t[6].romaji == s || t[7].romaji == s || t[8].romaji == s || t[9].romaji == s;
    var i :| 0 <= i < |t| && t[i].romaji == s;
    HasAt(t, s, i);
  }

  lemma YouonFtoVHas(s: string)
    requires Youon(s, {'f', 'v'}) && s[2] !in {'i', 'e'}
    ensures Has(YouonFtoV(), s)
  {
    hide Has;
    var t := YouonFtoV();
    assert t[0].romaji == s || t[1].romaji == s || t[2].romaji == s || t[3].romaji == s || t[4].romaji == s
        || t[5].romaji == s;
    var i :| 0 <= i < |t| && t[i].romaji == s;
    HasAt(t, s, i);
  }

  lemma SmallYouonHas(s: string)
    requires Youon(s, {'x', 'l'}) && s[2] !in {'i', 'e'}
    ensures Has(SmallYouon(), s)
  {
    hide Has;
    var t := SmallYouon();
    assert t[0].romaji == s || t[1].romaji == s || t[2].romaji == s || t[3].romaji == s || t[4].romaji == s
        || t[5].romaji == s;
    var i :| 0 <= i < |t| && t[i].romaji == s;
    HasAt(t, s, i);
  }

  lemma SmallTsuHas(s: string)
    requires s in {"xtsu", "ltsu", "xtu", "ltu", "xwa", "lwa"}
    ensures Has(SmallTsu(), s)
  {
    hide Has;
    var t := SmallTsu();
    assert t[0].romaji == s || t[1].romaji == s || t[2].romaji == s || t[3].romaji == s || t[4].romaji == s
        || t[5].romaji == s;
    var i :| 0 <= i < |t| && t[i].romaji == s;
    HasAt(t, s, i);
  }

  lemma SmallVowelsXHas(s: string)
    requires Pair(s, {'x'})
    ensures Has(SmallVowelsX(), s)
  {
    hide Has;
    var t := SmallVowelsX();
    assert t[0].romaji == s || t[1].romaji == s || t[2].romaji == s || t[3].romaji == s || t[4].romaji == s;
    var i :| 0 <= i < |t| && t[i].romaji == s;
    HasAt(t, s, i);
  }

  lemma SmallVowelsLHas(s: string)
    requires Pair(s, {'l'})
    ensures Has(SmallVowelsL(), s)
  {
    hide Has;
    var t := SmallVowelsL();
    assert t[0].romaji == s || t[1].romaji == s || t[2].romaji == s || t[3].romaji == s || t[4].romaji == s;
    var i :| 0 <= i < |t| && t[i].romaji == s;
    HasAt(t, s, i);
  }

  lemma TwoLetterKtoGHas(s: string)
    requires Pair(s, {'k', 'g'})
    ensures Has(TwoLetterKtoG(), s)
  {
    hide Has;
    var t := TwoLetterKtoG();
    assert t[0].romaji == s || t[1].romaji == s || t[2].romaji == s || t[3].romaji == s || t[4].romaji == s
        || t[5].romaji == s || t[6].romaji == s || t[7].romaji == s || t[8].romaji == s || t[9].romaji == s;
    var i :| 0 <= i < |t| && t[i].romaji == s;
    HasAt(t, s, i);
  }

  lemma TwoLetterStoZHas(s: string)
    requires Pair(s, {'s', 'z'})
    ensures Has(TwoLetterStoZ(), s)
  {
    hide Has;
    var t := TwoLetterStoZ();
    assert t[0].romaji == s || t[1].romaji == s || t[2].romaji == s || t[3].romaji == s || t[4].romaji == s
        || t[5].romaji == s || t[6].romaji == s || t[7].romaji == s || t[8].romaji == s || t[9].romaji == s;
    var i :| 0 <= i < |t| && t[i].romaji == s;
    HasAt(t, s, i);
  }

  lemma TwoLetterTtoDHas(s: string)
    requires Pair(s, {'t', 'd'})
    ensures Has(TwoLetterTtoD(), s)
  {
    hide Has;
    var t := TwoLetterTtoD();
    assert t[0].romaji == s || t[1].romaji == s || t[2].romaji == s || t[3].romaji == s || t[4].romaji == s
        || t[5].romaji == s || t[6].romaji == s || t[7].romaji == s || t[8].romaji == s || t[9].romaji == s;
    var i :| 0 <= i < |t| && t[i].romaji == s;
    HasAt(t, s, i);
  }

  lemma TwoLetterNtoHHas(s: string)
    requires Pair(s, {'n', 'h'})
    ensures Has(TwoLetterNtoH(), s)
  {
    hide Has;
    var t := TwoLetterNtoH();
    assert t[0].romaji == s || t[1].romaji == s || t[2].romaji == s || t[3].romaji == s || t[4].romaji == s
        || t[5].romaji == s || t[6].romaji == s || t[7].romaji == s || t[8].romaji == s || t[9].romaji == s;
    var i :| 0 <= i < |t| && t[i].romaji == s;
    HasAt(t, s, i);
  }

  lemma TwoLetterBtoPHas(s: string)
    requires Pair(s, {'b', 'p'})
    ensures Has(TwoLetterBtoP(), s)
  {
    hide Has;
    var t := TwoLetterBtoP();
    assert t[0].romaji == s || t[1].romaji == s || t[2].romaji == s || t[3].romaji == s || t[4].romaji == s
        || t[5].romaji == s || t[6].romaji == s || t[7].romaji == s || t[8].romaji == s || t[9].romaji == s;
    var i :| 0 <= i < |t| && t[i].romaji == s;
    HasAt(t, s, i);
  }

  lemma TwoLetterFtoMHas(s: string)
    requires Pair(s, {'f', 'm'})
    ensures Has(TwoLetterFtoM(), s)
  {
    hide Has;
    var t := TwoLetterFtoM();
    assert t[0].romaji == s || t[1].romaji == s || t[2].romaji == s || t[3].romaji == s || t[4].romaji == s
        || t[5].romaji == s || t[6].romaji == s || t[7].romaji == s || t[8].romaji == s || t[9].romaji == s;
    var i :| 0 <= i < |t| && t[i].romaji == s;
    HasAt(t, s, i);
  }

  lemma TwoLetterYtoRHas(s: string)
    requires Pair(s, {'y', 'r'})
    ensures Has(TwoLetterYtoR(), s)
  {
    hide Has;
    var t := TwoLetterYtoR();
    assert t[0].romaji == s || t[1].romaji == s || t[2].romaji == s || t[3].romaji == s || t[4].romaji == s
        || t[5].romaji == s || t[6].romaji == s || t[7].romaji == s || t[8].romaji == s || t[9].romaji == s;
    var i :| 0 <= i < |t| && t[i].romaji == s;
    HasAt(t, s, i);
  }

  lemma TwoLetterWtoVHas(s: string)
    requires Pair(s, {'w', 'v'})
    ensures Has(TwoLetterWtoV(), s)
  {
    hide Has;
    var t := TwoLetterWtoV();
    assert t[0].romaji == s || t[1].romaji == s || t[2].romaji == s || t[3].romaji == s || t[4].romaji == s
        || t[5].romaji == s || t[6].romaji == s || t[7].romaji == s || t[8].romaji == s || t[9].romaji == s;
    var i :| 0 <= i < |t| && t[i].romaji == s;
    HasAt(t, s, i);
  }

  lemma SingleLettersHas(s: string)
    requires |s| == 1 && s[0] in {'a', 'i', 'u', 'e', 'o', '-', ',', '.', '/', '[', ']'}
    ensures Has(SingleLetters(), s)
  {
    hide Has;
    var t := SingleLetters();
    assert t[0].romaji == s || t[1].romaji == s || t[2].romaji == s || t[3].romaji == s || t[4].romaji == s
        || t[5].romaji == s || t[6].romaji == s || t[7].romaji == s || t[8].romaji == s || t[9].romaji == s
        || t[10].romaji == s;
    var i :| 0 <= i < |t| && t[i].romaji == s;
    HasAt(t, s, i);
  }

  lemma YouonKtoZHas(s: string)
    requires Youon(s, {'k', 'g', 's', 'j', 'z'}) || Digraph(s, 's') || Pair(s, {'j'})
    ensures Has(YouonKtoZ(), s)
  {
    hide YouonKtoG, YouonS, YouonJ, YouonZ;
    if Youon(s, {'k', 'g'}) {
      YouonKtoGHas(s);
    } else if Youon(s, {'s'}) || Digraph(s, 's') {
      YouonSHas(s);
    } else if Youon(s, {'j'}) || Pair(s, {'j'}) {
      YouonJHas(s);
    } else {
      YouonZHas(s);
    }
  }

  lemma YouonCtoDHas(s: string)
    requires Youon(s, {'c', 't', 'd'}) || Digraph(s, 'c') || s == "tsu"
    ensures Has(YouonCtoD(), s)
  {
    hide YouonC, YouonT, YouonD;
    if Youon(s, {'c'}) || Digraph(s, 'c') {
      YouonCHas(s);
    } else if Youon(s, {'t'}) || s == "tsu" {
      YouonTHas(s);
    } else {
      YouonDHas(s);
    }
  }

  lemma YouonNtoVHas(s: string)
    requires Youon(s, {'n', 'h', 'b', 'p', 'm', 'r'}) || (Youon(s, {'f', 'v'}) && s[2] !in {'i', 'e'})
    ensures Has(YouonNtoV(), s)
  {
    hide YouonNtoH, YouonBtoP, YouonMtoR, YouonFtoV;
    if Youon(s, {'n', 'h'}) {
      YouonNtoHHas(s);
    } else if Youon(s, {'b', 'p'}) {
      YouonBtoPHas(s);
    } else if Youon(s, {'m', 'r'}) {
      YouonMtoRHas(s);
    } else {
      YouonFtoVHas(s);
    }
  }

  lemma SmallKanaHas(s: string)
    requires Pair(s, {'x', 'l'}) || (Youon(s, {'x', 'l'}) && s[2] !in {'i', 'e'})
             || s in {"xtsu", "ltsu", "xtu", "ltu", "xwa", "lwa"}
    ensures Has(SmallKana(), s)
  {
    hide SmallYouon, SmallTsu, SmallVowelsX, SmallVowelsL;
    if Youon(s, {'x', 'l'}) && s[2] !in {'i', 'e'} {
      SmallYouonHas(s);
    } else if s in {"xtsu", "ltsu", "xtu", "ltu", "xwa", "lwa"} {
      SmallTsuHas(s);
    } else if Pair(s, {'x'}) {
      SmallVowelsXHas(s);
    } else {
      SmallVowelsLHas(s);
    }
  }

  lemma TwoLetterKtoHHas(s: string)
    requires Pair(s, {'k', 'g', 's', 'z', 't', 'd', 'n', 'h'})
    ensures Has(TwoLetterKtoH(), s)
  {
    hide TwoLetterKtoG, TwoLetterStoZ, TwoLetterTtoD, TwoLetterNtoH;
    if Pair(s, {'k', 'g'}) {
      TwoLetterKtoGHas(s);
    } else if Pair(s, {'s', 'z'}) {
      TwoLetterStoZHas(s);
    } else if Pair(s, {'t', 'd'}) {
      TwoLetterTtoDHas(s);
    } else {
      TwoLetterNtoHHas(s);
    }
  }

  lemma TwoLetterBtoVHas(s: string)
    requires Pair(s, {'b', 'p', 'f', 'm', 'y', 'r', 'w', 'v'})
    ensures Has(TwoLetterBtoV(), s)
  {
    hide TwoLetterBtoP, TwoLetterFtoM, TwoLetterYtoR, TwoLetterWtoV;
    if Pair(s, {'b', 'p'}) {
      TwoLetterBtoPHas(s);
    } else if Pair(s, {'f', 'm'}) {
      TwoLetterFtoMHas(s);
    } else if Pair(s, {'y', 'r'}) {
      TwoLetterYtoRHas(s);
    } else {
      TwoLetterWtoVHas(s);
    }
  }

  lemma EverySpellingHasAnEntry(s: string)
    requires Expected(s).Some?
    ensures Has(Rules(), s)
  {
    hide YouonKtoZ, YouonCtoD, YouonNtoV, SmallKana, TwoLetterKtoH, TwoLetterBtoV, SingleLetters;
    if |s| == 1 {
      SingleLettersHas(s);
    } else if |s| == 2 {
      if s[0] == 'j' { YouonKtoZHas(s); }
      else if s[0] in {'x', 'l'} { SmallKanaHas(s); }
      else if s[0] in {'k', 'g', 's', 'z', 't', 'd', 'n', 'h'} { TwoLetterKtoHHas(s); }
      else { TwoLetterBtoVHas(s); }
    } else if |s| == 4 || s[0] in {'x', 'l'} {
      SmallKanaSpellings(s);
      SmallKanaHas(s);
    } else if s[0] in {'k', 'g', 's', 'j', 'z'} {
      YouonKtoZHas(s);
    } else if s[0] in {'c', 't', 'd'} {
      assert s[1] == 's' ==> s == "tsu";
      YouonCtoDHas(s);
    } else {
      YouonNtoVHas(s);
    }
  }

  lemma SmallKanaSpellings(s: string)
    requires Expected(s).Some? && (|s| == 4 || (|s| == 3 && s[0] in {'x', 'l'}))
    ensures (Youon(s, {'x', 'l'}) && s[2] !in {'i', 'e'}) || s in {"xtsu", "ltsu", "xtu", "ltu", "xwa", "lwa"}
  {
    if |s| == 3 && s[1] == 't' { assert s == if s[0] == 'x' then "xtu" else "ltu"; }
    if |s| == 3 && s[1] == 'w' { assert s == if s[0] == 'x' then "xwa" else "lwa"; }
  }

  /** The table spells exactly what is expected, and nothing else: no entry is wrong, missing, or
      hidden behind another. */
  lemma TableIsExpected(s: string)
    ensures Lookup(Rules(), s) == Expected(s)
  {
    hide Rules, Expected, Lookup;
    LookupFinds(Rules(), s);
    EntriesAreExpected();
    if Expected(s).Some? { EverySpellingHasAnEntry(s); }
    if Lookup(Rules(), s).Some? { assert AsExpected(Rule(s, Lookup(Rules(), s).value)); }
  }

  lemma ExamplesAreFound()
    ensures Lookup(Rules(), "a") == Some("あ") && Lookup(Rules(), "i") == Some("い") && Lookup(Rules(), "ni") == Some("に")
    ensures Lookup(Rules(), "sa") == Some("さ") && Lookup(Rules(), "ki") == Some("き")
    ensures Lookup(Rules(), "te") == Some("て")
  {
    hide Rules, Lookup;
    TableIsExpected("a");
    TableIsExpected("i");
    TableIsExpected("ni");
    TableIsExpected("sa");
    TableIsExpected("ki");
    TableIsExpected("te");
  }
}
