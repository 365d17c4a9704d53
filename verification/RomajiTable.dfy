/** The romaji spelling table of tsf/Ohagey/RomajiKana.cpp and what holds of every entry. */
module RomajiTable {
  import opened Wrappers

  /** One entry: a spelling and the kana it produces. */
  datatype Rule = Rule(romaji: string, kana: string)

  // The table, row by row as the source lists it. It is cut into sections only so that
  // each can be checked on its own.

  function YouonKtoG(): seq<Rule> {
    [Rule("kya", "きゃ"), Rule("kyi", "きぃ"), Rule("kyu", "きゅ"), Rule("kye", "きぇ"), Rule("kyo", "きょ")]
    + [Rule("gya", "ぎゃ"), Rule("gyi", "ぎぃ"), Rule("gyu", "ぎゅ"), Rule("gye", "ぎぇ"), Rule("gyo", "ぎょ")]
  }

  function YouonS(): seq<Rule> {
    [Rule("sha", "しゃ"), Rule("shu", "しゅ"), Rule("she", "しぇ"), Rule("sho", "しょ"), Rule("shi", "し")]
    + [Rule("sya", "しゃ"), Rule("syi", "しぃ"), Rule("syu", "しゅ"), Rule("sye", "しぇ"), Rule("syo", "しょ")]
  }

  function YouonJ(): seq<Rule> {
    [Rule("ja", "じゃ"), Rule("ju", "じゅ"), Rule("je", "じぇ"), Rule("jo", "じょ"), Rule("ji", "じ")]
    + [Rule("jya", "じゃ"), Rule("jyi", "じぃ"), Rule("jyu", "じゅ"), Rule("jye", "じぇ"), Rule("jyo", "じょ")]
  }

  function YouonZ(): seq<Rule> {
    [Rule("zya", "じゃ"), Rule("zyi", "じぃ"), Rule("zyu", "じゅ"), Rule("zye", "じぇ"), Rule("zyo", "じょ")]
  }

  function YouonC(): seq<Rule> {
    [Rule("cha", "ちゃ"), Rule("chu", "ちゅ"), Rule("che", "ちぇ"), Rule("cho", "ちょ"), Rule("chi", "ち")]
    + [Rule("cya", "ちゃ"), Rule("cyi", "ちぃ"), Rule("cyu", "ちゅ"), Rule("cye", "ちぇ"), Rule("cyo", "ちょ")]
  }

  function YouonT(): seq<Rule> {
    [Rule("tya", "ちゃ"), Rule("tyi", "ちぃ"), Rule("tyu", "ちゅ"), Rule("tye", "ちぇ"), Rule("tyo", "ちょ")]
    + [Rule("tsu", "つ")]
  }

  function YouonD(): seq<Rule> {
    [Rule("dya", "ぢゃ"), Rule("dyi", "ぢぃ"), Rule("dyu", "ぢゅ"), Rule("dye", "ぢぇ"), Rule("dyo", "ぢょ")]
  }

  function YouonNtoH(): seq<Rule> {
    [Rule("nya", "にゃ"), Rule("nyi", "にぃ"), Rule("nyu", "にゅ"), Rule("nye", "にぇ"), Rule("nyo", "にょ")]
    + [Rule("hya", "ひゃ"), Rule("hyi", "ひぃ"), Rule("hyu", "ひゅ"), Rule("hye", "ひぇ"), Rule("hyo", "ひょ")]
  }

  function YouonBtoP(): seq<Rule> {
    [Rule("bya", "びゃ"), Rule("byi", "びぃ"), Rule("byu", "びゅ"), Rule("bye", "びぇ"), Rule("byo", "びょ")]
    + [Rule("pya", "ぴゃ"), Rule("pyi", "ぴぃ"), Rule("pyu", "ぴゅ"), Rule("pye", "ぴぇ"), Rule("pyo", "ぴょ")]
  }

  function YouonMtoR(): seq<Rule> {
    [Rule("mya", "みゃ"), Rule("myi", "みぃ"), Rule("myu", "みゅ"), Rule("mye", "みぇ"), Rule("myo", "みょ")]
    + [Rule("rya", "りゃ"), Rule("ryi", "りぃ"), Rule("ryu", "りゅ"), Rule("rye", "りぇ"), Rule("ryo", "りょ")]
  }

  function YouonFtoV(): seq<Rule> {
    [Rule("fya", "ふゃ"), Rule("fyu", "ふゅ"), Rule("fyo", "ふょ")]
    + [Rule("vya", "ゔゃ"), Rule("vyu", "ゔゅ"), Rule("vyo", "ゔょ")]
  }

  function SmallYouon(): seq<Rule> {
    [Rule("xya", "ゃ"), Rule("xyu", "ゅ"), Rule("xyo", "ょ")]
    + [Rule("lya", "ゃ"), Rule("lyu", "ゅ"), Rule("lyo", "ょ")]
  }

  function SmallTsu(): seq<Rule> {
    [Rule("xtsu", "っ"), Rule("ltsu", "っ"), Rule("xtu", "っ"), Rule("ltu", "っ")]
    + [Rule("xwa", "ゎ"), Rule("lwa", "ゎ")]
  }

  function SmallVowelsX(): seq<Rule> {
    [Rule("xa", "ぁ"), Rule("xi", "ぃ"), Rule("xu", "ぅ"), Rule("xe", "ぇ"), Rule("xo", "ぉ")]
  }

  function SmallVowelsL(): seq<Rule> {
    [Rule("la", "ぁ"), Rule("li", "ぃ"), Rule("lu", "ぅ"), Rule("le", "ぇ"), Rule("lo", "ぉ")]
  }

  function TwoLetterKtoG(): seq<Rule> {
    [Rule("ka", "か"), Rule("ki", "き"), Rule("ku", "く"), Rule("ke", "け"), Rule("ko", "こ")]
    + [Rule("ga", "が"), Rule("gi", "ぎ"), Rule("gu", "ぐ"), Rule("ge", "げ"), Rule("go", "ご")]
  }

  function TwoLetterStoZ(): seq<Rule> {
    [Rule("sa", "さ"), Rule("si", "し"), Rule("su", "す"), Rule("se", "せ"), Rule("so", "そ")]
    + [Rule("za", "ざ"), Rule("zi", "じ"), Rule("zu", "ず"), Rule("ze", "ぜ"), Rule("zo", "ぞ")]
  }

  function TwoLetterTtoD(): seq<Rule> {
    [Rule("ta", "た"), Rule("ti", "ち"), Rule("tu", "つ"), Rule("te", "て"), Rule("to", "と")]
    + [Rule("da", "だ"), Rule("di", "ぢ"), Rule("du", "づ"), Rule("de", "で"), Rule("do", "ど")]
  }

  function TwoLetterNtoH(): seq<Rule> {
    [Rule("na", "な"), Rule("ni", "に"), Rule("nu", "ぬ"), Rule("ne", "ね"), Rule("no", "の")]
    + [Rule("ha", "は"), Rule("hi", "ひ"), Rule("hu", "ふ"), Rule("he", "へ"), Rule("ho", "ほ")]
  }

  function TwoLetterBtoP(): seq<Rule> {
    [Rule("ba", "ば"), Rule("bi", "び"), Rule("bu", "ぶ"), Rule("be", "べ"), Rule("bo", "ぼ")]
    + [Rule("pa", "ぱ"), Rule("pi", "ぴ"), Rule("pu", "ぷ"), Rule("pe", "ぺ"), Rule("po", "ぽ")]
  }

  function TwoLetterFtoM(): seq<Rule> {
    [Rule("fa", "ふぁ"), Rule("fi", "ふぃ"), Rule("fu", "ふ"), Rule("fe", "ふぇ"), Rule("fo", "ふぉ")]
    + [Rule("ma", "ま"), Rule("mi", "み"), Rule("mu", "む"), Rule("me", "め"), Rule("mo", "も")]
  }

  function TwoLetterYtoR(): seq<Rule> {
    [Rule("ya", "や"), Rule("yu", "ゆ"), Rule("yo", "よ"), Rule("yi", "い"), Rule("ye", "いぇ")]
    + [Rule("ra", "ら"), Rule("ri", "り"), Rule("ru", "る"), Rule("re", "れ"), Rule("ro", "ろ")]
  }

  function TwoLetterWtoV(): seq<Rule> {
    [Rule("wa", "わ"), Rule("wo", "を"), Rule("wi", "うぃ"), Rule("we", "うぇ"), Rule("wu", "う")]
    + [Rule("va", "ゔぁ"), Rule("vi", "ゔぃ"), Rule("vu", "ゔ"), Rule("ve", "ゔぇ"), Rule("vo", "ゔぉ")]
  }

  function SingleLetters(): seq<Rule> {
    [Rule("a", "あ"), Rule("i", "い"), Rule("u", "う"), Rule("e", "え"), Rule("o", "お")]
    + [Rule("-", "ー"), Rule(",", "、"), Rule(".", "。"), Rule("/", "・")]
    + [Rule("[", "「"), Rule("]", "」")]
  }

  function YouonKtoZ(): seq<Rule> {
    YouonKtoG() + YouonS() + YouonJ() + YouonZ()
  }

  function YouonCtoD(): seq<Rule> {
    YouonC() + YouonT() + YouonD()
  }

  function YouonNtoV(): seq<Rule> {
    YouonNtoH() + YouonBtoP() + YouonMtoR() + YouonFtoV()
  }

  function SmallKana(): seq<Rule> {
    SmallYouon() + SmallTsu() + SmallVowelsX() + SmallVowelsL()
  }

  function TwoLetterKtoH(): seq<Rule> {
    TwoLetterKtoG() + TwoLetterStoZ() + TwoLetterTtoD() + TwoLetterNtoH()
  }

  function TwoLetterBtoV(): seq<Rule> {
    TwoLetterBtoP() + TwoLetterFtoM() + TwoLetterYtoR() + TwoLetterWtoV()
  }

  function Rules(): seq<Rule> {
    YouonKtoZ() + YouonCtoD() + YouonNtoV() + SmallKana() + TwoLetterKtoH() + TwoLetterBtoV() + SingleLetters()
  }

  /** Longest spelling in the table, "xtsu". */
  const MAX_RULE_LENGTH := 4

  predicate IsVowel(c: char) {
    c == 'a' || c == 'i' || c == 'u' || c == 'e' || c == 'o'
  }

  /** A consonant that doubles into っ; nn is ん instead. */
  predicate DoublesToSokuon(c: char) {
    'a' <= c <= 'z' && !IsVowel(c) && c != 'n'
  }

  predicate IsSymbol(c: char) {
    c == '-' || c == ',' || c == '.' || c == '/' || c == '[' || c == ']'
  }

  predicate IsAccepted(c: char) {
    || 'a' <= c <= 'z'
    || 'A' <= c <= 'Z'
    || IsSymbol(c)
    || c == '\''
  }

  /** Kana are exactly what the composition buffer treats as settled: not ASCII. */
  predicate IsAscii(c: char) {
    c as int < 0x80
  }

  /** The kana of the first entry spelled `romaji`. */
  function Lookup(rules: seq<Rule>, romaji: string): Option<string> {
    if rules == [] then None
    else if rules[0].romaji == romaji then Some(rules[0].kana)
    else Lookup(rules[1..], romaji)
  }

  /** Whether `romaji` could still grow into an entry. */
  ghost predicate IsPrefixOfRule(rules: seq<Rule>, romaji: string) {
    |romaji| < MAX_RULE_LENGTH && exists r :: r in rules && romaji < r.romaji
  }

  // ---- What every entry looks like ----

  /** A letter that may begin a spelling: any consonant but q. */
  predicate IsConsonant(c: char) {
    'a' <= c <= 'z' && !IsVowel(c) && c != 'q'
  }

  /** One vowel or symbol, or up to three consonants and a final vowel, with no letter doubled
      and with n only in front of a vowel or y. */
  predicate Shape(s: string) {
    || (|s| == 1 && (IsVowel(s[0]) || IsSymbol(s[0])))
    || (|s| == 2 && IsConsonant(s[0]) && IsVowel(s[1]))
    || (|s| == 3 && IsConsonant(s[0]) && IsConsonant(s[1]) && IsVowel(s[2])
        && s[0] != s[1] && s[1] != 'n' && (s[0] == 'n' ==> s[1] == 'y'))
    || (|s| == 4 && IsConsonant(s[0]) && IsConsonant(s[1]) && IsConsonant(s[2]) && IsVowel(s[3])
        && s[0] != s[1] && s[1] != s[2] && s[0] != 'n' && s[1] != 'n' && s[2] != 'n')
  }

  predicate IsKana(k: string) {
    || (|k| == 1 && !IsAscii(k[0]))
    || (|k| == 2 && !IsAscii(k[0]) && !IsAscii(k[1]))
  }

  predicate WellFormed(r: Rule) {
    && Shape(r.romaji)
    && IsKana(r.kana)
    && (|r.romaji| == 1 && IsVowel(r.romaji[0]) ==> r.kana in {"あ", "い", "う", "え", "お"})
    && (|r.romaji| == 2 && r.romaji[0] == 'n' ==> r.kana in {"な", "に", "ぬ", "ね", "の"})
  }

  /** A syllable in ny is two kana, the first に, and none in y alone begins with に. */
  predicate NyShape(r: Rule) {
    && (|r.romaji| == 3 && r.romaji[0] == 'n' ==> |r.kana| == 2 && r.kana[0] == 'に')
    && (|r.romaji| == 2 && r.romaji[0] == 'y' ==> r.kana != "" && r.kana[0] != 'に')
  }

  /** All that the conversion laws need of a table. */
  ghost predicate ValidRules(rules: seq<Rule>) {
    && (forall r :: r in rules ==> WellFormed(r))
    && (forall c {:trigger IsPrefixOfRule(rules, [c])} :: IsConsonant(c) ==> IsPrefixOfRule(rules, [c]))
    && IsPrefixOfRule(rules, "ny")
    && (forall c {:trigger Lookup(rules, [c])} :: IsVowel(c) ==> Lookup(rules, [c]).Some?)
    && (forall c {:trigger Lookup(rules, ['n', c])} :: IsVowel(c) ==> Lookup(rules, ['n', c]).Some?)
  }

  /** What the law of the final text needs besides. */
  ghost predicate SpellsNy(rules: seq<Rule>) {
    && (forall r :: r in rules ==> NyShape(r))
    && (forall c {:trigger Lookup(rules, ['n', 'y', c])} :: IsVowel(c) ==> Lookup(rules, ['n', 'y', c]).Some?)
  }

  lemma {:induction false} LookupFinds(rules: seq<Rule>, romaji: string)
    ensures Lookup(rules, romaji).Some? ==> Rule(romaji, Lookup(rules, romaji).value) in rules
    ensures Lookup(rules, romaji).None? <==> forall r :: r in rules ==> r.romaji != romaji
  {
    if rules != [] {
      LookupFinds(rules[1..], romaji);
      assert forall r :: r in rules <==> r == rules[0] || r in rules[1..];
    }
  }

  lemma YouonKtoGWellFormed()
    ensures forall r :: r in YouonKtoG() ==> WellFormed(r) && NyShape(r)
  {
  }

  lemma YouonSWellFormed()
    ensures forall r :: r in YouonS() ==> WellFormed(r) && NyShape(r)
  {
  }

  lemma YouonJWellFormed()
    ensures forall r :: r in YouonJ() ==> WellFormed(r) && NyShape(r)
  {
  }

  lemma YouonZWellFormed()
    ensures forall r :: r in YouonZ() ==> WellFormed(r) && NyShape(r)
  {
  }

  lemma YouonCWellFormed()
    ensures forall r :: r in YouonC() ==> WellFormed(r) && NyShape(r)
  {
  }

  lemma YouonTWellFormed()
    ensures forall r :: r in YouonT() ==> WellFormed(r) && NyShape(r)
  {
  }

  lemma YouonDWellFormed()
    ensures forall r :: r in YouonD() ==> WellFormed(r) && NyShape(r)
  {
  }

  lemma YouonNtoHWellFormed()
    ensures forall r :: r in YouonNtoH() ==> WellFormed(r) && NyShape(r)
  {
  }

  lemma YouonBtoPWellFormed()
    ensures forall r :: r in YouonBtoP() ==> WellFormed(r) && NyShape(r)
  {
  }

  lemma YouonMtoRWellFormed()
    ensures forall r :: r in YouonMtoR() ==> WellFormed(r) && NyShape(r)
  {
  }

  lemma YouonFtoVWellFormed()
    ensures forall r :: r in YouonFtoV() ==> WellFormed(r) && NyShape(r)
  {
  }

  lemma SmallYouonWellFormed()
    ensures forall r :: r in SmallYouon() ==> WellFormed(r) && NyShape(r)
  {
  }

  lemma SmallTsuWellFormed()
    ensures forall r :: r in SmallTsu() ==> WellFormed(r) && NyShape(r)
  {
  }

  lemma SmallVowelsXWellFormed()
    ensures forall r :: r in SmallVowelsX() ==> WellFormed(r) && NyShape(r)
  {
  }

  lemma SmallVowelsLWellFormed()
    ensures forall r :: r in SmallVowelsL() ==> WellFormed(r) && NyShape(r)
  {
  }

  lemma TwoLetterKtoGWellFormed()
    ensures forall r :: r in TwoLetterKtoG() ==> WellFormed(r) && NyShape(r)
  {
  }

  lemma TwoLetterStoZWellFormed()
    ensures forall r :: r in TwoLetterStoZ() ==> WellFormed(r) && NyShape(r)
  {
  }

  lemma TwoLetterTtoDWellFormed()
    ensures forall r :: r in TwoLetterTtoD() ==> WellFormed(r) && NyShape(r)
  {
  }

  lemma TwoLetterNtoHWellFormed()
    ensures forall r :: r in TwoLetterNtoH() ==> WellFormed(r) && NyShape(r)
  {
  }

  lemma TwoLetterBtoPWellFormed()
    ensures forall r :: r in TwoLetterBtoP() ==> WellFormed(r) && NyShape(r)
  {
  }

  lemma TwoLetterFtoMWellFormed()
    ensures forall r :: r in TwoLetterFtoM() ==> WellFormed(r) && NyShape(r)
  {
  }

  lemma TwoLetterYtoRWellFormed()
    ensures forall r :: r in TwoLetterYtoR() ==> WellFormed(r) && NyShape(r)
  {
  }

  lemma TwoLetterWtoVWellFormed()
    ensures forall r :: r in TwoLetterWtoV() ==> WellFormed(r) && NyShape(r)
  {
  }

  lemma SingleLettersWellFormed()
    ensures forall r :: r in SingleLetters() ==> WellFormed(r) && NyShape(r)
  {
  }

  lemma StarterBtoH(c: char) returns (r: Rule)
    requires IsConsonant(c) && 'b' <= c <= 'h'
    ensures r in Rules() && [c] < r.romaji
  {
    hide YouonS, YouonJ, YouonZ, YouonT, YouonMtoR, SmallKana, TwoLetterKtoH, TwoLetterBtoV, SingleLetters;
    match c
    case 'b' => r := Rule("bya", "びゃ"); assert r in YouonBtoP();
    case 'c' => r := Rule("cha", "ちゃ"); assert r in YouonC();
    case 'd' => r := Rule("dya", "ぢゃ"); assert r in YouonD();
    case 'f' => r := Rule("fya", "ふゃ"); assert r in YouonFtoV();
    case 'g' => r := Rule("gya", "ぎゃ"); assert r in YouonKtoG();
    case 'h' => r := Rule("hya", "ひゃ"); assert r in YouonNtoH();
  }

  lemma StarterJtoL(c: char) returns (r: Rule)
    requires IsConsonant(c) && 'j' <= c <= 'l'
    ensures r in Rules() && [c] < r.romaji
  {
    hide YouonS, YouonZ, YouonCtoD, YouonNtoV, SmallTsu, SmallVowelsX, SmallVowelsL, TwoLetterKtoH,
         TwoLetterBtoV, SingleLetters;
    match c
    case 'j' => r := Rule("ja", "じゃ"); assert r in YouonJ();
    case 'k' => r := Rule("kya", "きゃ"); assert r in YouonKtoG();
    case 'l' => r := Rule("lya", "ゃ"); assert r in SmallYouon();
  }

  lemma StarterMtoR(c: char) returns (r: Rule)
    requires IsConsonant(c) && 'm' <= c <= 'r'
    ensures r in Rules() && [c] < r.romaji
  {
    hide YouonKtoZ, YouonCtoD, YouonFtoV, SmallKana, TwoLetterKtoH, TwoLetterBtoV, SingleLetters;
    match c
    case 'm' => r := Rule("mya", "みゃ"); assert r in YouonMtoR();
    case 'n' => r := Rule("nya", "にゃ"); assert r in YouonNtoH();
    case 'p' => r := Rule("pya", "ぴゃ"); assert r in YouonBtoP();
    case 'r' => r := Rule("rya", "りゃ"); assert r in YouonMtoR();
  }

  lemma StarterStoT(c: char) returns (r: Rule)
    requires IsConsonant(c) && 's' <= c <= 't'
    ensures r in Rules() && [c] < r.romaji
  {
    hide YouonKtoG, YouonJ, YouonZ, YouonC, YouonD, YouonNtoV, SmallKana, TwoLetterKtoH, TwoLetterBtoV,
         SingleLetters;
    match c
    case 's' => r := Rule("sha", "しゃ"); assert r in YouonS();
    case 't' => r := Rule("tya", "ちゃ"); assert r in YouonT();
  }

  lemma StarterVtoZ(c: char) returns (r: Rule)
    requires IsConsonant(c) && 'v' <= c <= 'z'
    ensures r in Rules() && [c] < r.romaji
  {
    hide YouonKtoG, YouonS, YouonJ, YouonCtoD, YouonNtoH, YouonBtoP, YouonMtoR, SmallTsu, SmallVowelsX,
         SmallVowelsL, TwoLetterKtoH, TwoLetterBtoP, TwoLetterFtoM, SingleLetters;
    match c
    case 'v' => r := Rule("vya", "ゔゃ"); assert r in YouonFtoV();
    case 'w' => r := Rule("wa", "わ"); assert r in TwoLetterWtoV();
    case 'x' => r := Rule("xya", "ゃ"); assert r in SmallYouon();
    case 'y' => r := Rule("ya", "や"); assert r in TwoLetterYtoR();
    case 'z' => r := Rule("zya", "じゃ"); assert r in YouonZ();
  }

  /** A vowel, alone or after n, is a spelling of its own. */
  lemma VowelSpelled(c: char) returns (alone: Rule, afterN: Rule)
    requires IsVowel(c)
    ensures alone in Rules() && alone.romaji == [c]
    ensures afterN in Rules() && afterN.romaji == ['n', c]
  {
    hide YouonKtoZ, YouonCtoD, YouonNtoV, SmallKana, TwoLetterKtoG, TwoLetterStoZ, TwoLetterTtoD, TwoLetterBtoV;
    match c
    case 'a' => alone, afterN := Rule("a", "あ"), Rule("na", "な");
    case 'i' => alone, afterN := Rule("i", "い"), Rule("ni", "に");
    case 'u' => alone, afterN := Rule("u", "う"), Rule("nu", "ぬ");
    case 'e' => alone, afterN := Rule("e", "え"), Rule("ne", "ね");
    case 'o' => alone, afterN := Rule("o", "お"), Rule("no", "の");
    assert alone in SingleLetters() && afterN in TwoLetterNtoH();
  }

  lemma YouonKtoZWellFormed()
    ensures forall r :: r in YouonKtoZ() ==> WellFormed(r) && NyShape(r)
  {
    hide WellFormed, NyShape, YouonKtoG, YouonS, YouonJ, YouonZ;
    YouonKtoGWellFormed();
    YouonSWellFormed();
    YouonJWellFormed();
    YouonZWellFormed();
  }

  lemma YouonCtoDWellFormed()
    ensures forall r :: r in YouonCtoD() ==> WellFormed(r) && NyShape(r)
  {
    hide WellFormed, NyShape, YouonC, YouonT, YouonD;
    YouonCWellFormed();
    YouonTWellFormed();
    YouonDWellFormed();
  }

  lemma YouonNtoVWellFormed()
    ensures forall r :: r in YouonNtoV() ==> WellFormed(r) && NyShape(r)
  {
    hide WellFormed, NyShape, YouonNtoH, YouonBtoP, YouonMtoR, YouonFtoV;
    YouonNtoHWellFormed();
    YouonBtoPWellFormed();
    YouonMtoRWellFormed();
    YouonFtoVWellFormed();
  }

  lemma SmallKanaWellFormed()
    ensures forall r :: r in SmallKana() ==> WellFormed(r) && NyShape(r)
  {
    hide WellFormed, NyShape, SmallYouon, SmallTsu, SmallVowelsX, SmallVowelsL;
    SmallYouonWellFormed();
    SmallTsuWellFormed();
    SmallVowelsXWellFormed();
    SmallVowelsLWellFormed();
  }

  lemma TwoLetterKtoHWellFormed()
    ensures forall r :: r in TwoLetterKtoH() ==> WellFormed(r) && NyShape(r)
  {
    hide WellFormed, NyShape, TwoLetterKtoG, TwoLetterStoZ, TwoLetterTtoD, TwoLetterNtoH;
    TwoLetterKtoGWellFormed();
    TwoLetterStoZWellFormed();
    TwoLetterTtoDWellFormed();
    TwoLetterNtoHWellFormed();
  }

  lemma TwoLetterBtoVWellFormed()
    ensures forall r :: r in TwoLetterBtoV() ==> WellFormed(r) && NyShape(r)
  {
    hide WellFormed, NyShape, TwoLetterBtoP, TwoLetterFtoM, TwoLetterYtoR, TwoLetterWtoV;
    TwoLetterBtoPWellFormed();
    TwoLetterFtoMWellFormed();
    TwoLetterYtoRWellFormed();
    TwoLetterWtoVWellFormed();
  }

  lemma RulesWellFormed()
    ensures forall r :: r in Rules() ==> WellFormed(r) && NyShape(r)
  {
    hide YouonKtoZ, YouonCtoD, YouonNtoV, SmallKana, TwoLetterKtoH, TwoLetterBtoV, SingleLetters;
    hide WellFormed, NyShape;
    YouonKtoZWellFormed();
    YouonCtoDWellFormed();
    YouonNtoVWellFormed();
    SmallKanaWellFormed();
    TwoLetterKtoHWellFormed();
    TwoLetterBtoVWellFormed();
    SingleLettersWellFormed();
  }

  lemma NyVowelSpelled(c: char) returns (r: Rule)
    requires IsVowel(c)
    ensures r in Rules() && r.romaji == ['n', 'y', c]
  {
    hide YouonKtoZ, YouonCtoD, YouonBtoP, YouonMtoR, YouonFtoV, SmallKana, TwoLetterKtoH, TwoLetterBtoV,
         SingleLetters;
    match c
    case 'a' => r := Rule("nya", "にゃ"); assert r in YouonNtoH();
    case 'i' => r := Rule("nyi", "にぃ"); assert r in YouonNtoH();
    case 'u' => r := Rule("nyu", "にゅ"); assert r in YouonNtoH();
    case 'e' => r := Rule("nye", "にぇ"); assert r in YouonNtoH();
    case 'o' => r := Rule("nyo", "にょ"); assert r in YouonNtoH();
  }

  lemma RulesSpellNy()
    ensures SpellsNy(Rules())
  {
    hide Rules, Lookup;
    RulesWellFormed();
    forall c | IsVowel(c) ensures Lookup(Rules(), ['n', 'y', c]).Some? {
      var r := NyVowelSpelled(c);
      LookupFinds(Rules(), ['n', 'y', c]);
    }
  }

  lemma ConsonantStartsARule(c: char)
    requires IsConsonant(c)
    ensures IsPrefixOfRule(Rules(), [c])
  {
    hide Rules;
    if c <= 'h' { var r := StarterBtoH(c); }
    else if c <= 'l' { var r := StarterJtoL(c); }
    else if c <= 'r' { var r := StarterMtoR(c); }
    else if c <= 't' { var r := StarterStoT(c); }
    else { var r := StarterVtoZ(c); }
  }

  lemma NyStartsARule()
    ensures IsPrefixOfRule(Rules(), "ny")
  {
    hide YouonKtoZ, YouonCtoD, YouonBtoP, YouonMtoR, YouonFtoV, SmallKana, TwoLetterKtoH, TwoLetterBtoV,
         SingleLetters;
    assert Rule("nya", "にゃ") in YouonNtoH();
  }

  lemma VowelsAreFound(c: char)
    requires IsVowel(c)
    ensures Lookup(Rules(), [c]).Some? && Lookup(Rules(), ['n', c]).Some?
  {
    hide Rules;
    var alone, afterN := VowelSpelled(c);
    LookupFinds(Rules(), [c]);
    LookupFinds(Rules(), ['n', c]);
  }

  /** The shipped table has every property the conversion laws rest on. */
  lemma RulesAreValid()
    ensures ValidRules(Rules())
  {
    hide Rules;
    RulesWellFormed();
    NyStartsARule();
    forall c | IsConsonant(c) ensures IsPrefixOfRule(Rules(), [c]) { ConsonantStartsARule(c); }
    forall c | IsVowel(c) ensures Lookup(Rules(), [c]).Some? && Lookup(Rules(), ['n', c]).Some? { VowelsAreFound(c); }
  }
}
