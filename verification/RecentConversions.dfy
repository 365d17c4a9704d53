/** The engine's memory of recent conversions, which a commit is matched against: at most eight
    readings, most recently converted first. */
module RecentConversions {
  import opened Wrappers

  /** A candidate of the converter: its text, and the dictionary entries it was built from. */
  datatype Candidate = Candidate(text: string, entries: seq<string>)

  datatype Conversion = Conversion(reading: string, candidates: seq<Candidate>)

  const RECENT_LIMIT := 8

  // ---- The cache ----

  function Without(recent: seq<Conversion>, reading: string): (r: seq<Conversion>)
    ensures forall c :: c in r <==> c in recent && c.reading != reading
  {
    if recent == [] then []
    else (if recent[0].reading == reading then [] else [recent[0]]) + Without(recent[1..], reading)
  }

  function Bounded(recent: seq<Conversion>): (r: seq<Conversion>)
    ensures |r| <= RECENT_LIMIT && r <= recent
  {
    if |recent| > RECENT_LIMIT then recent[..RECENT_LIMIT] else recent
  }

  function Remembered(recent: seq<Conversion>, c: Conversion): seq<Conversion> {
    Bounded([c] + Without(recent, c.reading))
  }

  function FirstFor(recent: seq<Conversion>, reading: string): Option<Conversion> {
    if recent == [] then None
    else if recent[0].reading == reading then Some(recent[0])
    else FirstFor(recent[1..], reading)
  }

  function FirstWith(candidates: seq<Candidate>, text: string): (r: Option<Candidate>)
    ensures r.Some? <==> exists c :: c in candidates && c.text == text
    ensures r.Some? ==> r.value in candidates && r.value.text == text
  {
    if candidates == [] then None
    else if candidates[0].text == text then Some(candidates[0])
    else FirstWith(candidates[1..], text)
  }

  /** It is the first of the candidates with the text. */
  lemma {:induction false} FirstWithIsFirst(candidates: seq<Candidate>, text: string, i: nat)
    requires i < |candidates| && candidates[i].text == text
    requires forall j :: 0 <= j < i ==> candidates[j].text != text
    ensures FirstWith(candidates, text) == Some(candidates[i])
  {
    if i > 0 { FirstWithIsFirst(candidates[1..], text, i - 1); }
  }

  /** What a commit teaches the converter, if anything. */
  function Matched(recent: seq<Conversion>, reading: string, text: string): Option<Candidate> {
    var c := FirstFor(recent, reading);
    if c.None? then None else FirstWith(c.value.candidates, text)
  }

  lemma WithoutFirst(s: seq<Conversion>, reading: string)
    requires s != []
    ensures Without(s, reading) ==
            if s[0].reading == reading then Without(s[1..], reading) else [s[0]] + Without(s[1..], reading)
  {
    assert [] + Without(s[1..], reading) == Without(s[1..], reading);
  }

  lemma WithoutStep(kept: seq<Conversion>, s: seq<Conversion>, reading: string)
    requires s != []
    ensures kept + Without(s, reading) ==
            (if s[0].reading == reading then kept else kept + [s[0]]) + Without(s[1..], reading)
  {
    hide Without;
    WithoutFirst(s, reading);
    Associate(kept, [s[0]], Without(s[1..], reading));
  }

  lemma Associate(a: seq<Conversion>, b: seq<Conversion>, c: seq<Conversion>)
    ensures (a + b) + c == a + (b + c)
  {
  }

  lemma WithoutEmpty(reading: string)
    ensures Without([], reading) == []
  {
  }

  class ConversionService {
    var recentCandidates: seq<Conversion>

    constructor ()
      ensures recentCandidates == []
    {
      recentCandidates := [];
    }

    method Remember(reading: string, candidates: seq<Candidate>)
      modifies this
      ensures recentCandidates == Remembered(old(recentCandidates), Conversion(reading, candidates))
    {
      hide Without;
      var kept: seq<Conversion> := [];
      var i := 0;
      ghost var rest := recentCandidates;
      while i < |recentCandidates|
        invariant 0 <= i <= |recentCandidates|
        invariant recentCandidates == old(recentCandidates) && rest == recentCandidates[i..]
        invariant kept + Without(rest, reading) == Without(recentCandidates, reading)
      {
        WithoutStep(kept, rest, reading);
        rest := rest[1..];
        if recentCandidates[i].reading != reading { kept := kept + [recentCandidates[i]]; }
        i := i + 1;
      }
      WithoutEmpty(reading);
      recentCandidates := [Conversion(reading, candidates)] + kept;
      if |recentCandidates| > RECENT_LIMIT {
        recentCandidates := recentCandidates[..RECENT_LIMIT];
      }
    }

    /** The candidate object a confirmed text came from. */
    method Match(reading: string, text: string) returns (found: Option<Candidate>)
      ensures found == Matched(recentCandidates, reading, text)
    {
      var i := 0;
      while i < |recentCandidates| && recentCandidates[i].reading != reading
        invariant 0 <= i <= |recentCandidates|
        invariant FirstFor(recentCandidates[i..], reading) == FirstFor(recentCandidates, reading)
      {
        assert recentCandidates[i..][1..] == recentCandidates[i + 1..];
        i := i + 1;
      }
      if i == |recentCandidates| { return None; }
      var offered := recentCandidates[i].candidates;
      var j := 0;
      while j < |offered| && offered[j].text != text
        invariant 0 <= j <= |offered|
        invariant FirstWith(offered[j..], text) == FirstWith(offered, text)
      {
        assert offered[j..][1..] == offered[j + 1..];
        j := j + 1;
      }
      found := if j == |offered| then None else Some(offered[j]);
    }
  }

  // ---- What the cache holds after a history of conversions, oldest first ----

  function Cache(history: seq<Conversion>): (recent: seq<Conversion>)
    ensures |recent| <= RECENT_LIMIT
  {
    if history == [] then [] else Remembered(Cache(history[..|history| - 1]), history[|history| - 1])
  }

  /** Every reading ever converted, most recent first, with its latest conversion. */
  function Latest(history: seq<Conversion>): seq<Conversion> {
    if history == [] then []
    else
      var last := history[|history| - 1];
      [last] + Without(Latest(history[..|history| - 1]), last.reading)
  }

  ghost predicate Distinct(s: seq<Conversion>) {
    forall i, j :: 0 <= i < j < |s| ==> s[i].reading != s[j].reading
  }

  function Readings(s: seq<Conversion>): set<string> {
    set c | c in s :: c.reading
  }

  lemma {:induction false} WithoutDistinct(s: seq<Conversion>, reading: string)
    requires Distinct(s)
    ensures Distinct(Without(s, reading))
    decreases |s|
  {
    if s != [] { WithoutDistinct(s[1..], reading); }
  }

  lemma {:induction false} LatestDistinct(history: seq<Conversion>)
    ensures Distinct(Latest(history))
    decreases |history|
  {
    if history != [] {
      var last := history[|history| - 1];
      LatestDistinct(history[..|history| - 1]);
      WithoutDistinct(Latest(history[..|history| - 1]), last.reading);
    }
  }

  /** Taking one reading out of a list of distinct ones leaves the rest in place. */
  lemma {:induction false} WithoutOne(s: seq<Conversion>, reading: string, p: nat)
    requires Distinct(s) && p < |s| && s[p].reading == reading
    ensures Without(s, reading) == s[..p] + s[p + 1..]
    decreases |s|
  {
    hide Without;
    WithoutFirst(s, reading);
    if p == 0 {
      WithoutNone(s[1..], reading);
      assert s[..0] + s[1..] == s[1..];
    } else {
      TailDistinct(s);
      hide Distinct;
      WithoutOne(s[1..], reading, p - 1);
      SplitsOn(s, p);
    }
  }

  lemma TailDistinct(s: seq<Conversion>)
    requires Distinct(s) && s != []
    ensures Distinct(s[1..])
  {
  }

  lemma SplitsOn(s: seq<Conversion>, p: nat)
    requires 0 < p < |s|
    ensures s[..p] + s[p + 1..] == [s[0]] + (s[1..][..p - 1] + s[1..][p..])
  {
    assert s[..p] == [s[0]] + s[1..][..p - 1];
    assert s[p + 1..] == s[1..][p..];
    Associate([s[0]], s[1..][..p - 1], s[1..][p..]);
  }

  lemma {:induction false} WithoutNone(s: seq<Conversion>, reading: string)
    requires forall i :: 0 <= i < |s| ==> s[i].reading != reading
    ensures Without(s, reading) == s
    decreases |s|
  {
    if s != [] { WithoutNone(s[1..], reading); }
  }

  lemma BoundedFront(c: Conversion, s: seq<Conversion>)
    ensures Bounded([c] + s) == [c] + if |s| >= RECENT_LIMIT then s[..RECENT_LIMIT - 1] else s
  {
  }

  lemma BoundedWithout(s: seq<Conversion>, c: Conversion)
    requires Distinct(s)
    ensures Remembered(Bounded(s), c) == Bounded([c] + Without(s, c.reading))
  {
    hide Without;
    var b := Bounded(s);
    if |s| > RECENT_LIMIT {
      BoundedFront(c, Without(b, c.reading));
      BoundedFront(c, Without(s, c.reading));
      SameFront(s, b, c.reading);
    }
  }

  lemma SameFront(s: seq<Conversion>, b: seq<Conversion>, reading: string)
    requires Distinct(s) && |s| > RECENT_LIMIT && b == s[..RECENT_LIMIT]
    ensures var n := RECENT_LIMIT - 1;
            |Without(b, reading)| >= n && |Without(s, reading)| >= n
            && Without(b, reading)[..n] == Without(s, reading)[..n]
  {
    hide Without;
    if p :| 0 <= p < |s| && s[p].reading == reading {
      WithoutOne(s, reading, p);
      if p < |b| { WithoutOne(b, reading, p); } else { WithoutNone(b, reading); }
    } else {
      WithoutNone(s, reading);
      WithoutNone(b, reading);
    }
  }

  /** Dropping what falls off the end at every step loses nothing the bound would have kept: the
      cache is the front of the whole history's list. */
  lemma {:induction false} CacheIsLatest(history: seq<Conversion>)
    ensures Cache(history) == Bounded(Latest(history))
    decreases |history|
  {
    if history != [] {
      var before := history[..|history| - 1];
      CacheIsLatest(before);
      LatestDistinct(before);
      BoundedWithout(Latest(before), history[|history| - 1]);
    }
  }

  // ---- Where a reading stands in it ----

  predicate LastAt(history: seq<Conversion>, reading: string, i: nat) {
    && i < |history| && history[i].reading == reading
    && forall j :: i < j < |history| ==> history[j].reading != reading
  }

  lemma ReadingsFront(c: Conversion, s: seq<Conversion>)
    ensures Readings([c] + s) == Readings(s) + {c.reading}
  {
    assert forall x :: x in [c] + s <==> x == c || x in s;
  }

  lemma ReadingsBack(s: seq<Conversion>, c: Conversion)
    ensures Readings(s + [c]) == Readings(s) + {c.reading}
  {
    assert forall x :: x in s + [c] <==> x == c || x in s;
  }

  lemma NotYet(s: seq<Conversion>, k: nat)
    requires Distinct(s) && k < |s|
    ensures s[k].reading !in Readings(s[..k])
  {
  }

  lemma DistinctCount(s: seq<Conversion>, k: nat)
    requires Distinct(s) && k <= |s|
    ensures |Readings(s[..k])| == k
  {
    hide Readings, Distinct;
    if k == 0 {
      assert s[..k] == [];
      NoReadings();
    } else {
      DistinctCount(s, k - 1);
      NotYet(s, k - 1);
      assert s[..k] == s[..k - 1] + [s[k - 1]];
      ReadingsBack(s[..k - 1], s[k - 1]);
    }
  }

  lemma NoReadings()
    ensures Readings([]) == {}
  {
  }

  /** Where the entry at m goes when a conversion comes in: one further back, unless its reading
      stood further ahead. */
  lemma Moves(latest: seq<Conversion>, last: Conversion, m: nat) returns (k: nat)
    requires Distinct(latest) && m < |latest| && latest[m].reading != last.reading
    ensures var next := [last] + Without(latest, last.reading);
            && k < |next| && next[k] == latest[m]
            && Readings(next[..k]) == Readings(latest[..m]) + {last.reading}
  {
    hide Without, Distinct, Readings;
    if p :| 0 <= p < |latest| && latest[p].reading == last.reading {
      WithoutOne(latest, last.reading, p);
      k := if p < m then m else m + 1;
      if p < m { MovesPast(latest, last, p, m); } else { MovesBack(latest, last, latest[..p] + latest[p + 1..], m); }
    } else {
      WithoutNone(latest, last.reading);
      k := m + 1;
      MovesBack(latest, last, latest, m);
    }
  }

  lemma MovesBack(latest: seq<Conversion>, last: Conversion, rest: seq<Conversion>, m: nat)
    requires m < |latest| && m < |rest| && rest[m] == latest[m] && rest[..m] == latest[..m]
    ensures ([last] + rest)[m + 1] == latest[m]
    ensures Readings(([last] + rest)[..m + 1]) == Readings(latest[..m]) + {last.reading}
  {
    hide Readings;
    assert ([last] + rest)[..m + 1] == [last] + latest[..m];
    ReadingsFront(last, latest[..m]);
  }

  lemma MovesPast(latest: seq<Conversion>, last: Conversion, p: nat, m: nat)
    requires p < m < |latest| && latest[p].reading == last.reading
    ensures var next := [last] + (latest[..p] + latest[p + 1..]);
            && next[m] == latest[m]
            && Readings(next[..m]) == Readings(latest[..m]) + {last.reading}
  {
    hide Readings;
    var next := [last] + (latest[..p] + latest[p + 1..]);
    assert next[..m] == [last] + (latest[..p] + latest[p + 1..m]);
    ReadingsSplit(latest, p, m);
    ReadingsFront(last, latest[..p] + latest[p + 1..m]);
  }

  lemma ReadingsSplit(s: seq<Conversion>, p: nat, m: nat)
    requires p < m <= |s|
    ensures Readings(s[..m]) == Readings(s[..p] + s[p + 1..m]) + {s[p].reading}
  {
    assert s[..m] == s[..p] + [s[p]] + s[p + 1..m];
    assert forall x :: x in s[..m] <==> x == s[p] || x in s[..p] + s[p + 1..m];
  }

  /** A reading's latest conversion stands behind exactly the readings converted since. */
  lemma {:induction false} StandsBehind(history: seq<Conversion>, reading: string, i: nat) returns (k: nat)
    requires LastAt(history, reading, i)
    ensures k < |Latest(history)| && Latest(history)[k] == history[i]
    ensures Readings(Latest(history)[..k]) == Readings(history[i + 1..])
    decreases |history|
  {
    hide Without, Readings, Distinct;
    var last, before := history[|history| - 1], history[..|history| - 1];
    if i == |history| - 1 {
      k := 0;
      assert Latest(history)[..0] == history[i + 1..] == [];
    } else {
      var m := StandsBehind(before, reading, i);
      LatestDistinct(before);
      assert history[i + 1..] == before[i + 1..] + [last];
      ReadingsBack(before[i + 1..], last);
      k := Moves(Latest(before), last, m);
    }
  }

  lemma {:induction false} FirstForFinds(s: seq<Conversion>, reading: string)
    ensures FirstFor(s, reading).None? <==> forall c :: c in s ==> c.reading != reading
    ensures FirstFor(s, reading).Some? ==>
              FirstFor(s, reading).value in s && FirstFor(s, reading).value.reading == reading
    decreases |s|
  {
    if s != [] { FirstForFinds(s[1..], reading); }
  }

  lemma {:induction false} LatestFrom(history: seq<Conversion>, c: Conversion)
    requires c in Latest(history)
    ensures exists i: nat :: LastAt(history, c.reading, i)
    decreases |history|
  {
    hide Without;
    var last, before := history[|history| - 1], history[..|history| - 1];
    if c == last {
      assert LastAt(history, c.reading, |history| - 1);
    } else {
      LatestFrom(before, c);
      var i: nat :| LastAt(before, c.reading, i);
      assert LastAt(history, c.reading, i);
    }
  }

  /** After any history, a commit finds its conversion exactly when fewer than eight other readings
      have been converted since, and then it is matched against what that conversion offered. */
  lemma CommitFindsRecent(history: seq<Conversion>, reading: string, text: string, i: nat)
    requires LastAt(history, reading, i)
    ensures Matched(Cache(history), reading, text) ==
            if |Readings(history[i + 1..])| < 8 then FirstWith(history[i].candidates, text) else None
  {
    hide Without, Latest, Cache, FirstFor;
    var latest := Latest(history);
    var k := StandsBehind(history, reading, i);
    LatestDistinct(history);
    DistinctCount(latest, k);
    CacheIsLatest(history);
    var cache := Cache(history);
    FirstForFinds(cache, reading);
    if k < RECENT_LIMIT {
      assert cache[k] == history[i];
      assert cache[k] in cache;
      var c := FirstFor(cache, reading).value;
      var m :| 0 <= m < |cache| && cache[m] == c;
      assert m == k;
    } else {
      forall c | c in cache ensures c.reading != reading {
        var m :| 0 <= m < |cache| && cache[m] == c;
        assert m < k;
      }
    }
  }

  /** A reading never converted is not found. */
  lemma CommitMissesUnknown(history: seq<Conversion>, reading: string, text: string)
    requires forall c :: c in history ==> c.reading != reading
    ensures Matched(Cache(history), reading, text) == None
  {
    hide Latest, Cache;
    CacheIsLatest(history);
    FirstForFinds(Cache(history), reading);
    forall c | c in Cache(history) ensures c.reading != reading {
      LatestFrom(history, c);
      var i: nat :| LastAt(history, c.reading, i);
      assert history[i] in history;
    }
  }
}
