/**
  How results survive a save file: every entry becomes a "first vs second" member of a JSON
  object and is read back by searching for the separator (app/src/matchmaking/scoreboard.hpp).
 */
module StatsJson {
  import opened Options
  import opened Stats
  import opened ScoreBoard

  const SEPARATOR := " vs "

  function Format(k: Key): string { k.first + SEPARATOR + k.second }

  predicate OccursAt(s: string, pattern: string, i: nat) {
    i + |pattern| <= |s| && s[i..i + |pattern|] == pattern
  }

  predicate Contains(s: string, pattern: string) {
    exists i :: 0 <= i <= |s| && OccursAt(s, pattern, i)
  }

  /** The first occurrence at or after `from`. */
  function Find(s: string, pattern: string, from: nat): (r: Option<nat>)
    ensures r.Some? ==> from <= r.value && OccursAt(s, pattern, r.value)
    ensures r.Some? ==> forall i :: from <= i < r.value ==> !OccursAt(s, pattern, i)
    ensures r.None? ==> forall i: nat :: from <= i ==> !OccursAt(s, pattern, i)
    decreases |s| - from
  {
    if OccursAt(s, pattern, from) then Some(from)
    else if from >= |s| then None
    else Find(s, pattern, from + 1)
  }

  /**
    Without a separator the search yields the largest index, to which adding 4 wraps to 3; a
    name too short for that raises an error, here None.
   */
  function Parse(s: string): Option<Key> {
    match Find(s, SEPARATOR, 0)
    case Some(p) => Some(Key(s[..p], s[p + 4..]))
    case None => if |s| < 3 then None else Some(Key(s, s[3..]))
  }

  /** An entry is read back unchanged exactly when its first name cannot be split early. */
  lemma ParseFormat(k: Key)
    ensures Parse(Format(k)) == Some(k) <==> !Contains(k.first + " ", SEPARATOR)
  {
    var s, n := Format(k), |k.first|;
    assert OccursAt(s, SEPARATOR, n);
    forall i: nat | i < n ensures OccursAt(s, SEPARATOR, i) <==> OccursAt(k.first + " ", SEPARATOR, i) {
      EarlyOccurrence(k, i);
    }
    var p := Find(s, SEPARATOR, 0);
    assert p.Some? && p.value <= n;
    assert s[..n] == k.first && s[n + 4..] == k.second;
    if p.value < n {
      assert OccursAt(k.first + " ", SEPARATOR, p.value);
      assert |s[..p.value]| < n;
    } else {
      assert forall i: nat :: i < n ==> !OccursAt(k.first + " ", SEPARATOR, i);
    }
  }

  lemma EarlyOccurrence(k: Key, i: nat)
    requires i < |k.first|
    ensures OccursAt(Format(k), SEPARATOR, i) <==> OccursAt(k.first + " ", SEPARATOR, i)
  {
    var s, n := Format(k), |k.first|;
    assert s[n] == ' ' && s[n + 1] == 'v' && s[n + 2] == 's';
    if i + 4 <= n + 1 {
      assert s[i..i + 4] == (k.first + " ")[i..i + 4];
    } else if i + 4 <= |s| {
      assert s[i..i + 4][n - i] == s[n] != SEPARATOR[n - i];
    }
  }

  // ---------- Whole maps ----------

  /** Names that the separator does not cut. */
  predicate Clean(r: Results) {
    forall k :: k in r ==> !Contains(k.first + " ", SEPARATOR)
  }

  /** What may be written for `r`: of two entries with the same text one survives. */
  ghost predicate IsJsonOf(j: map<string, Stats>, r: Results) {
    && (forall k :: k in r ==> Format(k) in j)
    && (forall s :: s in j ==> exists k :: k in r && Format(k) == s && j[s] == r[k])
  }

  /** What may be read from `j`: of two members with the same names one survives. */
  ghost predicate IsParsed(r: Results, j: map<string, Stats>) {
    && (forall s :: s in j ==> Parse(s).Some? && Parse(s).value in r)
    && (forall k :: k in r ==> exists s :: s in j && Parse(s) == Some(k) && r[k] == j[s])
  }

  method ToJson(r: Results) returns (j: map<string, Stats>)
    ensures IsJsonOf(j, r)
    ensures forall s :: s in j ==> Contains(s, SEPARATOR)
  {
    hide Format, Contains;
    j := map[];
    var todo := r.Keys;
    while todo != {}
      invariant todo <= r.Keys
      invariant forall k :: k in r && k !in todo ==> Format(k) in j
      invariant forall s :: s in j ==> exists k :: k in r && k !in todo && Format(k) == s && j[s] == r[k]
      decreases |todo|
    {
      var k :| k in todo;
      j := j[Format(k) := r[k]];
      todo := todo - {k};
    }
    JsonHasSeparators(r, j);
  }

  method FromJson(j: map<string, Stats>) returns (r: Option<Results>)
    ensures r.None? <==> exists s :: s in j && Parse(s).None?
    ensures r.Some? ==> IsParsed(r.value, j)
  {
    hide Parse;
    var results: Results := map[];
    var todo := j.Keys;
    while todo != {}
      invariant todo <= j.Keys
      invariant forall s :: s in j && s !in todo ==> Parse(s).Some? && Parse(s).value in results
      invariant forall k :: k in results ==>
                  exists s :: s in j && s !in todo && Parse(s) == Some(k) && results[k] == j[s]
      decreases |todo|
    {
      var s :| s in todo;
      var key := Parse(s);
      if key.None? { return None; }
      results := results[key.value := j[s]];
      todo := todo - {s};
    }
    return Some(results);
  }

  lemma FormatParse(s: string)
    requires Contains(s, SEPARATOR)
    ensures Parse(s).Some? && Format(Parse(s).value) == s
  {
    var p := Find(s, SEPARATOR, 0);
    assert p.Some?;
    assert s == s[..p.value] + s[p.value..p.value + 4] + s[p.value + 4..];
  }

  /** What is written always contains the separator, so reading it back never fails. */
  lemma JsonHasSeparators(r: Results, j: map<string, Stats>)
    requires IsJsonOf(j, r)
    ensures forall s :: s in j ==> Contains(s, SEPARATOR) && Parse(s).Some?
  {
    forall s | s in j ensures Contains(s, SEPARATOR) && Parse(s).Some? {
      var k :| k in r && Format(k) == s;
      assert OccursAt(s, SEPARATOR, |k.first|);
    }
  }

  lemma EntryKept(r: Results, j: map<string, Stats>, r': Results, k: Key)
    requires Clean(r) && IsJsonOf(j, r) && IsParsed(r', j) && k in r
    ensures k in r' && r'[k] == r[k]
  {
    hide Parse, Format, Contains, Find;
    ParseFormat(k);
    assert Parse(Format(k)).value in r';
    var s :| s in j && Parse(s) == Some(k) && r'[k] == j[s];
    var i :| i in r && Format(i) == s && j[s] == r[i];
    ParseFormat(i);
  }

  lemma EntryWasSaved(r: Results, j: map<string, Stats>, r': Results, k: Key)
    requires Clean(r) && IsJsonOf(j, r) && IsParsed(r', j) && k in r'
    ensures k in r
  {
    hide Parse, Format, Contains, Find;
    var s :| s in j && Parse(s) == Some(k);
    var i :| i in r && Format(i) == s;
    ParseFormat(i);
  }

  lemma OneEntryWritten(k: Key, v: Stats, j: map<string, Stats>)
    requires IsJsonOf(j, map[k := v])
    ensures j == map[Format(k) := v]
  {
    hide Format;
    var r := map[k := v];
    assert k in r;
    forall s | s in j ensures s == Format(k) && j[s] == v {
      var i :| i in r && Format(i) == s && j[s] == r[i];
    }
  }

  lemma OneEntryRead(s: string, v: Stats, r: Results)
    requires IsParsed(r, map[s := v])
    ensures Parse(s).Some? && r == map[Parse(s).value := v]
  {
    hide Parse;
    var j := map[s := v];
    assert s in j;
    forall k | k in r ensures k == Parse(s).value && r[k] == v {
      var t :| t in j && Parse(t) == Some(k) && r[k] == j[t];
    }
  }

  /** Whatever has been read has a name that would be read back. */
  lemma ReadIsClean(r: Results, j: map<string, Stats>, r': Results, k: Key)
    requires IsJsonOf(j, r) && IsParsed(r', j) && k in r'
    ensures !Contains(k.first + " ", SEPARATOR)
  {
    hide Parse, Format, Contains, Find;
    var s :| s in j && Parse(s) == Some(k);
    JsonHasSeparators(r, j);
    FormatParse(s);
    ParseFormat(k);
  }

  /** Results come back unchanged if and only if the separator cuts none of their names. */
  lemma JsonRoundTrip(r: Results, j: map<string, Stats>, r': Results)
    requires IsJsonOf(j, r) && IsParsed(r', j)
    ensures r' == r <==> Clean(r)
  {
    hide IsJsonOf, IsParsed, Contains;
    if Clean(r) {
      forall k | k in r ensures k in r' && r'[k] == r[k] { EntryKept(r, j, r', k); }
      forall k | k in r' ensures k in r { EntryWasSaved(r, j, r', k); }
      assert r'.Keys == r.Keys;
    }
    if r' == r {
      forall k | k in r ensures !Contains(k.first + " ", SEPARATOR) { ReadIsClean(r, j, r', k); }
    }
  }
}
