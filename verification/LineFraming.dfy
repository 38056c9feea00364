/**
  Cutting an engine's output into lines (app/src/engine/process/process_posix.hpp and
  process_win.hpp). Bytes arrive in arbitrary pieces; the lines do not depend on the pieces.
 */
module LineFraming {

  datatype Platform = Posix | Windows

  predicate IsDelimiter(p: Platform, c: char) {
    c == '\n' || (p == Windows && c == '\r')
  }

  // ---------- Lines of a byte stream ----------

  /** The non-empty lines completed so far, and the unfinished one. */
  function Scan(p: Platform, s: string): (seq<string>, string) {
    if s == [] then ([], [])
    else
      var (lines, partial) := Scan(p, s[..|s| - 1]);
      var c := s[|s| - 1];
      if !IsDelimiter(p, c) then (lines, partial + [c])
      else (if partial == [] then lines else lines + [partial], [])
  }

  function Lines(p: Platform, s: string): seq<string> { Scan(p, s).0 }

  function Partial(p: Platform, s: string): string { Scan(p, s).1 }

  predicate NoDelimiter(p: Platform, s: string) {
    forall i :: 0 <= i < |s| ==> !IsDelimiter(p, s[i])
  }

  /** Segments with one delimiter between neighbours. */
  function Weave(segments: seq<string>, delimiters: string): string
    requires |segments| == |delimiters| + 1
  {
    if delimiters == [] then segments[0]
    else
      var n := |delimiters|;
      Weave(segments[..n], delimiters[..n - 1]) + [delimiters[n - 1]] + segments[n]
  }

  function NonEmpty(segments: seq<string>): seq<string> {
    if segments == [] then []
    else
      var n := |segments| - 1;
      NonEmpty(segments[..n]) + if segments[n] == [] then [] else [segments[n]]
  }

  lemma {:induction false} ScanPlain(p: Platform, s: string, t: string)
    requires NoDelimiter(p, t)
    ensures Lines(p, s + t) == Lines(p, s) && Partial(p, s + t) == Partial(p, s) + t
  {
    if t == [] {
      assert s + t == s && Partial(p, s) + t == Partial(p, s);
    } else {
      var n := |t| - 1;
      assert (s + t)[..|s + t| - 1] == s + t[..n];
      ScanPlain(p, s, t[..n]);
      assert Partial(p, s) + t[..n] + [t[n]] == Partial(p, s) + t;
    }
  }

  lemma ScanDelimiter(p: Platform, s: string, c: char)
    requires IsDelimiter(p, c)
    ensures Lines(p, s + [c]) == if Partial(p, s) == [] then Lines(p, s) else Lines(p, s) + [Partial(p, s)]
    ensures Partial(p, s + [c]) == []
  {
    assert (s + [c])[..|s|] == s;
  }

  lemma NonEmptyPrefix(segments: seq<string>, n: nat)
    requires 0 < n < |segments|
    ensures NonEmpty(segments[..n]) ==
            if segments[n - 1] == [] then NonEmpty(segments[..n][..n - 1])
            else NonEmpty(segments[..n][..n - 1]) + [segments[n - 1]]
  {}

  /**
    However a stream is cut at its delimiters, its lines are the non-empty segments that a
    delimiter ends, and its unfinished line is the last segment.
   */
  lemma {:induction false} LinesAreSegments(p: Platform, segments: seq<string>, delimiters: string)
    requires |segments| == |delimiters| + 1
    requires forall i :: 0 <= i < |segments| ==> NoDelimiter(p, segments[i])
    requires forall i :: 0 <= i < |delimiters| ==> IsDelimiter(p, delimiters[i])
    ensures var n := |delimiters|;
            Lines(p, Weave(segments, delimiters)) == NonEmpty(segments[..n]) &&
            Partial(p, Weave(segments, delimiters)) == segments[n]
    decreases |delimiters|
  {
    var n := |delimiters|;
    if n == 0 {
      ScanPlain(p, [], segments[0]);
      assert [] + segments[0] == segments[0];
    } else {
      hide Scan;
      var s := Weave(segments[..n], delimiters[..n - 1]);
      LinesAreSegments(p, segments[..n], delimiters[..n - 1]);
      NonEmptyPrefix(segments, n);
      ScanDelimiter(p, s, delimiters[n - 1]);
      ScanPlain(p, s + [delimiters[n - 1]], segments[n]);
      assert [] + segments[n] == segments[n];
    }
  }

  lemma {:induction false} LinesGrow(p: Platform, s: string, t: string)
    ensures Lines(p, s) <= Lines(p, s + t)
  {
    if t == [] {
      assert s + t == s;
    } else {
      assert (s + t)[..|s + t| - 1] == s + t[..|t| - 1];
      LinesGrow(p, s, t[..|t| - 1]);
    }
  }

  /** The lines completed by `data` after `s`. */
  function NewLines(p: Platform, s: string, data: string): seq<string> {
    LinesGrow(p, s, data);
    Lines(p, s + data)[|Lines(p, s)|..]
  }

  // ---------- The search word ----------

  predicate Matches(line: string, search: string) { search != [] && search <= line }

  predicate AnyMatch(lines: seq<string>, search: string) {
    exists i :: 0 <= i < |lines| && Matches(lines[i], search)
  }

  /** `lines` up to and including the first that starts with `search`. */
  function Through(lines: seq<string>, search: string): seq<string> {
    if lines == [] then []
    else if Matches(lines[0], search) then [lines[0]]
    else [lines[0]] + Through(lines[1..], search)
  }

  lemma AnyMatchConcat(a: seq<string>, b: seq<string>, search: string)
    ensures AnyMatch(a + b, search) <==> AnyMatch(a, search) || AnyMatch(b, search)
  {
    hide Matches;
    if AnyMatch(a, search) {
      var i :| 0 <= i < |a| && Matches(a[i], search);
      assert (a + b)[i] == a[i];
    }
    if AnyMatch(b, search) {
      var i :| 0 <= i < |b| && Matches(b[i], search);
      assert (a + b)[|a| + i] == b[i];
    }
    if AnyMatch(a + b, search) {
      var i :| 0 <= i < |a + b| && Matches((a + b)[i], search);
      assert if i < |a| then (a + b)[i] == a[i] else (a + b)[i] == b[i - |a|];
    }
  }

  lemma {:induction false} ThroughConcat(a: seq<string>, b: seq<string>, search: string)
    requires !AnyMatch(a, search)
    ensures Through(a + b, search) == a + Through(b, search)
    ensures AnyMatch(a + b, search) <==> AnyMatch(b, search)
    decreases |a|
  {
    hide Matches;
    AnyMatchConcat(a, b, search);
    if a == [] {
      assert a + b == b;
    } else {
      assert !Matches(a[0], search);
      assert a == [a[0]] + a[1..];
      AnyMatchConcat([a[0]], a[1..], search);
      hide AnyMatch;
      assert (a + b)[0] == a[0] && (a + b)[1..] == a[1..] + b;
      ThroughConcat(a[1..], b, search);
    }
  }

  lemma {:induction false} ThroughAll(a: seq<string>, search: string)
    requires !AnyMatch(a, search)
    ensures Through(a, search) == a
  {
    ThroughConcat(a, [], search);
    assert a + [] == a;
  }

  // ---------- What is found, on the characters of the stream ----------

  predicate BeginsWith(line: string, word: string) {
    |word| <= |line| && forall i :: 0 <= i < |word| ==> line[i] == word[i]
  }

  lemma MatchesExactlyWhen(line: string, search: string)
    ensures Matches(line, search) <==> search != [] && BeginsWith(line, search)
  {
    if BeginsWith(line, search) { assert line[..|search|] == search; }
  }

  /** `s[a..b]` is closed by a delimiter, begins after one or at the start, and holds none. */
  predicate IsSegment(p: Platform, s: string, a: nat, b: nat) {
    && a <= b < |s| && IsDelimiter(p, s[b]) && (a > 0 ==> IsDelimiter(p, s[a - 1]))
    && forall i :: a <= i < b ==> !IsDelimiter(p, s[i])
  }

  /** Some closed segment of the stream has the word as its first characters. */
  ghost predicate Announced(p: Platform, s: string, word: string) {
    exists a: nat, b: nat ::
      IsSegment(p, s, a, b) && |word| <= b - a && forall i :: 0 <= i < |word| ==> s[a + i] == word[i]
  }

  /** The unfinished line is what follows the last delimiter. */
  lemma {:induction false} PartialIsTail(p: Platform, s: string) returns (head: string)
    ensures s == head + Partial(p, s) && NoDelimiter(p, Partial(p, s))
    ensures head == [] || IsDelimiter(p, head[|head| - 1])
  {
    NothingYet(p);
    hide Scan, Partial, Lines;
    head := [];
    if s != [] {
      var n := |s| - 1;
      head := PartialIsTail(p, s[..n]);
      assert s == s[..n] + [s[n]];
      if IsDelimiter(p, s[n]) {
        ScanDelimiter(p, s[..n], s[n]);
        head := s;
      } else {
        ScanPlain(p, s[..n], [s[n]]);
      }
    }
  }

  /** A delimiter closes what was pending. */
  lemma PendingIsSegment(p: Platform, s: string, end: char) returns (a: nat)
    requires IsDelimiter(p, end) && Partial(p, s) != []
    ensures a < |s| && IsSegment(p, s + [end], a, |s|) && (s + [end])[a..|s|] == Partial(p, s)
  {
    hide Partial;
    var head := PartialIsTail(p, s);
    a := |head|;
  }

  lemma SegmentStays(p: Platform, s: string, t: string, a: nat, b: nat)
    requires IsSegment(p, s, a, b)
    ensures IsSegment(p, s + t, a, b) && (s + t)[a..b] == s[a..b]
  {}

  lemma {:induction false} LineIsSegment(p: Platform, s: string, n: nat) returns (a: nat, b: nat)
    requires n < |Lines(p, s)|
    ensures IsSegment(p, s, a, b) && a < b && s[a..b] == Lines(p, s)[n]
    decreases |s|
  {
    NothingYet(p);
    hide Scan, Partial, Lines, IsSegment;
    var m := |s| - 1;
    assert s == s[..m] + [s[m]];
    if n < |Lines(p, s[..m])| {
      a, b := LineIsSegment(p, s[..m], n);
      SegmentStays(p, s[..m], [s[m]], a, b);
      LinesGrow(p, s[..m], [s[m]]);
    } else {
      if !IsDelimiter(p, s[m]) { ScanPlain(p, s[..m], [s[m]]); }
      ScanDelimiter(p, s[..m], s[m]);
      a := PendingIsSegment(p, s[..m], s[m]);
      b := m;
    }
  }

  lemma SegmentIsLine(p: Platform, s: string, a: nat, b: nat) returns (n: nat)
    requires IsSegment(p, s, a, b) && a < b
    ensures n < |Lines(p, s)| && Lines(p, s)[n] == s[a..b]
  {
    hide Scan, Lines, Partial;
    NothingPending(p, s, a);
    ScanPlain(p, s[..a], s[a..b]);
    ScanDelimiter(p, s[..a] + s[a..b], s[b]);
    assert s[..a] + s[a..b] + [s[b]] == s[..b + 1];
    assert [] + s[a..b] == s[a..b];
    assert s == s[..b + 1] + s[b + 1..];
    LinesGrow(p, s[..b + 1], s[b + 1..]);
    n := |Lines(p, s[..a])|;
  }

  lemma NothingPending(p: Platform, s: string, a: nat)
    requires a <= |s| && (a > 0 ==> IsDelimiter(p, s[a - 1]))
    ensures Partial(p, s[..a]) == []
  {
    NothingYet(p);
    if a > 0 {
      assert s[..a] == s[..a - 1] + [s[a - 1]];
      ScanDelimiter(p, s[..a - 1], s[a - 1]);
    }
  }

  /** Reading finds something exactly if a closed segment of the stream begins with the word. */
  lemma FoundExactlyWhen(p: Platform, s: string, search: string)
    ensures AnyMatch(Lines(p, s), search) <==> search != [] && Announced(p, s, search)
  {
    hide Scan, Matches, Lines;
    var lines := Lines(p, s);
    if AnyMatch(lines, search) {
      var n :| 0 <= n < |lines| && Matches(lines[n], search);
      MatchesExactlyWhen(lines[n], search);
      var a, b := LineIsSegment(p, s, n);
      assert forall i :: 0 <= i < |search| ==> s[a + i] == s[a..b][i];
    }
    if search != [] && Announced(p, s, search) {
      var a: nat, b: nat :|
        IsSegment(p, s, a, b) && |search| <= b - a && forall i :: 0 <= i < |search| ==> s[a + i] == search[i];
      var n := SegmentIsLine(p, s, a, b);
      assert forall i :: 0 <= i < |search| ==> s[a + i] == s[a..b][i];
      MatchesExactlyWhen(lines[n], search);
    }
  }

  /** In particular the word, anything else on its line and a delimiter are found after any finished line. */
  lemma WordIsFound(p: Platform, before: string, word: string, rest: string, end: char, after: string)
    requires before == [] || IsDelimiter(p, before[|before| - 1])
    requires word != [] && NoDelimiter(p, word) && NoDelimiter(p, rest) && IsDelimiter(p, end)
    ensures AnyMatch(Lines(p, before + word + rest + [end] + after), word)
  {
    hide Scan, Lines, AnyMatch;
    var s := before + word + rest + [end] + after;
    var a, b := |before|, |before| + |word| + |rest|;
    assert s[b] == end;
    assert forall i :: 0 <= i < |word| ==> s[a + i] == word[i];
    assert forall i :: a <= i < b ==> s[i] == if i - a < |word| then word[i - a] else rest[i - a - |word|];
    assert IsSegment(p, s, a, b);
    FoundExactlyWhen(p, s, word);
  }

  /** Only the last of these lines begins with the word. */
  predicate LastBegins(lines: seq<string>, word: string) {
    && lines != [] && BeginsWith(lines[|lines| - 1], word)
    && forall i :: 0 <= i < |lines| - 1 ==> !BeginsWith(lines[i], word)
  }

  lemma {:induction false} ThroughFirst(lines: seq<string>, search: string)
    ensures Through(lines, search) <= lines
    ensures AnyMatch(lines, search) ==> LastBegins(Through(lines, search), search)
  {
    if lines != [] {
      MatchesExactlyWhen(lines[0], search);
      hide Matches;
      ThroughFirst(lines[1..], search);
      assert lines == [lines[0]] + lines[1..];
      hide BeginsWith, AnyMatch;
      AnyMatchConcat([lines[0]], lines[1..], search);
      SingleMatch(lines[0], search);
      NeverEmptyWord(lines);
      if AnyMatch(lines[1..], search) && !Matches(lines[0], search) && search != [] {
        LastBeginsAfter(lines[0], Through(lines[1..], search), search);
      }
    }
  }

  predicate NoneBegins(lines: seq<string>, word: string) {
    word != [] ==> forall i :: 0 <= i < |lines| ==> !BeginsWith(lines[i], word)
  }

  lemma NoneBeginsIffNoMatch(lines: seq<string>, search: string)
    ensures NoneBegins(lines, search) <==> !AnyMatch(lines, search)
  {
    hide Matches, BeginsWith;
    forall i | 0 <= i < |lines| ensures Matches(lines[i], search) <==> search != [] && BeginsWith(lines[i], search) {
      MatchesExactlyWhen(lines[i], search);
    }
  }

  lemma LastBeginsAfter(line: string, lines: seq<string>, word: string)
    requires LastBegins(lines, word) && !BeginsWith(line, word)
    ensures LastBegins([line] + lines, word)
  {
    hide BeginsWith;
  }

  lemma NeverEmptyWord(lines: seq<string>)
    ensures !AnyMatch(lines, [])
  {}

  lemma SingleMatch(line: string, search: string)
    ensures AnyMatch([line], search) <==> Matches(line, search)
  {
    if Matches(line, search) { assert Matches([line][0], search); }
  }

  // ---------- Reading ----------

  function Find(p: Platform, s: string, start: nat): (pos: nat)
    requires start <= |s|
    ensures start <= pos <= |s|
    ensures NoDelimiter(p, s[start..pos])
    ensures pos < |s| ==> IsDelimiter(p, s[pos])
    decreases |s| - start
  {
    if start == |s| || IsDelimiter(p, s[start]) then start
    else
      var pos := Find(p, s, start + 1);
      assert s[start..pos] == [s[start]] + s[start + 1..pos];
      pos
  }

  datatype Status = OK | NONE | ERR | TIMEOUT

  /** The reader of one pipe; `received` are the bytes since the line buffer was last cleared. */
  class Stream {
    const platform: Platform
    var lineBuffer: string
    ghost var received: string

    ghost predicate Valid()
      reads this
    {
      lineBuffer == Partial(platform, received)
    }

    constructor (platform: Platform)
      ensures Valid() && this.platform == platform && received == []
    {
      this.platform := platform;
      lineBuffer := [];
      received := [];
    }

    method Setup()
      modifies this
      ensures Valid() && received == []
    {
      lineBuffer := [];
      received := [];
    }

    /** One read of `data`; on POSIX an empty read is the end of the stream. After a match the rest is dropped. */
    method ReadLine(data: string, lines0: seq<string>, search: string)
      returns (status: Status, lines: seq<string>, ghost dropped: string)
      requires Valid()
      modifies this
      ensures Valid()
      ensures var fresh_ := NewLines(platform, old(received), data);
              if platform == Posix && data == [] then
                status == ERR && lines == lines0 && received == old(received)
              else if AnyMatch(fresh_, search) then
                && status == OK && lines == lines0 + Through(fresh_, search) && received == []
                && DroppedAfter(platform, old(received), data, Through(fresh_, search), dropped)
              else
                status == NONE && lines == lines0 + fresh_ && received == old(received) + data
      ensures lines0 <= lines
      ensures status == OK ==> LastBegins(lines[|lines0|..], search)
      ensures status != OK ==> NoneBegins(lines[|lines0|..], search)
    {
      hide LastBegins, NoneBegins;
      ThroughFirst(NewLines(platform, received, data), search);
      NoneBeginsIffNoMatch(NewLines(platform, received, data), search);
      NoneBeginsIffNoMatch([], search);
      hide Partial, NewLines, Through, AnyMatch, NoDelimiter, DroppedAfter, ReadUpTo;
      lines, dropped := lines0, [];
      assert lines[|lines0|..] == [];
      NothingRead(platform, received, data, search);
      if platform == Posix && data == [] { return ERR, lines, []; }
      ghost var s, done: seq<string> := received, [];
      var start := 0;
      while start < |data|
        invariant start <= |data| && received == s
        invariant ReadUpTo(platform, s, data, start, lineBuffer, done)
        invariant lines == lines0 + done && !AnyMatch(done, search)
        decreases |data| - start
      {
        var pos := Find(platform, data, start);
        ReadPlain(platform, s, data, start, pos, lineBuffer, done);
        if pos == |data| {
          assert data[start..pos] == data[start..];
          lineBuffer := lineBuffer + data[start..];
          start := |data|;
          break;
        }
        lineBuffer := lineBuffer + data[start..pos];
        ReadDelimiter(platform, s, data, pos, lineBuffer, done);
        if lineBuffer != [] {
          lines := lines + [lineBuffer];
          OneMore(done, lineBuffer, search);
          if search != [] && search <= lineBuffer {
            LineFound(platform, s, data, pos, lineBuffer, done, search);
            NothingYet(platform);
            lineBuffer := [];
            received := [];
            return OK, lines, data[pos + 1..];
          }
          done := done + [lineBuffer];
        }
        lineBuffer := [];
        if platform == Windows && data[pos] == '\r' && pos + 1 < |data| && data[pos + 1] == '\n' {
          ReadDelimiter(platform, s, data, pos + 1, [], done);
          start := pos + 2;
        } else {
          start := pos + 1;
        }
      }
      ReadAll(platform, s, data, lineBuffer, done);
      received := received + data;
      status := NONE;
    }
  }

  // ---------- One read ----------

  /** After `s` and the first `k` bytes of `data`: the unfinished line, and the lines that `data` completed. */
  ghost predicate ReadUpTo(p: Platform, s: string, data: string, k: nat, partial: string, done: seq<string>) {
    && k <= |data|
    && Partial(p, s + data[..k]) == partial
    && Lines(p, s + data[..k]) == Lines(p, s) + done
  }

  lemma NothingYet(p: Platform)
    ensures Lines(p, []) == [] && Partial(p, []) == []
  {}

  lemma NothingRead(p: Platform, s: string, data: string, search: string)
    ensures ReadUpTo(p, s, data, 0, Partial(p, s), []) && !AnyMatch([], search)
  {
    assert s + data[..0] == s;
  }

  lemma ReadPlain(p: Platform, s: string, data: string, k: nat, pos: nat, partial: string, done: seq<string>)
    requires ReadUpTo(p, s, data, k, partial, done) && k <= pos <= |data| && NoDelimiter(p, data[k..pos])
    ensures ReadUpTo(p, s, data, pos, partial + data[k..pos], done)
  {
    hide Lines, Partial;
    assert s + data[..pos] == s + data[..k] + data[k..pos];
    ScanPlain(p, s + data[..k], data[k..pos]);
  }

  lemma ReadDelimiter(p: Platform, s: string, data: string, k: nat, partial: string, done: seq<string>)
    requires ReadUpTo(p, s, data, k, partial, done) && k < |data| && IsDelimiter(p, data[k])
    ensures ReadUpTo(p, s, data, k + 1, [], if partial == [] then done else done + [partial])
  {
    hide Lines, Partial;
    assert s + data[..k + 1] == s + data[..k] + [data[k]];
    ScanDelimiter(p, s + data[..k], data[k]);
  }

  lemma ReadAll(p: Platform, s: string, data: string, partial: string, done: seq<string>)
    requires ReadUpTo(p, s, data, |data|, partial, done)
    ensures Partial(p, s + data) == partial && NewLines(p, s, data) == done
  {
    assert data[..|data|] == data;
  }

  lemma OneMore(done: seq<string>, line: string, search: string)
    requires !AnyMatch(done, search)
    ensures AnyMatch(done + [line], search) <==> Matches(line, search)
  {
    ThroughConcat(done, [line], search);
    if Matches(line, search) { assert Matches([line][0], search); }
  }

  lemma LineFound(p: Platform, s: string, data: string, k: nat, line: string, done: seq<string>, search: string)
    requires ReadUpTo(p, s, data, k, line, done) && k < |data| && IsDelimiter(p, data[k])
    requires line != [] && Matches(line, search) && !AnyMatch(done, search)
    ensures var fresh_ := NewLines(p, s, data);
            && AnyMatch(fresh_, search) && Through(fresh_, search) == done + [line]
            && DroppedAfter(p, s, data, done + [line], data[k + 1..])
  {
    hide Lines, Partial, Through, AnyMatch, Matches;
    ReadDelimiter(p, s, data, k, line, done);
    DroppedHere(p, s, data, k, done + [line]);
    assert s + data == s + data[..k + 1] + data[k + 1..];
    LinesGrow(p, s + data[..k + 1], data[k + 1..]);
    FirstMatch(NewLines(p, s, data), done, line, search);
  }

  lemma FirstMatch(lines: seq<string>, done: seq<string>, line: string, search: string)
    requires done + [line] <= lines && Matches(line, search) && !AnyMatch(done, search)
    ensures AnyMatch(lines, search) && Through(lines, search) == done + [line]
  {
    var rest := lines[|done|..];
    assert lines == done + rest && rest[0] == line;
    ThroughConcat(done, rest, search);
    assert AnyMatch(rest, search);
  }

  /** The character before `end` completes a line of `s`. */
  ghost predicate EndsLineAt(p: Platform, s: string, end: nat) {
    0 < end <= |s| && |Lines(p, s[..end])| == |Lines(p, s[..end - 1])| + 1
  }

  /** After `s`, reading `data` gave the lines `found` and stopped with `dropped` unread. */
  ghost predicate DroppedAfter(p: Platform, s: string, data: string, found: seq<string>, dropped: string) {
    && |dropped| < |data| && data[|data| - |dropped|..] == dropped
    && EndsLineAt(p, s + data, |s + data| - |dropped|)
    && Lines(p, (s + data)[..|s + data| - |dropped|]) == Lines(p, s) + found
  }

  lemma DroppedHere(p: Platform, s: string, data: string, pos: nat, found: seq<string>)
    requires pos < |data| && found != []
    requires Lines(p, s + data[..pos + 1]) == Lines(p, s) + found
    requires Lines(p, s + data[..pos]) == Lines(p, s) + found[..|found| - 1]
    ensures DroppedAfter(p, s, data, found, data[pos + 1..])
  {
    hide Lines;
    var end := |s| + pos + 1;
    assert (s + data)[..end] == s + data[..pos + 1] && (s + data)[..end - 1] == s + data[..pos];
  }

  // ---------- Reading until a line is found ----------

  function Concat(chunks: seq<string>): string {
    if chunks == [] then [] else Concat(chunks[..|chunks| - 1]) + chunks[|chunks| - 1]
  }

  /**
    The read loop of both platforms, on a freshly set up stream: it stops at the first line that
    starts with the search word, at a failing read, or when the chunks are used up. The outcome
    depends on the concatenation of the chunks only; what is left to read after a match does not.
    `taken` chunks have been read and the last `dropped` bytes of them thrown away.
   */
  method ReadOutput(stream: Stream, chunks: seq<string>, search: string)
    returns (status: Status, lines: seq<string>, ghost taken: nat, ghost dropped: string)
    requires stream.Valid() && stream.received == []
    requires stream.platform == Posix ==> [] !in chunks
    modifies stream
    ensures stream.Valid()
    ensures var all := Lines(stream.platform, Concat(chunks));
            && lines == Through(all, search)
            && (status == OK <==> AnyMatch(all, search))
            && lines <= all
            && (status != OK ==> status == NONE && stream.received == Concat(chunks))
    ensures status == OK ==> LeftUnread(stream.platform, chunks, taken, dropped, lines)
    ensures status == OK <==> search != [] && Announced(stream.platform, Concat(chunks), search)
    ensures status == OK ==> LastBegins(lines, search)
  {
    hide Announced, LastBegins;
    FoundExactlyWhen(stream.platform, Concat(chunks), search);
    ThroughFirst(Lines(stream.platform, Concat(chunks)), search);
    hide Scan, Lines, Partial, NewLines, Through, AnyMatch, DroppedAfter, LeftUnread;
    lines, taken, dropped := [], 0, [];
    ghost var p := stream.platform;
    NothingYet(p);
    assert !AnyMatch(lines, search) by { NothingRead(p, [], [], search); }
    for n := 0 to |chunks|
      invariant stream.Valid() && stream.received == Concat(chunks[..n])
      invariant lines == Lines(p, Concat(chunks[..n])) && !AnyMatch(lines, search)
    {
      ghost var before := Concat(chunks[..n]);
      ConcatSplit(chunks, n);
      NewLinesContinue(p, before, chunks[n]);
      ThroughConcat(lines, NewLines(p, before, chunks[n]), search);
      status, lines, dropped := stream.ReadLine(chunks[n], lines, search);
      if status == OK {
        taken := n + 1;
        DroppedIsLeft(p, chunks, n, Through(NewLines(p, before, chunks[n]), search), dropped);
        MatchStays(p, before + chunks[n], Concat(chunks[n + 1..]), search);
        return;
      }
    }
    status := NONE;
    assert chunks[..|chunks|] == chunks;
    ThroughAll(lines, search);
  }

  /** Where reading stopped: right after the delimiter of the last line, with `dropped` and later chunks to come. */
  ghost predicate LeftUnread(p: Platform, chunks: seq<string>, taken: nat, dropped: string, lines: seq<string>) {
    taken <= |chunks| &&
    var all, later := Concat(chunks), Concat(chunks[taken..]);
    var end := |all| - |later| - |dropped|;
    end >= 0 && EndsLineAt(p, all, end) && Lines(p, all[..end]) == lines && all[end..] == dropped + later
  }

  lemma DroppedIsLeft(p: Platform, chunks: seq<string>, n: nat, found: seq<string>, dropped: string)
    requires n < |chunks| && DroppedAfter(p, Concat(chunks[..n]), chunks[n], found, dropped)
    ensures LeftUnread(p, chunks, n + 1, dropped, Lines(p, Concat(chunks[..n])) + found)
  {
    hide Lines, Concat;
    ConcatSplit(chunks, n);
    var s, data, later := Concat(chunks[..n]), chunks[n], Concat(chunks[n + 1..]);
    var all := Concat(chunks);
    assert all == (s + data) + later;
    var end := |s + data| - |dropped|;
    assert all[..end] == (s + data)[..end] && all[..end - 1] == (s + data)[..end - 1];
    assert all[end..] == dropped + later;
  }

  /** The place where reading stops depends on the stream alone, not on the chunks. */
  lemma StopIsUnique(p: Platform, all: string, d: nat, e: nat)
    requires EndsLineAt(p, all, d) && EndsLineAt(p, all, e) && Lines(p, all[..d]) == Lines(p, all[..e])
    ensures d == e
  {
    hide Lines;
    if d < e { StopsOnce(p, all, d, e); }
    if e < d { StopsOnce(p, all, e, d); }
  }

  lemma StopsOnce(p: Platform, all: string, d: nat, e: nat)
    requires d < e <= |all| && EndsLineAt(p, all, e)
    ensures Lines(p, all[..d]) != Lines(p, all[..e])
  {
    hide Lines;
    assert all[..d] + all[d..e - 1] == all[..e - 1];
    LinesGrow(p, all[..d], all[d..e - 1]);
  }

  predicate OnlyDelimiters(p: Platform, s: string) {
    forall i :: 0 <= i < |s| ==> IsDelimiter(p, s[i])
  }

  /**
    A second reading loses what was dropped, so its lines depend on the chunks of the first; they
    are those of the stream, whatever comes later, if and only if only delimiters were dropped.
   */
  lemma DroppedHarmlessExactlyWhen(p: Platform, dropped: string)
    ensures (forall later: string :: Lines(p, dropped + later) == Lines(p, later)) <==> OnlyDelimiters(p, dropped)
  {
    hide Scan;
    if OnlyDelimiters(p, dropped) {
      forall later: string ensures Lines(p, dropped + later) == Lines(p, later) {
        LeadingDelimiters(p, dropped, later);
      }
    } else {
      SomethingDropped(p, dropped);
      assert Lines(p, dropped + "\n") != Lines(p, "\n");
    }
  }

  lemma NothingScanned(p: Platform)
    ensures Scan(p, []) == ([], [])
  {}

  lemma {:induction false} LeadingDelimiters(p: Platform, dropped: string, later: string)
    requires OnlyDelimiters(p, dropped)
    ensures Scan(p, dropped + later) == Scan(p, later)
    decreases |dropped| + |later|
  {
    if later != [] {
      var n := |later| - 1;
      LeadingDelimiters(p, dropped, later[..n]);
      assert (dropped + later)[..|dropped + later| - 1] == dropped + later[..n];
    } else if dropped != [] {
      var n := |dropped| - 1;
      LeadingDelimiters(p, dropped[..n], []);
      assert dropped + later == dropped && dropped[..n] + [] == dropped[..n];
    }
  }

  lemma {:induction false} SomethingDropped(p: Platform, dropped: string)
    requires !OnlyDelimiters(p, dropped)
    ensures Lines(p, dropped + "\n") != [] && Lines(p, "\n") == []
  {
    hide Scan;
    NothingScanned(p);
    assert [] + "\n" == "\n";
    ScanDelimiter(p, [], '\n');
    ScanDelimiter(p, dropped, '\n');
    SomethingScanned(p, dropped);
  }

  lemma {:induction false} SomethingScanned(p: Platform, s: string)
    requires !OnlyDelimiters(p, s)
    ensures Lines(p, s) != [] || Partial(p, s) != []
  {
    var n := |s| - 1;
    if OnlyDelimiters(p, s[..n]) {
      assert !IsDelimiter(p, s[n]);
    } else {
      SomethingScanned(p, s[..n]);
    }
  }

  lemma NewLinesContinue(p: Platform, s: string, data: string)
    ensures Lines(p, s + data) == Lines(p, s) + NewLines(p, s, data)
  {
    LinesGrow(p, s, data);
  }

  lemma MatchStays(p: Platform, s: string, t: string, search: string)
    requires AnyMatch(Lines(p, s), search)
    ensures AnyMatch(Lines(p, s + t), search) && Through(Lines(p, s + t), search) == Through(Lines(p, s), search)
  {
    LinesGrow(p, s, t);
    ThroughStops(Lines(p, s), Lines(p, s + t), search);
  }

  lemma {:induction false} ThroughStops(a: seq<string>, b: seq<string>, search: string)
    requires AnyMatch(a, search) && a <= b
    ensures AnyMatch(b, search) && Through(b, search) == Through(a, search)
    decreases |a|
  {
    var i :| 0 <= i < |a| && Matches(a[i], search);
    assert b[i] == a[i];
    if !Matches(a[0], search) {
      assert a[1..][i - 1] == a[i];
      ThroughStops(a[1..], b[1..], search);
    }
  }

  lemma {:induction false} ConcatSplit(chunks: seq<string>, n: nat)
    requires n < |chunks|
    ensures Concat(chunks[..n + 1]) == Concat(chunks[..n]) + chunks[n]
    ensures Concat(chunks) == Concat(chunks[..n]) + chunks[n] + Concat(chunks[n + 1..])
    decreases |chunks|
  {
    assert chunks[..n + 1][..n] == chunks[..n];
    var k := |chunks| - 1;
    if n < k {
      ConcatSplit(chunks[..k], n);
      assert chunks[..k][..n] == chunks[..n] && chunks[..k][n + 1..] == chunks[n + 1..][..k - n - 1];
    }
  }
}
