/**
  Reading movetext back: what a token written by app/src/game/pgn/pgn_gen.hpp says about its half-move,
  and that the numbers, moves and comments of a whole game are recovered from its tokens.
 */
module PgnReader {
  import opened Options
  import opened PgnGenerator

  // ---------- Numbers ----------

  predicate IsDigit(c: char) { '0' <= c <= '9' }

  function DigitValue(c: char): (d: nat)
    requires IsDigit(c)
  {
    c as int - '0' as int
  }

  predicate AllDigits(s: string) { forall i :: 0 <= i < |s| ==> IsDigit(s[i]) }

  function Value(s: string): nat
    requires AllDigits(s)
  {
    if s == [] then 0 else 10 * Value(s[..|s| - 1]) + DigitValue(s[|s| - 1])
  }

  function LeadingDigits(s: string): (d: nat)
    ensures d <= |s| && AllDigits(s[..d])
  {
    if s == [] || !IsDigit(s[0]) then 0
    else
      var d := LeadingDigits(s[1..]);
      assert s[..1 + d] == [s[0]] + s[1..][..d];
      1 + d
  }

  lemma {:induction false} DecimalValue(n: nat)
    ensures AllDigits(Decimal(n)) && Value(Decimal(n)) == n
  {
    OneDigit(n % 10);
    if n >= 10 {
      DecimalValue(n / 10);
      assert Decimal(n) == Decimal(n / 10) + [Decimal(n % 10)[0]];
      hide Decimal, Value, AllDigits;
      MoreDigits(Decimal(n / 10), Decimal(n % 10)[0]);
    }
  }

  lemma MoreDigits(s: string, c: char)
    requires AllDigits(s) && IsDigit(c)
    ensures AllDigits(s + [c]) && Value(s + [c]) == 10 * Value(s) + DigitValue(c)
  {
    assert (s + [c])[..|s|] == s;
  }

  lemma OneDigit(d: nat)
    requires d < 10
    ensures |Decimal(d)| == 1 && IsDigit(Decimal(d)[0]) && DigitValue(Decimal(d)[0]) == d
    ensures AllDigits(Decimal(d)) && Value(Decimal(d)) == d
  {
    assert Decimal(d)[..0] == [];
  }

  lemma {:induction false} LeadingDigitsOf(s: string, rest: string)
    requires AllDigits(s) && (rest == [] || !IsDigit(rest[0]))
    ensures LeadingDigits(s + rest) == |s|
  {
    if s == [] {
      assert s + rest == rest;
    } else {
      assert (s + rest)[1..] == s[1..] + rest;
      LeadingDigitsOf(s[1..], rest);
    }
  }

  // ---------- One token ----------

  /** A half-move as read from its token: the number in front, whether it has three dots, and the move. */
  datatype Half = Half(number: Option<nat>, dots: bool, move: PGNMove)

  predicate StartsWith(s: string, prefix: string) { prefix <= s }

  /** The text between the first and the last character. */
  function Inside(s: string): string { if |s| < 2 then [] else s[1..|s| - 1] }

  /** Everything up to the first space is the move; the rest is a comment in braces. */
  function ReadMove(s: string): PGNMove {
    if s != [] && s[0] == '{' then PGNMove([], Inside(s))
    else
      var k := FirstSpace(s);
      PGNMove(s[..k], if k < |s| then Inside(s[k + 1..]) else [])
  }

  function FirstSpace(s: string): (k: nat)
    ensures k <= |s|
  {
    if s == [] || s[0] == ' ' then 0 else 1 + FirstSpace(s[1..])
  }

  function ReadToken(t: string): Half {
    var d := LeadingDigits(t);
    if d > 0 && StartsWith(t[d..], "... ") then Half(Some(Value(t[..d])), true, ReadMove(t[d + 4..]))
    else if d > 0 && StartsWith(t[d..], ". ") then Half(Some(Value(t[..d])), false, ReadMove(t[d + 2..]))
    else Half(None, false, ReadMove(t))
  }

  /** Move text as the chess library writes it: no space, and it begins with neither a digit nor a brace. */
  predicate MoveText(s: string) {
    ' ' !in s && (s != [] ==> !IsDigit(s[0]) && s[0] != '{')
  }

  function Braced(comment: string): string { if comment == [] then [] else "{" + comment + "}" }

  function Body(m: PGNMove): string {
    m.move + (if m.move == [] || m.comment == [] then [] else " ") + Braced(m.comment)
  }

  lemma {:induction false} FirstSpaceOf(s: string, rest: string)
    requires ' ' !in s && (rest == [] || rest[0] == ' ')
    ensures FirstSpace(s + rest) == |s|
  {
    if s == [] {
      assert s + rest == rest;
    } else {
      assert (s + rest)[1..] == s[1..] + rest;
      FirstSpaceOf(s[1..], rest);
    }
  }

  lemma InsideBraces(comment: string)
    requires comment != []
    ensures Inside(Braced(comment)) == comment
    ensures Braced(comment) != [] && Braced(comment)[0] == '{'
  {}

  lemma MoveReadBack(m: PGNMove)
    requires MoveText(m.move)
    ensures ReadMove(Body(m)) == m
    ensures LeadingDigits(Body(m)) == 0
  {
    hide Inside, Braced;
    if m.comment != [] { InsideBraces(m.comment); }
    NoComment();
    if m.move == [] {
      assert Body(m) == Braced(m.comment);
      assert m.comment == [] ==> Body(m)[..0] == m.move;
    } else if m.comment == [] {
      assert Body(m) == m.move + [] && m.move + [] == m.move;
      FirstSpaceOf(m.move, []);
      assert m.move[..|m.move|] == m.move;
    } else {
      var rest := " " + Braced(m.comment);
      assert Body(m) == m.move + rest && Body(m)[0] == m.move[0];
      FirstSpaceOf(m.move, rest);
      assert (m.move + rest)[..|m.move|] == m.move;
      assert (m.move + rest)[|m.move| + 1..] == Braced(m.comment);
    }
  }

  lemma NoComment()
    ensures Braced([]) == []
  {}

  lemma NumberReadBack(n: nat, dots: string, m: PGNMove)
    requires MoveText(m.move) && (dots == ". " || dots == "... ")
    ensures ReadToken(Decimal(n) + dots + Body(m)) == Half(Some(n), dots == "... ", m)
  {
    hide Decimal, Body, ReadMove, MoveText, Value;
    DecimalValue(n);
    MoveReadBack(m);
    var s, t := Decimal(n), Decimal(n) + dots + Body(m);
    assert t == s + (dots + Body(m));
    LeadingDigitsOf(s, dots + Body(m));
    assert t[..|s|] == s && t[|s|..] == dots + Body(m) && t[|s| + |dots|..] == Body(m);
    if dots == ". " { assert t[|s|..][1] == ' '; }
  }

  lemma PlainReadBack(m: PGNMove)
    requires MoveText(m.move)
    ensures ReadToken(Body(m)) == Half(None, false, m)
  {
    MoveReadBack(m);
  }

  /** The token of half-move `i` is read back as this move and comment, with the number it was given. */
  lemma TokenReadBack(m: PGNMove, i: nat, counter: nat, blackStarts: bool)
    requires MoveText(m.move)
    ensures var white := i % 2 == if blackStarts then 1 else 0;
            ReadToken(MoveToken(m, i, counter, blackStarts)) ==
            Half(if m.move != [] && (white || i == 0) then Some((counter + 1) / 2) else None,
                 m.move != [] && !white && i == 0, m)
  {
    TokenIs(m, i, counter, blackStarts);
    hide MoveToken, Body, ReadToken, Decimal, MoveText;
    NumberReadBack((counter + 1) / 2, ". ", m);
    NumberReadBack((counter + 1) / 2, "... ", m);
    PlainReadBack(m);
  }

  lemma TokenIs(m: PGNMove, i: nat, counter: nat, blackStarts: bool)
    ensures var white := i % 2 == if blackStarts then 1 else 0;
            var number := Decimal((counter + 1) / 2);
            MoveToken(m, i, counter, blackStarts) ==
            (if m.move == [] then Body(m)
             else if white then number + ". " + Body(m)
             else if i == 0 then number + "... " + Body(m)
             else Body(m))
  {
    hide Decimal;
    var number := Decimal((counter + 1) / 2);
    var rest := (if m.move == [] || m.comment == [] then [] else " ") + Braced(m.comment);
    assert Body(m) == m.move + rest;
    assert number + ". " + m.move + rest == number + ". " + Body(m);
    assert number + "... " + m.move + rest == number + "... " + Body(m);
    TokenText(m, i, counter, blackStarts);
  }

  lemma TokenText(m: PGNMove, i: nat, counter: nat, blackStarts: bool)
    ensures var white := i % 2 == if blackStarts then 1 else 0;
            var number := Decimal((counter + 1) / 2);
            MoveToken(m, i, counter, blackStarts) ==
            (if m.move == [] then [] else if white then number + ". " + m.move
             else if i == 0 then number + "... " + m.move else m.move) +
            ((if m.move == [] || m.comment == [] then [] else " ") + Braced(m.comment))
  {
    hide Decimal;
  }

  // ---------- A whole game ----------

  predicate BlackToMove(blackStarts: bool, i: nat) {
    if i == 0 then blackStarts else !BlackToMove(blackStarts, i - 1)
  }

  /** The number of the move: it goes up after every move of Black. */
  function FullMove(first: nat, blackStarts: bool, i: nat): nat {
    if i == 0 then first else FullMove(first, blackStarts, i - 1) + if BlackToMove(blackStarts, i - 1) then 1 else 0
  }

  /** The half-move number the writer is given for a game that starts at move `first`. */
  function StartNumber(first: nat, blackStarts: bool): nat
    requires first >= 1
  {
    2 * first - 1 + if blackStarts then 1 else 0
  }

  lemma {:induction false} CounterIsFullMove(first: nat, blackStarts: bool, i: nat)
    requires first >= 1
    ensures BlackToMove(blackStarts, i) <==> i % 2 == if blackStarts then 0 else 1
    ensures (StartNumber(first, blackStarts) + i + 1) / 2 == FullMove(first, blackStarts, i)
  {
    if i > 0 { CounterIsFullMove(first, blackStarts, i - 1); }
  }

  /**
    From the tokens of a game all its moves and comments are recovered. White's moves carry their
    number, Black's only at the start of the movetext and then with three dots.
   */
  lemma GameReadBack(moves: seq<PGNMove>, first: nat, blackStarts: bool, i: nat)
    requires first >= 1 && i < |moves| && MoveText(moves[i].move)
    ensures var half := ReadToken(Tokens(moves, StartNumber(first, blackStarts), blackStarts)[i]);
            var black := BlackToMove(blackStarts, i);
            && half.move == moves[i]
            && half.number == (if moves[i].move == [] || (black && i > 0) then None
                               else Some(FullMove(first, blackStarts, i)))
            && (half.dots <==> black && i == 0 && moves[i].move != [])
  {
    hide ReadToken, MoveToken, FullMove, BlackToMove, StartNumber, MoveText;
    CounterIsFullMove(first, blackStarts, i);
    TokenReadBack(moves[i], i, StartNumber(first, blackStarts) + i, blackStarts);
  }

  // ---------- Headers ----------

  function LineEnd(s: string): (k: nat)
    ensures k <= |s|
    ensures s != [] && s[0] != '\n' ==> k > 0
  {
    if s == [] || s[0] == '\n' then 0 else 1 + LineEnd(s[1..])
  }

  /** The name up to the first space, and what the quotes and the bracket after it enclose. */
  function ReadHeader(line: string): (string, string) {
    var k := FirstSpace(line);
    (line[..k], if k + 4 <= |line| then line[k + 2..|line| - 2] else [])
  }

  /** The header lines at the start of a text, and the rest of it. */
  function ReadHeaders(s: string): (seq<(string, string)>, string)
    decreases |s|
  {
    if s == [] || s[0] != '[' then ([], s)
    else
      var k := LineEnd(s);
      var (headers, rest) := ReadHeaders(s[if k < |s| then k + 1 else k..]);
      ([ReadHeader(s[1..k])] + headers, rest)
  }

  predicate PlainHeader(h: (string, string)) {
    ' ' !in h.0 && '\n' !in h.0 && '\n' !in h.1
  }

  lemma {:induction false} LineEndOf(s: string, rest: string)
    requires '\n' !in s
    ensures LineEnd(s + "\n" + rest) == |s|
  {
    var t := s + "\n" + rest;
    if s != [] {
      assert t[1..] == s[1..] + "\n" + rest;
      LineEndOf(s[1..], rest);
    }
  }

  lemma HeaderReadBack(h: (string, string))
    requires PlainHeader(h)
    ensures var line := HeaderLine(h);
            && |line| > 2 && line[0] == '[' && line[|line| - 1] == '\n' && '\n' !in line[..|line| - 1]
            && ReadHeader(line[1..|line| - 1]) == h
  {
    var line := HeaderLine(h)[1..|HeaderLine(h)| - 1];
    assert line == h.0 + (" \"" + h.1 + "\"]");
    FirstSpaceOf(h.0, " \"" + h.1 + "\"]");
    assert line[..|h.0|] == h.0 && line[|h.0| + 2..|line| - 2] == h.1;
  }

  lemma FirstHeader(line: string, later: string, h: (string, string))
    requires |line| > 2 && line[0] == '[' && line[|line| - 1] == '\n' && '\n' !in line[..|line| - 1]
    requires ReadHeader(line[1..|line| - 1]) == h
    ensures ReadHeaders(line + later) == ([h] + ReadHeaders(later).0, ReadHeaders(later).1)
  {
    hide ReadHeader;
    var s, k := line + later, |line| - 1;
    assert s == line[..k] + "\n" + later;
    LineEndOf(line[..k], later);
    hide LineEnd;
    assert s[1..k] == line[1..k] && s[k + 1..] == later;
  }

  lemma Associate(a: string, b: string, c: string)
    ensures (a + b) + c == a + (b + c)
  {}

  lemma {:induction false} HeaderTextFirst(headers: seq<(string, string)>)
    requires headers != []
    ensures HeaderText(headers) == HeaderLine(headers[0]) + HeaderText(headers[1..])
  {
    hide HeaderLine;
    var n := |headers| - 1;
    if n == 0 {
      assert headers[..0] == [] && headers[1..] == [];
      assert HeaderLine(headers[0]) + [] == HeaderLine(headers[0]) == [] + HeaderLine(headers[0]);
    } else {
      HeaderTextFirst(headers[..n]);
      assert headers[..n][1..] == headers[1..][..n - 1];
      Associate(HeaderLine(headers[0]), HeaderText(headers[1..][..n - 1]), HeaderLine(headers[n]));
    }
  }

  ghost predicate PlainHeaders(headers: seq<(string, string)>) {
    forall i :: 0 <= i < |headers| ==> PlainHeader(headers[i])
  }

  lemma {:induction false} PlainHeadersReadBack(headers: seq<(string, string)>, rest: string)
    requires PlainHeaders(headers) && (rest != [] ==> rest[0] != '[')
    ensures ReadHeaders(HeaderText(headers) + rest) == (headers, rest)
  {
    if headers == [] {
      assert HeaderText([]) + rest == rest;
    } else {
      HeaderTextFirst(headers);
      assert PlainHeader(headers[0]) && PlainHeaders(headers[1..]);
      hide HeaderText, HeaderLine, PlainHeader, PlainHeaders, ReadHeader, ReadHeaders;
      HeaderReadBack(headers[0]);
      PlainHeadersReadBack(headers[1..], rest);
      Associate(HeaderLine(headers[0]), HeaderText(headers[1..]), rest);
      FirstHeader(HeaderLine(headers[0]), HeaderText(headers[1..]) + rest, headers[0]);
      assert [headers[0]] + headers[1..] == headers;
    }
  }

  lemma {:induction false} UpToLineEnd(s: string)
    ensures '\n' !in s[..LineEnd(s)]
  {
    if s != [] && s[0] != '\n' {
      UpToLineEnd(s[1..]);
      assert s[..LineEnd(s)] == [s[0]] + s[1..][..LineEnd(s[1..])];
    }
  }

  lemma {:induction false} UpToSpace(s: string)
    ensures ' ' !in s[..FirstSpace(s)]
  {
    if s != [] && s[0] != ' ' {
      UpToSpace(s[1..]);
      assert s[..FirstSpace(s)] == [s[0]] + s[1..][..FirstSpace(s[1..])];
    }
  }

  lemma ReadsPlain(line: string)
    requires '\n' !in line
    ensures PlainHeader(ReadHeader(line))
  {
    UpToSpace(line);
  }

  lemma {:induction false} ReadsOnlyPlain(s: string)
    ensures PlainHeaders(ReadHeaders(s).0)
    decreases |s|
  {
    if s != [] && s[0] == '[' {
      var k := LineEnd(s);
      UpToLineEnd(s);
      assert '\n' !in s[1..k] by { assert s[1..k] == s[..k][1..]; }
      ReadsPlain(s[1..k]);
      hide ReadHeader, PlainHeader;
      ReadsOnlyPlain(s[if k < |s| then k + 1 else k..]);
    }
  }

  /**
    Names, values and order of the headers are read back from the text of a game exactly if no name
    contains a space or a line end and no value a line end; the writer escapes neither.
   */
  lemma HeadersReadBackExactlyWhen(headers: seq<(string, string)>, rest: string)
    requires rest != [] ==> rest[0] != '['
    ensures ReadHeaders(HeaderText(headers) + rest) == (headers, rest) <==> PlainHeaders(headers)
  {
    hide ReadHeaders, HeaderText, PlainHeaders;
    if PlainHeaders(headers) { PlainHeadersReadBack(headers, rest); }
    ReadsOnlyPlain(HeaderText(headers) + rest);
  }
}
