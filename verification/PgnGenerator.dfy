/**
  The PGN writer (app/src/game/pgn/pgn_gen.hpp): movetext is wrapped greedily at 80 columns,
  which loses nothing and uses as few lines as possible.
 */
module PgnGenerator {

  const WIDTH := 80

  datatype PGNMove = PGNMove(move: string, comment: string)

  // ---------- Tokens ----------

  function Decimal(n: nat): (s: string)
    ensures s != []
  {
    var digit := ['0', '1', '2', '3', '4', '5', '6', '7', '8', '9'][n % 10];
    if n < 10 then [digit] else Decimal(n / 10) + [digit]
  }

  /** The text of move number `i`; `counter` is its half-move number in the game. */
  function MoveToken(m: PGNMove, i: nat, counter: nat, blackStarts: bool): string {
    var isWhite := if blackStarts then i % 2 != 0 else i % 2 == 0;
    var number := Decimal((counter + 1) / 2);
    var text :=
      if m.move == [] then []
      else if isWhite then number + ". " + m.move
      else if i == 0 then number + "... " + m.move
      else m.move;
    if m.comment == [] then text
    else text + (if m.move == [] then [] else " ") + "{" + m.comment + "}"
  }

  function Tokens(moves: seq<PGNMove>, start: nat, blackStarts: bool): (ts: seq<string>)
    ensures |ts| == |moves|
  {
    seq(|moves|, i requires 0 <= i < |moves| => MoveToken(moves[i], i, start + i, blackStarts))
  }

  /** All tokens of a game, the result last. */
  function GameTokens(moves: seq<PGNMove>, start: nat, blackStarts: bool, result: string): seq<string> {
    Tokens(moves, start, blackStarts) + [result]
  }

  function HeaderLine(h: (string, string)): string { "[" + h.0 + " \"" + h.1 + "\"]\n" }

  function HeaderText(headers: seq<(string, string)>): string {
    if headers == [] then [] else HeaderText(headers[..|headers| - 1]) + HeaderLine(headers[|headers| - 1])
  }

  /** The first header named Result gets the new value; without one, the header is added, unless it is empty. */
  function WithResult(headers: seq<(string, string)>, res: string): seq<(string, string)> {
    if headers == [] then (if res == [] then [] else [("Result", res)])
    else if headers[0].0 == "Result" then [("Result", res)] + headers[1..]
    else [headers[0]] + WithResult(headers[1..], res)
  }

  /** Only the first header named Result changes; without one, a last one appears unless the result is empty. */
  lemma {:induction false} ResultHeader(headers: seq<(string, string)>, res: string, k: nat)
    requires k <= |headers| && (forall i :: 0 <= i < k ==> headers[i].0 != "Result")
    requires k < |headers| ==> headers[k].0 == "Result"
    ensures WithResult(headers, res) ==
            if k < |headers| then headers[k := ("Result", res)]
            else if res == [] then headers
            else headers + [("Result", res)]
  {
    if headers != [] {
      assert headers == [headers[0]] + headers[1..];
      if k == 0 {
        assert headers[0 := ("Result", res)] == [("Result", res)] + headers[1..];
      } else {
        ResultHeader(headers[1..], res, k - 1);
      }
    }
  }

  /** A half-move without text and without comment is the only one that leaves no token. */
  lemma TokenEmpty(m: PGNMove, i: nat, counter: nat, blackStarts: bool)
    ensures MoveToken(m, i, counter, blackStarts) == [] <==> m.move == [] && m.comment == []
  {}

  // ---------- Lines ----------

  /** One line: tokens separated by spaces, none after an empty start. */
  function LineText(tokens: seq<string>): string {
    if tokens == [] then []
    else
      var n := |tokens| - 1;
      var before := LineText(tokens[..n]);
      if before == [] then tokens[n] else before + " " + tokens[n]
  }

  function JoinLines(lines: seq<seq<string>>): string {
    if lines == [] then []
    else if |lines| == 1 then LineText(lines[0])
    else JoinLines(lines[..|lines| - 1]) + "\n" + LineText(lines[|lines| - 1])
  }

  function Flatten(lines: seq<seq<string>>): seq<string> {
    if lines == [] then [] else lines[0] + Flatten(lines[1..])
  }

  /** The rule of the writer: break when the token and its space would pass column 80. */
  predicate MustBreak(length: nat, token: string) {
    length > 0 && length + |token| + 1 > WIDTH
  }

  /** The lines of the writer, `done` being the finished ones and `current` the open one. */
  function Wrapped(done: seq<seq<string>>, current: seq<string>, tokens: seq<string>): seq<seq<string>>
    decreases |tokens|
  {
    if tokens == [] then done + [current]
    else if MustBreak(|LineText(current)|, tokens[0]) then Wrapped(done + [current], [tokens[0]], tokens[1..])
    else Wrapped(done, current + [tokens[0]], tokens[1..])
  }

  // ---------- Nothing is lost ----------

  ghost predicate NonEmpty<T>(s: seq<seq<T>>) {
    forall i :: 0 <= i < |s| ==> s[i] != []
  }

  function Unwrap(s: string): (u: string)
    ensures |u| == |s|
  {
    seq(|s|, i requires 0 <= i < |s| => if s[i] == '\n' then ' ' else s[i])
  }

  /** The tokens with one space between neighbours. */
  function Spaced(tokens: seq<string>): string {
    if tokens == [] then []
    else if |tokens| == 1 then tokens[0]
    else tokens[0] + " " + Spaced(tokens[1..])
  }

  lemma LineSnoc(tokens: seq<string>, t: string)
    ensures LineText(tokens + [t]) == if LineText(tokens) == [] then t else LineText(tokens) + " " + t
  {
    assert (tokens + [t])[..|tokens|] == tokens;
  }

  lemma {:induction false} LineConcat(a: seq<string>, b: seq<string>)
    requires NonEmpty(a) && NonEmpty(b) && a != [] && b != []
    ensures LineText(a) != []
    ensures LineText(a + b) == LineText(a) + " " + LineText(b)
    decreases |b|
  {
    var n := |b| - 1;
    var init, t := b[..n], b[n];
    assert b == init + [t] && a + b == (a + init) + [t];
    assert LineText([]) == [];
    LineNonEmpty(a);
    NonEmptyParts(init, t);
    hide LineText, NonEmpty;
    LineSnoc(init, t);
    LineSnoc(a + init, t);
    if n == 0 {
      assert a + init == a;
    } else {
      LineConcat(a, init);
      LineNonEmpty(init);
      SpacesAssociate(LineText(a), LineText(init), t);
    }
  }

  lemma NonEmptyParts<T>(init: seq<seq<T>>, t: seq<T>)
    requires NonEmpty(init + [t])
    ensures NonEmpty(init) && t != []
  {
    assert (init + [t])[|init|] == t;
    assert forall i :: 0 <= i < |init| ==> (init + [t])[i] == init[i];
  }

  lemma SpacesAssociate(x: string, y: string, z: string)
    ensures (x + " " + y) + " " + z == x + " " + (y + " " + z)
  {}

  lemma {:induction false} LineNonEmpty(a: seq<string>)
    requires NonEmpty(a) && a != []
    ensures LineText(a) != []
  {
    var t := a[|a| - 1];
    assert t != [];
  }

  /** A line of non-empty tokens is those tokens with single spaces between them. */
  lemma {:induction false} LineIsSpaced(tokens: seq<string>)
    requires NonEmpty(tokens)
    ensures LineText(tokens) == Spaced(tokens)
  {
    if |tokens| == 1 {
      assert tokens[..0] == [];
    } else if |tokens| > 1 {
      assert tokens == tokens[..1] + tokens[1..];
      LineConcat(tokens[..1], tokens[1..]);
      assert tokens[..1][..0] == [];
      LineIsSpaced(tokens[1..]);
    }
  }

  lemma {:induction false} FlattenAppend(lines: seq<seq<string>>, line: seq<string>)
    ensures Flatten(lines + [line]) == Flatten(lines) + line
  {
    if lines == [] {
      assert [line][1..] == [];
      assert lines + [line] == [line];
    } else {
      assert (lines + [line])[1..] == lines[1..] + [line];
      FlattenAppend(lines[1..], line);
    }
  }

  lemma {:induction false} FlattenNonEmpty(lines: seq<seq<string>>)
    requires forall i :: 0 <= i < |lines| ==> NonEmpty(lines[i])
    ensures NonEmpty(Flatten(lines))
  {
    if lines != [] {
      FlattenNonEmpty(lines[1..]);
      assert NonEmpty(lines[0]);
    }
  }

  lemma UnwrapConcat(a: string, b: string)
    ensures Unwrap(a + b) == Unwrap(a) + Unwrap(b)
  {}

  /** Replacing line ends by spaces turns any wrapping into the single line of all its tokens. */
  lemma {:induction false} UnwrapJoined(lines: seq<seq<string>>)
    requires NonEmpty(lines)
    requires forall i :: 0 <= i < |lines| ==> NonEmpty(lines[i])
    ensures Unwrap(JoinLines(lines)) == Unwrap(LineText(Flatten(lines)))
  {
    if |lines| == 1 {
      assert lines[1..] == [];
      assert lines[0] + [] == lines[0];
    } else if |lines| > 1 {
      var n := |lines| - 1;
      var init, last := lines[..n], lines[n];
      assert lines == init + [last];
      UnwrapJoined(init);
      FlattenAppend(init, last);
      FlattenNonEmpty(init);
      assert init[0] != [] && Flatten(init) != [];
      LineConcat(Flatten(init), last);
      UnwrapPieces(JoinLines(init), "\n", LineText(last));
      UnwrapPieces(LineText(Flatten(init)), " ", LineText(last));
      assert Unwrap("\n") == Unwrap(" ");
    }
  }

  lemma UnwrapPieces(a: string, b: string, c: string)
    ensures Unwrap(a + b + c) == Unwrap(a) + Unwrap(b) + Unwrap(c)
  {
    UnwrapConcat(a + b, c);
    UnwrapConcat(a, b);
  }

  ghost predicate Fits(line: seq<string>) {
    |line| == 1 || |LineText(line)| <= WIDTH
  }

  lemma {:induction false} WrappedFlatten(done: seq<seq<string>>, current: seq<string>, tokens: seq<string>)
    ensures Flatten(Wrapped(done, current, tokens)) == Flatten(done) + current + tokens
    decreases |tokens|
  {
    hide MustBreak, LineText, Flatten;
    FlattenAppend(done, current);
    if tokens != [] {
      var t, rest := tokens[0], tokens[1..];
      assert tokens == [t] + rest;
      if MustBreak(|LineText(current)|, t) {
        WrappedFlatten(done + [current], [t], rest);
        assert Flatten(done) + current + [t] + rest == Flatten(done) + current + tokens;
      } else {
        WrappedFlatten(done, current + [t], rest);
        assert Flatten(done) + (current + [t]) + rest == Flatten(done) + current + tokens;
      }
    }
  }

  ghost predicate GoodLine(line: seq<string>) {
    line != [] && NonEmpty(line) && Fits(line)
  }

  ghost predicate GoodLines(lines: seq<seq<string>>) {
    forall i :: 0 <= i < |lines| ==> GoodLine(lines[i])
  }

  lemma GoodSingle(t: string)
    requires t != []
    ensures GoodLine([t])
  {}

  lemma GoodExtended(line: seq<string>, t: string)
    requires line != [] ==> GoodLine(line)
    requires t != [] && !MustBreak(|LineText(line)|, t)
    ensures GoodLine(line + [t])
  {
    if line == [] {
      assert line + [t] == [t];
    } else {
      LineNonEmpty(line);
      LineSnoc(line, t);
      hide LineText;
    }
  }

  lemma NoBreakOnEmpty(line: seq<string>, t: string)
    requires MustBreak(|LineText(line)|, t)
    ensures line != []
  {}

  /** The writer's lines hold at least one token each and fit. */
  lemma {:induction false} WrappedFits(done: seq<seq<string>>, current: seq<string>, tokens: seq<string>)
    requires GoodLines(done) && NonEmpty(tokens)
    requires current != [] ==> GoodLine(current)
    requires current != [] || tokens != []
    ensures GoodLines(Wrapped(done, current, tokens))
    decreases |tokens|
  {
    hide GoodLine, MustBreak, LineText;
    if tokens != [] {
      var t := tokens[0];
      if MustBreak(|LineText(current)|, t) {
        assert current != [] by { NoBreakOnEmpty(current, t); }
        GoodSingle(t);
        WrappedFits(done + [current], [t], tokens[1..]);
      } else {
        GoodExtended(current, t);
        WrappedFits(done, current + [t], tokens[1..]);
      }
    }
  }

  /**
    For any non-empty tokens: with its line ends replaced by spaces the movetext is the tokens
    joined by single spaces, and every line is at most 80 characters or one single token.
   */
  lemma WrappingLosesNothing(tokens: seq<string>)
    requires NonEmpty(tokens) && tokens != []
    ensures var lines := Wrapped([], [], tokens);
            && Flatten(lines) == tokens
            && Unwrap(JoinLines(lines)) == Unwrap(Spaced(tokens))
            && forall i :: 0 <= i < |lines| ==> Fits(lines[i])
  {
    hide Wrapped, LineText, Unwrap, JoinLines, Spaced;
    WrappedFlatten([], [], tokens);
    WrappedFits([], [], tokens);
    var lines := Wrapped([], [], tokens);
    assert forall i :: 0 <= i < |lines| ==> GoodLine(lines[i]);
    UnwrapJoined(lines);
    LineIsSpaced(tokens);
  }

  // ---------- The greedy rule uses the fewest lines ----------

  /** How many line breaks the writer makes for `tokens` when the open line has this length. */
  function Breaks(length: nat, tokens: seq<string>): nat
    decreases |tokens|
  {
    if tokens == [] then 0
    else if MustBreak(length, tokens[0]) then 1 + Breaks(|tokens[0]|, tokens[1..])
    else Breaks(if length == 0 then |tokens[0]| else length + 1 + |tokens[0]|, tokens[1..])
  }

  lemma {:induction false} WrappedCountsBreaks(done: seq<seq<string>>, current: seq<string>, tokens: seq<string>)
    ensures |Wrapped(done, current, tokens)| == |done| + 1 + Breaks(|LineText(current)|, tokens)
    decreases |tokens|
  {
    if tokens != [] {
      var t := tokens[0];
      if MustBreak(|LineText(current)|, t) {
        WrappedCountsBreaks(done + [current], [t], tokens[1..]);
        assert [t][..0] == [];
      } else {
        WrappedCountsBreaks(done, current + [t], tokens[1..]);
        assert (current + [t])[..|current|] == current;
      }
    }
  }

  /** A longer open line never saves a break, and costs at most one. */
  lemma {:induction false} BreaksMonotone(short: nat, long: nat, tokens: seq<string>)
    requires 0 < short <= long && NonEmpty(tokens)
    ensures Breaks(short, tokens) <= Breaks(long, tokens) <= Breaks(short, tokens) + 1
    decreases |tokens|
  {
    if tokens != [] {
      var t := tokens[0];
      assert t != [];
      if !MustBreak(short, t) {
        BreaksMonotone(if MustBreak(long, t) then |t| else short + 1 + |t|,
                       if MustBreak(long, t) then short + 1 + |t| else long + 1 + |t|, tokens[1..]);
      }
    }
  }

  function Grown(length: nat, tokens: seq<string>): nat
    decreases |tokens|
  {
    if tokens == [] then length else Grown(length + 1 + |tokens[0]|, tokens[1..])
  }

  lemma NonEmptySplit<T>(a: seq<seq<T>>, b: seq<seq<T>>)
    requires NonEmpty(a) && NonEmpty(b) && b != []
    ensures NonEmpty(a + [b[0]]) && NonEmpty(b[1..])
  {}

  lemma {:induction false} GrownIsWidth(a: seq<string>, b: seq<string>)
    requires NonEmpty(a) && NonEmpty(b) && a != []
    ensures Grown(|LineText(a)|, b) == |LineText(a + b)|
    decreases |b|
  {
    hide LineText, NonEmpty;
    if b == [] {
      assert a + b == a;
    } else {
      NonEmptySplit(a, b);
      LineNonEmpty(a);
      LineSnoc(a, b[0]);
      GrownIsWidth(a + [b[0]], b[1..]);
      assert (a + [b[0]]) + b[1..] == a + b;
    }
  }

  lemma {:induction false} GrownMonotone(length: nat, tokens: seq<string>)
    ensures Grown(length, tokens) >= length
    decreases |tokens|
  {
    if tokens != [] { GrownMonotone(length + 1 + |tokens[0]|, tokens[1..]); }
  }

  /** Tokens that fit on the open line cause no break. */
  lemma {:induction false} FittingTokens(length: nat, group: seq<string>, rest: seq<string>)
    requires length > 0 && (group == [] || Grown(length, group) <= WIDTH)
    ensures Breaks(length, group + rest) == Breaks(Grown(length, group), rest)
    decreases |group|
  {
    if group == [] {
      assert group + rest == rest;
    } else {
      assert (group + rest)[1..] == group[1..] + rest;
      GrownMonotone(length + 1 + |group[0]|, group[1..]);
      FittingTokens(length + 1 + |group[0]|, group[1..], rest);
    }
  }

  lemma WidthFromFront(line: seq<string>)
    requires NonEmpty(line) && line != []
    ensures Grown(|line[0]|, line[1..]) == |LineText(line)| && line[0] != []
  {
    assert line[..1] + line[1..] == line && line[..1][..0] == [];
    GrownIsWidth(line[..1], line[1..]);
  }

  /** After any open line, the writer needs at most one break for each line of another wrapping. */
  lemma {:induction false} BreaksWithin(length: nat, lines: seq<seq<string>>)
    requires length > 0 && NonEmpty(lines)
    requires forall i :: 0 <= i < |lines| ==> NonEmpty(lines[i]) && Fits(lines[i])
    ensures Breaks(length, Flatten(lines)) <= |lines|
    decreases |lines|
  {
    FlattenFront(lines);
    hide LineText, Flatten, NonEmpty;
    if lines == [] {
      assert Breaks(length, []) == 0;
    } else {
      hide Breaks;
      var line, rest := lines[0], Flatten(lines[1..]);
      FrontNonEmpty(lines);
      FlattenNonEmpty(lines[1..]);
      WidthFromFront(line);
      LineNonEmpty(line);
      OneBreak(length, line, rest);
      FittingTokens(|line[0]|, line[1..], rest);
      BreaksWithin(|LineText(line)|, lines[1..]);
    }
  }

  lemma FrontNonEmpty<T>(lines: seq<seq<seq<T>>>)
    requires lines != [] && NonEmpty(lines)
    ensures lines[0] != [] && NonEmpty(lines[1..])
  {}

  /** Starting a new line for the next token costs one break and otherwise never more than going on. */
  lemma OneBreak(length: nat, line: seq<string>, rest: seq<string>)
    requires length > 0 && line != [] && NonEmpty(line) && NonEmpty(rest)
    ensures Breaks(length, line + rest) <= 1 + Breaks(|line[0]|, line[1..] + rest)
  {
    hide Breaks, NonEmpty;
    var t := line[0];
    assert (line + rest)[0] == t && (line + rest)[1..] == line[1..] + rest;
    NextBreak(length, line + rest);
    RestNonEmpty(line, rest);
    BreaksMonotone(|t|, length + 1 + |t|, line[1..] + rest);
  }

  lemma NextBreak(length: nat, tokens: seq<string>)
    requires length > 0 && tokens != []
    ensures Breaks(length, tokens) ==
            if MustBreak(length, tokens[0]) then 1 + Breaks(|tokens[0]|, tokens[1..])
            else Breaks(length + 1 + |tokens[0]|, tokens[1..])
  {}

  lemma RestNonEmpty(line: seq<string>, rest: seq<string>)
    requires line != [] && NonEmpty(line) && NonEmpty(rest)
    ensures line[0] != [] && NonEmpty(line[1..] + rest)
  {}

  /** No wrapping of the same tokens into fitting lines has fewer lines than the writer's. */
  lemma GreedyUsesFewestLines(lines: seq<seq<string>>)
    requires lines != [] && GoodLines(lines)
    ensures |Wrapped([], [], Flatten(lines))| <= |lines|
  {
    hide Wrapped, LineText, Flatten, Breaks, GoodLine;
    WrappedCountsBreaks([], [], Flatten(lines));
    assert LineText([]) == [] by { FlattenFront(lines); }
    GreedyBound(lines);
  }

  lemma GreedyBound(lines: seq<seq<string>>)
    requires GoodLines(lines) && lines != []
    ensures Breaks(0, Flatten(lines)) < |lines|
  {
    hide LineText, Flatten, Breaks, Fits;
    FlattenFront(lines);
    assert GoodLine(lines[0]);
    assert forall i :: 0 <= i < |lines[1..]| ==> GoodLine(lines[1..][i]);
    BreaksFromStart(lines[0], Flatten(lines[1..]));
    LineNonEmpty(lines[0]);
    BreaksWithin(|LineText(lines[0])|, lines[1..]);
  }

  lemma FlattenFront(lines: seq<seq<string>>)
    ensures lines == [] ==> Flatten(lines) == []
    ensures lines != [] ==> Flatten(lines) == lines[0] + Flatten(lines[1..])
    ensures LineText([]) == []
  {}

  /** At the start of the movetext a fitting first line is written without a break. */
  lemma BreaksFromStart(line: seq<string>, rest: seq<string>)
    requires GoodLine(line)
    ensures Breaks(0, line + rest) == Breaks(|LineText(line)|, rest)
  {
    hide LineText;
    WidthFromFront(line);
    GrownSingle(line);
    assert (line + rest)[0] == line[0] && (line + rest)[1..] == line[1..] + rest;
    FittingTokens(|line[0]|, line[1..], rest);
  }

  lemma GrownSingle(line: seq<string>)
    requires GoodLine(line)
    ensures line[1..] == [] || |LineText(line)| <= WIDTH
  {}

  lemma {:induction false} LinesNonEmpty(lines: seq<seq<string>>)
    requires NonEmpty(Flatten(lines))
    ensures forall i :: 0 <= i < |lines| ==> NonEmpty(lines[i])
  {
    if lines != [] {
      var f := Flatten(lines);
      assert f[..|lines[0]|] == lines[0] && f[|lines[0]|..] == Flatten(lines[1..]);
      assert NonEmpty(f[..|lines[0]|]) && NonEmpty(f[|lines[0]|..]);
      LinesNonEmpty(lines[1..]);
      forall i | 0 <= i < |lines| ensures NonEmpty(lines[i]) {
        if i > 0 { assert lines[i] == lines[1..][i - 1]; }
      }
    }
  }

  /** So the movetext of a game without blank half-moves loses nothing, and no wrapping is shorter. */
  lemma GameIsWrappedWell(moves: seq<PGNMove>, start: nat, blackStarts: bool, result: string, lines: seq<seq<string>>)
    requires result != [] && forall i :: 0 <= i < |moves| ==> moves[i].move != [] || moves[i].comment != []
    ensures var tokens := GameTokens(moves, start, blackStarts, result);
            && Unwrap(JoinLines(Wrapped([], [], tokens))) == Unwrap(Spaced(tokens))
            && (Flatten(lines) == tokens && NonEmpty(lines) && (forall i :: 0 <= i < |lines| ==> Fits(lines[i]))
                ==> |Wrapped([], [], tokens)| <= |lines|)
  {
    hide Wrapped, LineText, Unwrap, JoinLines, Spaced, Flatten, Fits, MoveToken;
    var tokens := GameTokens(moves, start, blackStarts, result);
    forall i | 0 <= i < |tokens| ensures tokens[i] != [] {
      if i < |moves| { TokenEmpty(moves[i], i, start + i, blackStarts); }
    }
    WrappingLosesNothing(tokens);
    if Flatten(lines) == tokens && NonEmpty(lines) && forall i :: 0 <= i < |lines| ==> Fits(lines[i]) {
      LinesNonEmpty(lines);
      assert forall i :: 0 <= i < |lines| ==> GoodLine(lines[i]);
      assert lines != [] by { FlattenFront(lines); }
      GreedyUsesFewestLines(lines);
    }
  }

  // ---------- The writer ----------

  class PGNGenerator {
    var headers: seq<(string, string)>
    var moves: seq<PGNMove>
    var result: string
    var startMoveNumber: nat
    var blackStarts: bool

    constructor ()
      ensures headers == [] && moves == [] && result == "*" && startMoveNumber == 1 && !blackStarts
    {
      headers, moves, result, startMoveNumber, blackStarts := [], [], "*", 1, false;
    }

    method AddHeader(key: string, value: string)
      modifies this`headers
      ensures headers == if key == [] || value == [] then old(headers) else old(headers) + [(key, value)]
    {
      if key == [] || value == [] { return; }
      headers := headers + [(key, value)];
    }

    /** The result also goes into its header, the first one of that name or a new one. */
    method SetResult(res: string)
      modifies this`result, this`headers
      ensures result == res
      ensures headers == WithResult(old(headers), res)
    {
      result := res;
      var i := 0;
      while i < |headers|
        invariant 0 <= i <= |headers| && headers == old(headers) && result == res
        invariant WithResult(headers, res) == headers[..i] + WithResult(headers[i..], res)
      {
        if headers[i].0 == "Result" {
          headers := headers[i := ("Result", res)];
          return;
        }
        assert headers[..i + 1] == headers[..i] + [headers[i]] && headers[i..][1..] == headers[i + 1..];
        i := i + 1;
      }
      AddHeader("Result", res);
    }

    /** The text of half-move `i`. */
    method PairText(i: nat, moveCounter: nat) returns (pair: string)
      requires i < |moves|
      ensures pair == MoveToken(moves[i], i, moveCounter, blackStarts)
    {
      var isWhite := if !blackStarts then i % 2 == 0 else i % 2 != 0;
      pair := [];
      if moves[i].move != [] {
        var curr := (moveCounter + 1) / 2;
        if isWhite {
          pair := Decimal(curr) + ". " + moves[i].move;
        } else if i == 0 {
          pair := Decimal(curr) + "... " + moves[i].move;
        } else {
          pair := moves[i].move;
        }
      }
      if moves[i].comment != [] {
        pair := pair + (if moves[i].move == [] then [] else " ") + "{" + moves[i].comment + "}";
      }
    }

    method Generate() returns (output: string)
      ensures output == HeaderText(headers) + (if headers == [] then [] else "\n") +
                        JoinLines(Wrapped([], [], GameTokens(moves, startMoveNumber, blackStarts, result)))
    {
      hide MoveToken, Decimal, LineText, JoinLines, MustBreak;
      output := [];
      for h := 0 to |headers|
        invariant output == HeaderText(headers[..h])
      {
        output := output + ("[" + headers[h].0 + " \"" + headers[h].1 + "\"]\n");
        assert headers[..h + 1][..h] == headers[..h];
      }
      assert headers[..|headers|] == headers;
      if headers != [] { output := output + "\n"; }
      ghost var head, all := output, GameTokens(moves, startMoveNumber, blackStarts, result);
      ghost var done: seq<seq<string>> := [];
      ghost var current: seq<string> := [];
      NothingWritten(head);

      var currentLineLength := 0;
      var moveCounter := startMoveNumber;
      for i := 0 to |moves|
        invariant moveCounter == startMoveNumber + i
        invariant Progress(head, output, currentLineLength, done, current)
        invariant Wrapped(done, current, all[i..]) == Wrapped([], [], all)
      {
        var pair := PairText(i, moveCounter);
        moveCounter := moveCounter + 1;
        assert pair == all[i];
        assert all[i..][0] == pair && all[i..][1..] == all[i + 1..];
        output, currentLineLength, done, current := AppendText(head, output, currentLineLength, pair, done, current);
      }
      assert all[|moves|..] == [result];
      output, currentLineLength, done, current := AppendText(head, output, currentLineLength, result, done, current);
      assert [result][1..] == [];
    }
  }

  /** `output` is `head` followed by the lines so far, the open one having the given length. */
  ghost predicate Progress(head: string, output: string, length: nat, done: seq<seq<string>>, current: seq<string>) {
    output == head + JoinLines(done + [current]) && length == |LineText(current)|
  }

  lemma NextToken(done: seq<seq<string>>, current: seq<string>, text: string)
    ensures LineText(current + [text]) ==
            if LineText(current) == [] then text else LineText(current) + " " + text
    ensures JoinLines(done + [current + [text]]) ==
            JoinLines(done + [current]) + (if LineText(current) == [] then "" else " ") + text
  {
    assert (current + [text])[..|current|] == current;
    assert (done + [current + [text]])[..|done|] == done;
    assert (done + [current])[..|done|] == done;
  }

  lemma NextLine(done: seq<seq<string>>, current: seq<string>, text: string)
    ensures LineText([text]) == text
    ensures JoinLines(done + [current] + [[text]]) == JoinLines(done + [current]) + "\n" + text
  {
    assert [text][..0] == [];
    assert (done + [current] + [[text]])[..|done| + 1] == done + [current];
  }

  lemma NothingWritten(head: string)
    ensures Progress(head, head, 0, [], [])
  {
    assert head + [] == head;
  }

  /** What goes before a token: a line end, a space, or nothing at the start of the movetext. */
  function Separator(length: nat, text: string): string {
    if MustBreak(length, text) then "\n" else if length > 0 then " " else ""
  }

  method AppendText(ghost head: string, output0: string, length0: nat, text: string,
                    ghost done0: seq<seq<string>>, ghost current0: seq<string>)
    returns (output: string, length: nat, ghost done: seq<seq<string>>, ghost current: seq<string>)
    requires Progress(head, output0, length0, done0, current0)
    ensures output == output0 + Separator(length0, text) + text
    ensures length == if Separator(length0, text) == " " then length0 + 1 + |text| else |text|
    ensures Progress(head, output, length, done, current)
    ensures (done, current) == if MustBreak(length0, text) then (done0 + [current0], [text])
                               else (done0, current0 + [text])
  {
    hide JoinLines, LineText;
    NextToken(done0, current0, text);
    NextLine(done0, current0, text);
    output, length := output0, length0;
    done, current := done0, current0;
    if length > 0 && length + |text| + 1 > 80 {
      output := output + "\n";
      length := 0;
      done, current := done0 + [current0], [];
    }
    if length > 0 {
      output := output + " ";
      length := length + 1;
    }
    output := output + text;
    length := length + |text|;
    current := current + [text];
    assert [] + [text] == [text];
  }
}
