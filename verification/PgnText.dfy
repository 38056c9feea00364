/**
  Reading the text of a game, not its tokens: a reader that knows words, line ends and comments in
  braces recovers what app/src/game/pgn/pgn_gen.hpp wrote exactly if no comment contains a closing brace.
 */
module PgnText {
  import opened Options
  import opened PgnGenerator
  import opened PgnReader

  // ---------- Words and comments ----------

  datatype Item = Word(text: string) | Note(text: string)

  predicate Blank(c: char) { c == ' ' || c == '\n' }

  function WordEnd(s: string): (k: nat)
    ensures k <= |s|
  {
    if s == [] || Blank(s[0]) then 0 else 1 + WordEnd(s[1..])
  }

  function NoteEnd(s: string): (k: nat)
    ensures k <= |s| && '}' !in s[..k] && (k < |s| ==> s[k] == '}')
  {
    if s == [] || s[0] == '}' then 0
    else
      var k := NoteEnd(s[1..]);
      assert s[..1 + k] == [s[0]] + s[1..][..k];
      1 + k
  }

  /** The words and comments of a text; a comment without end goes on to the end. */
  function Items(text: string): seq<Item>
    decreases |text|
  {
    if text == [] then []
    else if Blank(text[0]) then Items(text[1..])
    else if text[0] == '{' then
      var k := NoteEnd(text[1..]);
      [Note(text[1..][..k])] + (if k < |text[1..]| then Items(text[1..][k + 1..]) else [])
    else
      var k := 1 + WordEnd(text[1..]);
      [Word(text[..k])] + Items(text[k..])
  }

  predicate WordText(w: string) {
    w != [] && w[0] != '{' && forall c :: c in w ==> !Blank(c)
  }

  predicate Closed(rest: string) { rest == [] || Blank(rest[0]) }

  lemma {:induction false} WordEndOf(w: string, rest: string)
    requires Closed(rest) && forall c :: c in w ==> !Blank(c)
    ensures WordEnd(w + rest) == |w|
  {
    if w == [] {
      assert w + rest == rest;
    } else {
      assert (w + rest)[1..] == w[1..] + rest;
      WordEndOf(w[1..], rest);
    }
  }

  lemma ItemsOfWord(w: string, rest: string)
    requires WordText(w) && Closed(rest)
    ensures Items(w + rest) == [Word(w)] + Items(rest)
  {
    var text := w + rest;
    assert text[1..] == w[1..] + rest;
    WordEndOf(w[1..], rest);
    assert w[0] in w;
    assert text[..|w|] == w && text[|w|..] == rest;
  }

  lemma ItemsOfBlank(c: char, rest: string)
    requires Blank(c)
    ensures Items([c] + rest) == Items(rest)
  {
    assert ([c] + rest)[1..] == rest;
  }

  lemma {:induction false} NoteEndOf(c: string, rest: string)
    ensures NoteEnd(c + "}" + rest) == NoteEnd(c + "}") == (if '}' in c then NoteEnd(c) else |c|)
    ensures '}' in c ==> NoteEnd(c) < |c|
  {
    if c == [] {
      assert c + "}" + rest == "}" + rest && c + "}" == "}";
    } else {
      assert (c + "}" + rest)[1..] == c[1..] + "}" + rest && (c + "}")[1..] == c[1..] + "}";
      assert c == [c[0]] + c[1..];
      NoteEndOf(c[1..], rest);
    }
  }

  /** A comment is read up to the first closing brace. */
  lemma ItemsOfNote(c: string, rest: string)
    ensures '}' !in c ==> Items("{" + c + "}" + rest) == [Note(c)] + Items(rest)
    ensures '}' in c ==> exists cut: string, more: seq<Item> ::
                           cut != c && Items("{" + c + "}" + rest) == [Note(cut)] + more
  {
    var text := "{" + c + "}" + rest;
    assert text[1..] == c + "}" + rest;
    NoteEndOf(c, rest);
    var k := NoteEnd(c + "}" + rest);
    if '}' !in c {
      assert (c + "}" + rest)[..k] == c && (c + "}" + rest)[k + 1..] == rest;
    } else {
      var cut := (c + "}" + rest)[..k];
      assert |cut| < |c|;
      assert Items(text) == [Note(cut)] + Items((c + "}" + rest)[k + 1..]);
    }
  }

  // ---------- Half-moves ----------

  predicate IsNumber(w: string) { |w| >= 2 && IsDigit(w[0]) && w[|w| - 1] == '.' }

  function NumberOf(w: string): nat { Value(w[..LeadingDigits(w)]) }

  predicate HasDots(w: string) { StartsWith(w[LeadingDigits(w)..], "...") }

  /** The comment at the front, and what follows. */
  function TakeNote(items: seq<Item>): (string, seq<Item>) {
    if items != [] && items[0].Note? then (items[0].text, items[1..]) else ([], items)
  }

  /** A number belongs to the next word, a comment to the word before it. */
  function Halves(items: seq<Item>): seq<Half>
    decreases |items|
  {
    if items == [] then []
    else match items[0]
      case Note(c) => [Half(None, false, PGNMove([], c))] + Halves(items[1..])
      case Word(w) =>
        if IsNumber(w) && |items| > 1 && items[1].Word? then
          var (note, rest) := TakeNote(items[2..]);
          [Half(Some(NumberOf(w)), HasDots(w), PGNMove(items[1].text, note))] + Halves(rest)
        else
          var (note, rest) := TakeNote(items[1..]);
          [Half(None, false, PGNMove(w, note))] + Halves(rest)
  }

  /** What stands in front of the comment of a half-move. */
  function Words(number: Option<nat>, dots: bool, move: string): seq<Item> {
    if move == [] then []
    else (if number.Some? then [Word(Decimal(number.value) + if dots then "..." else ".")] else []) + [Word(move)]
  }

  lemma NumberWord(n: nat, dots: bool)
    ensures var w := Decimal(n) + if dots then "..." else ".";
            IsNumber(w) && NumberOf(w) == n && (HasDots(w) <==> dots) && WordText(w)
  {
    hide Decimal, Value;
    DecimalValue(n);
    var s, tail := Decimal(n), if dots then "..." else ".";
    LeadingDigitsOf(s, tail);
    assert (s + tail)[..|s|] == s && (s + tail)[|s|..] == tail;
    assert IsDigit(s[0]);
  }

  /** Text of a move for this reader: words of the chess library contain no line ends either. */
  predicate PlainMove(s: string) {
    MoveText(s) && '\n' !in s
  }

  predicate Numbered(number: Option<nat>, dots: bool, move: string) {
    (move == [] ==> number.None?) && (number.None? ==> !dots)
  }

  lemma HalvesWithNote(number: Option<nat>, dots: bool, move: string, c: string, more: seq<Item>)
    requires PlainMove(move) && Numbered(number, dots, move)
    ensures Halves(Words(number, dots, move) + [Note(c)] + more) ==
            [Half(number, dots, PGNMove(move, c))] + Halves(more)
  {
    hide Decimal, NumberOf, HasDots;
    var items := Words(number, dots, move) + [Note(c)] + more;
    if number.Some? {
      NumberWord(number.value, dots);
      assert items[1] == Word(move) && items[2..] == [Note(c)] + more;
      assert items[2..][1..] == more;
    } else if move != [] {
      assert items[0] == Word(move) && items[1..] == [Note(c)] + more;
      assert items[1..][1..] == more;
    } else {
      assert items == [Note(c)] + more && items[1..] == more;
    }
  }

  lemma HalvesWithoutNote(number: Option<nat>, dots: bool, move: string, more: seq<Item>)
    requires PlainMove(move) && Numbered(number, dots, move) && move != [] && (more == [] || more[0].Word?)
    ensures Halves(Words(number, dots, move) + more) == [Half(number, dots, PGNMove(move, []))] + Halves(more)
  {
    hide Decimal, NumberOf, HasDots;
    var items := Words(number, dots, move) + more;
    if number.Some? {
      NumberWord(number.value, dots);
      assert items[1] == Word(move) && items[2..] == more;
    } else {
      assert items[0] == Word(move) && items[1..] == more;
    }
  }

  // ---------- Tokens in a text ----------

  lemma PlainIsWord(move: string)
    requires PlainMove(move) && move != []
    ensures WordText(move)
  {}

  lemma ItemsOfWords(number: Option<nat>, dots: bool, move: string, rest: string)
    requires PlainMove(move) && Numbered(number, dots, move) && move != [] && Closed(rest)
    ensures var front := if number.None? then [] else Decimal(number.value) + if dots then "... " else ". ";
            Items(front + move + rest) == Words(number, dots, move) + Items(rest)
  {
    hide Decimal, Items, WordText, IsNumber, NumberOf, HasDots, PlainMove;
    PlainIsWord(move);
    ItemsOfWord(move, rest);
    if number.Some? {
      var w := Decimal(number.value) + if dots then "..." else ".";
      NumberWord(number.value, dots);
      ItemsOfBlank(' ', move + rest);
      ItemsOfWord(w, " " + (move + rest));
      var front := Decimal(number.value) + if dots then "... " else ". ";
      assert front + move + rest == w + (" " + (move + rest));
    } else {
      assert [] + move + rest == move + rest;
    }
  }

  /** The words of a half-move, then its comment if there is one. */
  function HalfText(number: Option<nat>, dots: bool, m: PGNMove): string {
    (if number.None? then [] else Decimal(number.value) + if dots then "... " else ". ") + m.move +
    ((if m.move == [] || m.comment == [] then [] else " ") + Braced(m.comment))
  }

  lemma ItemsOfBraced(c: string, rest: string)
    requires c != []
    ensures '}' !in c ==> Items(Braced(c) + rest) == [Note(c)] + Items(rest)
    ensures '}' in c ==> exists cut: string, more: seq<Item> ::
                           cut != c && Items(Braced(c) + rest) == [Note(cut)] + more
  {
    hide Items;
    ItemsOfNote(c, rest);
    assert Braced(c) + rest == "{" + c + "}" + rest;
  }

  lemma ItemsOfToken(number: Option<nat>, dots: bool, m: PGNMove, rest: string)
    requires PlainMove(m.move) && Numbered(number, dots, m.move) && Closed(rest)
    requires m.move != [] || m.comment != []
    ensures var words := Words(number, dots, m.move);
            if m.comment == [] then Items(HalfText(number, dots, m) + rest) == words + Items(rest)
            else Items(HalfText(number, dots, m) + rest) ==
                 words + Items(Braced(m.comment) + rest)
  {
    hide Decimal, Items, Braced;
    var front := if number.None? then [] else Decimal(number.value) + if dots then "... " else ". ";
    NoComment();
    if m.comment == [] {
      assert HalfText(number, dots, m) + rest == front + m.move + rest;
      ItemsOfWords(number, dots, m.move, rest);
    } else if m.move == [] {
      assert HalfText(number, dots, m) + rest == Braced(m.comment) + rest;
      assert [] + Items(Braced(m.comment) + rest) == Items(Braced(m.comment) + rest);
    } else {
      var tail := " " + (Braced(m.comment) + rest);
      assert HalfText(number, dots, m) + rest == front + m.move + tail;
      ItemsOfWords(number, dots, m.move, tail);
      ItemsOfBlank(' ', Braced(m.comment) + rest);
    }
  }

  // ---------- The movetext from the front ----------

  function NextLength(length: nat, t: string): nat {
    if MustBreak(length, t) || length == 0 then |t| else length + 1 + |t|
  }

  /** What is written for `tokens` when the open line has this length. */
  function Written(length: nat, tokens: seq<string>): string
    decreases |tokens|
  {
    if tokens == [] then []
    else Separator(length, tokens[0]) + tokens[0] + Written(NextLength(length, tokens[0]), tokens[1..])
  }

  lemma {:induction false} WrittenIsWrapped(done: seq<seq<string>>, current: seq<string>, tokens: seq<string>)
    ensures JoinLines(Wrapped(done, current, tokens)) ==
            JoinLines(done + [current]) + Written(|LineText(current)|, tokens)
    decreases |tokens|
  {
    hide JoinLines, LineText, Written, MustBreak;
    NothingMore(|LineText(current)|);
    if tokens == [] {
      assert JoinLines(done + [current]) + [] == JoinLines(done + [current]);
    } else {
      var t := tokens[0];
      var length := |LineText(current)|;
      var rest := Written(NextLength(length, t), tokens[1..]);
      NextLine(done, current, t);
      NextToken(done, current, t);
      NextWritten(length, tokens);
      Associate(JoinLines(done + [current]), Separator(length, t), t, rest);
      if MustBreak(length, t) {
        WrittenIsWrapped(done + [current], [t], tokens[1..]);
      } else {
        WrittenIsWrapped(done, current + [t], tokens[1..]);
      }
    }
  }

  lemma NothingMore(length: nat)
    ensures Written(length, []) == []
  {}

  lemma NextWritten(length: nat, tokens: seq<string>)
    requires tokens != []
    ensures Written(length, tokens) ==
            Separator(length, tokens[0]) + tokens[0] + Written(NextLength(length, tokens[0]), tokens[1..])
  {}

  lemma Associate(a: string, b: string, c: string, d: string)
    ensures a + b + c + d == a + (b + c + d)
  {}

  /** The movetext of a game as `Generate` writes it. */
  function Movetext(tokens: seq<string>): string { JoinLines(Wrapped([], [], tokens)) }

  lemma MovetextIsWritten(tokens: seq<string>)
    ensures Movetext(tokens) == Written(0, tokens)
  {
    WrittenIsWrapped([], [], tokens);
    NoLines();
    assert [] + Written(0, tokens) == Written(0, tokens);
  }

  lemma NoLines()
    ensures var none: seq<seq<string>> := [];
            none + [[]] == [[]] && JoinLines(none + [[]]) == [] && LineText([]) == []
  {}

  lemma ItemsOfSeparated(length: nat, t: string, rest: string)
    ensures Items(Separator(length, t) + t + rest) == Items(t + rest)
  {
    hide Items;
    var sep := Separator(length, t);
    assert sep + t + rest == sep + (t + rest);
    if sep == [] {
      assert [] + (t + rest) == t + rest;
    } else {
      ItemsOfBlank(sep[0], t + rest);
      assert sep == [sep[0]];
    }
  }

  /** After a token that is not empty, the rest of the text begins with a blank. */
  lemma RestIsClosed(length: nat, t: string, tokens: seq<string>)
    requires t != []
    ensures Closed(Written(NextLength(length, t), tokens))
  {
    var next := NextLength(length, t);
    if tokens != [] {
      assert Separator(next, tokens[0]) != [];
      assert Written(next, tokens)[0] == Separator(next, tokens[0])[0];
    }
  }

  // ---------- A whole game ----------

  /**
    No half-move is blank, and one without text does not follow one without comment, whose comment
    it would seem to be.
   */
  predicate Unambiguous(moves: seq<PGNMove>) {
    forall i :: 0 <= i < |moves| && moves[i].move == [] ==>
      moves[i].comment != [] && (i > 0 ==> moves[i - 1].comment != [])
  }

  predicate PlainMoves(moves: seq<PGNMove>) {
    forall i :: 0 <= i < |moves| ==> PlainMove(moves[i].move)
  }

  predicate NoClosingBrace(moves: seq<PGNMove>, from: nat) {
    forall i :: from <= i < |moves| ==> '}' !in moves[i].comment
  }

  /** Half-move `i` with the number it should show. */
  function HalfAt(m: PGNMove, first: nat, blackStarts: bool, i: nat): Half {
    var black := BlackToMove(blackStarts, i);
    Half(if m.move == [] || (black && i > 0) then None else Some(FullMove(first, blackStarts, i)),
         black && i == 0 && m.move != [], m)
  }

  function Expected(moves: seq<PGNMove>, first: nat, blackStarts: bool, result: string, from: nat): seq<Half>
    requires from <= |moves|
    decreases |moves| - from
  {
    if from == |moves| then [Half(None, false, PGNMove(result, []))]
    else [HalfAt(moves[from], first, blackStarts, from)] + Expected(moves, first, blackStarts, result, from + 1)
  }

  function AllTokens(moves: seq<PGNMove>, first: nat, blackStarts: bool, result: string): seq<string>
    requires first >= 1
  {
    GameTokens(moves, StartNumber(first, blackStarts), blackStarts, result)
  }

  lemma TokenIsText(m: PGNMove, first: nat, blackStarts: bool, i: nat)
    requires first >= 1
    ensures var h := HalfAt(m, first, blackStarts, i);
            && MoveToken(m, i, StartNumber(first, blackStarts) + i, blackStarts) == HalfText(h.number, h.dots, m)
            && Numbered(h.number, h.dots, m.move)
  {
    hide Decimal, FullMove, BlackToMove, Braced, StartNumber, MoveToken;
    CounterIsFullMove(first, blackStarts, i);
    PgnReader.TokenText(m, i, StartNumber(first, blackStarts) + i, blackStarts);
    var h := HalfAt(m, first, blackStarts, i);
    var tail := (if m.move == [] || m.comment == [] then [] else " ") + Braced(m.comment);
    assert [] + m.move + tail == m.move + tail;
  }

  predicate ResultText(result: string) { WordText(result) && !IsNumber(result) }

  /** All results that are written are words of this kind. */
  lemma ResultsAreWords()
    ensures ResultText("1-0") && ResultText("0-1") && ResultText("1/2-1/2") && ResultText("*")
  {}

  /** The end of the text: the result is read as a last word. */
  lemma ResultRead(length: nat, result: string)
    requires ResultText(result)
    ensures Items(Written(length, [result])) == [Word(result)]
    ensures Halves([Word(result)]) == [Half(None, false, PGNMove(result, []))]
  {
    hide Items;
    assert [result][1..] == [];
    ItemsOfSeparated(length, result, []);
    ItemsOfWord(result, []);
    NothingToRead();
    assert [Word(result)] + [] == [Word(result)];
    assert [Word(result)][1..] == [];
  }

  lemma NothingToRead()
    ensures Items([]) == [] && Halves([]) == []
  {}

  /** One half-move at the front of a text, with its comment intact or cut short. */
  lemma HalfRead(m: PGNMove, h: Half, rest: string)
    requires h.move == m && PlainMove(m.move) && Numbered(h.number, h.dots, m.move) && Closed(rest)
    requires m.move != [] || m.comment != []
    requires m.comment == [] ==> Items(rest) == [] || Items(rest)[0].Word?
    ensures var items := Items(HalfText(h.number, h.dots, m) + rest);
            && items != [] && (m.move != [] ==> items[0].Word?)
            && Halves(items) != []
            && (if '}' in m.comment then Halves(items)[0] != h else Halves(items) == [h] + Halves(Items(rest)))
  {
    hide Items, Halves, Decimal, Braced, HalfText;
    ItemsOfToken(h.number, h.dots, m, rest);
    if m.comment == [] {
      HalvesWithoutNote(h.number, h.dots, m.move, Items(rest));
    } else {
      ItemsOfBraced(m.comment, rest);
      var words := Words(h.number, h.dots, m.move);
      if '}' in m.comment {
        var cut: string, more: seq<Item> :|
          cut != m.comment && Items(Braced(m.comment) + rest) == [Note(cut)] + more;
        HalvesWithNote(h.number, h.dots, m.move, cut, more);
        assert words + ([Note(cut)] + more) == words + [Note(cut)] + more;
      } else {
        HalvesWithNote(h.number, h.dots, m.move, m.comment, Items(rest));
        assert words + ([Note(m.comment)] + Items(rest)) == words + [Note(m.comment)] + Items(rest);
      }
    }
  }

  lemma {:induction false} TextFrom(moves: seq<PGNMove>, first: nat, blackStarts: bool, result: string,
                                    i: nat, length: nat)
    requires first >= 1 && i <= |moves| && PlainMoves(moves) && Unambiguous(moves) && ResultText(result)
    ensures var items := Items(Written(length, AllTokens(moves, first, blackStarts, result)[i..]));
            && items != [] && (i == |moves| || moves[i].move != [] ==> items[0].Word?)
            && (Halves(items) == Expected(moves, first, blackStarts, result, i) <==> NoClosingBrace(moves, i))
    decreases |moves| - i
  {
    hide Items, Halves, MoveToken, PlainMove, HalfAt, ResultText, HalfText, BlackToMove;
    var all := AllTokens(moves, first, blackStarts, result);
    if i == |moves| {
      assert all[i..] == [result];
      ResultRead(length, result);
    } else {
      var m, h := moves[i], HalfAt(moves[i], first, blackStarts, i);
      var t := all[i];
      var rest := Written(NextLength(length, t), all[i + 1..]);
      assert all[i..][0] == t && all[i..][1..] == all[i + 1..];
      TokenIsText(m, first, blackStarts, i);
      TokenEmpty(m, i, StartNumber(first, blackStarts) + i, blackStarts);
      assert t != [];
      RestIsClosed(length, t, all[i + 1..]);
      ItemsOfSeparated(length, t, rest);
      TextFrom(moves, first, blackStarts, result, i + 1, NextLength(length, t));
      HalfMoveOf(m, first, blackStarts, i);
      HalfRead(m, h, rest);
      FrontMatters(Halves(Items(t + rest)), h, Halves(Items(rest)), Expected(moves, first, blackStarts, result, i + 1),
                   '}' !in m.comment);
    }
  }

  lemma HalfMoveOf(m: PGNMove, first: nat, blackStarts: bool, i: nat)
    ensures HalfAt(m, first, blackStarts, i).move == m
  {}

  lemma FrontMatters(read: seq<Half>, h: Half, rest: seq<Half>, expected: seq<Half>, clean: bool)
    requires read != [] && if clean then read == [h] + rest else read[0] != h
    ensures read == [h] + expected <==> clean && rest == expected
  {
    if clean && read == [h] + expected {
      assert read[1..] == rest && read[1..] == expected;
    }
  }

  /**
    From the text of a game its half-moves are recovered, with their numbers, moves and comments, and
    the result, if and only if no comment contains a closing brace.
   */
  lemma TextReadBackExactlyWhen(moves: seq<PGNMove>, first: nat, blackStarts: bool, result: string)
    requires first >= 1 && PlainMoves(moves) && Unambiguous(moves) && ResultText(result)
    ensures Halves(Items(Movetext(AllTokens(moves, first, blackStarts, result)))) ==
            Expected(moves, first, blackStarts, result, 0)
            <==> NoClosingBrace(moves, 0)
  {
    hide Items, Halves, Movetext, Written, PlainMoves, Unambiguous, ResultText;
    var all := AllTokens(moves, first, blackStarts, result);
    MovetextIsWritten(all);
    assert all[0..] == all;
    TextFrom(moves, first, blackStarts, result, 0, 0);
  }
}
