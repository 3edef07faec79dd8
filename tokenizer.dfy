/** The quote-aware lexer `tokenize` (src/main.rs:217-257).

    The scan is specified by a step function on the scanner's variables
    (`Step`), its left-to-right iteration (`Run`) and the end-of-input rule
    (`Finish`); `Tokenize` is the loop itself, proved equal to `Tokens`. */
module Tokenizer {
  import opened Text

  /** The lexer's quoting mode; the two quote modes exclude each other. */
  datatype QuoteState = Unquoted | InSingleQuote | InDoubleQuote

  /** The loop's variables between two characters: the tokens emitted so far,
      the token being built, and the quoting mode. */
  datatype Scanner = Scanner(tokens: seq<string>, current: string, state: QuoteState)

  const Start: Scanner := Scanner([], [], Unquoted)

  /** One iteration of the loop on character `ch`. */
  function Step(sc: Scanner, ch: char): (r: Scanner)
    // only a quote character changes the mode
    ensures r.state != sc.state ==> ch == '\'' || ch == '"'
    // only an unquoted space emits a token, and never an empty one
    ensures r.tokens != sc.tokens ==>
              ch == ' ' && sc.state == Unquoted && sc.current != []
              && r.tokens == sc.tokens + [sc.current] && r.current == []
    // inside single quotes everything but `'` is literal, inside double
    // quotes everything but `"` is literal
    ensures sc.state == InSingleQuote && ch != '\'' ==> r == sc.(current := sc.current + [ch])
    ensures sc.state == InDoubleQuote && ch != '"' ==> r == sc.(current := sc.current + [ch])
  {
    if ch == '\'' && sc.state == Unquoted then sc.(state := InSingleQuote)
    else if ch == '\'' && sc.state == InSingleQuote then sc.(state := Unquoted)
    else if ch == '"' && sc.state == Unquoted then sc.(state := InDoubleQuote)
    else if ch == '"' && sc.state == InDoubleQuote then sc.(state := Unquoted)
    else if ch == '\'' && sc.state == InDoubleQuote then sc.(current := sc.current + [ch])
    else if ch == ' ' && sc.state == Unquoted then
      (if sc.current != [] then Scanner(sc.tokens + [sc.current], [], Unquoted) else sc)
    else sc.(current := sc.current + [ch])
  }

  /** The loop over the characters of `s`, starting from `sc`. */
  function Run(s: string, sc: Scanner): Scanner {
    if s == [] then sc else Run(s[1..], Step(sc, s[0]))
  }

  /** After the loop: a non-empty buffer is trimmed and emitted. */
  function Finish(sc: Scanner): seq<string> {
    if sc.current != [] then sc.tokens + [Trim(sc.current)] else sc.tokens
  }

  /** What `tokenize` returns for `input`. */
  function Tokens(input: string): seq<string> {
    Finish(Run(input, Start))
  }

  /** `tokenize`: one pass over the characters, updating the token list,
      the buffer and the quoting mode in place. */
  method Tokenize(input: string) returns (tokens: seq<string>)
    ensures tokens == Tokens(input)
    ensures forall k :: 0 <= k < |tokens| - 1 ==> tokens[k] != []
  {
    tokens := [];
    var current: string := [];
    var state := Unquoted;
    for i := 0 to |input|
      invariant Run(input[i..], Scanner(tokens, current, state)) == Run(input, Start)
    {
      var ch := input[i];
      assert input[i..][1..] == input[i + 1..];
      if ch == '\'' && state == Unquoted {
        state := InSingleQuote;
        continue;
      } else if ch == '\'' && state == InSingleQuote {
        state := Unquoted;
        continue;
      }
      if ch == '"' && state == Unquoted {
        state := InDoubleQuote;
        continue;
      } else if ch == '"' && state == InDoubleQuote {
        state := Unquoted;
        continue;
      } else if ch == '\'' && state == InDoubleQuote {
        current := current + [ch];
        continue;
      }
      if ch == ' ' && state == Unquoted {
        if current != [] {
          tokens := tokens + [current];
          current := [];
        }
        continue;
      }
      current := current + [ch];
    }
    assert input[|input|..] == [];
    if current != [] {
      tokens := tokens + [Trim(current)];
    }
    TokensNonEmptyButLast(input);
  }

  /** The scan never stores an empty token. */
  lemma {:induction false} RunKeepsTokensNonEmpty(s: string, sc: Scanner)
    requires forall k :: 0 <= k < |sc.tokens| ==> sc.tokens[k] != []
    ensures forall k :: 0 <= k < |Run(s, sc).tokens| ==> Run(s, sc).tokens[k] != []
  {
    if s != [] {
      RunKeepsTokensNonEmpty(s[1..], Step(sc, s[0]));
    }
  }

  /** Runs of unquoted spaces never yield an empty token: only the last
      token, the trimmed buffer, can be empty, and then the buffer held
      nothing but whitespace. */
  lemma TokensNonEmptyButLast(input: string)
    ensures forall k :: 0 <= k < |Tokens(input)| - 1 ==> Tokens(input)[k] != []
    ensures Tokens(input) != [] && Tokens(input)[|Tokens(input)| - 1] == [] ==>
              var buffer := Run(input, Start).current;
              buffer != [] && forall i :: 0 <= i < |buffer| ==> IsWhitespace(buffer[i])
  {
    RunKeepsTokensNonEmpty(input, Start);
  }

  /** The empty line has no tokens. */
  lemma TokensOfEmptyLine()
    ensures Tokens([]) == []
  {
  }

  /** A single-quoted stretch `'q'` (with no `'` in `q`) appends `q` verbatim
      to the current token: double quotes and spaces in it are literal, and
      the two quote characters are dropped. */
  lemma {:induction false} SingleQuoted(q: string, rest: string, sc: Scanner)
    requires sc.state == Unquoted && '\'' !in q
    ensures Run(['\''] + q + ['\''] + rest, sc) == Run(rest, sc.(current := sc.current + q))
  {
    var s := ['\''] + q + ['\''] + rest;
    assert s[0] == '\'' && s[1..] == q + ['\''] + rest;
    InSingleQuotes(q, rest, sc.(state := InSingleQuote));
  }

  lemma {:induction false} InSingleQuotes(q: string, rest: string, sc: Scanner)
    requires sc.state == InSingleQuote && '\'' !in q
    ensures Run(q + ['\''] + rest, sc) == Run(rest, sc.(current := sc.current + q, state := Unquoted))
  {
    var s := q + ['\''] + rest;
    if q == [] {
      assert s[0] == '\'' && s[1..] == rest;
      assert sc.current + q == sc.current;
    } else {
      assert s[0] == q[0] && s[1..] == q[1..] + ['\''] + rest;
      InSingleQuotes(q[1..], rest, sc.(current := sc.current + [q[0]]));
      assert sc.current + [q[0]] + q[1..] == sc.current + q;
    }
  }

  /** A double-quoted stretch `"q"` (with no `"` in `q`) appends `q` verbatim
      to the current token: single quotes and spaces in it are literal. */
  lemma {:induction false} DoubleQuoted(q: string, rest: string, sc: Scanner)
    requires sc.state == Unquoted && '"' !in q
    ensures Run(['"'] + q + ['"'] + rest, sc) == Run(rest, sc.(current := sc.current + q))
  {
    var s := ['"'] + q + ['"'] + rest;
    assert s[0] == '"' && s[1..] == q + ['"'] + rest;
    InDoubleQuotes(q, rest, sc.(state := InDoubleQuote));
  }

  lemma {:induction false} InDoubleQuotes(q: string, rest: string, sc: Scanner)
    requires sc.state == InDoubleQuote && '"' !in q
    ensures Run(q + ['"'] + rest, sc) == Run(rest, sc.(current := sc.current + q, state := Unquoted))
  {
    var s := q + ['"'] + rest;
    if q == [] {
      assert s[0] == '"' && s[1..] == rest;
      assert sc.current + q == sc.current;
    } else {
      assert s[0] == q[0] && s[1..] == q[1..] + ['"'] + rest;
      InDoubleQuotes(q[1..], rest, sc.(current := sc.current + [q[0]]));
      assert sc.current + [q[0]] + q[1..] == sc.current + q;
    }
  }

  /** Everything the scanner has kept, emitted or not. */
  function Kept(sc: Scanner): string {
    Concat(sc.tokens) + sc.current
  }

  lemma {:induction false} RunSubseq(s: string, sc: Scanner)
    ensures IsSubseq(Kept(Run(s, sc)), Kept(sc) + s)
  {
    if s == [] {
      SubseqRefl(Kept(sc));
      assert Kept(sc) + s == Kept(sc);
    } else {
      var next := Step(sc, s[0]);
      RunSubseq(s[1..], next);
      // one step keeps either nothing or exactly the character read
      if Kept(next) == Kept(sc) {
        SubseqRefl(s[1..]);
        SubseqCons(s[1..], s[0], s[1..]);
        SubseqPrefix(Kept(sc), s[1..], [s[0]] + s[1..]);
      } else {
        assert Concat(sc.tokens + [sc.current]) == Concat(sc.tokens) + sc.current;
        assert Kept(next) == Kept(sc) + [s[0]];
        SubseqRefl(Kept(next) + s[1..]);
        assert Kept(next) + s[1..] == Kept(sc) + ([s[0]] + s[1..]);
      }
      assert [s[0]] + s[1..] == s;
      SubseqTrans(Kept(Run(s, sc)), Kept(next) + s[1..], Kept(sc) + s);
    }
  }

  /** The tokens, concatenated, are a subsequence of the input: the lexer
      only ever drops characters (quote toggles, separators, and whitespace
      trimmed from the last token), never invents or reorders them. */
  lemma TokensSubseq(input: string)
    ensures IsSubseq(Concat(Tokens(input)), input)
  {
    var sc := Run(input, Start);
    RunSubseq(input, Start);
    assert Kept(Start) + input == input;
    if sc.current != [] {
      var ts := sc.tokens + [Trim(sc.current)];
      assert Concat(ts) == Concat(sc.tokens) + Trim(sc.current);
      TrimSubseq(sc.current);
      SubseqPrefix(Concat(sc.tokens), Trim(sc.current), sc.current);
      SubseqTrans(Concat(ts), Kept(sc), input);
    } else {
      assert Kept(sc) == Concat(sc.tokens);
    }
  }

  /** From an unquoted state whose buffer is plain, the scan of plain text
      emits exactly the words of the buffer followed by that text. */
  lemma {:induction false} RunPlain(s: string, sc: Scanner)
    requires sc.state == Unquoted && Plain(s)
    requires NoWhitespace(sc.current)
    ensures Finish(Run(s, sc)) == sc.tokens + Words(sc.current + s)
    decreases |s|, 1
  {
    if s == [] {
      assert sc.current + s == sc.current;
      FinishPlain(sc);
    } else {
      PlainTail(s);
      assert Run(s, sc) == Run(s[1..], Step(sc, s[0]));
      assert s == [s[0]] + s[1..];
      if s[0] == ' ' {
        RunPlainSpace(s[1..], sc);
      } else {
        RunPlainChar(s[0], s[1..], sc);
      }
    }
  }

  lemma {:induction false} RunPlainSpace(t: string, sc: Scanner)
    requires sc.state == Unquoted && Plain(t)
    requires NoWhitespace(sc.current)
    ensures Finish(Run(t, Step(sc, ' '))) == sc.tokens + Words(sc.current + ([' '] + t))
    decreases |t| + 1, 0
  {
    var c := sc.current;
    var next := Step(sc, ' ');
    var word := if c == [] then [] else [c];
    assert next.tokens == sc.tokens + word && next.current == [] && next.state == Unquoted;
    assert next.current + t == t;
    RunPlain(t, next);
    NoSpaceIn(c);
    WordsAfterSpace(c, t);
    assert c + ([' '] + t) == c + [' '] + t;
    assert sc.tokens + word + Words(t) == sc.tokens + (word + Words(t));
  }

  lemma {:induction false} RunPlainChar(ch: char, t: string, sc: Scanner)
    requires sc.state == Unquoted && Plain(t)
    requires NoWhitespace(sc.current)
    requires ch != '\'' && ch != '"' && !IsWhitespace(ch)
    ensures Finish(Run(t, Step(sc, ch))) == sc.tokens + Words(sc.current + ([ch] + t))
    decreases |t| + 1, 0
  {
    var c := sc.current;
    var next := sc.(current := c + [ch]);
    assert ch != ' ';
    assert Step(sc, ch) == next;
    NoWhitespaceSnoc(c, ch);
    RunPlain(t, next);
    assert c + [ch] + t == c + ([ch] + t);
  }

  lemma FinishPlain(sc: Scanner)
    requires NoWhitespace(sc.current)
    ensures Finish(sc) == sc.tokens + Words(sc.current)
  {
    var c := sc.current;
    NoSpaceIn(c);
    SplitPrefix(c, [], ' ');
    assert c + [] == c;
    assert Split(c, ' ') == [c];
    assert Words(c) == if c == [] then [] else [c];
  }

  lemma NoSpaceIn(c: string)
    requires NoWhitespace(c)
    ensures ' ' !in c
  {
  }

  lemma PlainTail(s: string)
    requires s != [] && Plain(s)
    ensures Plain(s[1..])
    ensures s[0] != '\'' && s[0] != '"' && (s[0] == ' ' || !IsWhitespace(s[0]))
  {
    forall i | 0 <= i < |s[1..]| ensures s[1..][i] == s[i + 1] { }
  }

  lemma NoWhitespaceSnoc(c: string, ch: char)
    requires NoWhitespace(c) && !IsWhitespace(ch)
    ensures NoWhitespace(c + [ch])
  {
    forall i | 0 <= i < |c + [ch]| ensures !IsWhitespace((c + [ch])[i]) {
      if i < |c| { assert (c + [ch])[i] == c[i]; }
    }
  }

  /** A space ends the word in front of it. */
  lemma WordsAfterSpace(c: string, t: string)
    requires ' ' !in c
    ensures Words(c + [' '] + t) == (if c == [] then [] else [c]) + Words(t)
  {
    var s := [' '] + t;
    assert c + [' '] + t == c + s;
    SplitPrefix(c, s, ' ');
    assert s[0] == ' ' && s[1..] == t;
    assert Split(s, ' ') == [[]] + Split(t, ' ');
    assert Split(c + s, ' ') == [c + []] + Split(t, ' ');
    assert c + [] == c;
  }

  /** On plain text (no quotes, no whitespace but spaces) the lexer is
      splitting on spaces with the empty pieces dropped. */
  lemma PlainTokens(input: string)
    requires Plain(input)
    ensures Tokens(input) == Words(input)
  {
    RunPlain(input, Start);
    assert [] + input == input;
  }

  /** Tokenizing clean words joined by single spaces gives the words back:
      the lexer is idempotent on already-clean input. */
  lemma TokensOfJoin(ws: seq<string>)
    requires forall k :: 0 <= k < |ws| ==> CleanWord(ws[k])
    ensures Tokens(Join(ws, " ")) == ws
  {
    JoinCleanWords(ws);
    PlainTokens(Join(ws, " "));
  }

  // ---- Spaces and bare words ----

  /** Running over a concatenation is running over each part in turn. */
  lemma {:induction false} RunAppend(a: string, b: string, sc: Scanner)
    ensures Run(a + b, sc) == Run(b, Run(a, sc))
  {
    if a == [] {
      assert a + b == b;
    } else {
      assert (a + b)[0] == a[0] && (a + b)[1..] == a[1..] + b;
      RunAppend(a[1..], b, Step(sc, a[0]));
    }
  }

  /** Unquoted text with no quote and no space goes into the buffer as is. */
  lemma {:induction false} RunBare(w: string, sc: Scanner)
    requires sc.state == Unquoted
    requires forall i :: 0 <= i < |w| ==> w[i] != '\'' && w[i] != '"' && w[i] != ' '
    ensures Run(w, sc) == sc.(current := sc.current + w)
  {
    if w == [] {
      assert sc.current + w == sc.current;
    } else {
      RunBare(w[1..], sc.(current := sc.current + [w[0]]));
      assert sc.current + [w[0]] + w[1..] == sc.current + w;
    }
  }

  /** An unquoted space ends the token being built, if there is one. */
  lemma RunSpace(t: string, sc: Scanner)
    requires sc.state == Unquoted
    ensures Run([' '] + t, sc) ==
              Run(t, if sc.current == [] then sc else Scanner(sc.tokens + [sc.current], [], Unquoted))
  {
    assert ([' '] + t)[0] == ' ' && ([' '] + t)[1..] == t;
  }

  /** Unquoted spaces with an empty buffer do nothing. */
  lemma {:induction false} RunBlank(gap: string, t: string, sc: Scanner)
    requires sc.state == Unquoted && sc.current == []
    requires forall i :: 0 <= i < |gap| ==> gap[i] == ' '
    ensures Run(gap + t, sc) == Run(t, sc)
  {
    if gap != [] {
      assert gap + t == [' '] + (gap[1..] + t);
      RunSpace(gap[1..] + t, sc);
      RunBlank(gap[1..], t, sc);
    } else {
      assert gap + t == t;
    }
  }

  /** Runs of unquoted spaces collapse: two words separated by any number
      of spaces give exactly two tokens, e.g. `hello   world`. */
  lemma {:induction false} SpacesCollapse(w: string, gap: string, v: string)
    requires CleanWord(w) && CleanWord(v)
    requires gap != [] && forall i :: 0 <= i < |gap| ==> gap[i] == ' '
    ensures Tokens(w + gap + v) == [w, v]
  {
    var sc1 := Scanner([w], [], Unquoted);
    assert w + gap + v == w + ([' '] + (gap[1..] + v));
    calc {
      Run(w + ([' '] + (gap[1..] + v)), Start);
      { RunWordSpace(w, gap[1..] + v, Start); assert [] + [w] == [w]; }
      Run(gap[1..] + v, sc1);
      { RunBlank(gap[1..], v, sc1); }
      Run(v, sc1);
    }
    FinishWord(v, sc1);
  }

  /** A bare word followed by an unquoted space: the word becomes a token. */
  lemma {:induction false} RunWordSpace(w: string, t: string, sc: Scanner)
    requires sc.state == Unquoted && sc.current == [] && CleanWord(w)
    ensures Run(w + ([' '] + t), sc) == Run(t, Scanner(sc.tokens + [w], [], Unquoted))
  {
    NoSpaceIn(w);
    RunAppend(w, [' '] + t, sc);
    RunBare(w, sc);
    assert sc.current + w == w;
    RunSpace(t, sc.(current := w));
  }

  /** The last bare word of a line is the last token. */
  lemma {:induction false} FinishWord(w: string, sc: Scanner)
    requires sc.state == Unquoted && sc.current == [] && CleanWord(w)
    ensures Finish(Run(w, sc)) == sc.tokens + [w]
  {
    NoSpaceIn(w);
    RunBare(w, sc);
    assert sc.current + w == w;
  }

  /** The newline `read_line` leaves at the end of a line is buffered with
      the last word and trimmed off with it. */
  lemma {:induction false} FinishWordNewline(w: string, sc: Scanner)
    requires sc.state == Unquoted && sc.current == [] && CleanWord(w)
    ensures Finish(Run(w + "\n", sc)) == sc.tokens + [w]
  {
    var t := w + "\n";
    NoSpaceIn(w);
    forall i | 0 <= i < |t| ensures t[i] != '\'' && t[i] != '"' && t[i] != ' ' {
      if i < |w| {
        assert t[i] == w[i];
      } else {
        assert t[i] == '\n';
      }
    }
    RunBare(t, sc);
    assert sc.current + t == t;
    assert IsWhitespace('\n');
    TrimTrailing(w, "\n");
  }

  /** A one-word line read with its newline gives that word. */
  lemma WordLine(w: string)
    requires CleanWord(w)
    ensures Tokens(w + "\n") == [w]
  {
    FinishWordNewline(w, Start);
    assert [] + [w] == [w];
  }

  /** A two-word line read with its newline gives the two words. */
  lemma {:induction false} TwoWordLine(w: string, v: string)
    requires CleanWord(w) && CleanWord(v)
    ensures Tokens(w + " " + v + "\n") == [w, v]
  {
    assert w + " " + v + "\n" == w + ([' '] + (v + "\n"));
    RunWordSpace(w, v + "\n", Start);
    assert [] + [w] == [w];
    FinishWordNewline(v, Scanner([w], [], Unquoted));
  }

  /** `w 'q' v`: spaces and double quotes inside single quotes are kept,
      e.g. `echo 'a  b' c` gives `echo`, `a  b`, `c`. */
  lemma {:induction false} SingleQuotedArgument(w: string, q: string, v: string)
    requires CleanWord(w) && CleanWord(v) && q != [] && '\'' !in q
    ensures Tokens(w + " '" + q + "' " + v) == [w, q, v]
  {
    var sc1 := Scanner([w], [], Unquoted);
    var sc2 := Scanner([w], q, Unquoted);
    var sc3 := Scanner([w, q], [], Unquoted);
    var rest := [' '] + v;
    var t := ['\''] + q + ['\''] + rest;
    assert w + " '" + q + "' " + v == w + ([' '] + t);
    calc {
      Run(w + ([' '] + t), Start);
      { RunWordSpace(w, t, Start); assert [] + [w] == [w]; }
      Run(t, sc1);
      { SingleQuoted(q, rest, sc1); assert sc1.(current := sc1.current + q) == sc2; }
      Run(rest, sc2);
      { RunSpace(v, sc2); assert [w] + [q] == [w, q]; }
      Run(v, sc3);
    }
    FinishWord(v, sc3);
  }

  /** `w "q" v`: spaces and single quotes inside double quotes are kept,
      e.g. `echo "it's" fine` gives `echo`, `it's`, `fine`. */
  lemma {:induction false} DoubleQuotedArgument(w: string, q: string, v: string)
    requires CleanWord(w) && CleanWord(v) && q != [] && '"' !in q
    ensures Tokens(w + " \"" + q + "\" " + v) == [w, q, v]
  {
    var sc1 := Scanner([w], [], Unquoted);
    var sc2 := Scanner([w], q, Unquoted);
    var sc3 := Scanner([w, q], [], Unquoted);
    var rest := [' '] + v;
    var t := ['"'] + q + ['"'] + rest;
    assert w + " \"" + q + "\" " + v == w + ([' '] + t);
    calc {
      Run(w + ([' '] + t), Start);
      { RunWordSpace(w, t, Start); assert [] + [w] == [w]; }
      Run(t, sc1);
      { DoubleQuoted(q, rest, sc1); assert sc1.(current := sc1.current + q) == sc2; }
      Run(rest, sc2);
      { RunSpace(v, sc2); assert [w] + [q] == [w, q]; }
      Run(v, sc3);
    }
    FinishWord(v, sc3);
  }

  /** Inside a single quote that is never closed, the rest of the line goes
      into the buffer verbatim. */
  lemma {:induction false} OpenSingleQuote(q: string, sc: Scanner)
    requires sc.state == InSingleQuote && '\'' !in q
    ensures Run(q, sc) == sc.(current := sc.current + q)
  {
    if q == [] {
      assert sc.current + q == sc.current;
    } else {
      OpenSingleQuote(q[1..], sc.(current := sc.current + [q[0]]));
      assert sc.current + [q[0]] + q[1..] == sc.current + q;
    }
  }

  /** `w 'q` with the quote left open: the opening quote is dropped and the
      text after it, trimmed, is the last token. */
  lemma {:induction false} UnterminatedQuote(w: string, q: string)
    requires CleanWord(w) && q != [] && '\'' !in q
    ensures Tokens(w + " '" + q) == [w, Trim(q)]
  {
    RunUnterminatedQuote(w, q);
    assert [w] + [Trim(q)] == [w, Trim(q)];
  }

  lemma {:induction false} RunUnterminatedQuote(w: string, q: string)
    requires CleanWord(w) && '\'' !in q
    ensures Run(w + " '" + q, Start) == Scanner([w], q, InSingleQuote)
  {
    var sc1 := Scanner([w], [], Unquoted);
    var t := ['\''] + q;
    assert " '" + q == [' '] + t;
    assert w + " '" + q == w + ([' '] + t);
    assert t[0] == '\'' && t[1..] == q;
    calc {
      Run(w + ([' '] + t), Start);
      { RunWordSpace(w, t, Start); assert [] + [w] == [w]; }
      Run(t, sc1);
      Run(q, sc1.(state := InSingleQuote));
      { OpenSingleQuote(q, sc1.(state := InSingleQuote)); assert [] + q == q; }
      Scanner([w], q, InSingleQuote);
    }
  }

  /** Inside a double quote that is never closed, the rest of the line goes
      into the buffer verbatim, single quotes included. */
  lemma {:induction false} OpenDoubleQuote(q: string, sc: Scanner)
    requires sc.state == InDoubleQuote && '"' !in q
    ensures Run(q, sc) == sc.(current := sc.current + q)
  {
    if q == [] {
      assert sc.current + q == sc.current;
    } else {
      OpenDoubleQuote(q[1..], sc.(current := sc.current + [q[0]]));
      assert sc.current + [q[0]] + q[1..] == sc.current + q;
    }
  }

  /** `w "q` with the quote left open: the opening quote is dropped and the
      text after it, trimmed, is the last token. */
  lemma {:induction false} UnterminatedDoubleQuote(w: string, q: string)
    requires CleanWord(w) && q != [] && '"' !in q
    ensures Tokens(w + " \"" + q) == [w, Trim(q)]
  {
    RunUnterminatedDoubleQuote(w, q);
    assert [w] + [Trim(q)] == [w, Trim(q)];
  }

  lemma {:induction false} RunUnterminatedDoubleQuote(w: string, q: string)
    requires CleanWord(w) && '"' !in q
    ensures Run(w + " \"" + q, Start) == Scanner([w], q, InDoubleQuote)
  {
    var sc1 := Scanner([w], [], Unquoted);
    var t := ['"'] + q;
    assert " \"" + q == [' '] + t;
    assert w + " \"" + q == w + ([' '] + t);
    assert t[0] == '"' && t[1..] == q;
    calc {
      Run(w + ([' '] + t), Start);
      { RunWordSpace(w, t, Start); assert [] + [w] == [w]; }
      Run(t, sc1);
      Run(q, sc1.(state := InDoubleQuote));
      { OpenDoubleQuote(q, sc1.(state := InDoubleQuote)); assert [] + q == q; }
      Scanner([w], q, InDoubleQuote);
    }
  }

  /** A bare newline is one empty token: only the last token is trimmed. */
  lemma ExampleBareNewline()
    ensures Tokens("\n") == [""]
  {
    RunBare("\n", Start);
    assert IsWhitespace('\n');
  }

  /** `echo` followed by a space and a newline: the trimmed last token is empty. */
  lemma ExampleTrailingNewline()
    ensures Tokens("echo \n") == ["echo", ""]
  {
    assert CleanWord("echo");
    assert IsWhitespace('\n');
    WordThenBlank("echo", '\n');
    assert "echo" + [' ', '\n'] == "echo \n";
  }

  /** A word, an unquoted space and one more whitespace character: the word,
      then the empty token the trimmed character leaves. */
  lemma {:induction false} WordThenBlank(w: string, c: char)
    requires CleanWord(w) && IsWhitespace(c) && c != ' '
    ensures Tokens(w + [' ', c]) == [w, ""]
  {
    var sc := Scanner([w], [], Unquoted);
    assert w + [' ', c] == w + ([' '] + [c]);
    RunWordSpace(w, [c], Start);
    assert [] + [w] == [w];
    RunBare([c], sc);
    assert [] + [c] == [c];
    assert Run(w + [' ', c], Start) == Scanner([w], [c], Unquoted);
    assert Trim([c]) == [];
    assert [w] + [[]] == [w, ""];
  }
}
