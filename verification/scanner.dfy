/**
 * The scanner (src/Core/Scanner.cs): a character-level state machine over the cursors
 * `start` and `current`, the line counter and the token list. This snapshot recognises
 * punctuation, one- and two-character operators, `//` comments, whitespace and newlines;
 * every other character is reported.
 *
 * `AddToken` cuts the lexeme with `Substring(_start, _current)`, passing the absolute
 * cursor where the host expects a length. `LexemeRule` selects between that call as
 * written and the intended `Substring(_start, _current - _start)`.
 */
module Scanner {
  import opened Common
  import opened Tokens

  /** A lexical diagnostic, as passed to `_logger.Error(line, message)`. */
  datatype Diagnostic = Diagnostic(line: int, message: string)

  const UnexpectedCharacter: string := "Unexpected character."

  datatype LexemeRule =
    | AsWritten   // Substring(_start, _current)
    | Corrected   // Substring(_start, _current - _start)

  datatype Scanner = Scanner(
    source: string, start: nat, current: nat, line: int,
    tokens: seq<Token>, errors: seq<Diagnostic>)

  ghost predicate Valid(s: Scanner)
  {
    s.start <= s.current <= |s.source|
  }

  /**
   * A scanning step ends in the next state, or in the host's ArgumentOutOfRangeException,
   * with the diagnostics already logged when it was thrown.
   */
  datatype Step = Next(scanner: Scanner) | OutOfRange(start: nat, length: nat, errors: seq<Diagnostic>)

  /** The result of `ScanTokens`. */
  datatype Outcome =
    | Scanned(tokens: seq<Token>, errors: seq<Diagnostic>)
    | Crashed(start: nat, length: nat, errors: seq<Diagnostic>)

  function IsAtEnd(s: Scanner): bool
  {
    s.current >= |s.source|
  }

  function Advance(s: Scanner): (Scanner, char)
    requires s.current < |s.source|
  {
    (s.(current := s.current + 1), s.source[s.current])
  }

  /** Consumes the next character only if input remains and it is `expected`. */
  function Match(s: Scanner, expected: char): (r: (Scanner, bool))
    ensures r.1 <==> s.current < |s.source| && s.source[s.current] == expected
    ensures r.0 == s.(current := s.current + if r.1 then 1 else 0)
  {
    if IsAtEnd(s) then (s, false)
    else if s.source[s.current] != expected then (s, false)
    else (s.(current := s.current + 1), true)
  }

  function Peek(s: Scanner): char
  {
    if IsAtEnd(s) then '\0' else s.source[s.current]
  }

  /** The length argument `AddToken` passes to `Substring`. */
  function LexemeLength(rule: LexemeRule, s: Scanner): int
  {
    match rule
    case AsWritten => s.current
    case Corrected => s.current - s.start
  }

  /** `AddToken(type)`: appends a token with a null literal, or fails inside `Substring`. */
  function AddToken(s: Scanner, kind: TokenType, rule: LexemeRule): (r: Step)
    requires Valid(s)
    ensures r.OutOfRange? <==> s.start + LexemeLength(rule, s) > |s.source|
    ensures r.OutOfRange? ==> r == OutOfRange(s.start, LexemeLength(rule, s), s.errors)
    ensures r.Next? ==>
              r.scanner == s.(tokens := s.tokens +
                [Token(kind, s.source[s.start..s.start + LexemeLength(rule, s)], NilValue, s.line)])
  {
    var length := LexemeLength(rule, s);
    if s.start + length <= |s.source| then
      Next(s.(tokens := s.tokens + [Token(kind, s.source[s.start..s.start + length], NilValue, s.line)]))
    else
      OutOfRange(s.start, length, s.errors)
  }

  /** The comment loop: advances up to, not past, the next newline. */
  function SkipComment(s: Scanner): (r: Scanner)
    requires Valid(s)
    ensures Valid(r) && r == s.(current := r.current) && s.current <= r.current
    ensures s.source[r.current..] == AfterComment(s.source[s.current..])
    decreases |s.source| - s.current
  {
    if Peek(s) != '\n' && !IsAtEnd(s) then
      var (next, _) := Advance(s);
      assert s.source[s.current..][1..] == s.source[next.current..];
      SkipComment(next)
    else
      s
  }

  /**
   * What a character starts, grouping the cases of the scanner's `switch`: a fixed
   * one-character token, an operator that may take a following `=`, a slash (operator or
   * comment), insignificant whitespace, a newline, or anything else.
   */
  datatype Lexeme =
    | Single(kind: TokenType)
    | Operator(alone: TokenType, withEqual: TokenType)
    | SlashOrComment
    | Blank
    | NewLine
    | Unexpected

  function Classify(c: char): Lexeme
  {
    match c
    case '(' => Single(LeftParen)
    case ')' => Single(RightParen)
    case '{' => Single(LeftBrace)
    case '}' => Single(RightBrace)
    case ',' => Single(Comma)
    case '.' => Single(Dot)
    case '-' => Single(Minus)
    case '+' => Single(Plus)
    case ';' => Single(Semicolon)
    case '*' => Single(Star)
    case '!' => Operator(Bang, BangEqual)
    case '=' => Operator(Equal, EqualEqual)
    case '<' => Operator(Less, LessEqual)
    case '>' => Operator(Greater, GreaterEqual)
    case '/' => SlashOrComment
    case ' ' => Blank
    case '\r' => Blank
    case '\t' => Blank
    case '\n' => NewLine
    case _ => Unexpected
  }

  /** One iteration of the scanning loop, from a state whose `start` is `current`. */
  function ScanToken(s: Scanner, rule: LexemeRule): (r: Step)
    requires Valid(s) && s.start == s.current < |s.source|
    ensures r.Next? ==> Valid(r.scanner) && r.scanner.source == s.source && r.scanner.start == s.start
    ensures r.Next? ==> s.current < r.scanner.current
    ensures r.Next? ==> |s.tokens| <= |r.scanner.tokens| <= |s.tokens| + 1
    ensures r.Next? ==> r.scanner.line == s.line + if s.source[s.current] == '\n' then 1 else 0
    ensures r.Next? ==> s.errors <= r.scanner.errors
    ensures r.OutOfRange? ==> r.errors == s.errors
    ensures rule == Corrected ==> r.Next?
  {
    var (s1, c) := Advance(s);
    match Classify(c)
    case Single(kind) => AddToken(s1, kind, rule)
    case Operator(alone, withEqual) =>
      var (s2, two) := Match(s1, '=');
      AddToken(s2, if two then withEqual else alone, rule)
    case SlashOrComment =>
      var (s2, comment) := Match(s1, '/');
      if comment then Next(SkipComment(s2)) else AddToken(s2, Slash, rule)
    case Blank => Next(s1)
    case NewLine => Next(s1.(line := s1.line + 1))
    case Unexpected => Next(s1.(errors := s1.errors + [Diagnostic(s1.line, UnexpectedCharacter)]))
  }

  /** `while (!IsAtEnd()) { _start = _current; ScanToken(); }` */
  function ScanLoop(s: Scanner, rule: LexemeRule): (r: Step)
    requires Valid(s)
    ensures r.Next? ==> Valid(r.scanner) && r.scanner.source == s.source && IsAtEnd(r.scanner)
    ensures r.Next? ==> |s.tokens| <= |r.scanner.tokens| <= |s.tokens| + (|s.source| - s.current)
    ensures r.Next? ==> s.errors <= r.scanner.errors
    ensures r.OutOfRange? ==> s.errors <= r.errors
    ensures rule == Corrected ==> r.Next?
    decreases |s.source| - s.current
  {
    if IsAtEnd(s) then Next(s)
    else
      match ScanToken(s.(start := s.current), rule)
      case OutOfRange(start, length, errors) => OutOfRange(start, length, errors)
      case Next(next) => ScanLoop(next, rule)
  }

  function EndOfInput(line: int): Token
  {
    Token(Eof, "", NilValue, line)
  }

  /**
   * `ScanTokens`: the loop, then exactly one end-of-input token (empty lexeme, null
   * literal, final line). Every token before it comes from one loop step, which consumes
   * at least one character, so there are at most |source| + 1 tokens.
   */
  function ScanTokens(source: string, rule: LexemeRule): (r: Outcome)
    ensures r.Scanned? ==> 0 < |r.tokens| <= |source| + 1
    ensures r.Scanned? ==> r.tokens[|r.tokens| - 1] == EndOfInput(1 + Count(source, '\n'))
    ensures r.Scanned? ==> forall i :: 0 <= i < |r.tokens| - 1 ==> r.tokens[i].kind != Eof
    ensures rule == Corrected ==> r.Scanned?
  {
    var initial := Scanner(source, 0, 0, 1, [], []);
    match ScanLoop(initial, rule)
    case OutOfRange(start, length, errors) => Crashed(start, length, errors)
    case Next(last) =>
      LoopEndFacts(source, rule);
      Scanned(last.tokens + [EndOfInput(last.line)], last.errors)
  }

  /** Whatever the rule, a loop that completes ends on the last line and found no end-of-input. */
  lemma LoopEndFacts(source: string, rule: LexemeRule)
    ensures var r := ScanLoop(Scanner(source, 0, 0, 1, [], []), rule);
            r.Next? ==>
              && r.scanner.line == 1 + Count(source, '\n')
              && forall i :: 0 <= i < |r.scanner.tokens| ==> r.scanner.tokens[i].kind != Eof
  {
    var initial := Scanner(source, 0, 0, 1, [], []);
    var r := ScanLoop(initial, rule);
    if r.Next? {
      var c := ScanLoop(initial, Corrected).scanner;
      assert r.scanner.line == c.line && Shapes(r.scanner.tokens) == Shapes(c.tokens) by {
        AsWrittenLoop(initial, initial);
        if rule == Corrected {
          assert r.scanner == c;
        }
      }
      assert source[0..] == source;
      ScanLoopIsLex(initial);
      LexLine(source, 1);
      LexKinds(source, 1);
      forall i | 0 <= i < |r.scanner.tokens|
        ensures r.scanner.tokens[i].kind != Eof
      {
        assert r.scanner.tokens[i].kind == Shapes(r.scanner.tokens)[i].kind;
        assert c.tokens[i].kind == Shapes(c.tokens)[i].kind;
      }
    }
  }

  // ---------------------------------------------------------------------------------
  // A reference definition: the same language read directly off the remaining text.
  // ---------------------------------------------------------------------------------

  /** What a comment leaves: the text from the next newline on (the newline included). */
  function AfterComment(s: string): (r: string)
    ensures |r| <= |s|
    ensures Count(r, '\n') == Count(s, '\n')
  {
    if s == [] || s[0] == '\n' then s else AfterComment(s[1..])
  }

  /** What the first character (or two) of the remaining text contributes. */
  datatype Piece = Piece(tokens: seq<Token>, errors: seq<Diagnostic>, rest: string, line: int)

  /**
   * The first lexical step of a non-empty text: the tokens and diagnostics it yields, the
   * text left after it and the line it ends on. It consumes at least one character, yields
   * at most one token, never an end-of-input token, and moves the line by the newlines
   * it consumes.
   */
  function LexOne(text: string, line: int): (p: Piece)
    requires text != []
    ensures |p.rest| < |text|
    ensures |p.tokens| <= 1 && |p.errors| <= 1
    ensures forall i :: 0 <= i < |p.tokens| ==> p.tokens[i].kind != Eof
    ensures p.line + Count(p.rest, '\n') == line + Count(text, '\n')
  {
    var c := text[0];
    assert text == [c] + text[1..];
    CountAppend([c], text[1..], '\n');
    var pair := |text| >= 2;
    assert pair ==> Count(text[1..], '\n') == Count([text[1]], '\n') + Count(text[2..], '\n') by {
      if pair {
        assert text[1..] == [text[1]] + text[2..];
        CountAppend([text[1]], text[2..], '\n');
      }
    }
    match Classify(c)
    case Single(kind) => Piece([Token(kind, text[..1], NilValue, line)], [], text[1..], line)
    case Operator(alone, withEqual) =>
      if pair && text[1] == '=' then Piece([Token(withEqual, text[..2], NilValue, line)], [], text[2..], line)
      else Piece([Token(alone, text[..1], NilValue, line)], [], text[1..], line)
    case SlashOrComment =>
      if pair && text[1] == '/' then Piece([], [], AfterComment(text[2..]), line)
      else Piece([Token(Slash, text[..1], NilValue, line)], [], text[1..], line)
    case Blank => Piece([], [], text[1..], line)
    case NewLine => Piece([], [], text[1..], line + 1)
    case Unexpected => Piece([], [Diagnostic(line, UnexpectedCharacter)], text[1..], line)
  }

  datatype Lexed = Lexed(tokens: seq<Token>, errors: seq<Diagnostic>, line: int)

  /** The tokens, diagnostics and final line of the whole text `rest`, starting at `line`. */
  function Lex(rest: string, line: int): Lexed
    decreases |rest|
  {
    if rest == [] then Lexed([], [], line)
    else
      var p := LexOne(rest, line);
      var l := Lex(p.rest, p.line);
      Lexed(p.tokens + l.tokens, p.errors + l.errors, l.line)
  }

  /** The final line is the starting line plus the number of newlines. */
  lemma {:induction false} LexLine(rest: string, line: int)
    ensures Lex(rest, line).line == line + Count(rest, '\n')
    decreases |rest|
  {
    if rest != [] {
      var p := LexOne(rest, line);
      LexLine(p.rest, p.line);
    }
  }

  /** The reference never produces an end-of-input token and at most one token per character. */
  lemma {:induction false} LexKinds(rest: string, line: int)
    ensures |Lex(rest, line).tokens| <= |rest|
    ensures forall i :: 0 <= i < |Lex(rest, line).tokens| ==> Lex(rest, line).tokens[i].kind != Eof
    decreases |rest|
  {
    if rest != [] {
      var p := LexOne(rest, line);
      LexKinds(p.rest, p.line);
      var l := Lex(p.rest, p.line);
      assert Lex(rest, line).tokens == p.tokens + l.tokens;
      forall i | 0 <= i < |p.tokens + l.tokens|
        ensures (p.tokens + l.tokens)[i].kind != Eof
      {
        if i >= |p.tokens| {
          assert (p.tokens + l.tokens)[i] == l.tokens[i - |p.tokens|];
        }
      }
    }
  }

  // ---------------------------------------------------------------------------------
  // The state machine agrees with the reference.
  // ---------------------------------------------------------------------------------

  ghost predicate OneStep(s: Scanner)
    requires Valid(s) && s.start == s.current < |s.source|
  {
    var p := LexOne(s.source[s.current..], s.line);
    var n := ScanToken(s, Corrected).scanner;
    && s.source[n.current..] == p.rest
    && n == s.(current := n.current, line := p.line,
               tokens := s.tokens + p.tokens, errors := s.errors + p.errors)
  }

  /** Under the intended rule, one iteration of the scanning loop is one reference step. */
  lemma ScanTokenIsLexOne(s: Scanner)
    requires Valid(s) && s.start == s.current < |s.source|
    ensures OneStep(s)
  {
    var text := s.source[s.current..];
    assert text[0] == s.source[s.current];
    assert text[1..] == s.source[s.current + 1..];
    assert s.source[s.start..s.current + 1] == text[..1];
    if |text| >= 2 {
      assert text[1] == s.source[s.current + 1];
      assert text[2..] == s.source[s.current + 2..];
      assert s.source[s.start..s.current + 2] == text[..2];
    }
    match Classify(text[0])
    case Single(_) =>
    case Operator(_, _) => OperatorStep(s);
    case SlashOrComment => SlashStep(s);
    case Blank =>
    case NewLine =>
    case Unexpected =>
  }

  lemma OperatorStep(s: Scanner)
    requires Valid(s) && s.start == s.current < |s.source|
    requires Classify(s.source[s.current]).Operator?
    requires s.source[s.current..][1..] == s.source[s.current + 1..]
    requires s.source[s.start..s.current + 1] == s.source[s.current..][..1]
    requires s.current + 1 < |s.source| ==>
               && s.source[s.current..][1] == s.source[s.current + 1]
               && s.source[s.current..][2..] == s.source[s.current + 2..]
               && s.source[s.start..s.current + 2] == s.source[s.current..][..2]
    ensures OneStep(s)
  {
  }

  lemma SlashStep(s: Scanner)
    requires Valid(s) && s.start == s.current < |s.source|
    requires Classify(s.source[s.current]).SlashOrComment?
    requires s.source[s.current..][1..] == s.source[s.current + 1..]
    requires s.source[s.start..s.current + 1] == s.source[s.current..][..1]
    requires s.current + 1 < |s.source| ==>
               && s.source[s.current..][1] == s.source[s.current + 1]
               && s.source[s.current..][2..] == s.source[s.current + 2..]
    ensures OneStep(s)
  {
  }

  /** Under the intended rule the whole loop yields the reference's tokens, diagnostics, line. */
  lemma {:induction false} ScanLoopIsLex(s: Scanner)
    requires Valid(s)
    ensures var l := Lex(s.source[s.current..], s.line);
            var n := ScanLoop(s, Corrected).scanner;
            n.tokens == s.tokens + l.tokens && n.errors == s.errors + l.errors && n.line == l.line
    decreases |s.source| - s.current
  {
    if IsAtEnd(s) {
      assert s.source[s.current..] == [];
    } else {
      var s1 := s.(start := s.current);
      var text := s.source[s.current..];
      var n := ScanToken(s1, Corrected).scanner;
      var p := LexOne(text, s.line);
      assert s.source[n.current..] == p.rest && n.line == p.line
          && n.tokens == s.tokens + p.tokens && n.errors == s.errors + p.errors by {
        ScanTokenIsLexOne(s1);
      }
      var l2 := Lex(p.rest, p.line);
      LoopUnfolds(s, Corrected);
      LexUnfolds(text, s.line);
      var r := ScanLoop(n, Corrected).scanner;
      assert r.tokens == n.tokens + l2.tokens && r.errors == n.errors + l2.errors && r.line == l2.line by {
        ScanLoopIsLex(n);
      }
      AppendAssoc(s.tokens, p.tokens, l2.tokens);
      AppendAssoc(s.errors, p.errors, l2.errors);
    }
  }

  lemma LexUnfolds(text: string, line: int)
    requires text != []
    ensures var p := LexOne(text, line);
            var l := Lex(p.rest, p.line);
            Lex(text, line) == Lexed(p.tokens + l.tokens, p.errors + l.errors, l.line)
  {
  }

  /** One turn of the loop: the rest of the scan continues from the state the step leaves. */
  lemma LoopUnfolds(s: Scanner, rule: LexemeRule)
    requires Valid(s) && !IsAtEnd(s)
    ensures var step := ScanToken(s.(start := s.current), rule);
            step.Next? ==> ScanLoop(s, rule) == ScanLoop(step.scanner, rule)
  {
  }

  /** A token with its lexeme blanked out: what both lexeme rules agree on. */
  function Shape(t: Token): Token
  {
    t.(lexeme := "")
  }

  function Shapes(ts: seq<Token>): (r: seq<Token>)
    ensures |r| == |ts|
    ensures forall i :: 0 <= i < |ts| ==> r[i] == Shape(ts[i])
  {
    seq(|ts|, i requires 0 <= i < |ts| => Shape(ts[i]))
  }

  /** Two scanner states that differ at most in the lexemes of the tokens found so far. */
  ghost predicate SameShape(a: Scanner, b: Scanner)
  {
    b == a.(tokens := b.tokens) && Shapes(a.tokens) == Shapes(b.tokens)
  }

  /** A step under the rule as written either fails or keeps the states the same shape. */
  lemma AsWrittenStep(s: Scanner, t: Scanner)
    requires Valid(s) && s.start == s.current < |s.source| && SameShape(s, t)
    ensures var a := ScanToken(s, AsWritten);
            a.Next? ==> SameShape(a.scanner, ScanToken(t, Corrected).scanner)
  {
    var c := s.source[s.current];
    var next := if s.current + 1 < |s.source| then s.source[s.current + 1] else '\0';
    var s1 := s.(current := s.current + 1);
    var t1 := t.(current := t.current + 1);
    var s2 := s.(current := s.current + 2);
    var t2 := t.(current := t.current + 2);
    match Classify(c)
    case Single(kind) =>
      assert ScanToken(s, AsWritten) == AddToken(s1, kind, AsWritten);
      assert ScanToken(t, Corrected) == AddToken(t1, kind, Corrected);
      AddTokenShapes(s1, t1, kind);
    case Operator(alone, withEqual) =>
      if next == '=' && s.current + 1 < |s.source| {
        assert ScanToken(s, AsWritten) == AddToken(s2, withEqual, AsWritten);
        assert ScanToken(t, Corrected) == AddToken(t2, withEqual, Corrected);
        AddTokenShapes(s2, t2, withEqual);
      } else {
        assert ScanToken(s, AsWritten) == AddToken(s1, alone, AsWritten);
        assert ScanToken(t, Corrected) == AddToken(t1, alone, Corrected);
        AddTokenShapes(s1, t1, alone);
      }
    case SlashOrComment =>
      if !(next == '/' && s.current + 1 < |s.source|) {
        assert ScanToken(s, AsWritten) == AddToken(s1, Slash, AsWritten);
        assert ScanToken(t, Corrected) == AddToken(t1, Slash, Corrected);
        AddTokenShapes(s1, t1, Slash);
      }
    case Blank =>
    case NewLine =>
    case Unexpected =>
  }

  lemma AddTokenShapes(s: Scanner, t: Scanner, kind: TokenType)
    requires Valid(s) && SameShape(s, t)
    ensures var a := AddToken(s, kind, AsWritten);
            a.Next? ==> SameShape(a.scanner, AddToken(t, kind, Corrected).scanner)
  {
    var a := AddToken(s, kind, AsWritten);
    if a.Next? {
      var c := AddToken(t, kind, Corrected);
      ShapesAppend(s.tokens, [a.scanner.tokens[|s.tokens|]]);
      ShapesAppend(t.tokens, [c.scanner.tokens[|t.tokens|]]);
    }
  }

  lemma {:induction false} AsWrittenLoop(s: Scanner, t: Scanner)
    requires Valid(s) && SameShape(s, t)
    ensures var a := ScanLoop(s, AsWritten);
            a.Next? ==> SameShape(a.scanner, ScanLoop(t, Corrected).scanner)
    ensures var a := ScanLoop(s, AsWritten);
            a.OutOfRange? ==> a.errors <= ScanLoop(t, Corrected).scanner.errors
    decreases |s.source| - s.current
  {
    if !IsAtEnd(s) {
      var s1 := s.(start := s.current);
      var t1 := t.(start := t.current);
      var a := ScanToken(s1, AsWritten);
      if a.Next? {
        AsWrittenStep(s1, t1);
        AsWrittenLoop(a.scanner, ScanToken(t1, Corrected).scanner);
      }
    }
  }

  lemma ShapesAppend(a: seq<Token>, b: seq<Token>)
    ensures Shapes(a + b) == Shapes(a) + Shapes(b)
  {
  }

  /**
   * Under the intended rule the scanner is exactly the reference: its tokens, then one
   * end-of-input token on line 1 + (number of newlines); its diagnostics are the
   * reference's, one "Unexpected character." per unrecognised character.
   */
  lemma ScanTokensMatchesLex(source: string)
    ensures var l := Lex(source, 1);
            ScanTokens(source, Corrected) == Scanned(l.tokens + [EndOfInput(l.line)], l.errors)
  {
    ScanLoopIsLex(Scanner(source, 0, 0, 1, [], []));
    assert source[0..] == source;
  }

  /**
   * Under the rule as written, whenever the scan survives, it yields the reference's
   * kinds, literals and lines and the same diagnostics; only lexemes may differ. When it
   * faults, the diagnostics logged so far are the first of the reference's.
   */
  lemma AsWrittenKeepsShapes(source: string)
    ensures var r := ScanTokens(source, AsWritten);
            var l := Lex(source, 1);
            (r.Scanned? ==>
               Shapes(r.tokens) == Shapes(l.tokens + [EndOfInput(l.line)]) && r.errors == l.errors)
            && (r.Crashed? ==> r.errors <= l.errors)
  {
    var initial := Scanner(source, 0, 0, 1, [], []);
    AsWrittenLoop(initial, initial);
    ScanTokensMatchesLex(source);
    var a := ScanLoop(initial, AsWritten);
    if a.Next? {
      var c := ScanLoop(initial, Corrected);
      ShapesAppend(a.scanner.tokens, [EndOfInput(a.scanner.line)]);
      ShapesAppend(c.scanner.tokens, [EndOfInput(c.scanner.line)]);
    }
  }

  /** Source " (": the first token starts at 1 and `Substring(1, 2)` overruns the 2 characters. */
  lemma AsWrittenFaultsOnIndentedToken()
    ensures ScanTokens(" (", AsWritten) == Crashed(1, 2, [])
  {
    assert " ("[0] == ' ' && " ("[1] == '(';
    var s0 := Scanner(" (", 0, 0, 1, [], []);
    var s1 := Scanner(" (", 0, 1, 1, [], []);
    assert ScanToken(s0, AsWritten) == Next(s1);
    assert ScanToken(s1.(start := 1), AsWritten) == OutOfRange(1, 2, []);
    assert ScanLoop(s1, AsWritten) == OutOfRange(1, 2, []);
  }

  /**
   * Source "@ (": the unexpected character is logged on line 1 before the token at 2 makes
   * `Substring(2, 3)` overrun the 3 characters; the fault keeps that diagnostic.
   */
  lemma AsWrittenFaultKeepsDiagnostics()
    ensures ScanTokens("@ (", AsWritten) == Crashed(2, 3, [Diagnostic(1, UnexpectedCharacter)])
  {
    var src := "@ (";
    assert src[0] == '@' && src[1] == ' ' && src[2] == '(';
    var logged := [Diagnostic(1, UnexpectedCharacter)];
    var s0 := Scanner(src, 0, 0, 1, [], []);
    var s1 := Scanner(src, 0, 1, 1, [], logged);
    var s2 := Scanner(src, 1, 2, 1, [], logged);
    assert ScanToken(s0, AsWritten) == Next(s1);
    assert ScanToken(s1.(start := 1), AsWritten) == Next(s2);
    assert ScanToken(s2.(start := 2), AsWritten) == OutOfRange(2, 3, logged);
    assert ScanLoop(s2, AsWritten) == OutOfRange(2, 3, logged);
    assert ScanLoop(s1, AsWritten) == OutOfRange(2, 3, logged);
  }

  /** Source "(( ": the second token survives, but its lexeme is "( ", two characters long. */
  lemma AsWrittenMiscutsSecondLexeme()
    ensures ScanTokens("(( ", AsWritten) ==
              Scanned([Token(LeftParen, "(", NilValue, 1), Token(LeftParen, "( ", NilValue, 1), EndOfInput(1)], [])
  {
    var src := "(( ";
    assert src[0] == '(' && src[1] == '(' && src[2] == ' ';
    assert src[0..1] == "(" && src[1..3] == "( ";
    var t0 := Token(LeftParen, "(", NilValue, 1);
    var t1 := Token(LeftParen, "( ", NilValue, 1);
    var s0 := Scanner(src, 0, 0, 1, [], []);
    var s1 := Scanner(src, 0, 1, 1, [t0], []);
    var s2 := Scanner(src, 1, 2, 1, [t0, t1], []);
    var s3 := Scanner(src, 2, 3, 1, [t0, t1], []);
    assert ScanToken(s0, AsWritten) == Next(s1);
    assert ScanToken(s1.(start := 1), AsWritten) == Next(s2);
    assert ScanToken(s2.(start := 2), AsWritten) == Next(s3);
    assert ScanLoop(s3, AsWritten) == Next(s3);
    assert ScanLoop(s2, AsWritten) == Next(s3);
    assert ScanLoop(s1, AsWritten) == Next(s3);
    assert ScanLoop(s0, AsWritten) == Next(s3);
  }

  /** The same source under the intended rule: two one-character tokens. */
  lemma CorrectedCutsSecondLexeme()
    ensures ScanTokens("(( ", Corrected) ==
              Scanned([Token(LeftParen, "(", NilValue, 1), Token(LeftParen, "(", NilValue, 1), EndOfInput(1)], [])
  {
    var src := "(( ";
    assert src[0] == '(' && src[1] == '(' && src[2] == ' ';
    assert src[0..1] == "(" && src[1..2] == "(";
    var t0 := Token(LeftParen, "(", NilValue, 1);
    var s0 := Scanner(src, 0, 0, 1, [], []);
    var s1 := Scanner(src, 0, 1, 1, [t0], []);
    var s2 := Scanner(src, 1, 2, 1, [t0, t0], []);
    var s3 := Scanner(src, 2, 3, 1, [t0, t0], []);
    assert ScanToken(s0, Corrected) == Next(s1);
    assert ScanToken(s1.(start := 1), Corrected) == Next(s2);
    assert ScanToken(s2.(start := 2), Corrected) == Next(s3);
    assert ScanLoop(s3, Corrected) == Next(s3);
    assert ScanLoop(s2, Corrected) == Next(s3);
    assert ScanLoop(s1, Corrected) == Next(s3);
    assert ScanLoop(s0, Corrected) == Next(s3);
  }
}
