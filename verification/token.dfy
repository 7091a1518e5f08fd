/**
 * Tokens: the record the scanner produces and the parser consumes (src/Core/Token.cs).
 * A datatype value is immutable, so the four get-only members of the source are its fields.
 */
module Tokens {
  import opened Common

  /**
   * The host's 64-bit floating-point numbers. Nothing in the model depends on their
   * arithmetic; equality is the host's `Equals` on doubles.
   */
  type Number(==, !new)

  /** The kinds of token of the language (the TokenType enumeration of the repository). */
  datatype TokenType =
    // single-character tokens
    | LeftParen | RightParen | LeftBrace | RightBrace
    | Comma | Dot | Minus | Plus | Semicolon | Slash | Star
    // one- or two-character tokens
    | Bang | BangEqual | Equal | EqualEqual
    | Greater | GreaterEqual | Less | LessEqual
    // literals
    | Identifier | StringLiteral | NumberLiteral
    // keywords
    | And | Class | Else | False | Fun | For | If | Nil | Or
    | Print | Return | Super | This | True | Var | While
    | Eof

  /**
   * The untyped `object` a token or a literal expression carries. `NilValue` is the
   * host's `null`: absent for operator and end-of-input tokens, `nil` in a literal.
   */
  datatype LiteralValue =
    | NilValue
    | BoolValue(b: bool)
    | NumberValue(n: Number)
    | StringValue(s: string)

  datatype Token = Token(kind: TokenType, lexeme: string, literal: LiteralValue, line: int)

  /** The name the host prints for a token kind (the enumeration member's name). */
  function TypeName(k: TokenType): string
  {
    match k
    case LeftParen => "LEFT_PAREN"
    case RightParen => "RIGHT_PAREN"
    case LeftBrace => "LEFT_BRACE"
    case RightBrace => "RIGHT_BRACE"
    case Comma => "COMMA"
    case Dot => "DOT"
    case Minus => "MINUS"
    case Plus => "PLUS"
    case Semicolon => "SEMICOLON"
    case Slash => "SLASH"
    case Star => "STAR"
    case Bang => "BANG"
    case BangEqual => "BANG_EQUAL"
    case Equal => "EQUAL"
    case EqualEqual => "EQUAL_EQUAL"
    case Greater => "GREATER"
    case GreaterEqual => "GREATER_EQUAL"
    case Less => "LESS"
    case LessEqual => "LESS_EQUAL"
    case Identifier => "IDENTIFIER"
    case StringLiteral => "STRING"
    case NumberLiteral => "NUMBER"
    case And => "AND"
    case Class => "CLASS"
    case Else => "ELSE"
    case False => "FALSE"
    case Fun => "FUN"
    case For => "FOR"
    case If => "IF"
    case Nil => "NIL"
    case Or => "OR"
    case Print => "PRINT"
    case Return => "RETURN"
    case Super => "SUPER"
    case This => "THIS"
    case True => "TRUE"
    case Var => "VAR"
    case While => "WHILE"
    case Eof => "EOF"
  }

  /**
   * The host's `ToString` of a non-null literal object: `True`/`False` for booleans,
   * the text itself for strings, and the host's number formatting (a parameter) for numbers.
   * `null` interpolates as the empty string.
   */
  function ObjectText(v: LiteralValue, showNumber: Number -> string): string
  {
    match v
    case NilValue => ""
    case BoolValue(b) => if b then "True" else "False"
    case NumberValue(n) => showNumber(n)
    case StringValue(s) => s
  }

  /**
   * `Token.ToString`: kind, lexeme and literal separated by single spaces. When neither
   * the lexeme nor the literal's text contains a space, the three parts read back intact.
   */
  function ToString(t: Token, showNumber: Number -> string): (r: string)
    ensures ' ' !in t.lexeme && ' ' !in ObjectText(t.literal, showNumber) ==>
              Words(r) == [TypeName(t.kind), t.lexeme, ObjectText(t.literal, showNumber)]
  {
    var name := TypeName(t.kind);
    var literal := ObjectText(t.literal, showNumber);
    var r := name + " " + t.lexeme + " " + literal;
    assert ' ' !in t.lexeme && ' ' !in literal ==> Words(r) == [name, t.lexeme, literal] by {
      if ' ' !in t.lexeme && ' ' !in literal {
        TypeNameHasNoSpace(t.kind);
        assert r == name + " " + (t.lexeme + " " + literal);
        WordsOfJoin(name, t.lexeme + " " + literal);
        WordsOfJoin(t.lexeme, literal);
        WordsOfWord(literal);
      }
    }
    r
  }

  /** Splits a text at every space, the way the three parts of `ToString` are separated. */
  function Words(s: string): seq<string>
  {
    if s == [] then [[]]
    else
      var rest := Words(s[1..]);
      if s[0] == ' ' then [[]] + rest else [[s[0]] + rest[0]] + rest[1..]
  }

  lemma {:induction false} WordsOfWord(a: string)
    requires ' ' !in a
    ensures Words(a) == [a]
  {
    if a != [] {
      WordsOfWord(a[1..]);
      assert [a[0]] + a[1..] == a;
    }
  }

  lemma {:induction false} WordsOfJoin(a: string, b: string)
    requires ' ' !in a
    ensures Words(a + " " + b) == [a] + Words(b)
  {
    if a == [] {
      assert a + " " + b == " " + b;
      assert (" " + b)[1..] == b;
    } else {
      var s := a + " " + b;
      assert s[0] == a[0];
      assert s[1..] == a[1..] + " " + b;
      WordsOfJoin(a[1..], b);
      assert [a[0]] + a[1..] == a;
    }
  }

  lemma TypeNameHasNoSpace(k: TokenType)
    ensures ' ' !in TypeName(k)
  {
  }

  /** The lexemes of a list of tokens, in order. */
  function Names(ts: seq<Token>): (r: seq<string>)
    ensures |r| == |ts| && forall i :: 0 <= i < |ts| ==> r[i] == ts[i].lexeme
  {
    if ts == [] then [] else [ts[0].lexeme] + Names(ts[1..])
  }
}
