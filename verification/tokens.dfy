/** Token kinds and tokens, as the lexer produces them and the parser consumes them. */
module Tokens {

  datatype TokenType =
    // keywords
    | Let | Mut | Var | Function | Import | Struct | Enum | If | Else | For | In
    | Return | Break | Continue | SomeKw | Print
    // literals and names
    | Number | Float | String | Boolean | Identifier
    // arithmetic and assignment
    | Plus | Minus | Star | Slash | Percent
    | Eq | PlusEq | MinusEq | StarEq | SlashEq | PercentEq
    // comparison and logic
    | EqEq | EqEqEq | NotEq | NotEqEq | Gt | Lt | GtEq | LtEq
    | Bang | And | Or | AndAnd | OrOr
    | Arrow | FatArrow
    // delimiters and punctuation
    | OpenParen | CloseParen | OpenBrace | CloseBrace | OpenBracket | CloseBracket
    | Comma | Semi | Dot | RangeInc | RangeExc | Colon
    | At | Pound | Tilde | Question | Dollar | Underscore
    // a character or word the language rejects
    | Unknown

  /** A token: its kind, the text it was read from, and where that text starts (1-based). */
  datatype Token = Token(kind: TokenType, value: string, line: nat, col: nat)

  /** The `{:?}` rendering of a token kind, used in parser messages. */
  function KindName(k: TokenType): string
  {
    match k
    case Let => "Let"
    case Mut => "Mut"
    case Var => "Var"
    case Function => "Function"
    case Import => "Import"
    case Struct => "Struct"
    case Enum => "Enum"
    case If => "If"
    case Else => "Else"
    case For => "For"
    case In => "In"
    case Return => "Return"
    case Break => "Break"
    case Continue => "Continue"
    case SomeKw => "Some"
    case Print => "Print"
    case Number => "Number"
    case Float => "Float"
    case String => "String"
    case Boolean => "Boolean"
    case Identifier => "Identifier"
    case Plus => "Plus"
    case Minus => "Minus"
    case Star => "Star"
    case Slash => "Slash"
    case Percent => "Percent"
    case Eq => "Eq"
    case PlusEq => "PlusEq"
    case MinusEq => "MinusEq"
    case StarEq => "StarEq"
    case SlashEq => "SlashEq"
    case PercentEq => "PercentEq"
    case EqEq => "EqEq"
    case EqEqEq => "EqEqEq"
    case NotEq => "NotEq"
    case NotEqEq => "NotEqEq"
    case Gt => "Gt"
    case Lt => "Lt"
    case GtEq => "GtEq"
    case LtEq => "LtEq"
    case Bang => "Bang"
    case And => "And"
    case Or => "Or"
    case AndAnd => "AndAnd"
    case OrOr => "OrOr"
    case Arrow => "Arrow"
    case FatArrow => "FatArrow"
    case OpenParen => "OpenParen"
    case CloseParen => "CloseParen"
    case OpenBrace => "OpenBrace"
    case CloseBrace => "CloseBrace"
    case OpenBracket => "OpenBracket"
    case CloseBracket => "CloseBracket"
    case Comma => "Comma"
    case Semi => "Semi"
    case Dot => "Dot"
    case RangeInc => "RangeInc"
    case RangeExc => "RangeExc"
    case Colon => "Colon"
    case At => "At"
    case Pound => "Pound"
    case Tilde => "Tilde"
    case Question => "Question"
    case Dollar => "Dollar"
    case Underscore => "Underscore"
    case Unknown => "Unknown"
  }
}
