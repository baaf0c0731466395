/**
 * Tokens and trivia of the PHP front end, shared (read-only) by the parser and
 * by the metrics visitor and the checks that consume the token stream.
 */
module Tokens {

  /** The reserved words the grammar refers to (the PHPKeyword constants). */
  datatype Keyword =
    | Abstract | And | Array | As | Break | Callable | Case | Catch | Class | Clone
    | Const | Continue | Declare | Default | Die | Do | Echo | Else | Elseif | Empty
    | Enddeclare | Endfor | Endforeach | Endif | Endswitch | Endwhile | Eval | Exit
    | Extends | Final | Finally | For | Foreach | Function | Global | Goto
    | HaltCompiler | If | Implements | Include | IncludeOnce | Instanceof | Insteadof
    | Interface | Isset | List | Namespace | New | Or | Print | Private | Protected
    | Public | Require | RequireOnce | Return | Static | Switch | Throw | Trait | Try
    | Unset | Use | Var | While | Xor | Yield

  /**
   * The keyword enumeration, in declaration order (this model declares them
   * alphabetically), written as three runs.
   */
  const AllKeywords: seq<Keyword> := KeywordsAToE + KeywordsEToI + KeywordsLToY

  const KeywordsAToE: seq<Keyword> := [
    Abstract, Keyword.And, Array, As, Break, Callable, Case, Catch, Class, Clone,
    Const, Continue, Declare, Default, Die, Do, Echo, Else, Elseif, Empty, Enddeclare,
    Endfor, Endforeach]
  const KeywordsEToI: seq<Keyword> := [
    Endif, Endswitch, Endwhile, Eval, Exit, Extends, Final, Finally, For, Foreach,
    Function, Global, Goto, HaltCompiler, If, Implements, Include, IncludeOnce,
    Instanceof, Insteadof, Interface, Isset]
  const KeywordsLToY: seq<Keyword> := [
    List, Namespace, New, Keyword.Or, Print, Private, Protected, Public, Require,
    RequireOnce, Return, Static, Switch, Throw, Trait, Try, Unset, Use, Var,
    While, Keyword.Xor, Yield]

  /**
   * The punctuators the grammar refers to (the PHPPunctuator constants).
   * `And`, `Or` and `Xor` are the one-character `&`, `|` and `^`; the word
   * operators `and`, `or`, `xor` are keywords.
   */
  datatype Punctuator =
    | And | AndAnd | AndEqual | Arrow | At | Bang | Colon | Comma | ConcatEqual
    | Dec | Div | DivEqual | Dolar | DolarLCurly | Dot | DoubleArrow | DoubleColon
    | Elipsis | Equ | Equal | Equal2 | Ge | Gt | Inc | LBracket | LCurlyBrace | Le
    | LParenthesis | Lt | Minus | MinusEqu | Mod | ModEqu | NotEqual | NotEqual2
    | NotEqualBis | NsSeparator | Or | OrOr | OrEqu | Plus | PlusEqu | Query
    | RBracket | RCurlyBrace | RParenthesis | Semicolon | Sl | SlEqu | Sr | SrEqu
    | Star | StarEqu | Tilda | Xor | XorEqu

  /** The type of a token. */
  datatype TokenKind =
    | Kw(keyword: Keyword)
    | Punct(punctuator: Punctuator)
    | Identifier
    | VarIdentifier
    | NumericLiteral
    | StringLiteral
    | Heredoc
    | Eof              // the end-of-file token that closes every stream
    | InlineHtml       // text matched by the tag channel after a closing tag
    | FileOpeningTag   // text matched by the tag channel at the start of a file

  /** The kinds of trivia: comments, preprocessor text, and skipped text. */
  datatype TriviaKind = Comment | Preprocessor | SkippedText

  /**
   * A piece of trivia that rides on the token following it. `value` and
   * `originalValue` are the two texts a trivia token carries; `line` is the line
   * on which the trivia starts.
   */
  datatype Trivia = Trivia(kind: TriviaKind, value: string, originalValue: string, line: int)

  /** A token: its type, text, 1-based line, 0-based column and leading trivia. */
  datatype Token = Token(kind: TokenKind, value: string, line: int, column: int, trivia: seq<Trivia>)
}
