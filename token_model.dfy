/**
 * The token data model of the lexer: tokens, format-string contents,
 * spans, the keyword table and the textual rendering of tokens.
 */
module TokenModel {

  datatype Option<T> = None | Some(value: T)

  /** A signed 64-bit integer, the payload type of integer literals. */
  newtype i64 = x: int | -0x8000_0000_0000_0000 <= x < 0x8000_0000_0000_0000

  const I64Max: int := 0x7fff_ffff_ffff_ffff

  /** Identity of the source file every span refers to; the lexer never inspects it. */
  datatype Context = Context(fileName: string, fileContents: string)

  /**
   * A range [start, end) of offsets into the file, or the sentinel span that
   * synthetic tokens carry and that position-erasing normalisation writes.
   */
  datatype Span = Span(start: nat, end: nat, context: Context) | EmptyRange

  datatype Token =
    | Use
    | Type
    | Go
    | Struct
    | Duck
    | Function
    | Return
    | Ident(name: string)
    | ControlChar(c: char)
    | StringLiteral(text: string)
    | FormatStringLiteral(contents: seq<FmtStringContents>)
    | IntLiteral(value: i64)
    | BoolLiteral(b: bool)
    | CharLiteral(ch: char)
      /** The float's decimal text: its integer part and the digits after the point. */
    | FloatLiteral(whole: i64, fraction: string)
    | Equals
    | Match
    | If
    | Else
    | Let
    | While
    | Break
    | Continue
    | As
    | InlineGo(code: string)
    | Module
    | ScopeRes
    | ThinArrow

  /** One item of a format string: a literal character or the tokens of a `{...}` section. */
  datatype FmtStringContents = Char(ch: char) | Tokens(tokens: seq<Spanned>)

  datatype Spanned = Spanned(token: Token, span: Span)

  /** The reserved words. */
  const KeywordWords: set<string> :=
    {"module", "use", "type", "duck", "go", "struct", "fn", "return",
     "let", "if", "else", "while", "break", "continue", "as", "match"}

  /**
   * The keyword table: the token a whole identifier run stands for, if it is
   * reserved. Every keyword token renders back as the word it was lexed from.
   */
  function Keyword(word: string): (r: Option<Token>)
    ensures r.Some? <==> word in KeywordWords
    ensures r.Some? ==> IsKeywordToken(r.value) && Display(r.value) == word
  {
    match word
    case "module" => Some(Module)
    case "use" => Some(Use)
    case "type" => Some(Type)
    case "duck" => Some(Duck)
    case "go" => Some(Go)
    case "struct" => Some(Struct)
    case "fn" => Some(Function)
    case "return" => Some(Return)
    case "let" => Some(Let)
    case "if" => Some(If)
    case "else" => Some(Else)
    case "while" => Some(While)
    case "break" => Some(Break)
    case "continue" => Some(Continue)
    case "as" => Some(As)
    case "match" => Some(Match)
    case _ => None
  }

  /** The token for an identifier run: its keyword when reserved, an identifier holding the run otherwise. */
  function ClassifyWord(word: string): (t: Token)
    ensures word in KeywordWords ==> Keyword(word) == Some(t) && Display(t) == word
    ensures word !in KeywordWords <==> t == Ident(word)
  {
    match Keyword(word)
    case Some(k) => k
    case None => Ident(word)
  }

  /** Whether a token is one of the sixteen keyword tokens. */
  predicate IsKeywordToken(t: Token) {
    t.Module? || t.Use? || t.Type? || t.Duck? || t.Go? || t.Struct? || t.Function? || t.Return? ||
    t.Let? || t.If? || t.Else? || t.While? || t.Break? || t.Continue? || t.As? || t.Match?
  }

  /** The text a token renders as; format strings use a debug rendering that is not modelled. */
  function Display(t: Token): string
    requires !t.FormatStringLiteral?
  {
    match t
    case ScopeRes => "::"
    case ThinArrow => "->"
    case Use => "use"
    case Type => "type"
    case Go => "go"
    case Struct => "struct"
    case Duck => "duck"
    case Function => "fn"
    case Return => "return"
    case Ident(_) => "identifier"
    case ControlChar(c) => [c]
    case StringLiteral(s) => "string " + s
    case IntLiteral(_) => "int"
    case BoolLiteral(_) => "bool"
    case CharLiteral(_) => "char"
    case FloatLiteral(_, _) => "float"
    case Equals => "equals"
    case If => "if"
    case Else => "else"
    case Let => "let"
    case While => "while"
    case Break => "break"
    case Continue => "continue"
    case As => "as"
    case InlineGo(_) => "inline go"
    case Module => "module"
    case Match => "match"
  }

  /**
   * Keyword tokens and reserved words correspond one to one: lexing the
   * rendering of a keyword token gives that token back.
   */
  lemma KeywordDisplayRoundTrip(t: Token)
    requires IsKeywordToken(t)
    ensures Display(t) in KeywordWords && Keyword(Display(t)) == Some(t)
  {
  }

  /** Distinct reserved words classify to distinct keyword tokens. */
  lemma KeywordInjective(w1: string, w2: string)
    requires w1 in KeywordWords && w2 in KeywordWords && w1 != w2
    ensures ClassifyWord(w1) != ClassifyWord(w2)
  {
    assert Display(ClassifyWord(w1)) == w1;
  }
}
