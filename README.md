# A verified model of the duck lexer

This project models the tokenizer of the duck compiler (`src/parse/lexer.rs`)
in Dafny and proves what the tokenizer promises about it.

The tokenizer turns a source file into a sequence of tokens, each carrying the
span of text it was read from. It is built from parser combinators, which the
model states directly as functions of the input (a `string`), a position and
the file context:

- Each parser returns either the value and the position after it (`Lexed.Ok`),
  or a failure (`Lexed.Fail`).
- Ordered choice takes the first alternative that succeeds.
- A repetition collects items until one fails, then stops where that item
  started (`Repeated`).
- Padding skips whitespace on both sides of a token. The token's span
  excludes the padding.

The single-token dispatcher and the format-string lexer call each other.
Every alternative consumes at least one character, so the distance to the end
of the input, paired with a rank per function, proves that the recursion ends.

Modules, following the source:

- `TokenModel`: tokens, format-string items, spans, the keyword table and the
  textual rendering of tokens.
- `Scan`: character classes and the maximal runs the lexer scans, such as
  whitespace and identifier runs.
- `Literals`: the string, character and number lexers, with the escape
  encodings they decode.
- `InlineGo`: the brace-balanced capture of inline Go code.
- `Lexer`: the dispatcher, the format-string lexer, the brace-wrapping step
  (as a method with loops) and the top-level repetition.
- `Normalize`: span erasure. `token_empty_range` is a method with loops,
  proved against a recursive function.
- `DispatchProps`: which alternative wins where, and the properties of
  dispatched tokens.
- `TokenStream`: the entry point `Lex`. The stream's spans are ordered and
  trimmed, and they tile the input.
- `FormatStrings`: sections nest properly, and literal text reads back.
- `LexerCases`: whole inputs from the source's own test table and a few edge
  cases, with their exact token streams and spans.

## Model

| member | source | states |
|---|---|---|
| TokenModel.Keyword | src/parse/lexer.rs:114-132 | exactly the sixteen reserved words map to a keyword token, and each such token renders as the word it came from |
| TokenModel.ClassifyWord | src/parse/lexer.rs:114-132 | a reserved word gives its keyword token; any other run gives `Ident` of exactly that run, and only then |
| TokenModel.KeywordDisplayRoundTrip | src/parse/lexer.rs:51-75 | rendering a keyword token and classifying the text gives the same token back |
| TokenModel.KeywordInjective | src/parse/lexer.rs:114-132 | distinct reserved words classify to distinct tokens |
| Scan.SkipWhitespace | src/parse/lexer.rs:198 | padding skips a maximal whitespace run: everything skipped is whitespace and the next character is not |
| Scan.SkipWhitespaceUnique | src/parse/lexer.rs:198 | the end of the whitespace run is unique: any maximal run from `p` ends where the padding ends |
| Scan.IdentRunEnd | src/parse/lexer.rs:114 | an identifier run is maximal: every character in it is an identifier character, and the one after is not |
| Scan.IdentRunEndUnique | src/parse/lexer.rs:114 | the end of a maximal identifier run is unique |
| Scan.DigitRunEnd | src/parse/lexer.rs:244 | the fraction's `text::digits` run is maximal: every character in it is a digit, and the one after is not |
| Literals.LiteralChar | src/parse/lexer.rs:270-278 | a body character always consumes at least one character |
| Literals.Unescape | src/parse/lexer.rs:271-276 | every escape the body accepts is the written form of the character it stands for |
| Literals.Escape | src/parse/lexer.rs:270-276 | a character is written raw only when the body accepts it raw (not `\`, newline, tab or the quote); otherwise it is a two-character escape; no written form holds a raw newline or tab |
| Literals.EscapeAll | src/parse/lexer.rs:269-279 | the written form of a text is between one and two characters per character |
| Literals.LiteralBody | src/parse/lexer.rs:269-278 | the repeated body never runs past the input; `LiteralBodyIsEscaped` and `LiteralBodyReadsEscaped` state what it reads |
| Literals.LiteralCharReadsEscape | src/parse/lexer.rs:270-278 | every character is read back from its own escape, whatever follows it |
| Literals.LiteralCharIsEscape | src/parse/lexer.rs:270-278 | what a body character consumes is exactly the escape of the character it returns |
| Literals.LiteralBodyIsEscaped | src/parse/lexer.rs:269-279 | a string body is the escaped encoding of the text it collects, and it stops where no body character can be read |
| Literals.LiteralBodyReadsEscaped | src/parse/lexer.rs:269-279 | the escaped encoding of any text, followed by the quote, reads back as that text |
| Literals.StringLexer | src/parse/lexer.rs:267-282 | a string literal runs from an opening quote to a closing quote |
| Literals.StringLexerDecodes | src/parse/lexer.rs:267-282 | the text a string literal consumes is the quoted encoding of the value it returns |
| Literals.StringLexerReadsQuoted | src/parse/lexer.rs:267-282 | every quoted encoding is read back as its text (round trip) |
| Literals.EscapeAllHasNoRawControl | src/parse/lexer.rs:270 | an encoded text never holds a raw newline or tab |
| Literals.StringLexerNeedsClosingQuote | src/parse/lexer.rs:280 | without a closing quote the string lexer fails |
| Literals.StringLexerRejectsRawControl | src/parse/lexer.rs:270 | no accepted string literal spans a raw newline or tab |
| Literals.CharLexer | src/parse/lexer.rs:255-265 | a character literal runs from a `'` to a `'` and is at least three characters long |
| Literals.CharLexerExact | src/parse/lexer.rs:255-265 | the character lexer reads `c` exactly where the quoted encoding of `c` starts |
| Literals.CharLexerReadsQuoted | src/parse/lexer.rs:255-265 | the quoted encoding of any character is read back as that character |
| Literals.CharLexerIsQuoted | src/parse/lexer.rs:255-265 | a successful read of `c` consumed exactly the quoted encoding of `c` |
| Literals.IntRunEnd | src/parse/lexer.rs:240 | `text::int(10)`: a run of digits, where a leading `0` stands alone |
| Literals.DecimalText | src/parse/lexer.rs:240-243 | the canonical text of a value is a non-empty digit run whose leading `0` occurs only for 0; `DecimalTextValue` reads it back |
| Literals.NumLiteral | src/parse/lexer.rs:238-253 | a number starts and ends with a digit and gives an integer or a float; an invalid-integer failure starts at the number |
| Literals.DecimalTextValue | src/parse/lexer.rs:240-243 | the canonical decimal text of `v` reads back as `v` |
| Literals.CanonicalDigitsAreDecimalText | src/parse/lexer.rs:240 | a digit run with no leading zero is the decimal text of its value |
| Literals.NumLiteralReadsInt | src/parse/lexer.rs:240-251 | a decimal text with no fraction after it lexes as its integer when it fits in 64 bits, and fails as an invalid integer when it does not |
| Literals.NumLiteralReadsFloat | src/parse/lexer.rs:244-248 | a decimal text, a point and digits lex as a float with that integer part and those fraction digits |
| Literals.NumLiteralIntIsDecimalText | src/parse/lexer.rs:238-253 | every integer read is the canonical text of a value in range, and no fraction follows it |
| InlineGo.GoText | src/parse/lexer.rs:211-227 | a captured block starts with `{` and ends with `}` |
| InlineGo.GoItems | src/parse/lexer.rs:215-220 | the repeated interior never runs past the input; `GoItemsJoin` and `GoItemsIsLevel` state that it is the interior text and balanced |
| InlineGo.GoTextIsSlice | src/parse/lexer.rs:211-227 | the capture returns exactly the text it consumed |
| InlineGo.GoItemsJoin | src/parse/lexer.rs:215-220 | the joined items of a block's interior are exactly the interior text |
| InlineGo.GoTextIsBlock | src/parse/lexer.rs:211-227 | every captured text is brace-balanced: its depth never drops below one before the final `}` |
| InlineGo.GoTextReadsBlock | src/parse/lexer.rs:211-227 | conversely, every balanced block in the input is captured whole, whatever follows it |
| InlineGo.InlineGoParser | src/parse/lexer.rs:229-236 | inline Go starts with `go` and ends at a `}` |
| InlineGo.InlineGoCode | src/parse/lexer.rs:229-236 | the inline-Go token holds the block after `go` and its whitespace, verbatim, with only the outermost braces stripped |
| InlineGo.InlineGoReadsBlock | src/parse/lexer.rs:229-236 | `go`, whitespace and a balanced block always lex as inline Go holding the block's interior |
| InlineGo.InlineGoNeedsWhitespace | src/parse/lexer.rs:232 | without whitespace right after `go` there is no inline Go |
| Lexer.Exact | src/parse/lexer.rs:144-146 | a fixed text succeeds exactly where it occurs, and consumes exactly its length |
| Lexer.BoolLexer | src/parse/lexer.rs:137-140 | `true` and `false` are matched as text, with no check of what follows |
| Lexer.KeywordOrIdent | src/parse/lexer.rs:114-132 | a word succeeds exactly at an identifier start, consumes the whole run and classifies it |
| Lexer.ControlCharLexer | src/parse/lexer.rs:134 | a control character succeeds exactly on the twenty listed characters, consuming one |
| Lexer.Wrap | src/parse/lexer.rs:99-105 | a section's tokens lie between a synthetic `{` and a synthetic `}` |
| Lexer.Flatten | src/parse/lexer.rs:102 | every token of every collected group is in the flattening, and it holds no other token |
| Lexer.FlattenSnoc | src/parse/lexer.rs:102 | extending with one more group appends that group's tokens |
| Lexer.WrapGroup | src/parse/lexer.rs:99-105 | pushing `{`, extending with every group in order and pushing `}` builds the wrapped flattening of the groups |
| Lexer.LexSingle | src/parse/lexer.rs:184-198 | a padded token always consumes input |
| Lexer.SimpleToken | src/parse/lexer.rs:174-182 | a token from the nine simple alternatives consumes input; `DispatchOperator`, `DispatchBool`, `DispatchWord` and the other `DispatchProps` lemmas state which alternative wins |
| Lexer.Dispatch | src/parse/lexer.rs:172-182 | a dispatched token consumes input without running past it; `DispatchTrimmed` and the `DispatchProps` lemmas state which alternative wins and that the read is trimmed |
| Lexer.FmtString | src/parse/lexer.rs:148-170 | a format string starts with `f"`, ends with `"` and is at least three characters long |
| Lexer.FmtItems | src/parse/lexer.rs:151-167 | the repeated body never runs past the input; `FmtItemsBalanced` and `FmtItemsReadsEscaped` state its sections and its literal characters |
| Lexer.FmtGroup | src/parse/lexer.rs:81-107 | a section starts at `{` and holds at least its two synthetic braces |
| Lexer.GroupItems | src/parse/lexer.rs:84-97 | the repeated interior never runs past the input; `GroupItemsIsLevel` states that its flattened tokens are balanced |
| Lexer.LexAll | src/parse/lexer.rs:202-209 | the repetition stops inside the input, never before where it started |
| DispatchProps.SimpleTokenTrimmed | src/parse/lexer.rs:172-182 | a token from the nine simple alternatives starts and ends on a character other than whitespace |
| DispatchProps.DispatchTrimmed | src/parse/lexer.rs:172-182 | every dispatched token starts and ends on a character other than whitespace |
| DispatchProps.DispatchIsSimple | src/parse/lexer.rs:172-173 | where neither `go` nor `f"` starts, only the nine simple alternatives remain |
| DispatchProps.DispatchOperator | src/parse/lexer.rs:144-146 | `->`, `::` and `==` win over the control characters they begin with |
| DispatchProps.DispatchBool | src/parse/lexer.rs:137-140 | `true` and `false` win over the identifier rule |
| DispatchProps.DispatchControlChar | src/parse/lexer.rs:134 | a control character is dispatched exactly where it stands and no operator starts |
| DispatchProps.DispatchWord | src/parse/lexer.rs:114-132 | where no earlier alternative matches, a word is its whole identifier run, classified |
| DispatchProps.DispatchWordIsWholeRun | src/parse/lexer.rs:114-132 | every keyword or identifier token is a whole identifier run, classified as a whole |
| DispatchProps.DispatchGoKeyword | src/parse/lexer.rs:119 | `go` followed by neither whitespace nor an identifier character is the keyword `Go` |
| DispatchProps.DispatchInlineGo | src/parse/lexer.rs:229-236 | `go`, whitespace and a balanced block dispatch as inline Go |
| DispatchProps.DispatchString | src/parse/lexer.rs:267-282 | a quoted encoding dispatches as its string |
| DispatchProps.DispatchChar | src/parse/lexer.rs:255-265 | a quoted character dispatches as that character |
| DispatchProps.DispatchAtDigit | src/parse/lexer.rs:172-182 | where a digit starts, only the simple alternatives remain |
| DispatchProps.SimpleTokenAtDigit | src/parse/lexer.rs:238-253 | at a digit, the number rule's result, success or invalid integer, is the dispatcher's |
| DispatchProps.DispatchInt | src/parse/lexer.rs:238-253 | a decimal text dispatches as its integer when it fits, and as an invalid-integer failure when it does not |
| DispatchProps.DispatchFloat | src/parse/lexer.rs:244-248 | a decimal text, a point and digits dispatch as a float |
| TokenStream.LexSingleSpan | src/parse/lexer.rs:184-198 | a padded token's span is exactly what the dispatcher read after the leading whitespace; the padding on both sides is whitespace |
| TokenStream.TilesCons | src/parse/lexer.rs:202-209 | a trimmed token, whitespace and a tiling of the rest form a tiling |
| TokenStream.AllReadCons | src/parse/lexer.rs:202-209 | prepending a token read at its span keeps every token read at its span |
| TokenStream.LexAllTiles | src/parse/lexer.rs:202-209 | the tokens appear in input order, each read by the dispatcher over its own trimmed span; the spans do not overlap; only whitespace lies between them; the lexer stops where no token can be read |
| TokenStream.Lex | src/parse/lexer.rs:202-209 | the whole file's tokens are each read by the dispatcher over their own span, tile the input from offset 0 to where lexing stopped, and no token can be lexed there |
| TokenStream.LexWhitespaceOnly | src/parse/lexer.rs:184-209 | whitespace alone gives no tokens, and the lexer stops before the whitespace |
| FormatStrings.LexedTokenIsNeutral | src/parse/lexer.rs:184-198 | a padded token carries a real span, so it is never a synthetic brace |
| FormatStrings.FmtGroupIsBlock | src/parse/lexer.rs:81-107 | every section opens with the synthetic `{`, closes with the synthetic `}` and its synthetic braces nest properly |
| FormatStrings.GroupItemsIsLevel | src/parse/lexer.rs:84-97 | the flattened interior of a section is balanced |
| FormatStrings.FmtItemsBalanced | src/parse/lexer.rs:151-167 | every section of a format-string body holds balanced tokens once its outer braces are stripped |
| FormatStrings.FmtStringBalanced | src/parse/lexer.rs:148-170 | the sections of a lexed format string are balanced |
| FormatStrings.FmtItemsSectionCons | src/parse/lexer.rs:151-154 | where a section opens, the body holds its stripped tokens and goes on after it |
| FormatStrings.FmtItemsReadsEscaped | src/parse/lexer.rs:156-164 | the escaped form of any text reads back as that text, one literal character per item |
| FormatStrings.FmtStringReadsEscaped | src/parse/lexer.rs:148-170 | a format string with no sections lexes to its text as literal characters (round trip) |
| FormatStrings.FmtGroupOfToken | src/parse/lexer.rs:81-107 | a section holding one token is that token between the two synthetic braces |
| FormatStrings.FmtGroupOfGroup | src/parse/lexer.rs:81-107 | a section holding a nested section wraps it once more, so every level keeps its braces |
| FormatStrings.GroupItemsPaddedBrace | src/parse/lexer.rs:88-92 | inside a section, a `{` after whitespace opens no nested section and is read as a control character |
| FormatStrings.FmtStringOfSection | src/parse/lexer.rs:151-154 | a format string of one section holds its tokens without the outermost synthetic braces |
| Normalize.EmptySpans | src/parse/lexer.rs:284-298 | erasure leaves the sentinel span on the token |
| Normalize.EmptyToken | src/parse/lexer.rs:286-297 | only format strings change; every other token payload is unchanged |
| Normalize.EmptyContent | src/parse/lexer.rs:289-294 | literal characters are unchanged; a section keeps its kind |
| Normalize.TokenEmptyRange | src/parse/lexer.rs:284-298 | setting the span to the sentinel and erasing every token nested in a section, item by item, yields exactly the erasure `EmptySpans(t)` |
| Normalize.EmptySpansFixedPoint | src/parse/lexer.rs:284-298 | after erasure every span, nested ones included, is the sentinel, and a token is unchanged by erasure exactly when it holds no other span |
| Normalize.EmptySpansIdempotent | src/parse/lexer.rs:284-298 | erasing twice is erasing once |
| Normalize.EmptySpansEqualIff | src/parse/lexer.rs:284-298 | two tokens have the same erasure exactly when they differ only in their spans |
| LexerCases.LexThinArrow | src/parse/lexer.rs:386 | `->` is one thin-arrow token |
| LexerCases.LexFunctionKeyword | src/parse/lexer.rs:387 | `fn` is the function keyword |
| LexerCases.LexWithSpaces | src/parse/lexer.rs:328-339 | `type Y = duck {};` lexes to its seven tokens, with spans that skip the spaces |
| LexerCases.LexWithoutSpaces | src/parse/lexer.rs:340-350 | `typeY=duck{};` lexes to `Ident("typeY")` and five more tokens |
| LexerCases.LexBoolPrefix | src/parse/lexer.rs:137-140 | `trueX` is `true` followed by `Ident("X")` |
| LexerCases.LexEscapedQuote | src/parse/lexer.rs:390-393 | a string literal with an escaped quote decodes to `X"X` |
| LexerCases.LexFloat | src/parse/lexer.rs:457 | `1.1` is one float |
| LexerCases.LexIntThenDot | src/parse/lexer.rs:244-251 | `1.` is the integer 1 followed by the control character `.` |
| LexerCases.LexLeadingZeros | src/parse/lexer.rs:240 | `007` is three integer tokens: 0, 0 and 7 |
| LexerCases.LexIntegerOverflow | src/parse/lexer.rs:240-243 | 9223372036854775808 lexes to nothing, because the number fails as an invalid integer |
| LexerCases.LexCharEscape | src/parse/lexer.rs:456 | the escaped newline in a character literal is the newline character |
| LexerCases.LexInlineGo | src/parse/lexer.rs:404 | `go { {} }` is inline Go holding ` {} ` |
| LexerCases.LexOnlyWhitespace | src/parse/lexer.rs:184-209 | whitespace alone lexes to nothing, stopping at offset 0 |
| LexerCases.LexFmtSection | src/parse/lexer.rs:322-327 | `f"{1}"` holds one section with the single token 1 |
| LexerCases.LexFmtNested | src/parse/lexer.rs:310-320 | `f"{{{1}}}"` keeps the synthetic braces of the inner sections and strips only the outermost pair |
| LexerCases.LexFmtPaddedBrace | src/parse/lexer.rs:88-92 | in `f"{ {}}"`, the padded `{` is a control-character token, the section ends at the first `}`, and the second `}` is a literal character |
| LexerCases.LexUnterminatedFmt | src/parse/lexer.rs:172-178 | `f"` with no closing quote is no format string: `or` falls through to the identifier `f`, and the lone `"` after it stops the lexer at offset 1 |

## Left out

- Error values: a failure is only "no match" or "invalid integer" with its range. The library's rich error values, messages and recovery are not modelled. When every alternative fails, the failure is the number rule's invalid-integer error if it raised one, and "no match" otherwise.
- The end-of-input check of the parse entry point is not part of this model. `TokenStream.Lex` returns the tokens and the offset where the repetition stopped. On whitespace-only input the code stops at offset 0, before the whitespace, because the failing attempt is rewound; an end-of-input check would see the unconsumed whitespace.
- The `f64` value of a float literal is not computed. `FloatLiteral` keeps the integer part, which must still fit in 64 bits, and the fraction digits as text.
- Spans count characters, not bytes. The source lexes a `&str`, whose spans are UTF-8 byte offsets; the model indexes a `string` by character. After the first non-ASCII character (for example in `"ä" x`), every span offset in the model differs from the source's.
- Unicode: identifier characters are ASCII letters, digits and `_`. Whitespace is the ASCII subset of Rust's `char::is_whitespace`. The library's Unicode tables are not part of this model.
- The file context (name and contents) is an opaque value attached to every span. `empty_range()` is an opaque sentinel, the `EmptyRange` constructor of `Span`.
- TokenModel.Display: the format-string arm, which uses debug formatting, is not modelled. The `write!` call is not modelled either; `Display` returns the text.
- The test harness is not modelled. Its cases appear as lemmas in `LexerCases`, compared with spans instead of after erasure. These cases are not modelled: `()`, the longer `type`/`duck` declarations, the `if`/`else` chains, `let x: {};`, `f"FMT {var}"`, the plain strings and integers, and the other inline-Go inputs. The general lemmas in `DispatchProps`, `Literals` and `InlineGo` cover their rules.
