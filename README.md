# css-selectors in Dafny

A model of the core of the Java library `se.fishtank.css.selectors`: the CSS
tokenizer, the parser for the `an+b` arguments of the `nth-*`
pseudo-classes, the selector parser with its one-token pushback, and the
right-to-left selector matcher over a DOM tree. The model follows the code
as written, and each row of the table below says what is proved about the
member it names. Where the code departs from what it evidently intends, the
intended behaviour is modelled beside it and the gap is shown under Findings.

| file | module | models |
|---|---|---|
| `wrappers.dfy` | `Wrappers` | `Option` and `Result` |
| `code_points.dfy` | `CodePoints` | the static classifiers of `Tokenizer` (`isAlpha` … `isValidEscape`), `hexValue`, the replacement of escaped code points, the input preprocessing, ASCII lower-casing |
| `tokens.dfy` | `Tokens` | `TokenType` and `Token` with its subclasses `UnicodeRange`, `Hash`, `Number` and `Dimension`, as one immutable datatype |
| `tokenizer.dfy` | `Lexer` | the class `Tokenizer`: `input`, the cursor `pos` and the saved position `mark`; `nextToken` and every `consume*`, `skip*` and `is*Start` helper as methods with loops |
| `stream.dfy` | `Streams` | the tokenizer as the parsers use it: `nextToken` and `getPosition` |
| `ast.dfy` | `Ast`, `Errors` | the selector classes (`Selector`, `CompoundSelector`, the simple selectors, `Combinator`, `AttributeSelector.Match`) and the parser's errors |
| `nth.dfy` | `Nth` | `NthParser`: what `parse` returns as a function of the tokens, and the class whose methods read the shared tokenizer and are proved to return it |
| `selector_parser.dfy` | `SelectorParsing` | `SelectorParser`: the grammar as functions of the tokens and a cursor, and the class with the `savedToken` pushback whose methods are proved to follow it |
| `dom.dfy` | `Dom` | `DOMNode` as an arena tree: nodes in document order, links as indexes |
| `matcher.dfy` | `Matching` | `SelectorMatcher`: the matching rules as functions over the tree, and the matcher's methods, with their loops, proved to compute them |
| `matcher_proofs.dfy` | `MatchingProofs` | what the matching rules mean: the `an+b` test, sibling counting, `:empty`, the whitespace-separated words of `~=`, the overflow and letter-case findings |
| `compound_semantics.dfy` | `CompoundSemantics` | the meaning of a compound selector chain (each compound represents an element related to the next one by its combinator); the matcher's walk proved sound and complete against it, with what each of its restart results rules out |

How the model is put together:

- **Tokenizer.** The input is a `string` of Unicode code points; a code point
  is read as an `int`, with `-1` for end of input. Each method of the class
  states where the cursor ends and what it read, in terms of functions that
  only read the input (`DigitRun`, `NumberEnd`, `StringEnd`, `UrlEnd`,
  `UnicodeRangeAt`, …). A ghost field records the tokens `nextToken` has
  returned.
- **Parsers.** `NthParser` and `SelectorParser` only call `nextToken` and
  `getPosition` on the tokenizer they share. `nextToken` is deterministic and
  keeps returning the EOF token at the end, so the parsers see the tokenizer
  as a replay of its token sequence (`Streams.Replay`) and a read index. Each
  parser method is proved equal to a function of the replay and the index
  where it starts (`NthAt`, `SelectorAt`, `CompoundAt`, …). The properties
  are then lemmas about those functions. An exception is a `Failure` value
  carrying the error.
- **Matcher.** A node is an index into an arena of nodes in document order.
  Parents and previous siblings come earlier, first children and next
  siblings later, so every walk of the matcher terminates by index. The
  custom `SimpleSelectorMatcher` is an optional function parameter (`Hook`).
  The matcher's methods are proved to compute the functions `SimpleMatches`,
  `CompoundResult`, `NthChild` and so on. The lemmas give those functions
  their meaning: the `an+b` sequence, the 1-based position among the
  siblings, the words of a value, and the chain of related elements a
  compound selector represents.

## Model

| member | source | states |
|---|---|---|
| CodePoints.AlphaIsAsciiLetter | src/main/java/se/fishtank/css/selectors/tokenizer/Tokenizer.java:68-70 | the bit trick of isAlpha, `'a' <= (c or 0x20) <= 'z'`, holds exactly for the ASCII letters of either case |
| CodePoints.HexDigitBitTrick | src/main/java/se/fishtank/css/selectors/tokenizer/Tokenizer.java:88-90 | the test of isHexDigit holds exactly for 0-9, a-f and A-F |
| CodePoints.HexValue | src/main/java/se/fishtank/css/selectors/tokenizer/Tokenizer.java:153-159 | a hex digit's value lies in 0..15 |
| CodePoints.HexDigitValue | src/main/java/se/fishtank/css/selectors/tokenizer/Tokenizer.java:153-159 | hexValue agrees with the value of the digit read from its range (0-9, a-f, A-F) and lies in 0..15 |
| CodePoints.EscapedCodePoint | src/main/java/se/fishtank/css/selectors/tokenizer/Tokenizer.java:558-560 | the code point an escape yields is its value or U+FFFD, and always a valid code point: above 0, at most 0x10FFFF, not a surrogate |
| CodePoints.Lower | src/main/java/se/fishtank/css/selectors/parser/NthParser.java:60 | toLowerCase keeps the length and lower-cases every character (ASCII folding) |
| CodePoints.NormalizeNewlines | src/main/java/se/fishtank/css/selectors/tokenizer/Tokenizer.java:25 | replacing form feeds and CR or CR LF by LF never lengthens the text |
| CodePoints.NormalizeNewlinesClean | src/main/java/se/fishtank/css/selectors/tokenizer/Tokenizer.java:25 | the text after newline normalisation holds no form feed and no carriage return, and a NUL in it was already in the input |
| CodePoints.ReplaceNul | src/main/java/se/fishtank/css/selectors/tokenizer/Tokenizer.java:42 | replacing NUL by U+FFFD keeps the length |
| CodePoints.PreprocessClean | src/main/java/se/fishtank/css/selectors/tokenizer/Tokenizer.java:41-43 | after construction the input holds no form feed, carriage return or NUL |
| CodePoints.PreprocessIdentity | src/main/java/se/fishtank/css/selectors/tokenizer/Tokenizer.java:41-43 | an input already free of those code points passes through preprocessing unchanged |
| CodePoints.NormalizeIdentity | src/main/java/se/fishtank/css/selectors/tokenizer/Tokenizer.java:25 | text without form feed and carriage return is left unchanged by newline normalisation |
| CodePoints.PreprocessIdempotent | src/main/java/se/fishtank/css/selectors/tokenizer/Tokenizer.java:41-43 | preprocessing twice is preprocessing once |
| CodePoints.CrLfCollapses | src/main/java/se/fishtank/css/selectors/tokenizer/Tokenizer.java:25 | a CR LF pair becomes one LF |
| Tokens.PlainToken | src/main/java/se/fishtank/css/selectors/tokenizer/Token.java:29-33 | a token of a type without subclass keeps its type, position and value, and carries no subclass fields |
| Tokens.UnicodeRangeToken | src/main/java/se/fishtank/css/selectors/tokenizer/Token.java:53-57 | a UnicodeRange token has type UNICODE_RANGE and keeps start and end exactly as given, with the text `U+%04X-U+%04X` |
| Tokens.HashToken | src/main/java/se/fishtank/css/selectors/tokenizer/Token.java:76-79 | a Hash token has type HASH and keeps its value and id flag unchanged |
| Tokens.NumberToken | src/main/java/se/fishtank/css/selectors/tokenizer/Token.java:111-113 | Number.number has type NUMBER and keeps the value and the integer flag |
| Tokens.PercentageToken | src/main/java/se/fishtank/css/selectors/tokenizer/Token.java:122-124 | Number.percentage has type PERCENTAGE and keeps the value and the integer flag |
| Tokens.DimensionToken | src/main/java/se/fishtank/css/selectors/tokenizer/Token.java:144-147 | a Dimension has type DIMENSION and keeps the value, the integer flag and the unit |
| Tokens.Hex4 | src/main/java/se/fishtank/css/selectors/tokenizer/Token.java:54 | `%04X` writes at least four digits |
| Tokens.HexPaddedValue | src/main/java/se/fishtank/css/selectors/tokenizer/Token.java:53-57 | the upper-case hex text of a range bound reads back to the bound: the text loses nothing |
| Lexer.Tokenizer.constructor | src/main/java/se/fishtank/css/selectors/tokenizer/Tokenizer.java:41-43 | the tokenizer holds the preprocessed input, which is clean, with the cursor and the mark at 0 |
| Lexer.Tokenizer.DigitRun | src/main/java/se/fishtank/css/selectors/tokenizer/Tokenizer.java:615-617 | the digit run stays inside the input and is maximal: the code point after it is no digit |
| Lexer.Tokenizer.HexRun | src/main/java/se/fishtank/css/selectors/tokenizer/Tokenizer.java:553-556 | at most `limit` hex digits are read, and fewer only when the next code point is no hex digit |
| Lexer.Tokenizer.QuestionRun | src/main/java/se/fishtank/css/selectors/tokenizer/Tokenizer.java:832-836 | at most `limit` question marks are read, and fewer only when the next code point is no `?` |
| Lexer.Tokenizer.HexValueAt | src/main/java/se/fishtank/css/selectors/tokenizer/Tokenizer.java:825-828 | the value accumulated as `(v << 4) + hexValue(c)` over k digits is below 16^k |
| Lexer.Tokenizer.HexDigitAt | src/main/java/se/fishtank/css/selectors/tokenizer/Tokenizer.java:153-159 | the value of one hex digit is below 16 |
| Lexer.Tokenizer.IntegerEnd | src/main/java/se/fishtank/css/selectors/tokenizer/Tokenizer.java:610-617 | the sign and integer digits end inside the input, not before they start |
| Lexer.Tokenizer.FractionEnd | src/main/java/se/fishtank/css/selectors/tokenizer/Tokenizer.java:619-632 | the fraction part ends inside the input, not before it starts |
| Lexer.Tokenizer.ExponentEnd | src/main/java/se/fishtank/css/selectors/tokenizer/Tokenizer.java:634-640 | the exponent part ends inside the input, not before it starts |
| Lexer.Tokenizer.NumberEnd | src/main/java/se/fishtank/css/selectors/tokenizer/Tokenizer.java:606-643 | a number ends inside the input, and a position where isNumberStart holds starts a non-empty number |
| Lexer.Tokenizer.SpaceRun | src/main/java/se/fishtank/css/selectors/tokenizer/Tokenizer.java:435-443 | the whitespace run stays inside the input and is maximal |
| Lexer.Tokenizer.StringEnd | src/main/java/se/fishtank/css/selectors/tokenizer/Tokenizer.java:704-728 | the scan of a string body ends inside the input, not before it starts |
| Lexer.Tokenizer.UrlEnd | src/main/java/se/fishtank/css/selectors/tokenizer/Tokenizer.java:775-810 | the plain text of an unquoted URL ends inside the input, at its end or at a code point that stops it (`)`, whitespace, a quote, `(`, backslash, non-printable) |
| Lexer.Tokenizer.EscapeEnd | src/main/java/se/fishtank/css/selectors/tokenizer/Tokenizer.java:545-570 | an escape started inside the input reads 1 to 7 code points, and nothing at the end of input |
| Lexer.Tokenizer.NameFrom | src/main/java/se/fishtank/css/selectors/tokenizer/Tokenizer.java:581-597 | the name loop stops inside the input at a code point that is neither a name code point nor a valid escape, and reads at least one code point when it can start |
| Lexer.Tokenizer.NameTakes | src/main/java/se/fishtank/css/selectors/tokenizer/Tokenizer.java:586-587 | a name code point is appended as it is and the loop goes on |
| Lexer.Tokenizer.NameEscapes | src/main/java/se/fishtank/css/selectors/tokenizer/Tokenizer.java:588-589 | a valid escape appends its code point and the loop goes on past the escape |
| Lexer.Tokenizer.NameEnds | src/main/java/se/fishtank/css/selectors/tokenizer/Tokenizer.java:590-592 | anything else ends the name where it stands, nothing appended |
| Lexer.Tokenizer.NamePlain | src/main/java/se/fishtank/css/selectors/tokenizer/Tokenizer.java:581-597 | a name read without backslashes is exactly the input text it covers |
| Lexer.Tokenizer.NameShape | src/main/java/se/fishtank/css/selectors/tokenizer/Tokenizer.java:581-597 | the name read from `i` is maximal, non-empty when a name code point or escape starts it, and without backslashes is the text it covers |
| Lexer.Tokenizer.StringFrom | src/main/java/se/fishtank/css/selectors/tokenizer/Tokenizer.java:704-728 | the string loop is bad only when it stops before a raw newline; otherwise it stops at the end of input or just past the closing quote |
| Lexer.Tokenizer.StringCloses | src/main/java/se/fishtank/css/selectors/tokenizer/Tokenizer.java:707-709 | the end of input, or the closing quote (which is read), ends the string as good |
| Lexer.Tokenizer.StringBreaks | src/main/java/se/fishtank/css/selectors/tokenizer/Tokenizer.java:711-714 | a raw newline ends the string as bad and is not read |
| Lexer.Tokenizer.StringBackslash | src/main/java/se/fishtank/css/selectors/tokenizer/Tokenizer.java:716-724 | a backslash at the end adds nothing, a backslash-newline adds nothing and is skipped, any other escape adds its code point |
| Lexer.Tokenizer.StringTakes | src/main/java/se/fishtank/css/selectors/tokenizer/Tokenizer.java:725-727 | any other code point is appended as it is |
| Lexer.Tokenizer.StringPlain | src/main/java/se/fishtank/css/selectors/tokenizer/Tokenizer.java:704-728 | without a backslash the string holds the text up to the first quote, newline or end of input; the newline makes it bad |
| Lexer.Tokenizer.StringTokenShape | src/main/java/se/fishtank/css/selectors/tokenizer/Tokenizer.java:699-731 | a string opened at a quote is a STRING at the quote stopping at the end of input or past the closing quote, or an empty BAD_STRING stopping before a newline |
| Lexer.Tokenizer.StringTokenPlain | src/main/java/se/fishtank/css/selectors/tokenizer/Tokenizer.java:699-731 | a string without a backslash holds the text between the quotes; a newline before the closing quote makes it BAD_STRING |
| Lexer.Tokenizer.BadUrlEnd | src/main/java/se/fishtank/css/selectors/tokenizer/Tokenizer.java:870-881 | consumeBadUrl stops inside the input, at its end or just past a `)` |
| Lexer.Tokenizer.BadUrlEscapedClose | src/main/java/se/fishtank/css/selectors/tokenizer/Tokenizer.java:870-881 | every `)` that consumeBadUrl passes before its stop was the code point of an escape, so it follows a backslash |
| Lexer.Tokenizer.HexRunDigits | src/main/java/se/fishtank/css/selectors/tokenizer/Tokenizer.java:553-556 | every code point of the hex run of an escape is a hex digit |
| Lexer.Tokenizer.EscapeHasNoLaterClose | src/main/java/se/fishtank/css/selectors/tokenizer/Tokenizer.java:545-570 | within an escape only the code point right after the backslash can be a `)` |
| Lexer.Tokenizer.BadUrlFirstClose | src/main/java/se/fishtank/css/selectors/tokenizer/Tokenizer.java:870-881 | without backslashes, consumeBadUrl stops just past the first `)` |
| Lexer.Tokenizer.UrlFrom | src/main/java/se/fishtank/css/selectors/tokenizer/Tokenizer.java:775-810 | the unquoted URL loop, when not bad, stops at the end of input or just past `)`; when bad it has read at least one code point |
| Lexer.Tokenizer.UrlCloses | src/main/java/se/fishtank/css/selectors/tokenizer/Tokenizer.java:777-779 | the end of input, or `)` (which is read), ends a clean URL |
| Lexer.Tokenizer.UrlSpace | src/main/java/se/fishtank/css/selectors/tokenizer/Tokenizer.java:781-785 | whitespace is skipped and marks that only `)` or the end may follow |
| Lexer.Tokenizer.UrlBad | src/main/java/se/fishtank/css/selectors/tokenizer/Tokenizer.java:787-806 | after whitespace, or at a quote, `(`, a non-printable code point or an invalid escape, the URL is bad |
| Lexer.Tokenizer.UrlEscapes | src/main/java/se/fishtank/css/selectors/tokenizer/Tokenizer.java:799-801 | a valid escape appends its code point |
| Lexer.Tokenizer.UrlTakes | src/main/java/se/fishtank/css/selectors/tokenizer/Tokenizer.java:807-809 | any other code point is appended as it is |
| Lexer.Tokenizer.UnquotedUrlPrefix | src/main/java/se/fishtank/css/selectors/tokenizer/Tokenizer.java:775-810 | the loop appends the plain text up to UrlEnd unchanged |
| Lexer.Tokenizer.UnquotedUrlStop | src/main/java/se/fishtank/css/selectors/tokenizer/Tokenizer.java:777-806 | what stops the plain text decides the result: the end or `)` make a clean URL; whitespace then `)` or the end make a clean URL; anything else makes it bad |
| Lexer.Tokenizer.UnquotedUrlPlain | src/main/java/se/fishtank/css/selectors/tokenizer/Tokenizer.java:775-810 | the unquoted URL holds exactly the text up to UrlEnd, and is clean or bad as UnquotedUrlStop says |
| Lexer.Tokenizer.UnquotedUrlTokenShape | src/main/java/se/fishtank/css/selectors/tokenizer/Tokenizer.java:773-810 | an unquoted URL is a URL or BAD_URL token placed at or after where it starts, stopping at the end of input or just past `)` |
| Lexer.Tokenizer.UnquotedUrlTokenPlain | src/main/java/se/fishtank/css/selectors/tokenizer/Tokenizer.java:773-810 | an unquoted URL whose text runs to `)` or the end of input is a URL token holding exactly that text |
| Lexer.Tokenizer.QuotedUrlAfterString | src/main/java/se/fishtank/css/selectors/tokenizer/Tokenizer.java:751-755 | a quoted URL is read as a string token first; a BAD_STRING makes a BAD_URL at where it stopped, read on by consumeBadUrl |
| Lexer.Tokenizer.AfterQuotedUrl | src/main/java/se/fishtank/css/selectors/tokenizer/Tokenizer.java:757-769 | after the string the token is a URL at the quote or a BAD_URL, and always stops at the end of input or just past `)` |
| Lexer.Tokenizer.AfterQuotedUrlCases | src/main/java/se/fishtank/css/selectors/tokenizer/Tokenizer.java:757-769 | the token is a URL exactly when only whitespace comes before `)` or the end, ending past them; otherwise a BAD_URL past the whitespace, read on by consumeBadUrl; both keep the string's value |
| Lexer.Tokenizer.QuotedUrlShape | src/main/java/se/fishtank/css/selectors/tokenizer/Tokenizer.java:749-771 | a quoted URL is a URL token at the quote or a BAD_URL token, stopping at the end of input or just past `)` |
| Lexer.Tokenizer.UrlTokenShape | src/main/java/se/fishtank/css/selectors/tokenizer/Tokenizer.java:742-811 | every URL token read after `url(` is a URL or BAD_URL, placed at or after where reading began, stopping at the end of input or just past `)` |
| Lexer.Tokenizer.UrlTokenQuoted | src/main/java/se/fishtank/css/selectors/tokenizer/Tokenizer.java:749-771 | the quoted case of UrlTokenShape |
| Lexer.Tokenizer.UrlTokenUnquoted | src/main/java/se/fishtank/css/selectors/tokenizer/Tokenizer.java:773-810 | the unquoted case of UrlTokenShape |
| Lexer.Tokenizer.UrlShapedEarlier | src/main/java/se/fishtank/css/selectors/tokenizer/Tokenizer.java:742-811 | a URL token shaped when read from a later position is also shaped when read from an earlier one |
| Lexer.Tokenizer.UrlTokenQuote | src/main/java/se/fishtank/css/selectors/tokenizer/Tokenizer.java:749-751 | after the whitespace, a quote opens a quoted URL of that quote |
| Lexer.Tokenizer.UrlTokenBare | src/main/java/se/fishtank/css/selectors/tokenizer/Tokenizer.java:749-776 | after the whitespace, anything but a quote opens an unquoted URL |
| Lexer.Tokenizer.UrlTokenPlain | src/main/java/se/fishtank/css/selectors/tokenizer/Tokenizer.java:742-811 | after the whitespace, an unquoted URL whose text runs to `)` or the end is a URL token holding exactly that text |
| Lexer.Tokenizer.IdentLikeShape | src/main/java/se/fishtank/css/selectors/tokenizer/Tokenizer.java:675-689 | an ident-like token is an IDENT (not followed by `(`), a FUNCTION (followed by `(`, name not `url`), or a URL/BAD_URL past `url(`; IDENT and FUNCTION sit at the start and, without backslashes, hold the name's text |
| Lexer.Tokenizer.AfterNameIdent | src/main/java/se/fishtank/css/selectors/tokenizer/Tokenizer.java:678-688 | a name not followed by `(` is an IDENT at the start |
| Lexer.Tokenizer.AfterNameFunction | src/main/java/se/fishtank/css/selectors/tokenizer/Tokenizer.java:679-685 | a name other than `url` followed by `(` is a FUNCTION that reads the `(` |
| Lexer.Tokenizer.IdentLikeByUrl | src/main/java/se/fishtank/css/selectors/tokenizer/Tokenizer.java:675-689 | whatever equals a URL token read from past `i` has the shape of an ident-like token read from `i` |
| Lexer.Tokenizer.AfterNameUrl | src/main/java/se/fishtank/css/selectors/tokenizer/Tokenizer.java:679-682 | `url(` in any letter case starts a URL token, past the name |
| Lexer.Tokenizer.AfterNameIsUrl | src/main/java/se/fishtank/css/selectors/tokenizer/Tokenizer.java:679-682 | `url(` in any letter case is read on by consumeUrlToken just past the `(` |
| Lexer.Tokenizer.UrlIsIdentLike | src/main/java/se/fishtank/css/selectors/tokenizer/Tokenizer.java:681-682 | a URL token read past the name has the shape of an ident-like token |
| Lexer.Tokenizer.HashShape | src/main/java/se/fishtank/css/selectors/tokenizer/Tokenizer.java:197-207 | `#` followed by a name code point or an escape is a HASH whose id flag says whether an identifier starts there; otherwise a DELIM `#` |
| Lexer.Tokenizer.NameLikeShape | src/main/java/se/fishtank/css/selectors/tokenizer/Tokenizer.java:322-343 | `U+` or `u+` followed by `?` or a hex digit is a UNICODE_RANGE; a name start or escape starts an ident-like token; anything else is a one-character DELIM |
| Lexer.Tokenizer.OtherShape | src/main/java/se/fishtank/css/selectors/tokenizer/Tokenizer.java:197-343 | the cases `#`, `<`, `@`, backslash, names and anything else all read a well-formed token and make progress |
| Lexer.Tokenizer.Next | src/main/java/se/fishtank/css/selectors/tokenizer/Tokenizer.java:365-373 | next returns the code point at the cursor (EOF at the end) and moves past it, and stays put at the end |
| Lexer.Tokenizer.Consume | src/main/java/se/fishtank/css/selectors/tokenizer/Tokenizer.java:451-458 | consume moves past `s` exactly when the input continues with `s`, and otherwise leaves the cursor alone |
| Lexer.Tokenizer.SkipComments | src/main/java/se/fishtank/css/selectors/tokenizer/Tokenizer.java:414-428 | the cursor ends at CommentEnd: where it was without a leading `/*`; with one, just past the first closing star-slash, or at the end of input when there is none |
| Lexer.Tokenizer.CommentEnd | src/main/java/se/fishtank/css/selectors/tokenizer/Tokenizer.java:414-428 | skipComments never moves back and stays inside the input |
| Lexer.Tokenizer.CloseEnd | src/main/java/se/fishtank/css/selectors/tokenizer/Tokenizer.java:416-426 | the search for the closing star-slash never moves back and stays inside the input |
| Lexer.Tokenizer.TokenAtSpace | src/main/java/se/fishtank/css/selectors/tokenizer/Tokenizer.java:185-189 | at whitespace, the token is one WHITESPACE token covering the run |
| Lexer.Tokenizer.TokenAtString | src/main/java/se/fishtank/css/selectors/tokenizer/Tokenizer.java:194-217 | at a quote or an apostrophe, the token is the string token read from there |
| Lexer.Tokenizer.TokenAtMatch | src/main/java/se/fishtank/css/selectors/tokenizer/Tokenizer.java:208-319 | at `$ * ^ ~` and the vertical bar, the token is a match operator, a COLUMN or a DELIM as MatchOrDelimAt says |
| Lexer.Tokenizer.TokenAtPunctuation | src/main/java/se/fishtank/css/selectors/tokenizer/Tokenizer.java:218-300 | at `( ) , : ; [ ] { }` the token is the one-character token of that type |
| Lexer.Tokenizer.TokenAtNumberLike | src/main/java/se/fishtank/css/selectors/tokenizer/Tokenizer.java:229-325 | at `+`, `-`, `.` or a digit, the token is what NumberLikeAt says |
| Lexer.Tokenizer.TokenAtOther | src/main/java/se/fishtank/css/selectors/tokenizer/Tokenizer.java:197-343 | at any other code point, the token is what OtherAt says |
| Lexer.Tokenizer.SkipSpace | src/main/java/se/fishtank/css/selectors/tokenizer/Tokenizer.java:435-443 | the cursor moves past exactly the maximal whitespace run, whose length is returned |
| Lexer.Tokenizer.ConsumeEscape | src/main/java/se/fishtank/css/selectors/tokenizer/Tokenizer.java:545-570 | at the end of input U+FFFD with no move; a non-hex code point is returned as is; otherwise 1 to 6 hex digits give their escaped code point and one following whitespace code point is absorbed; never more than 7 code points |
| Lexer.Tokenizer.ConsumeName | src/main/java/se/fishtank/css/selectors/tokenizer/Tokenizer.java:581-597 | returns exactly the name NameAt describes and stops where it stops (maximal, non-empty when it can start, the text itself without backslashes, by NameShape) |
| Lexer.Tokenizer.ConsumeNamePart | src/main/java/se/fishtank/css/selectors/tokenizer/Tokenizer.java:583-594 | one turn of the loop: either it reads forward and the rest of the name is unchanged, or the name ends here |
| Lexer.Tokenizer.ConsumeHex | src/main/java/se/fishtank/css/selectors/tokenizer/Tokenizer.java:553-556 | the cursor moves past the hex run of at most `limit` digits and the result is its value |
| Lexer.Tokenizer.ConsumeDigits | src/main/java/se/fishtank/css/selectors/tokenizer/Tokenizer.java:615-617 | the cursor moves past the digit run and the digits are appended to the buffer |
| Lexer.Tokenizer.ConsumeNumber | src/main/java/se/fishtank/css/selectors/tokenizer/Tokenizer.java:606-643 | the cursor ends at NumberEnd, and the token is a NUMBER whose value is the text read and whose integer flag holds exactly when no fraction and no exponent were read |
| Lexer.Tokenizer.ConsumeFraction | src/main/java/se/fishtank/css/selectors/tokenizer/Tokenizer.java:619-632 | a dot and a digit start the fraction, whose digits are all read; without them the cursor goes back to the mark |
| Lexer.Tokenizer.ConsumeExponent | src/main/java/se/fishtank/css/selectors/tokenizer/Tokenizer.java:634-640 | a valid exponent (e or E, optional sign, digit) is read with all its digits; otherwise nothing moves |
| Lexer.Tokenizer.ConsumeNumericToken | src/main/java/se/fishtank/css/selectors/tokenizer/Tokenizer.java:654-666 | a number followed by `%` is a PERCENTAGE ending past the `%`; followed by an identifier start, a DIMENSION whose unit is the name read (NameAt), ending where that name ends; otherwise a NUMBER ending after the number; each keeps the number's text and integer flag, and the whole result is NumericAt |
| Lexer.Tokenizer.ConsumeIdentLikeToken | src/main/java/se/fishtank/css/selectors/tokenizer/Tokenizer.java:675-689 | returns exactly the token IdentLikeAt describes and stops where it stops (an IDENT, a FUNCTION, or a URL token after `url(`, by IdentLikeShape) |
| Lexer.Tokenizer.ConsumeStringToken | src/main/java/se/fishtank/css/selectors/tokenizer/Tokenizer.java:699-731 | returns exactly the token StringTokenAt describes and stops where it stops (STRING or BAD_STRING, by StringTokenShape and StringTokenPlain) |
| Lexer.Tokenizer.ConsumeStringPart | src/main/java/se/fishtank/css/selectors/tokenizer/Tokenizer.java:704-728 | one turn of the string loop: either it reads forward and the rest of the string is unchanged, or the string ends here, good or bad |
| Lexer.Tokenizer.ConsumeStringEscape | src/main/java/se/fishtank/css/selectors/tokenizer/Tokenizer.java:716-724 | after a backslash: nothing at the end of input, a newline is skipped, anything else appends exactly the escape's code point and stops where the escape ends |
| Lexer.Tokenizer.ConsumeBadUrl | src/main/java/se/fishtank/css/selectors/tokenizer/Tokenizer.java:870-881 | the cursor ends where BadUrlEnd says: at the end of input, or just past a `)`; every `)` before that stop was the code point of an escape (by BadUrlEscapedClose) |
| Lexer.Tokenizer.ConsumeUrlToken | src/main/java/se/fishtank/css/selectors/tokenizer/Tokenizer.java:742-811 | returns exactly the token UrlTokenAt describes and stops where it stops (a URL or BAD_URL ending at `)` or the end, by UrlTokenShape and UrlTokenPlain) |
| Lexer.Tokenizer.ConsumeQuotedUrl | src/main/java/se/fishtank/css/selectors/tokenizer/Tokenizer.java:749-771 | returns exactly the token QuotedUrlAt describes and stops where it stops (by QuotedUrlShape) |
| Lexer.Tokenizer.FinishQuotedUrl | src/main/java/se/fishtank/css/selectors/tokenizer/Tokenizer.java:757-769 | returns exactly the token AfterQuotedUrl describes (a URL exactly when only whitespace comes before `)` or the end, otherwise a BAD_URL, by AfterQuotedUrlCases) |
| Lexer.Tokenizer.ConsumeBadUrlToken | src/main/java/se/fishtank/css/selectors/tokenizer/Tokenizer.java:767-769 | the BAD_URL token is placed where the bad part begins, and reading ends where BadUrlEnd says |
| Lexer.Tokenizer.ConsumeUnquotedUrl | src/main/java/se/fishtank/css/selectors/tokenizer/Tokenizer.java:773-810 | returns exactly the token UnquotedUrlTokenAt describes and stops where it stops (by UnquotedUrlTokenShape and UnquotedUrlTokenPlain) |
| Lexer.Tokenizer.ScanUrl | src/main/java/se/fishtank/css/selectors/tokenizer/Tokenizer.java:775-810 | the loop computes exactly UnquotedUrlAt; when the plain text runs to `)` or the end the result is clean and is that text |
| Lexer.Tokenizer.ConsumeUrlPart | src/main/java/se/fishtank/css/selectors/tokenizer/Tokenizer.java:775-809 | one turn of the URL loop: either it reads forward and the rest of the URL is unchanged, or the URL ends here, clean or bad |
| Lexer.Tokenizer.UnicodeRangeAt | src/main/java/se/fishtank/css/selectors/tokenizer/Tokenizer.java:821-863 | the range reads at most 13 code points past `u+` |
| Lexer.Tokenizer.RangeAfterDigits | src/main/java/se/fishtank/css/selectors/tokenizer/Tokenizer.java:830-860 | the part after the digits reads at most 7 more code points |
| Lexer.Tokenizer.WidenBounds | src/main/java/se/fishtank/css/selectors/tokenizer/Tokenizer.java:839-845 | q rounds of widening multiply the start by 16^q and leave end minus start equal to 16^q - 1 |
| Lexer.Tokenizer.UnicodeRangeBounds | src/main/java/se/fishtank/css/selectors/tokenizer/Tokenizer.java:821-863 | at most 6 digits and wildcards in all; with q > 0 wildcards start <= end and end - start == 16^q - 1; without wildcards and without `-hex`, end == start |
| Lexer.Tokenizer.RangeAfterDigitsBounds | src/main/java/se/fishtank/css/selectors/tokenizer/Tokenizer.java:830-860 | after digits of value v: with q wildcards the start is v times 16^q and the range spans 16^q values; with neither wildcards nor `-hex` the range is the single value v |
| Lexer.Tokenizer.ConsumeUnicodeRangeToken | src/main/java/se/fishtank/css/selectors/tokenizer/Tokenizer.java:821-863 | the token is a UNICODE_RANGE with the start and end UnicodeRangeAt describes, and the cursor stops where it says |
| Lexer.Tokenizer.ConsumeRangeBounds | src/main/java/se/fishtank/css/selectors/tokenizer/Tokenizer.java:825-860 | the loops read exactly the start, end and stop of UnicodeRangeAt |
| Lexer.Tokenizer.ConsumeRangeRest | src/main/java/se/fishtank/css/selectors/tokenizer/Tokenizer.java:830-860 | the wildcard or `-hex` part reads exactly what RangeAfterDigits describes |
| Lexer.Tokenizer.ConsumeQuestions | src/main/java/se/fishtank/css/selectors/tokenizer/Tokenizer.java:830-837 | the cursor moves past the question-mark run of at most `limit`, whose length is returned |
| Lexer.Tokenizer.Widen | src/main/java/se/fishtank/css/selectors/tokenizer/Tokenizer.java:839-845 | the loop computes the widened start and end |
| Lexer.Tokenizer.NextToken | src/main/java/se/fishtank/css/selectors/tokenizer/Tokenizer.java:175-344 | at the end of input the EOF token with no move; otherwise one comment is skipped (CommentEnd) and, unless that reaches the end (EOF), the token and the cursor after it are exactly TokenAt at that point; every other token moves the cursor forward and lies where it was read; a whitespace run is one WHITESPACE token with empty value covering the whole run |
| Lexer.Tokenizer.ScanToken | src/main/java/se/fishtank/css/selectors/tokenizer/Tokenizer.java:185-344 | the token and the cursor after it are exactly TokenAt: the switch of nextToken on the code point read, case by case (whitespace, strings, match operators, punctuation, number-like, and the rest); a whitespace run gives one WHITESPACE token |
| Lexer.Tokenizer.ScanSwitch | src/main/java/se/fishtank/css/selectors/tokenizer/Tokenizer.java:192-343 | after a code point that is not whitespace, the token and the cursor after it are exactly TokenAt, by the method for each case |
| Lexer.Tokenizer.ScanString | src/main/java/se/fishtank/css/selectors/tokenizer/Tokenizer.java:194-196 | a quote starts a string token, and the result is TokenAt: the string token StringTokenAt reads |
| Lexer.Tokenizer.ScanPunctuation | src/main/java/se/fishtank/css/selectors/tokenizer/Tokenizer.java:218-300 | `( ) , : ; [ ] { }` are one-character tokens of their own type, and that is TokenAt |
| Lexer.Tokenizer.ScanMatchOrDelim | src/main/java/se/fishtank/css/selectors/tokenizer/Tokenizer.java:208-319 | `$ * ^ ~` and the vertical bar followed by `=` are the five match tokens; two vertical bars are a COLUMN; otherwise the character alone is a DELIM; the result is exactly MatchOrDelimAt, the switch's case for that character |
| Lexer.Tokenizer.ScanNumberLike | src/main/java/se/fishtank/css/selectors/tokenizer/Tokenizer.java:229-262 | after `+`, `-`, `.` or a digit: a number start gives the numeric token NumericAt (NUMBER, PERCENTAGE or DIMENSION); a `-` that starts an identifier gives the ident-like token IdentLikeAt; otherwise `-->` is a CDC and anything else a DELIM; the result is exactly NumberLikeAt, the switch's case |
| Lexer.Tokenizer.ScanCdcOrDelim | src/main/java/se/fishtank/css/selectors/tokenizer/Tokenizer.java:249-262 | `-->` is a CDC; any other `+`, `-` or `.` is a one-character DELIM; the result is exactly CdcOrDelimAt |
| Lexer.Tokenizer.ScanOther | src/main/java/se/fishtank/css/selectors/tokenizer/Tokenizer.java:197-343 | returns exactly the token OtherAt describes (`#`, `<!--` or `<`, `@` with an at-keyword or alone, then the NameLikeAt cases), which is TokenAt for those code points, and makes progress, by OtherShape |
| Lexer.Tokenizer.ScanHash | src/main/java/se/fishtank/css/selectors/tokenizer/Tokenizer.java:197-207 | returns exactly the token HashAt describes (by HashShape) |
| Lexer.Tokenizer.ScanIdentLike | src/main/java/se/fishtank/css/selectors/tokenizer/Tokenizer.java:322-343 | returns exactly the token NameLikeAt describes (by NameLikeShape) |
| Lexer.Tokenize | src/main/java/se/fishtank/css/selectors/tokenizer/Tokenizer.java:175-183 | the tokens replay validly: only the last token is EOF, every token carries its type's fields and lies in the text it was read from, and the last one is read at the end of the preprocessed input; reading tokens until EOF terminates |
| Lexer.ReadOneMore | src/main/java/se/fishtank/css/selectors/tokenizer/Tokenizer.java:175-183 | a token other than EOF read from where the previous one stopped extends the tokens read in turn |
| Lexer.KindsOneMore | src/main/java/se/fishtank/css/selectors/tokenizer/Tokenizer.java:175-183 | one more well-kinded token other than EOF keeps all tokens well kinded and none EOF |
| Lexer.SpansOneMore | src/main/java/se/fishtank/css/selectors/tokenizer/Tokenizer.java:175-183 | one more token read from where the last stopped keeps the ends in order and each token inside its span |
| Lexer.EofCloses | src/main/java/se/fishtank/css/selectors/tokenizer/Tokenizer.java:175-183 | tokens read in turn, closed by EOF at or after the last end, form a valid replay |
| Streams.Replay.At | src/main/java/se/fishtank/css/selectors/tokenizer/Tokenizer.java:175-183 | each token the parsers read carries its type's fields, and it is EOF exactly at the last index |
| Streams.Replay.Advance | src/main/java/se/fishtank/css/selectors/tokenizer/Tokenizer.java:176-177 | reading a token moves one step, except that reading EOF does not move |
| Streams.TokenStream.constructor | src/main/java/se/fishtank/css/selectors/tokenizer/Tokenizer.java:41-43 | a stream starts at the first token of its replay |
| Streams.TokenStream.NextToken | src/main/java/se/fishtank/css/selectors/tokenizer/Tokenizer.java:175-183 | nextToken returns the token at the read index and advances as Replay.Advance says |
| Ast.CompoundOf | src/main/java/se/fishtank/css/selectors/selector/CompoundSelector.java:45-47 | CompoundSelector.of has the given simple selectors and no previous compound |
| Nth.ParseInt | src/main/java/se/fishtank/css/selectors/parser/NthParser.java:52 | parseInt succeeds only with a 32-bit value |
| Nth.ParseIntRoundTrip | src/main/java/se/fishtank/css/selectors/parser/NthParser.java:52 | parseInt reads back every 32-bit value written in decimal, with or without an explicit sign |
| Nth.NDashDigits | src/main/java/se/fishtank/css/selectors/parser/NthParser.java:187-193 | parseNDashDigits accepts only `n-` followed by digits (length at least 3) and returns the negated digits, a value in the 32-bit range and at most 0 |
| Nth.NDashDigitsAccepts | src/main/java/se/fishtank/css/selectors/parser/NthParser.java:187-193 | `n-` followed by digits whose negation fits in 32 bits is accepted with that negation |
| Nth.SkipWs | src/main/java/se/fishtank/css/selectors/parser/NthParser.java:229-236 | skipWhitespace stops at the first token that is not WHITESPACE, at or after where it starts |
| Nth.SkipWsSkipsWhitespace | src/main/java/se/fishtank/css/selectors/parser/NthParser.java:229-236 | every token skipped is WHITESPACE |
| Nth.CloseWith | src/main/java/se/fishtank/css/selectors/parser/NthParser.java:211-213 | the value is returned exactly when the next non-whitespace token is `)` (and the value parsed); that token is read either way, and any failure is the parser's one error |
| Nth.SignlessBAt | src/main/java/se/fishtank/css/selectors/parser/NthParser.java:169-179 | parseSignlessB fails only with the parser's error, reads through `)` on success, and gives a value in the 32-bit range |
| Nth.BAt | src/main/java/se/fishtank/css/selectors/parser/NthParser.java:137-161 | parseB fails only with the parser's error, reads through `)` on success, and gives a 32-bit value |
| Nth.ClosedAt | src/main/java/se/fishtank/css/selectors/parser/NthParser.java:76-81 | even and odd need the closing parenthesis, which is read; failure is the parser's error |
| Nth.DashDigitsAt | src/main/java/se/fishtank/css/selectors/parser/NthParser.java:68-72 | parseNDashDigits inside try/finally: the closing parenthesis is read whether the digits parse or not; failure is the parser's error |
| Nth.NumberAt | src/main/java/se/fishtank/css/selectors/parser/NthParser.java:46-52 | the NUMBER form fails only with the parser's error and reads through `)` on success |
| Nth.DimensionAt | src/main/java/se/fishtank/css/selectors/parser/NthParser.java:53-72 | the DIMENSION forms fail only with the parser's error and read through `)` on success |
| Nth.IdentAt | src/main/java/se/fishtank/css/selectors/parser/NthParser.java:73-100 | the IDENT forms fail only with the parser's error and read through `)` on success; IdentNAt, IdentNDashAt and the round trips state each form |
| Nth.IdentNAt | src/main/java/se/fishtank/css/selectors/parser/NthParser.java:82-85 | the identifiers `n` and `-n` (any case) give A = 1 and -1 and read parseB after the identifier |
| Nth.IdentNDashAt | src/main/java/se/fishtank/css/selectors/parser/NthParser.java:86-89 | the identifiers `n-` and `-n-` (any case) give A = 1 and -1 and read parseSignlessB(-1) after the identifier |
| Nth.NPlusBRoundTrip | src/main/java/se/fishtank/css/selectors/parser/NthParser.java:82-85 | every 32-bit B written as `n <sign><abs B>)` or `-n <sign><abs B>)` parses back to (1, B) or (-1, B), reading through `)` |
| Nth.IdentSignedNumber | src/main/java/se/fishtank/css/selectors/parser/NthParser.java:137-160 | in those token shapes parseB reads B through `)` |
| Nth.SignedTail | src/main/java/se/fishtank/css/selectors/parser/NthParser.java:137-160 | whitespace, a signed integer number and `)`: parseB reads the number's value through `)` |
| Nth.IdentPlus | src/main/java/se/fishtank/css/selectors/parser/NthParser.java:82-85 | in those token shapes the pair is A and what parseB reads |
| Nth.NMinusDRoundTrip | src/main/java/se/fishtank/css/selectors/parser/NthParser.java:86-89 | `n- <d>)` and `-n- <d>)` with an unsigned 32-bit d parse to (1, -d) and (-1, -d), reading through `)` |
| Nth.IdentDashNumber | src/main/java/se/fishtank/css/selectors/parser/NthParser.java:169-179 | in those token shapes parseSignlessB(-1) reads -d through `)` |
| Nth.IdentDash | src/main/java/se/fishtank/css/selectors/parser/NthParser.java:86-89 | in those token shapes the pair is A and what parseSignlessB(-1) reads |
| Nth.PlusAt | src/main/java/se/fishtank/css/selectors/parser/NthParser.java:101-123 | the `+` form fails only with the parser's error and reads through `)` on success |
| Nth.NthAt | src/main/java/se/fishtank/css/selectors/parser/NthParser.java:40-130 | parse either gives a pair having read through the closing `)`, or fails with the one error built from the position where it began |
| Nth.DimensionN | src/main/java/se/fishtank/css/selectors/parser/NthParser.java:59-63 | a dimension with an integer value A and unit `n` in any letter case gives (A, parseB) |
| Nth.DimensionNDash | src/main/java/se/fishtank/css/selectors/parser/NthParser.java:64-65 | a dimension with an integer value A and unit `n-` in any letter case gives (A, parseSignlessB(-1)) |
| Nth.NthAtDimension | src/main/java/se/fishtank/css/selectors/parser/NthParser.java:44-72 | when the first non-whitespace token is a DIMENSION, another token follows it and parse is exactly the DIMENSION case |
| Nth.DimensionNAt | src/main/java/se/fishtank/css/selectors/parser/NthParser.java:59-63 | unit `n` (any case) with an integer value A: the DIMENSION case is (A, parseB) over the tokens after the dimension |
| Nth.DimensionDashAt | src/main/java/se/fishtank/css/selectors/parser/NthParser.java:64-65 | unit `n-` (any case) with an integer value A: the DIMENSION case is (A, parseSignlessB(-1)) over the tokens after the dimension |
| Nth.WithA | src/main/java/se/fishtank/css/selectors/parser/NthParser.java:62-65 | pairing A with the result of parseB keeps its position, success or error, and on success gives (A, B) |
| Nth.NthParser.Pair | src/main/java/se/fishtank/css/selectors/parser/NthParser.java:62-65 | the executable pairing succeeds exactly when the B part does, with (A, B), and otherwise passes its error on |
| Nth.DashNumber | src/main/java/se/fishtank/css/selectors/parser/NthParser.java:169-175 | after `A n-`, an unsigned integer D and `)` make parseSignlessB(-1) give -D, reading through `)` |
| Nth.DashDimension | src/main/java/se/fishtank/css/selectors/parser/NthParser.java:64-65 | given that, parse of `A n- D)` is (A, -D) reading four tokens |
| Nth.LowerUnits | src/main/java/se/fishtank/css/selectors/parser/NthParser.java:59-89 | `n`, `n-`, `-n` and `-n-` compare equal to themselves ignoring case |
| Nth.Decimal | src/main/java/se/fishtank/css/selectors/parser/NthParser.java:64-65 | the decimal text of a natural number starts with a digit |
| Nth.DecimalValue | src/main/java/se/fishtank/css/selectors/parser/NthParser.java:64-65 | the decimal text of a natural number is all digits and reads back as that number |
| Nth.SignedB | src/main/java/se/fishtank/css/selectors/parser/NthParser.java:151-155 | parseB on a sign-prefixed integer number and `)` gives the number's value |
| Nth.UnsignedB | src/main/java/se/fishtank/css/selectors/parser/NthParser.java:169-175 | parseSignlessB(-1) on an unsigned integer number and `)` gives its negation |
| Nth.ShapeSkips | src/main/java/se/fishtank/css/selectors/parser/NthParser.java:229-236 | skipWhitespace finds the tokens of `<a>n <b>)` and `n <b>)` where they are |
| Nth.NPlusB | src/main/java/se/fishtank/css/selectors/parser/NthParser.java:59-63 | `A n <signed B>)` parses to (A, B), reading exactly four tokens |
| Nth.NMinusD | src/main/java/se/fishtank/css/selectors/parser/NthParser.java:64-65 | `A n- <unsigned D>)` parses to (A, -D), reading exactly four tokens |
| Nth.AnPlusBRoundTrip | src/main/java/se/fishtank/css/selectors/parser/NthParser.java:40-130 | every 32-bit pair written as `<a>n <sign><b>)` parses back to itself |
| Nth.AnMinusDRoundTrip | src/main/java/se/fishtank/css/selectors/parser/NthParser.java:64-65 | `<a>n- <d>)` parses back to (a, -d) for every 32-bit a and d |
| Nth.NumberOnly | src/main/java/se/fishtank/css/selectors/parser/NthParser.java:46-52 | an integer number followed by `)` gives (0, value), exactly; a non-integer number is an error |
| Nth.EvenOdd | src/main/java/se/fishtank/css/selectors/parser/NthParser.java:73-81 | `even` and `odd` in any letter case give (2, 0) and (2, 1), exactly when `)` follows |
| Nth.PlusNeedsIdent | src/main/java/se/fishtank/css/selectors/parser/NthParser.java:101-109 | `+` not followed at once by an identifier (whitespace included) is the parser's error |
| Nth.SignlessB | src/main/java/se/fishtank/css/selectors/parser/NthParser.java:169-179 | parseSignlessB rejects a sign-prefixed number and otherwise gives the integer value times the sign |
| Nth.BForms | src/main/java/se/fishtank/css/selectors/parser/NthParser.java:137-161 | parseB: `)` gives 0 and reads it; a number succeeds only when sign-prefixed, with its value; only `)`, a number or a sign delimiter can succeed |
| Nth.NthParser.constructor | src/main/java/se/fishtank/css/selectors/parser/NthParser.java:29-32 | the parser's one error carries the tokenizer position at entry |
| Nth.NthParser.Parse | src/main/java/se/fishtank/css/selectors/parser/NthParser.java:40-130 | parse returns, and leaves the tokenizer, exactly as NthAt says for the tokens from the current position |
| Nth.NthParser.ParseArgs | src/main/java/se/fishtank/css/selectors/parser/NthParser.java:44-126 | the dispatch on the first non-whitespace token follows NthAt |
| Nth.NthParser.ParseNumber | src/main/java/se/fishtank/css/selectors/parser/NthParser.java:46-52 | the NUMBER case follows NumberAt |
| Nth.NthParser.ParseDimension | src/main/java/se/fishtank/css/selectors/parser/NthParser.java:53-72 | the DIMENSION case follows DimensionAt |
| Nth.NthParser.ParseIdent | src/main/java/se/fishtank/css/selectors/parser/NthParser.java:73-100 | the IDENT case follows IdentAt |
| Nth.NthParser.ParsePlus | src/main/java/se/fishtank/css/selectors/parser/NthParser.java:101-123 | the DELIM case follows PlusAt |
| Nth.NthParser.ClosedPair | src/main/java/se/fishtank/css/selectors/parser/NthParser.java:76-81 | even and odd follow ClosedAt |
| Nth.NthParser.DashDigitsThenClose | src/main/java/se/fishtank/css/selectors/parser/NthParser.java:68-72 | the try/finally of parseNDashDigits follows DashDigitsAt |
| Nth.NthParser.ParseB | src/main/java/se/fishtank/css/selectors/parser/NthParser.java:137-161 | parseB follows BAt |
| Nth.NthParser.ParseSignlessB | src/main/java/se/fishtank/css/selectors/parser/NthParser.java:169-179 | parseSignlessB follows SignlessBAt |
| Nth.NthParser.MatchClosingParen | src/main/java/se/fishtank/css/selectors/parser/NthParser.java:211-213 | true exactly when the next non-whitespace token is `)`, which is read |
| Nth.NthParser.MustMatchClosingParen | src/main/java/se/fishtank/css/selectors/parser/NthParser.java:218-222 | succeeds exactly when the next non-whitespace token is `)`, which is read |
| Nth.NthParser.SkipWhitespace | src/main/java/se/fishtank/css/selectors/parser/NthParser.java:229-236 | returns the first non-whitespace token and leaves the tokenizer just past it |
| SelectorParsing.Optional | src/main/java/se/fishtank/css/selectors/parser/SelectorParser.java:159-161 | a null simple selector becomes None, any other outcome is kept |
| SelectorParsing.NameAt | src/main/java/se/fishtank/css/selectors/parser/SelectorParser.java:189-204 | parseName reads forward, and reads a token exactly when it finds a name |
| SelectorParsing.ClassAt | src/main/java/se/fishtank/css/selectors/parser/SelectorParser.java:221-227 | `.` then an identifier reads forward within the tokens, and a success is an attribute selector |
| SelectorParsing.PseudoElementAt | src/main/java/se/fishtank/css/selectors/parser/SelectorParser.java:246-252 | `::` then a name reads forward within the tokens |
| SelectorParsing.AttributeValueAt | src/main/java/se/fishtank/css/selectors/parser/SelectorParser.java:306-320 | the value and `]` of an attribute selector read forward within the tokens, and a success is an attribute selector |
| SelectorParsing.AttributeAt | src/main/java/se/fishtank/css/selectors/parser/SelectorParser.java:269-321 | parseAttribute reads forward within the tokens, and a success is an attribute selector |
| SelectorParsing.NthPseudoAt | src/main/java/se/fishtank/css/selectors/parser/SelectorParser.java:335-340 | the nth-* pseudo-classes read forward within the tokens |
| SelectorParsing.ArgumentsAt | src/main/java/se/fishtank/css/selectors/parser/SelectorParser.java:367-379 | another functional pseudo-class gives a PseudoFunction, or the EOF error at the start position |
| SelectorParsing.NegationEndAt | src/main/java/se/fishtank/css/selectors/parser/SelectorParser.java:359-364 | the end of a negation reads forward within the tokens |
| SelectorParsing.OneSimpleAt | src/main/java/se/fishtank/css/selectors/parser/SelectorParser.java:214-260 | a simple selector read moves forward and is well placed (a pseudo-element right after its name; inside a negation no nested negation) |
| SelectorParsing.PseudoAt | src/main/java/se/fishtank/css/selectors/parser/SelectorParser.java:233-255 | what follows a colon reads forward and gives a well-placed simple selector |
| SelectorParsing.FunctionalAt | src/main/java/se/fishtank/css/selectors/parser/SelectorParser.java:332-380 | a functional pseudo-class reads forward and gives a well-placed simple selector |
| SelectorParsing.NegationAt | src/main/java/se/fishtank/css/selectors/parser/SelectorParser.java:341-364 | `:not(...)` gives a negation whose inner selector is no negation |
| SelectorParsing.SimplesAt | src/main/java/se/fishtank/css/selectors/parser/SelectorParser.java:158-172 | the loop of parseSimpleSelectors reads forward within the tokens |
| SelectorParsing.CompoundAt | src/main/java/se/fishtank/css/selectors/parser/SelectorParser.java:145-179 | parseSimpleSelectors reads forward within the tokens |
| SelectorParsing.CombinatorAt | src/main/java/se/fishtank/css/selectors/parser/SelectorParser.java:95-126 | a combinator found moves the reading forward |
| SelectorParsing.JointAt | src/main/java/se/fishtank/css/selectors/parser/SelectorParser.java:95-129 | a new compound linked on moves the reading forward |
| SelectorParsing.ChainAt | src/main/java/se/fishtank/css/selectors/parser/SelectorParser.java:94-130 | the loop of parseSelector as written reads forward within the tokens and never yields a pseudo-element |
| SelectorParsing.SelectorAt | src/main/java/se/fishtank/css/selectors/parser/SelectorParser.java:90-133 | parseSelector as written reads forward within the tokens |
| SelectorParsing.ListRestAt | src/main/java/se/fishtank/css/selectors/parser/SelectorParser.java:67-78 | the rest of parseSelectorList reads forward within the tokens |
| SelectorParsing.SelectorListAt | src/main/java/se/fishtank/css/selectors/parser/SelectorParser.java:64-81 | parseSelectorList reads forward within the tokens |
| SelectorParsing.SimplesShape | src/main/java/se/fishtank/css/selectors/parser/SelectorParser.java:158-172 | the loop keeps what it has read in front, adds no further LocalName, lists no pseudo-element, stops right after a pseudo-element's name, and ends up empty only when a type selector came first |
| SelectorParsing.CompoundShape | src/main/java/se/fishtank/css/selectors/parser/SelectorParser.java:145-179 | an identifier type becomes a leading LocalName, `*` adds nothing, no other simple selector is a LocalName, no pseudo-element is listed, and a compound with neither a type nor anything else does not succeed empty |
| SelectorParsing.EmptyCompound | src/main/java/se/fishtank/css/selectors/parser/SelectorParser.java:174-176 | with no type selector and no simple selector the result is the "no simple selectors" error at the start position |
| SelectorParsing.CombinatorRead | src/main/java/se/fishtank/css/selectors/parser/SelectorParser.java:95-126 | parseCombinator: EOF or a comma give null (a comma is pushed back); `>`, `+`, `~` give CHILD, NEXT_SIBLING, LATER_SIBLING; whitespace before anything else gives DESCENDANT; no whitespace and no combinator is the error "one of ' ', '>', '+', '~'" |
| SelectorParsing.Combinators | src/main/java/se/fishtank/css/selectors/parser/SelectorParser.java:95-126 | EOF or a comma ends the selector (a comma is pushed back); `>`, `+`, `~` give CHILD, NEXT_SIBLING, LATER_SIBLING; whitespace before anything else gives DESCENDANT; without whitespace anything else is the "one of" error; the new compound links to the previous one |
| SelectorParsing.ChainShape | src/main/java/se/fishtank/css/selectors/parser/SelectorParser.java:94-130 | as written: the chain keeps the compound it started from at its left end, lists no pseudo-element in any compound, and carries no pseudo-element |
| SelectorParsing.JointShape | src/main/java/se/fishtank/css/selectors/parser/SelectorParser.java:128-129 | each new compound links leftward to the previous one and lists no pseudo-element |
| SelectorParsing.SelectorShape | src/main/java/se/fishtank/css/selectors/parser/SelectorParser.java:90-133 | as written: no compound lists a pseudo-element; a pseudo-element is kept only when it ends the first compound, and then ends the selector right after its name |
| SelectorParsing.ListRestShape | src/main/java/se/fishtank/css/selectors/parser/SelectorParser.java:67-78 | the selectors read so far stay in front, and success means the final EOF was read |
| SelectorParsing.ListSeparators | src/main/java/se/fishtank/css/selectors/parser/SelectorParser.java:68-75 | EOF after a selector ends the list; anything but EOF or a comma is the error "Expected ," |
| SelectorParsing.SelectorListShape | src/main/java/se/fishtank/css/selectors/parser/SelectorParser.java:64-81 | a successful list is non-empty and read through to the final EOF |
| SelectorParsing.SimpleForms | src/main/java/se/fishtank/css/selectors/parser/SelectorParser.java:214-230 | `#x` is [id=x], `.x` is [class~=x], `.` without an identifier is "Expected class value", any other delimiter is "Expected .", and a token that starts no simple selector is pushed back |
| SelectorParsing.PseudoForms | src/main/java/se/fishtank/css/selectors/parser/SelectorParser.java:233-252 | first-line, first-letter, before and after (any letter case) after one colon are pseudo-elements, any other identifier a pseudo-class with the name as written, `::name` always a pseudo-element, `::` without a name an error |
| SelectorParsing.AttributeEarly | src/main/java/se/fishtank/css/selectors/parser/SelectorParser.java:269-279 | a name that is no identifier is the error "attribute name"; `[name]` is EXISTS with value ""; a delimiter other than `=` after the name is the error "=" |
| SelectorParsing.AttributeSuccess | src/main/java/se/fishtank/css/selectors/parser/SelectorParser.java:269-321 | a successful attribute selector holds the name read, is EXISTS exactly when `]` follows the name (value ""), otherwise has the operator of the token read and the value of the identifier or string read after it, and ends with `]` |
| SelectorParsing.AttributeOperator | src/main/java/se/fishtank/css/selectors/parser/SelectorParser.java:281-321 | past the name, an operator token hands over to the value part (AttributeValueAt) with the match MatchOf says, never EXISTS; a result has the value token's value and ends with `]` |
| SelectorParsing.AttributeValueShape | src/main/java/se/fishtank/css/selectors/parser/SelectorParser.java:306-320 | the value must be an identifier or a string, else the error "attribute value" at that token; the next token that is not whitespace must be `]`, else the error "]" at it; otherwise the selector has the operator, the name and the value token's value, ending just past `]` |
| SelectorParsing.AttributeForms | src/main/java/se/fishtank/css/selectors/parser/SelectorParser.java:269-321 | the name must be an identifier; `[name]` is EXISTS with value ""; a delimiter other than `=` is an error; any other operator goes on to the value part (AttributeValueShape gives its errors); a result holds the name, the operator of the token and the value token's value, and ends with `]` |
| SelectorParsing.Operators | src/main/java/se/fishtank/css/selectors/parser/SelectorParser.java:281-304 | `^=` BEGINS, `$=` ENDS, `*=` CONTAINS, `~=` INCLUDES, the dash match HYPHENS, `=` EQUALS; any other token leaves the match null |
| SelectorParsing.ArgumentsStop | src/main/java/se/fishtank/css/selectors/parser/SelectorParser.java:367-379 | the argument loop succeeds exactly by reading the first `)`, and fails only when no `)` comes before the end |
| SelectorParsing.ArgumentsValue | src/main/java/se/fishtank/css/selectors/parser/SelectorParser.java:367-379 | on success the argument text is the concatenated values of the tokens before that `)` |
| SelectorParsing.ArgumentsText | src/main/java/se/fishtank/css/selectors/parser/SelectorParser.java:367-379 | the arguments are the concatenated token values up to the first `)`, which is read; with no `)` before EOF the result is an error |
| SelectorParsing.FunctionalForms | src/main/java/se/fishtank/css/selectors/parser/SelectorParser.java:332-345 | the nth-* names in any letter case take NthParser's pair (or its error) under the name as written; a nested `not` is an error; any other name captures its arguments |
| SelectorParsing.NegationForms | src/main/java/se/fishtank/css/selectors/parser/SelectorParser.java:346-357 | `:not(x)` with a type name (`*` included) negates that LocalName; otherwise the inner simple selector is no LocalName |
| SelectorParsing.NegationEndForms | src/main/java/se/fishtank/css/selectors/parser/SelectorParser.java:359-362 | after the inner selector, the next token that is not whitespace must be `)`: it gives the negation, read through it; any other token is the error ")" at that token |
| SelectorParsing.NegationSteps | src/main/java/se/fishtank/css/selectors/parser/SelectorParser.java:346-363 | a type selector, or else one simple selector, closed as NegationEndForms says; no simple selector is the error "simple selector" at the token pushed back; an error inside is passed on; a negation that succeeds ends with `)` |
| SelectorParsing.IntendedChainAt | src/main/java/se/fishtank/css/selectors/parser/SelectorParser.java:94-130 | the loop as evidently intended (a pseudo-element ends the selector in any compound) reads forward within the tokens |
| SelectorParsing.IntendedSelectorAt | src/main/java/se/fishtank/css/selectors/parser/SelectorParser.java:90-133 | parseSelector as evidently intended reads forward within the tokens |
| SelectorParsing.IntendedChainShape | src/main/java/se/fishtank/css/selectors/parser/SelectorParser.java:94-130 | the intended loop keeps the compound it started from at the left end, lists no pseudo-element in any compound, and stops right after the name of a pseudo-element it keeps |
| SelectorParsing.IntendedSelectorShape | src/main/java/se/fishtank/css/selectors/parser/SelectorParser.java:90-133 | the intended parseSelector lists no pseudo-element in any compound and stops right after the name of the pseudo-element it keeps, in the first compound or a later one |
| SelectorParsing.LaterPseudoElementDropped | src/main/java/se/fishtank/css/selectors/parser/SelectorParser.java:94-130 | when a later compound ends with a pseudo-element and the input ends there, the loop as written returns the selector without it, where the intended loop keeps it |
| SelectorParsing.DivPBeforeAsWritten | src/main/java/se/fishtank/css/selectors/parser/SelectorParser.java:90-133 | `div p::before` parses, as written, to `div p` with no pseudo-element, and as intended to `div p` carrying `before` |
| SelectorParsing.SelectorParser.constructor | src/main/java/se/fishtank/css/selectors/parser/SelectorParser.java:53-55 | a new parser has nothing pushed back and stands at the tokenizer's position |
| SelectorParsing.SelectorParser.Parse | src/main/java/se/fishtank/css/selectors/parser/SelectorParser.java:53-55 | parse returns what SelectorListAt says for the tokens from the tokenizer's position |
| SelectorParsing.SelectorParser.ParseSelectorList | src/main/java/se/fishtank/css/selectors/parser/SelectorParser.java:64-81 | follows SelectorListAt, including where the reading stops |
| SelectorParsing.SelectorParser.ParseSelector | src/main/java/se/fishtank/css/selectors/parser/SelectorParser.java:90-133 | follows SelectorAt, including where the reading stops |
| SelectorParsing.SelectorParser.ParseCombinator | src/main/java/se/fishtank/css/selectors/parser/SelectorParser.java:95-126 | follows CombinatorAt |
| SelectorParsing.SelectorParser.ParseSimpleSelectors | src/main/java/se/fishtank/css/selectors/parser/SelectorParser.java:145-179 | follows CompoundAt |
| SelectorParsing.SelectorParser.ParseName | src/main/java/se/fishtank/css/selectors/parser/SelectorParser.java:189-204 | follows NameAt |
| SelectorParsing.SelectorParser.ParseOneSimpleSelector | src/main/java/se/fishtank/css/selectors/parser/SelectorParser.java:214-260 | follows OneSimpleAt |
| SelectorParsing.SelectorParser.ParseAttribute | src/main/java/se/fishtank/css/selectors/parser/SelectorParser.java:269-321 | follows AttributeAt |
| SelectorParsing.SelectorParser.ParseFunctionalPseudoClass | src/main/java/se/fishtank/css/selectors/parser/SelectorParser.java:332-380 | follows FunctionalAt |
| SelectorParsing.SelectorParser.ParseNegation | src/main/java/se/fishtank/css/selectors/parser/SelectorParser.java:341-364 | follows NegationAt |
| SelectorParsing.SelectorParser.NextToken | src/main/java/se/fishtank/css/selectors/parser/SelectorParser.java:387-395 | returns the pushed-back token if there is one, clearing it, and otherwise the tokenizer's next token |
| SelectorParsing.SelectorParser.SkipWhitespace | src/main/java/se/fishtank/css/selectors/parser/SelectorParser.java:403-413 | returns the first non-whitespace token and whether any whitespace came before it |
| Dom.Tree.Parent | src/main/java/se/fishtank/css/selectors/dom/DOMNode.java:78 | a parent comes earlier in the arena, and a document has none; the parent may be of any node type, as DOMNode allows |
| Dom.Tree.ChildOfParent | src/main/java/se/fishtank/css/selectors/dom/DOMNode.java:57-78 | every node with a parent is one of that parent's children, reached from getFirstChild by getNextSibling |
| Dom.Tree.PreviousSibling | src/main/java/se/fishtank/css/selectors/dom/DOMNode.java:64 | a previous sibling comes earlier, has the same parent and has the node as next sibling; a node without parent has none |
| Dom.Tree.NextSibling | src/main/java/se/fishtank/css/selectors/dom/DOMNode.java:71 | a next sibling comes later, has the same parent and has the node as previous sibling |
| Dom.Tree.FirstChild | src/main/java/se/fishtank/css/selectors/dom/DOMNode.java:57 | a first child comes later, has the node as parent and no previous sibling |
| Matching.SkipSpaces | src/main/java/se/fishtank/css/selectors/matching/SelectorMatcher.java:26 | the run of SPACE_REGEX characters skipped is maximal |
| Matching.SkipWord | src/main/java/se/fishtank/css/selectors/matching/SelectorMatcher.java:26 | the run of other characters skipped is maximal |
| Matching.Wrap32 | src/main/java/se/fishtank/css/selectors/matching/SelectorMatcher.java:365 | the Java int value of an integer lies in the 32-bit range |
| Matching.FirstElementFrom | src/main/java/se/fishtank/css/selectors/matching/SelectorMatcher.java:85-89 | a node the scan finds is an element |
| Matching.Target | src/main/java/se/fishtank/css/selectors/matching/SelectorMatcher.java:84-90 | the redirected node is in the tree |
| Matching.AxisNext | src/main/java/se/fishtank/css/selectors/matching/SelectorMatcher.java:143-149 | each step of the walk goes to an earlier node, so the walk ends |
| Matching.SelectorMatcher.MatchesSelectors | src/main/java/se/fishtank/css/selectors/matching/SelectorMatcher.java:54-62 | true exactly when some selector of the list matches the node |
| Matching.SelectorMatcher.MatchesSelector | src/main/java/se/fishtank/css/selectors/matching/SelectorMatcher.java:71-74 | a selector with a pseudo-element never matches; otherwise it matches exactly when its rightmost compound yields MATCHED |
| Matching.SelectorMatcher.MatchesSimpleSelector | src/main/java/se/fishtank/css/selectors/matching/SelectorMatcher.java:83-113 | computes SimpleMatches, whose meaning the lemmas of CompoundSemantics give |
| Matching.SelectorMatcher.Redirect | src/main/java/se/fishtank/css/selectors/matching/SelectorMatcher.java:84-90 | the loop finds the document's first element child, if any |
| Matching.SelectorMatcher.MatchesCompoundSelector | src/main/java/se/fishtank/css/selectors/matching/SelectorMatcher.java:122-175 | computes CompoundResult, proved sound by CompoundSemantics.CompoundSound |
| Matching.SelectorMatcher.MatchesAttributeSelector | src/main/java/se/fishtank/css/selectors/matching/SelectorMatcher.java:184-223 | true exactly when the attribute map exists, has the selector's name, and its value passes the operator's test |
| Matching.SelectorMatcher.SplitContains | src/main/java/se/fishtank/css/selectors/matching/SelectorMatcher.java:200-207 | true exactly when `w` is one of the strings SPACE_REGEX.split yields |
| Matching.SelectorMatcher.MatchesPseudoClassSelector | src/main/java/se/fishtank/css/selectors/matching/SelectorMatcher.java:232-266 | computes PseudoClassMatches, with the `:empty` loop over the children |
| Matching.SelectorMatcher.MatchesPseudoNthSelector | src/main/java/se/fishtank/css/selectors/matching/SelectorMatcher.java:275-288 | computes PseudoNthAsWritten: the four nth names, compared case-sensitively as the selector holds them, select the counting test; any other name is false |
| Matching.SelectorMatcher.MatchesFirstOrLastChild | src/main/java/se/fishtank/css/selectors/matching/SelectorMatcher.java:297-317 | the sibling loop computes FirstOrLastFrom |
| Matching.SelectorMatcher.MatchesNthChild | src/main/java/se/fishtank/css/selectors/matching/SelectorMatcher.java:329-366 | the counting loop computes NthChild |
| MatchingProofs.NthTerms | src/main/java/se/fishtank/css/selectors/matching/SelectorMatcher.java:361-365 | the nth test holds exactly when i is a term a*n + b for some n >= 0 (for a == 0, i == b) |
| MatchingProofs.NthOverflow | src/main/java/se/fishtank/css/selectors/matching/SelectorMatcher.java:365 | as written, with a == 1 and b == -2147483647 no position from 1 to 2^31 passes, though each is a term of the sequence |
| MatchingProofs.NthNoOverflow | src/main/java/se/fishtank/css/selectors/matching/SelectorMatcher.java:361-365 | when `i - b` does not overflow, the test as written agrees with the unbounded test |
| MatchingProofs.QuotientBound | src/main/java/se/fishtank/css/selectors/matching/SelectorMatcher.java:365 | Java's truncated quotient is no larger in magnitude than the dividend |
| MatchingProofs.NthNameCase | src/main/java/se/fishtank/css/selectors/matching/SelectorMatcher.java:275-288 | as written, an nth name with an upper-case letter never matches, though the parser accepted it; with the name compared ignoring case it is the nth-child test |
| MatchingProofs.UpperCaseNth | src/main/java/se/fishtank/css/selectors/matching/SelectorMatcher.java:276-278 | `:NTH-CHILD(1)` never matches as written, and is `:nth-child(1)` with the corrected comparison |
| MatchingProofs.CountBackward | src/main/java/se/fishtank/css/selectors/matching/SelectorMatcher.java:337-359 | counting backwards from a node counts the siblings before it |
| MatchingProofs.CountForward | src/main/java/se/fishtank/css/selectors/matching/SelectorMatcher.java:337-359 | counting forwards from a node counts the siblings after it |
| MatchingProofs.NthIndexPosition | src/main/java/se/fishtank/css/selectors/matching/SelectorMatcher.java:329-359 | i is 1 plus the number of counted children of the parent before the node (after it when counting from the end) |
| MatchingProofs.FirstOrLastCount | src/main/java/se/fishtank/css/selectors/matching/SelectorMatcher.java:297-317 | first-child (last-child) holds exactly when the parent is an element and no element sibling comes before (after) the node |
| MatchingProofs.FirstChildIsNth | src/main/java/se/fishtank/css/selectors/matching/SelectorMatcher.java:297-317 | `:first-child` is `:nth-child(1)` and `:last-child` is `:nth-last-child(1)` |
| MatchingProofs.EmptySiblings | src/main/java/se/fishtank/css/selectors/matching/SelectorMatcher.java:250-262 | the `:empty` loop checks each child in order |
| MatchingProofs.EmptyChildren | src/main/java/se/fishtank/css/selectors/matching/SelectorMatcher.java:249-262 | `:empty` holds exactly when no child is an element or a text with data |
| MatchingProofs.FieldIsWord | src/main/java/se/fishtank/css/selectors/matching/SelectorMatcher.java:201 | each field the split finds is a whole whitespace-separated word of the value |
| MatchingProofs.WordIsField | src/main/java/se/fishtank/css/selectors/matching/SelectorMatcher.java:201 | each whole word of the value is a field the split finds |
| MatchingProofs.FieldsAreWords | src/main/java/se/fishtank/css/selectors/matching/SelectorMatcher.java:26 | the fields of a value are exactly its whole words |
| MatchingProofs.IncludesWord | src/main/java/se/fishtank/css/selectors/matching/SelectorMatcher.java:200-207 | `[name~=w]` with w non-empty holds exactly when w is a whole whitespace-separated word of the value |
| MatchingProofs.IncludesEmpty | src/main/java/se/fishtank/css/selectors/matching/SelectorMatcher.java:201 | `[name~=""]` holds exactly for an empty value or one that starts with a space and has a word |
| MatchingProofs.SubstringOccurs | src/main/java/se/fishtank/css/selectors/matching/SelectorMatcher.java:212-213 | CONTAINS holds exactly when the selector's value occurs at some index of the attribute value |
| MatchingProofs.HyphenPrefix | src/main/java/se/fishtank/css/selectors/matching/SelectorMatcher.java:214-216 | HYPHENS holds exactly when the value is w, or begins with w followed by a hyphen |
| CompoundSemantics.FirstElementScan | src/main/java/se/fishtank/css/selectors/matching/SelectorMatcher.java:85-89 | the scan finds the first element among the siblings, and finds nothing only when there is no element among them |
| CompoundSemantics.DocumentRedirect | src/main/java/se/fishtank/css/selectors/matching/SelectorMatcher.java:84-94 | a simple selector matched against a document is matched against its first element child; with no element child it does not match |
| CompoundSemantics.OnlyElementsMatch | src/main/java/se/fishtank/css/selectors/matching/SelectorMatcher.java:92-94 | only an element, or a document with an element child, can match a simple selector |
| CompoundSemantics.NegationComplement | src/main/java/se/fishtank/css/selectors/matching/SelectorMatcher.java:100-101 | `:not(s)` matches exactly the element nodes that `s` does not |
| CompoundSemantics.PreviousElement | src/main/java/se/fishtank/css/selectors/matching/SelectorMatcher.java:145-157 | the closest element before a node among its siblings is an earlier sibling element |
| CompoundSemantics.CompoundSound | src/main/java/se/fishtank/css/selectors/matching/SelectorMatcher.java:122-175 | a MATCHED compound represents the node: every simple selector matches it, and each compound to the left represents an element related to the next by its combinator |
| CompoundSemantics.WalkSound | src/main/java/se/fishtank/css/selectors/matching/SelectorMatcher.java:143-174 | a MATCHED walk found an element, related to the node by the combinator, that the left compound represents |
| CompoundSemantics.AxisStep | src/main/java/se/fishtank/css/selectors/matching/SelectorMatcher.java:145-157 | every element the walk reaches is related to the node by the combinator, and the walk stays on the combinator's axis |
| CompoundSemantics.SelectorSound | src/main/java/se/fishtank/css/selectors/matching/SelectorMatcher.java:71-74 | matchesSelector says yes only for a selector without pseudo-element whose rightmost compound represents the node |
| CompoundSemantics.DescendantSettles | src/main/java/se/fishtank/css/selectors/matching/SelectorMatcher.java:158-172 | under a descendant combinator the walk never asks for a restart |
| CompoundSemantics.ChildNeverLaterSibling | src/main/java/se/fishtank/css/selectors/matching/SelectorMatcher.java:163-165 | under a child combinator the walk never asks to restart from a later sibling |
| CompoundSemantics.CompoundComplete | src/main/java/se/fishtank/css/selectors/matching/SelectorMatcher.java:122-175 | a compound that represents the node yields MATCHED: the walk never stops before it reaches the element on the left that represents the left compound |
| CompoundSemantics.NextSiblingComplete | src/main/java/se/fishtank/css/selectors/matching/SelectorMatcher.java:143-168 | the `+` walk skips non-elements and yields MATCHED when the closest earlier element yields MATCHED |
| CompoundSemantics.DescendantComplete | src/main/java/se/fishtank/css/selectors/matching/SelectorMatcher.java:143-172 | the descendant walk reaches an ancestor that represents the left compound, and yields MATCHED |
| CompoundSemantics.LaterSiblingComplete | src/main/java/se/fishtank/css/selectors/matching/SelectorMatcher.java:143-172 | the `~` walk reaches an earlier sibling that represents the left compound, and yields MATCHED |
| CompoundSemantics.RepresentedBlocks | src/main/java/se/fishtank/css/selectors/matching/SelectorMatcher.java:158-171 | an element that represents a compound keeps it from yielding NOT_MATCHED anywhere on that element's ancestor line, and from yielding RESTART_FROM_CLOSEST_DESCENDANT at any later sibling |
| CompoundSemantics.NotMatchedExcludes | src/main/java/se/fishtank/css/selectors/matching/SelectorMatcher.java:122-175 | NOT_MATCHED is final: the compound represents no element that is the node, a sibling of it, an ancestor of it or a sibling of an ancestor |
| CompoundSemantics.ChildNotMatched | src/main/java/se/fishtank/css/selectors/matching/SelectorMatcher.java:143-165 | a `>` walk yields NOT_MATCHED only when no ancestor of the node represents the left compound |
| CompoundSemantics.DescendantNotMatched | src/main/java/se/fishtank/css/selectors/matching/SelectorMatcher.java:143-172 | a descendant walk yields NOT_MATCHED only when no ancestor of the node represents the left compound |
| CompoundSemantics.NextSiblingNotMatched | src/main/java/se/fishtank/css/selectors/matching/SelectorMatcher.java:143-167 | a `+` walk yields NOT_MATCHED only as the result of the left compound at the closest earlier element |
| CompoundSemantics.LaterSiblingNotMatched | src/main/java/se/fishtank/css/selectors/matching/SelectorMatcher.java:143-172 | a `~` walk yields NOT_MATCHED only as the result of the left compound at some earlier element |
| CompoundSemantics.AncestorsExcluded | src/main/java/se/fishtank/css/selectors/matching/SelectorMatcher.java:158-165 | with `>` or a descendant combinator, when no ancestor of the node represents the left compound, no node on its ancestor line represents the compound |
| CompoundSemantics.SiblingsExcluded | src/main/java/se/fishtank/css/selectors/matching/SelectorMatcher.java:145-168 | with `+` or `~`, when nothing on the ancestor line of a sibling represents the left compound, nothing on the ancestor line of the node represents the compound |
| CompoundSemantics.RestartExcludes | src/main/java/se/fishtank/css/selectors/matching/SelectorMatcher.java:122-175 | RESTART_FROM_CLOSEST_DESCENDANT rules out the node and its earlier siblings: the compound represents none of them |
| CompoundSemantics.NextSiblingRestart | src/main/java/se/fishtank/css/selectors/matching/SelectorMatcher.java:150-167 | a `+` walk asks for RESTART_FROM_CLOSEST_DESCENDANT only when there is no earlier element, or when the left compound asked for it at the closest one |
| CompoundSemantics.LaterSiblingRestart | src/main/java/se/fishtank/css/selectors/matching/SelectorMatcher.java:150-171 | a `~` walk that asks for RESTART_FROM_CLOSEST_DESCENDANT leaves no earlier sibling representing the left compound |
| CompoundSemantics.CompoundExact | src/main/java/se/fishtank/css/selectors/matching/SelectorMatcher.java:122-175 | matchesCompoundSelector yields MATCHED exactly when the compound represents the node |
| CompoundSemantics.SelectorExact | src/main/java/se/fishtank/css/selectors/matching/SelectorMatcher.java:71-74 | matchesSelector says yes exactly for a selector without pseudo-element whose rightmost compound represents the node |

## Left out

- `SelectorParser.parse(String)` (parser/SelectorParser.java:43-45) only builds a `Tokenizer` and calls `parse(Tokenizer)`; the model starts from the tokenizer's token sequence (`Streams.Replay`), produced by `Lexer.Tokenize`.
- The parsers read a `Replay` of the tokenizer's output and a read index instead of holding the `Tokenizer` object itself. This relies on `nextToken` being deterministic and returning EOF forever at the end, which `Lexer.Tokenize` and `Lexer.Tokenizer.NextToken` prove.
- Text is a sequence of Unicode code points. Java's UTF-16 strings, surrogate pairs and `codePointAt`/`Character.charCount` are not modelled.
- `toLowerCase` and `equalsIgnoreCase` fold ASCII letters only (`CodePoints.Lower`). Java's full Unicode case mapping is not modelled.
- `Integer.parseInt` accepts only ASCII digits here. Java also accepts the digits of other scripts.
- Exception messages are not modelled. An exception is a `Failure` carrying an `Errors.ParseError` value that holds the message's parts (what was expected, the position, the token type).
- `Tokens.UnicodeRangeToken`: the `String.format("U+%04X-U+%04X", …)` value is modelled only as the upper-case hex rendering of the bounds, padded to four digits (`Tokens.HexPadded`).
- The number text of NUMBER, PERCENTAGE and DIMENSION tokens is kept as read. Its conversion to a floating-point value is not modelled.
- `Matching.ValueMatches`: an attribute selector whose operator token is not one of the listed ones leaves `match` null, and `switch (selector.match)` then throws a `NullPointerException` in Java. The model answers false there instead.
- A node whose `getData` is null is modelled with the empty string `""`.
- Attributes are a `map`, so the model does not depend on the iteration order of `getAttributes`.
- `SimpleSelectorMatcher` is an uninterpreted function parameter (`Matching.Hook`). Its own implementations are not part of this model.
- `Matching.SelectorMatcher.MatchesNthChild`: the counter `i` is an unbounded integer. The 32-bit arithmetic of the final test is modelled separately by `Matching.NthHoldsAsWritten` (see Findings).
- The parser (`SelectorParsing.SelectorAt`, `SelectorParsing.SelectorParser.ParseSelector`) and the matcher (`Matching.PseudoNthAsWritten`) follow the code as written, including the dropped pseudo-element and the case-sensitive nth names. The intended behaviour (`SelectorParsing.IntendedSelectorAt`, `MatchingProofs.NthNameCase`) is stated beside them and is not used by the rest of the model.
- The `DOMNode` interface is modelled as an arena tree (`Dom.Tree`) whose links are indexes. The nodes are not objects with identity, and the tree does not change while it is matched.
- The legacy `Checker` classes, the `dom2` and `generic` packages, `W3CNode`, `DOMHelper`, `Selectors`, `Traversal`, `Visitor` and `Reference` are not part of this model.

## Findings

| source | as written | input that shows it | evidently intended | confidence | as-written member | corrected member |
|---|---|---|---|---|---|---|
| src/main/java/se/fishtank/css/selectors/parser/SelectorParser.java:90-133 | the loop of `parseSelector` never assigns `pseudoElement`, so a pseudo-element on any compound after the first is dropped | `div p::before` parses to `div p` with no pseudo-element | the pseudo-element of the last compound ends the selector and is kept in it | high, not executed | SelectorParsing.LaterPseudoElementDropped | SelectorParsing.IntendedSelectorShape |
| src/main/java/se/fishtank/css/selectors/matching/SelectorMatcher.java:361-365 | `(i - b) / a` is computed on 32-bit ints, and `i - b` can overflow | `:nth-child(n-2147483647)` (a = 1, b = -2147483647): for i = 1, `i - b` wraps to -2147483648, so the first child does not match | i matches when i - b is a non-negative multiple of a, computed without overflow | high, not executed | MatchingProofs.NthOverflow | MatchingProofs.NthTerms |
| src/main/java/se/fishtank/css/selectors/matching/SelectorMatcher.java:275-288 | the `switch` on the nth name is case-sensitive, while the parser accepts the names in any letter case (parser/SelectorParser.java:334-340) | `:NTH-CHILD(1)` parses to a PseudoNthSelector named `NTH-CHILD`, which never matches | the name is compared ignoring case, as the parser does | medium, not executed | MatchingProofs.UpperCaseNth | MatchingProofs.NthNameCase |
