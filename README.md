# A verified model of a streaming JSON syntax checker

The modelled program is a command-line JSON checker written in Go (one file,
`main.go`). It reads its input one character at a time through a lexer. A
recursive-descent parser pulls tokens from that lexer with one token of
lookahead. The program answers one question: does the input start with an
object in the program's own variant of JSON (see the list below)? If so,
`main` prints "Valid JSON"; if not, it prints the first error in the words
of its `fmt.Errorf` messages. It builds no value.

The Dafny project has three layers.

- **Reference functions.**
  - `LexSpec` gives each token the lexer produces as a pure function of the input and a position.
  - `Grammar` says, as pure functions over the token sequence, what each parse routine accepts or which error it reports at which token.
  - `JsonTree` defines JSON trees and their token spellings. It proves the grammar accepts exactly the spellings of trees: soundness and completeness.
  - `StringEscapes` is an encoder for string literals (with `/` written plainly or as `\/`), with a round trip through the decoder and every way a string can fail.
  - `NumberShape` proves the lexer's greedy number scan is the maximal munch of a small regular language.
  - `Printing` writes JSON trees as text with no whitespace. The printer is not part of the program: it is the lexer's inverse. The module proves that the lexer reads a printed object back as the object's token spelling, whatever text follows it. So `Parsing.Validate` returns no error on any printed object: `Printing.PrintedAccepted` gives the condition of Validate's if-and-only-if.
- **The imperative code, in its own form.**
  - `Lexing.Lexer` is a class with the Go struct's state: the current character, the sticky end-of-input error, and the reader's position. Its methods have the same loops as the Go code.
  - `Parsing.Parser` is a class holding the lexer and the lookahead token. Its methods have the Go control flow and call the lexer lazily.
  - Each method is proved to do what the reference function says.
- **Worked examples.** `Scenarios` holds concrete cases, each proved about the model. They include the inputs on which this checker departs from standard JSON.

Modules: `Wrappers` (Option, Result), `Tokens`, `LexSpec`, `StringEscapes`,
`NumberShape`, `Lexing`, `Grammar`, `JsonTree`, `Parsing`, `Printing`, `Scenarios`.

The model follows the program, including where the program departs from JSON as RFC 8259 defines it:

- **Numbers are looser than section 6 of RFC 8259.** Every part of the lexer's number pattern `-? d* (. d*)? ([eE] [+-]? d*)?` may be empty, and leading zeros are allowed. So `-`, `1.`, `1e`, `-.5`, `-e5` and `007` are each one Number token (`NumberShape.LooseNumbers`).
- **No `\u` escapes.** Section 7 of RFC 8259 allows `\uXXXX`; the program's escape table has the other eight entries only (`main.go:71-86`).
- **Only an object may be the root.** Section 2 of RFC 8259 allows any value at the top level; the program asks for a left brace (`main.go:277-279`, `Scenarios.RejectsArrayAtTop`).
- **Trailing content is ignored.** The token after the root object's closing brace is read into the lookahead. The program then asks whether it is end of input, but both answers return nil (`main.go:285-288`, `main.go:313-316`, `Scenarios.IgnoresTrailingContent`, `Scenarios.AcceptsTextWithTrailingGarbage`).

## Model

| member | source | states |
|---|---|---|
| Lexing.Lexer.constructor | main.go:39-45 | a new lexer is valid and positioned on the first character of its input |
| Lexing.Lexer.ReadChar | main.go:47-55 | advances to the next character, or to end of input where the current character becomes 0 and the end-of-input flag is set for good |
| Lexing.Lexer.SkipWhitespace | main.go:57-61 | stops exactly at the end of the run of space, tab, LF and CR at the cursor (RunEnd) |
| Lexing.Lexer.ReadString | main.go:63-101 | returns exactly the decoded string or error of `DecodeString` from the character after the quote, and stops where that scan stops |
| Lexing.Lexer.TakeChar | main.go:107-110 | appends the current character to the number and advances, keeping the number read equal to the input slice scanned |
| Lexing.Lexer.ReadDigits | main.go:113-116 | stops exactly at the end of the run of digits at the cursor (RunEnd), keeping the number read equal to the input slice scanned |
| Lexing.Lexer.ReadFraction | main.go:118-128 | after a dot, stops exactly at the end of the run of digits that follows it (RunEnd); otherwise consumes nothing |
| Lexing.Lexer.ReadExponent | main.go:130-146 | consumes an optional exponent marker, sign and digits, and ends where the number automaton dies |
| Lexing.Lexer.ReadNumber | main.go:103-149 | stops at `NumberEnd` and returns exactly the text consumed |
| Lexing.Lexer.ReadIdentifier | main.go:151-158 | returns the maximal run of letters and underscores at the cursor and stops at its end |
| Lexing.Lexer.NextToken | main.go:160-212 | returns exactly the token `Lex` gives at the old position, and stops where `Lex` stops |
| LexSpec.RunEnd | main.go:57-61 | a run ends within the input, at or after its start |
| LexSpec.RunEndMaximal | main.go:57-61 | every character of a run is in its class, and the character after it is not |
| LexSpec.RunEndIs | main.go:57-61 | conversely, a run of class characters followed by a non-member is the run |
| LexSpec.PunctuationKind | main.go:170-187 | exactly the six characters `{ } [ ] : ,` have a punctuation kind, and its symbol is that character |
| LexSpec.Unescape | main.go:71-86 | exactly `" \ / b f n r t` may follow a backslash. Quote, backslash and solidus stand for themselves, and the five letters for control characters |
| LexSpec.DecodeString | main.go:63-101 | on success the closing quote is consumed; an unterminated string runs to the end of the input |
| LexSpec.Decimal | main.go:88 | the `%d` rendering of a character code is a non-empty run of digits |
| LexSpec.DecimalRoundTrip | main.go:88 | reading the decimal rendering of a number back gives the number |
| LexSpec.MessageInjective | main.go:85-96 | different string errors have different messages (escape, control character with its code, unterminated) |
| LexSpec.Lex | main.go:160-212 | the lexer never moves backwards or past the end of the input, and every token other than end of input and errors consumes input |
| LexSpec.Classify | main.go:167-209 | end of input is returned exactly when the cursor is at the end of the input |
| LexSpec.Lexemes | main.go:219-227 | the tokens the parser can read end with the first end-of-input or error token, and none comes before it |
| LexSpec.TokensOf | main.go:160-212 | the token sequence holds exactly the lexemes' tokens, in order |
| LexSpec.Tokenize | main.go:219-227 | the token sequence is not empty, its last token is terminal, and no earlier token is terminal |
| LexSpec.LexSkipsWhitespace | main.go:161 | whitespace before a token makes no difference to what is lexed |
| LexSpec.LexPunctuation | main.go:170-187 | each punctuation character is a token with that character as literal, and advances by one |
| LexSpec.LexUnrecognised | main.go:207-208 | any other character is an error token carrying it, and nothing is consumed |
| LexSpec.LexIdentifier | main.go:197-206 | an identifier is the maximal letter/underscore run. It is Boolean iff the run is `true` or `false`, Null iff it is `null`, and otherwise an error naming the run |
| LexSpec.DecodedControlChars | main.go:63-101 | a decoded string has a control character only where a control escape produced it, and its raw text holds none |
| LexSpec.LexQuoted | main.go:188-193 | at a quote the token is the string scan's result or the error message, and the lexer stops where the scan stops |
| LexSpec.LexEndOfInput | main.go:160-165 | end of input is reported exactly when only whitespace remains, and is reported again at every later call |
| LexSpec.LexemesChain | main.go:219-227 | each lexeme after the first is what the lexer produces where the previous one stopped |
| LexSpec.LexemesChained | main.go:219-227 | the same, for all lexemes at once |
| LexSpec.TokenizeSpelling | main.go:170-187 | every punctuation token the lexer produces has its symbol as literal |
| LexSpec.LexemeSpelling | main.go:170-187 | the k-th punctuation lexeme has its symbol as literal |
| LexSpec.LexSpelling | main.go:170-187 | one punctuation token from the lexer has its symbol as literal |
| StringEscapes.DecodeEscapeChar | main.go:68-93 | decoding the encoding of one character gives that character, with `/` written plainly or as `\/` |
| StringEscapes.DecodeAfterEscape | main.go:68-93 | decoding an encoded body decodes all of it and then goes on with what follows |
| StringEscapes.StringRoundTrip | main.go:63-101 | an encoded string followed by a quote decodes to the original and consumes the quote, whether `/` is written plainly or as `\/` |
| StringEscapes.DecodeUnterminated | main.go:95-97 | an encoded body running to end of input is an unterminated string |
| StringEscapes.DecodeBackslashAtEnd | main.go:69-86 | a backslash as the last character is an invalid escape of character 0 |
| StringEscapes.DecodeBadEscape | main.go:84-86 | a backslash before a character outside the table is an invalid escape naming it |
| StringEscapes.DecodeControlChar | main.go:87-88 | a raw control character stops the scan on it, with a control-character error |
| StringEscapes.LexString | main.go:188-193 | the round trip at token level: a quoted encoding of s is one String token with literal s |
| StringEscapes.LexUnterminated | main.go:95-97 | an unquoted end at token level is an error token "unterminated string" |
| StringEscapes.LexInvalidEscape | main.go:84-86 | a bad escape at token level is an error token naming the escape |
| StringEscapes.LexControlChar | main.go:87-88 | a raw control character at token level is an error token with the character's decimal code |
| NumberShape.RunDead | main.go:103-149 | once the number automaton is dead it stays dead |
| NumberShape.ScanAlive | main.go:103-149 | the text the scan consumes keeps the automaton alive |
| NumberShape.ScanDies | main.go:103-149 | reading past where the scan stops kills the automaton |
| NumberShape.NumberMaximalMunch | main.go:103-149 | the text taken as a number keeps the number automaton alive, and every longer text kills it |
| NumberShape.NumberPatternIsShape | main.go:103-149 | a text matches the number pattern `-? d* (. d*)? ([eE] [+-]? d*)?`, read part by part, iff the number automaton survives it |
| NumberShape.LexNumber | main.go:194-196 | at a digit or minus the token is a Number whose literal is the text consumed, and that text is the longest prefix matching the number pattern |
| NumberShape.LexNumberLiteral | main.go:194-196 | a text that matches the number pattern, starts with a digit or minus and is not followed by a number character is one Number token with exactly that text as literal |
| NumberShape.LooseNumbers | main.go:103-149 | `-`, `1.`, `1e`, `-.5`, `-e5` and `007` are each taken whole as one Number token |
| Grammar.ErrorTextInjective | main.go:252-320 | the error message identifies the error and the literal of the offending token |
| Grammar.ValueAt | main.go:260-272 | the outcome of a value is after its first token on success, and within the token sequence |
| Grammar.ObjectAt | main.go:275-324 | the outcome of an object is after its first token on success, and within the token sequence |
| Grammar.MemberAt | main.go:293-308 | the outcome of a key, colon and value is within the token sequence |
| Grammar.MembersAt | main.go:292-323 | the outcome of the member loop is within the token sequence |
| Grammar.ArrayAt | main.go:230-238 | the outcome of an array is within the token sequence |
| Grammar.ElementsAt | main.go:241-256 | the outcome of the element loop is within the token sequence |
| Grammar.MembersStep | main.go:310-322 | an accepted member list is a member, then a closing brace or a comma and more members |
| Grammar.ElementsStep | main.go:246-255 | an accepted element list is a value, then a closing bracket or a comma and more elements |
| Grammar.ElementsTurn | main.go:246-255 | after an accepted value: a bracket ends the array, a comma continues it, and anything else is "expected ',' or ']'" |
| Grammar.MembersTurn | main.go:310-322 | after an accepted member: a brace ends the object, a comma continues it, and anything else is "expected ',' or '}'" |
| JsonTree.ValueComplete | main.go:260-272 | the parser accepts the token spelling of every valid tree and stops right after it |
| JsonTree.ObjectComplete | main.go:275-289 | the same, for every object |
| JsonTree.MemberComplete | main.go:293-308 | the same, for every key, colon and value |
| JsonTree.FirstMemberComplete | main.go:293-321 | in the spelling of a member list, the first member is accepted and is followed by the closing brace (last member) or a comma (more members) |
| JsonTree.MembersComplete | main.go:292-323 | the parser accepts the spelling of every non-empty member list with its closing brace, and stops right after it |
| JsonTree.ArrayComplete | main.go:230-238 | the parser accepts the spelling of every array, and stops right after it |
| JsonTree.FirstElementComplete | main.go:241-253 | in the spelling of an element list, the first value is accepted and is followed by the closing bracket (last value) or a comma (more values) |
| JsonTree.ElementsComplete | main.go:241-256 | the parser accepts the spelling of every non-empty element list with its closing bracket, and stops right after it |
| JsonTree.ValueSound | main.go:260-272 | whatever the parser accepts as a value is the spelling of a valid tree ending where the parser stops |
| JsonTree.ObjectSound | main.go:275-289 | the same, for objects |
| JsonTree.MemberSound | main.go:293-308 | the same, for members |
| JsonTree.MembersSound | main.go:292-323 | the same, for member lists |
| JsonTree.ArraySound | main.go:230-238 | the same, for arrays |
| JsonTree.ElementsSound | main.go:241-256 | the same, for element lists |
| JsonTree.ObjectAccepts | main.go:275-324 | an object is accepted iff the tokens begin with the spelling of an object, and then it stops right after that spelling |
| Printing.PrintableValid | main.go:260-272 | a printable tree is a valid tree: its scalars are tokens that parseValue accepts |
| Printing.LexesScalar | main.go:188-206 | a printed string, number or keyword followed by punctuation is read back as that same token, and the lexer stops right after its text |
| Printing.LexesValue | main.go:160-212 | a printed value followed by punctuation is read back, one NextToken call at a time, as the value's token spelling, ending right after its text |
| Printing.LexesObject | main.go:160-212 | a printed object is read back as the object's token spelling, whatever text follows it |
| Printing.LexesMember | main.go:160-212 | a printed key, colon and value followed by punctuation is read back as the member's tokens |
| Printing.LexesMembers | main.go:160-212 | printed members separated by commas, followed by the closing brace, are read back as the members' tokens |
| Printing.LexesArray | main.go:160-212 | a printed array is read back as the array's token spelling, whatever text follows it |
| Printing.LexesElements | main.go:160-212 | printed elements separated by commas, followed by the closing bracket, are read back as the elements' tokens |
| Printing.LexesTokenize | main.go:219-227 | if the lexer yields the non-terminal tokens `ts` one call at a time, the token sequence the parser reads begins with `ts` |
| Printing.PrintedTokens | main.go:219-227 | whatever text follows a printed object, the token sequence of the whole text begins with the object's spelling |
| Printing.PrintedAccepted | main.go:275-324 | ParseObject accepts a printed object whatever text follows it, and stops right after the object's tokens. The text meets the condition under which Validate returns nil |
| Parsing.Parser.constructor | main.go:219-223 | a new parser holds the lexer and its first token, and its token sequence is what the lexer produces from where it stood |
| Parsing.Parser.NextToken | main.go:225-227 | the lookahead becomes the next token of the sequence |
| Parsing.Parser.ParseValue | main.go:260-272 | reports exactly what `ValueAt` decides, leaving the lookahead where it ends |
| Parsing.Parser.ParseObject | main.go:275-324 | reports exactly what `ObjectAt` decides |
| Parsing.Parser.ParseMember | main.go:293-308 | reports exactly what `MemberAt` decides |
| Parsing.Parser.ParseArray | main.go:230-257 | reports exactly what `ArrayAt` decides |
| Parsing.Validate | main.go:339-342 | an input is valid iff its tokens begin with the spelling of a JSON object; otherwise the error is the grammar's |
| Scenarios.LexesNearKeyword | main.go:197-206 | `tru` is an error token "invalid identifier: tru" |
| Scenarios.LexesKeywordWithUnderscore | main.go:151-158 | `true_` is one identifier and no Boolean |
| Scenarios.LexesKeyword | main.go:197-201 | ` true,` is the Boolean `true`, ending before the comma |
| Scenarios.AcceptsOneMember | main.go:292-317 | the token sequence of `{"a":1}` is accepted up to its end-of-input token |
| Scenarios.AcceptsNestedArray | main.go:160-324 | the text `{"a":[1,2,3]}` lexes to the eleven tokens of an array inside an object, and the parser accepts all of them |
| Scenarios.AcceptsNestedObject | main.go:160-324 | the text `{"a":{"b":null}}` lexes to the nine tokens of an object inside an object, and the parser accepts all of them |
| Scenarios.AcceptsEscapedNewline | main.go:63-101 | in the text `{"s":"line\nbreak"}` the escape becomes a line feed in the string token, and the parser accepts the five tokens |
| Scenarios.IgnoresTrailingContent | main.go:283-289 | after the tokens `{}` the next token is read into the lookahead, and both outcomes of its end-of-input test return nil: `{} {` is accepted at index 2 |
| Scenarios.LexesTrailingGarbage | main.go:170-206 | `{} x` lexes to two braces and an error token |
| Scenarios.AcceptsTextWithTrailingGarbage | main.go:283-289 | the text `{} x` lexes to two braces and an error token. The empty-object branch reads the error token into the lookahead, and its end-of-input test returns nil either way, so the text is accepted |
| Scenarios.RejectsArrayAtTop | main.go:277-279 | the token sequence of `[]` is rejected with "expected '{'" |
| Scenarios.RejectsEmptyInput | main.go:277-279 | the token sequence of empty input, the end-of-input token alone, is rejected with "expected '{'" on the empty end-of-input literal |
| Scenarios.RejectsTrailingCommaInObject | main.go:294-296 | the token sequence of `{"a":1,}` is rejected with "expected string key" at the brace |
| Scenarios.RejectsMissingColon | main.go:300-302 | the token sequence of `{"a"1}` is rejected with "expected ':'" |
| Scenarios.RejectsMissingComma | main.go:319-321 | the token sequence of `{"a":1 "b"}` is rejected with "expected ',' or '}'" |
| Scenarios.RejectsTrailingCommaInArray | main.go:241-256 | the token sequence of `{"a":[1,]}` is rejected with "expected value", wrapped as an invalid value |
| Scenarios.ErrorMessages | main.go:270-307 | the message texts of two of these errors |
| Scenarios.RejectsMissingCommaInArray | main.go:251-253 | the token sequence of `{"a":[1 1]}` is rejected with "expected ',' or ']'" |
| Scenarios.RejectsLexicalError | main.go:269-271 | a token sequence with a lexer error token where a value should be is rejected with the lexer's message as the literal |

## Left out

- Unicode classes: `unicode.IsDigit` and `unicode.IsLetter` are modelled by their ASCII parts. Other Unicode digits and letters are not modelled.
- The byte reader: `bufio` reading and UTF-8 decoding are not modelled. The input is the character sequence the reader would deliver, so invalid UTF-8 is not modelled.
- Read errors other than end of input are not modelled, because the program does not handle them consistently. Inside a string such an error ends the loop but fails the end-of-input test at `main.go:95`, so the text read so far is returned as a successful string (`main.go:99-100`). In `NextToken` such an error does not fire the test at `main.go:163`, so the default branch gives an error token whose literal is the character 0 (`main.go:207-208`).
- `main` is not modelled: choosing a file or standard input, the messages it prints ("Invalid JSON: …" on standard error, "Valid JSON" on standard output) and the exit codes. `Parsing.Validate` models the three statements of `main.go:339-342`.
- Go's runtime limits are not modelled: stack depth on deeply nested input, and memory.
- `fmt` rendering: `Grammar.ErrorText` and `LexSpec.Message` reproduce the program's format strings as text. `%v` of a string literal is that literal.
- Parsing.Parser.NextToken: requires the lookahead not to be the end-of-input or an error token. Every call site in the program first checks that the lookahead is a brace, bracket, string, colon, comma or scalar, so the program meets this.
- Parsing.Parser.ParseArray: requires the lookahead to be a left bracket. Its only caller, `parseValue`, checks that first (`main.go:267-268`).
- Parsing.Parser: the token sequence it reads is ghost, and ends at the first end-of-input or error token. The parser never asks for more, so nothing past that token is modelled.
- Parsing.Parser.ParseMember: factored from the body of ParseObject's loop (`main.go:293-308`). It has the same tests in the same order.
- Lexing.Lexer.ReadNumber: split into TakeChar, ReadDigits, ReadFraction and ReadExponent. Together they do the same steps in the same order.
- Parsing.Parser.ParseObject: the end-of-input tests at `main.go:285-287` and `main.go:313-315` return nil on both branches. They are kept as comments only.
