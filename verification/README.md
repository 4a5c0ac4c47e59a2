# json_study in Dafny

A model of the JSON front end of `json_study`, a streaming JSON parser written in Rust, with proofs about it. It has three layers:

- **Character reader** (`char_reader.dfy`, module `CharReader`). It hands out decoded characters with their line and column. `peek` looks ahead, `peek_back` un-peeks and `consume` skips characters that were already peeked.
- **Lexer** (`lexer.dfy`, module `JsonLexer`). Each `read` returns one token: a string, a number, `true`, `false`, `null`, one of `: , [ ] { }`, or `EOF` once the input holds no more tokens. Every token carries its line and column ranges.
  - Characters that start no token are skipped.
  - A number is the longest run of the characters `- 0-9 . e E`. The run must then convert to a 64-bit float.
  - A keyword is checked letter by letter with peeks.
- **Parser** (`parser.dfy`, module `JsonParser`). Each `parse` builds one value by recursive descent and returns `EOF` once no token is left.
  - The parser remembers the places of the last token it read.
  - Every syntax error is reported at those places.

Each layer that changes state is a class whose methods work step by step, as the Rust code does:

- `CharReader.Reader` has a consumed-prefix counter and a peek cursor.
- `JsonLexer.Lexer` drives a reader.
- `JsonParser.Parser` drives a lexer and keeps the remembered `line`/`pos`.

Each method is proved against a pure specification function of the input characters:

- `JsonLexer.Scan` gives the outcome of one read, in character indices. `JsonLexer.TokenOf` turns that outcome into the token or error with its places.
- `JsonParser.Value`, `JsonParser.Members` and `JsonParser.Elements` give the result of a parse, where the lexer is left and which places are remembered.

The properties are proved about these functions, in these modules:

- `LexerFacts`: one read, against independent descriptions of the input.
- `LexerLayout`: blanks between tokens change nothing.
- `FloatLiteral`: which texts the float conversion accepts.
- `ParserFacts`: which token is refused where, and where the error is reported.
- `JsonDocuments`: a round trip. A document written out as JSON text parses back to its tree, duplicate keys resolved last-write-wins.
- `LexerCases` and `ParserCases`: the repository's own test inputs, with the results those tests expect.

Behaviour of the code that the model keeps, although it departs from JSON:

- `[]` and `{}` are refused (`ParserFacts.EmptyArray`, `ParserFacts.EmptyObject`). The parser reads the closing bracket where a value or key must come.
- An exponent written with `+` is refused. `+` is not a number character, so `1e+5` lexes as the run `1e`, which does not convert (`LexerCases.PlusExponent`).
- Inside a string, a backslash takes the next character literally. There is no escape table.
- An end of input in the middle of a keyword (`tru`) reads as `EOF`, not as an invalid token. The reader's end-of-input error propagates out of the keyword loop and `read` turns it into the `EOF` token (`LexerFacts.KeywordCutOff`).

Where the documented contract and the code disagree, the model follows the code:

- The character reader's `peek` is documented as idempotent. The keyword loop (src/lexer/mod.rs:287-297) peeks once per letter and compares each peek with the next letter, so it needs every peek to look one character further. `CharReader.Reader.Peek` therefore advances a peek cursor, and `Consume` (src/lexer/mod.rs:299-300) then skips the peeked letters.
- Whitespace between tokens never changes the tokens. This is proved for blanks (`LexerLayout.BlanksBetweenTokens`). It does not hold for every character that starts no token: an `e` or `.` glued to a number becomes part of the number's run.

The source of the character reader (`src/char_reader`) is not part of this model. Its contract is inferred from how the lexer uses it:

- Columns count characters from 1.
- The character after a newline starts the next line at column 1.
- End of input reports the place of the last character. The unclosed-string test (src/lexer/mod.rs:549-561) fixes this.
- On empty input there is no last character. The model then reports line 1, column 0. That place is the model's own choice, and no test fixes it.

## Model

| member | source | states |
|---|---|---|
| CharReader.WhereAlongLine | src/lexer/mod.rs:68-97 | along a stretch without newlines the line stays and the column grows by one per character |
| CharReader.Reader.constructor | src/lexer/mod.rs:111-113 | a new reader is over the given input, with nothing consumed or peeked |
| CharReader.Reader.Read | src/lexer/mod.rs:158-163 | reading returns the first unconsumed character with its place and consumes it; at the end it returns the end-of-input error at the end place (or the source's failure) and changes nothing |
| CharReader.Reader.Peek | src/lexer/mod.rs:165-170 | peeking returns the first character not yet peeked, with its place, without consuming anything; at the end it reports exhaustion and changes nothing |
| CharReader.Reader.PeekBack | src/lexer/mod.rs:172-174 | un-peeks exactly the last peeked character; nothing is consumed |
| CharReader.Reader.Consume | src/lexer/mod.rs:299-300 | consumes exactly n characters that were already peeked |
| JsonLexer.Lexer.constructor | src/lexer/mod.rs:111-113 | a new lexer reads its input from the start |
| JsonLexer.Lexer.Next | src/lexer/mod.rs:158-163 | the reader's read, with exhaustion passed on as the lexer's end-of-input error at the same place and any other failure as a reader error |
| JsonLexer.Lexer.Peek | src/lexer/mod.rs:165-170 | the reader's peek, with its failures lifted the same way |
| JsonLexer.Lexer.DiscardNext | src/lexer/mod.rs:115-117 | consumes the peeked character and returns it with its place |
| JsonLexer.Lexer.Read | src/lexer/mod.rs:121-156 | one read returns exactly `TokenOf` of `Scan` at the peek position (EOF at the end of input); after a token, the end, an unclosed string or a bad number, the lexer is back between tokens at the index where the next read starts |
| JsonLexer.Lexer.ParseString | src/lexer/mod.rs:176-227 | a string read returns the string token (backslash taking the next character literally) or the unclosed-string error from the opening quote to the end, as `ScanString` says, and leaves the lexer after the closing quote |
| JsonLexer.Lexer.ParseNumber | src/lexer/mod.rs:229-275 | a number read takes the longest run of number characters, un-peeks the character that stops it, and returns a number token or an invalid-number error over the whole run, as `ScanNumber` says |
| JsonLexer.Lexer.NumberRun | src/lexer/mod.rs:237-256 | the loop of a number read stops at the first character that is not a number character and leaves nothing peeked; it has then gathered exactly the run, with the place of its last character, and the read's outcome is the number over that run; a source failure stops it with the reader error |
| JsonLexer.Lexer.NumberToken | src/lexer/mod.rs:258-274 | a finished run is a number token if its text converts to a float, and an invalid-number error over the same range if not |
| JsonLexer.Lexer.ParseStatic | src/lexer/mod.rs:277-309 | a keyword read checks the remaining letters by peeks; on a full match it consumes them and returns the keyword over `initial..initial + letters after the first`; on the first wrong letter it returns an invalid-token error naming the keyword and ending at that letter; end of input reads as EOF; after any error only the first letter is consumed |
| JsonLexer.Lexer.ParseDelimiter | src/lexer/mod.rs:311-325 | a delimiter read consumes the one character and returns its token with equal start and end places |
| JsonLexer.Scan | src/lexer/mod.rs:121-156 | a read's outcome lies at or after its start index, a token is never EOF, and the next read starts right after the token's last character |
| JsonLexer.ScanString | src/lexer/mod.rs:184-220 | a string read never ends as EOF and a string token ends at or after the current index |
| JsonLexer.ScanNumber | src/lexer/mod.rs:237-256 | a number read never ends as EOF and a number token covers at least the characters taken so far |
| JsonLexer.NumberOf | src/lexer/mod.rs:258-274 | a finished run is resumable and the next read starts right after it, whether it converts or not |
| JsonLexer.ScanKeyword | src/lexer/mod.rs:287-307 | a matched keyword ends exactly at its last letter |
| JsonLexer.DelimiterData | src/lexer/mod.rs:311-320 | each delimiter character has its own structural token kind, written with that character |
| JsonLexer.TokenOf | src/lexer/mod.rs:122-153 | a read succeeds exactly for a token or the end, returns EOF exactly at the end, never returns an end-of-input error, and its error is recoverable exactly when reading can go on |
| FloatLiteral.DeadRejects | src/lexer/mod.rs:258-260 | once the float recogniser has failed, no continuation is accepted |
| FloatLiteral.DigitsLoop | src/lexer/mod.rs:258-260 | a run of digits leaves the float recogniser in the state it was in |
| FloatLiteral.ExponentAccepted | src/lexer/mod.rs:258-260 | an exponent part with optional sign and at least one digit is accepted after a mantissa |
| FloatLiteral.TailAccepted | src/lexer/mod.rs:258-260 | a fraction and an exponent part are accepted after the integer digits |
| FloatLiteral.UnsignedAccepted | src/lexer/mod.rs:258-260 | an unsigned JSON number is accepted from the recogniser's start |
| FloatLiteral.SignAccepted | src/lexer/mod.rs:258-260 | an accepted sign-free text stays accepted behind an optional minus sign |
| FloatLiteral.JsonNumberConverts | src/lexer/mod.rs:258-267 | every number written as JSON writes it (RFC 8259, section 6) passes the float conversion |
| LexerFacts.SkippedStretch | src/lexer/mod.rs:140-146 | characters that start no token are passed over: a read from before them equals a read from after them |
| LexerFacts.KeywordMatches | src/lexer/mod.rs:287-307 | a fully spelled keyword is one keyword token over its letters |
| LexerFacts.KeywordSpan | src/lexer/mod.rs:299-307 | the range given to a matched keyword is exactly the range from its first to its last letter |
| LexerFacts.KeywordBreaks | src/lexer/mod.rs:287-296 | the first letter that differs from the keyword is where the invalid-token error ends |
| LexerFacts.KeywordCutOff | src/lexer/mod.rs:149-153 | a keyword read ends as EOF if and only if the source does not fail and the input ends inside a correctly spelled prefix of the keyword |
| LexerFacts.EndExactly | src/lexer/mod.rs:122-126 | a read yields EOF exactly when the source does not fail and the rest is skipped characters (possibly a cut-off keyword), and a read after EOF yields EOF again |
| LexerFacts.EofToken | src/lexer/mod.rs:124-125 | the EOF token sits at the end place with empty ranges |
| LexerFacts.NumberRun | src/lexer/mod.rs:237-256 | a number is the maximal run of number characters: a number token if it converts, otherwise an invalid-number error over the same characters |
| LexerFacts.NumberTail | src/lexer/mod.rs:237-256 | the rest of a number read is decided by where the run ends |
| LexerFacts.JsonNumberToken | src/lexer/mod.rs:229-275 | a JSON number without `+`, followed by a character that ends the run, is one number token holding exactly its text |
| LexerFacts.NumberCharsOf | src/lexer/mod.rs:248 | the characters of a JSON number written without `+` are all number characters, the first a sign or digit |
| LexerFacts.EscapeConcat | src/lexer/mod.rs:200-215 | escaping is character by character: the escape of a concatenation is the concatenation of escapes |
| LexerFacts.EscapePlain | src/lexer/mod.rs:216-218 | text without quotes or backslashes is its own escape |
| LexerFacts.StringBody | src/lexer/mod.rs:184-220 | an escaped body followed by a quote reads back as its original text (escaping and reading are inverse) |
| LexerFacts.StringToken | src/lexer/mod.rs:176-227 | the quoted, escaped text t at index i is one string token carrying exactly t, from the opening to the closing quote |
| LexerFacts.PlainStringAt | src/lexer/mod.rs:216-218 | a quote, characters that are neither quotes nor backslashes, and a quote are one string token holding those characters |
| LexerFacts.StringUnclosed | src/lexer/mod.rs:185-212 | input ending inside a string body, or right after a backslash, gives the unclosed-string error (or the source's failure) |
| LexerFacts.UnclosedExactly | src/lexer/mod.rs:184-220 | a string read ends without a token if and only if no closing quote follows (every character ordinary or taken by a backslash), and it is then the unclosed-string error or the source's failure |
| LexerLayout.ScanShift | src/lexer/mod.rs:121-156 | a read depends only on the input from where it starts |
| LexerLayout.TokensShift | src/lexer/mod.rs:121-156 | on equal rests, successive reads give the same token kinds and payloads and stop the same way |
| LexerLayout.ScanPrefix | src/lexer/mod.rs:237-256 | a token read never looks past the character after its end, provided that character cannot continue a number |
| LexerLayout.InsertAt | src/lexer/mod.rs:140-146 | blanks inserted at an index the reads reach leave the token sequence unchanged |
| LexerLayout.BlanksBetweenTokens | src/lexer/mod.rs:140-146 | blanks inserted right after any token change neither the token kinds and payloads nor how the reads stop |
| JsonParser.Fetch | src/lib.rs:135-145 | a fetch returns a token with its places moved out, `EOF` exactly at the end of the input, and moves the lexer forward for any other token; a failed read is a lexer error and keeps the old places |
| ParserFacts.FetchReads | src/lib.rs:135-145 | a fetch returns exactly the data of the token the lexer reads and remembers exactly that token's places; a failed read passes the lexer's error on and keeps the old places; the lexer is left where the read leaves it |
| JsonParser.Value | src/lib.rs:87-133 | a parse returns EOF exactly when the lexer is at the end, otherwise a value with no EOF inside; a syntax error carries the remembered places |
| JsonParser.Members | src/lib.rs:147-216 | an object parse returns an object with no EOF inside; a syntax error carries the remembered places |
| JsonParser.MemberValue | src/lib.rs:167-200 | once a member's value is parsed, the object goes on or ends as an object with no EOF inside, the lexer never moves back, and a syntax error carries the remembered places; a failed value is passed on unchanged, and an EOF value is refused with the object-value syntax error at the remembered places |
| JsonParser.Elements | src/lib.rs:218-255 | an array parse returns an array with no EOF inside; a syntax error carries the remembered places |
| JsonParser.ElementValue | src/lib.rs:222-251 | once an element is parsed, the array goes on or ends as an array with no EOF inside, the lexer never moves back, and a syntax error carries the remembered places; a failed element is passed on unchanged, and an EOF element is refused with the array-element syntax error at the remembered places |
| JsonParser.Parser.constructor | src/lib.rs:75-81 | a new parser reads from the start of the input and remembers the places `1..1`, `1..1` |
| JsonParser.Parser.ReadToken | src/lib.rs:135-145 | reading a token returns it with its places emptied and remembers its places; a lexer failure is wrapped and the old places stay |
| JsonParser.Parser.Parse | src/lib.rs:87-133 | a parse returns exactly what `Value` specifies, remembers the places it says, and leaves the lexer where it says when the result is not an unrecoverable lexer error |
| JsonParser.Parser.ParseObject | src/lib.rs:147-216 | the object loop returns exactly what `Members` specifies, with a later key replacing an earlier one |
| JsonParser.Parser.ParseArray | src/lib.rs:218-255 | the array loop returns exactly what `Elements` specifies, elements in the order read |
| JsonDocuments.ToNode | src/lib.rs:8-19 | the tree of a document holds no EOF |
| JsonDocuments.Gather | src/lib.rs:177-184 | entering members into a map of EOF-free values keeps it EOF-free |
| JsonDocuments.GatherLast | src/lib.rs:177-184 | entering one more member overwrites that key with its value |
| JsonDocuments.LastWriteWins | src/lib.rs:177-184 | after an object's members are entered, a key is present exactly when some member names it, and its value is that of the last such member |
| JsonDocuments.FetchTok | src/lib.rs:135-145 | a token read is what a fetch returns, places moved out, and the next read starts after it |
| JsonDocuments.FetchDelimiter | src/lib.rs:135-145 | a delimiter character is fetched as its token and the next read starts after it |
| JsonDocuments.KeywordAt | src/lexer/mod.rs:277-309 | a spelled-out `true`, `false` or `null` is one keyword token |
| JsonDocuments.ScalarToken | src/lexer/mod.rs:121-156 | a scalar document's text is one token with the document's payload, and the next read starts after it |
| JsonDocuments.ValueOpens | src/lib.rs:88-98 | a value opened by `[` or `{` goes on as an array or object parse from the next character |
| JsonDocuments.ScalarBack | src/lib.rs:99-123 | a scalar document's text parses to its node |
| JsonDocuments.ElementsStep | src/lib.rs:221-252 | one element followed by `,` continues the array loop; followed by `]` it ends the array with that element appended |
| JsonDocuments.MembersStep | src/lib.rs:150-199 | one key, `:` and value followed by `,` continues the object loop; followed by `}` it ends the object with that key set to the value |
| JsonDocuments.MembersOpen | src/lib.rs:151-167 | a string key followed by `:` goes on with the value parsed right after the colon, the colon's places remembered |
| JsonDocuments.MembersLayout | src/lib.rs:150-199 | the text of an object's members places the first key, its `:`, its value and then `}` or `,` one after the other |
| JsonDocuments.MemberRead | src/lib.rs:151-199 | one member written as text is read as its key and its value's tree, entered into the object, and the loop ends at `}` or goes on after `,` |
| JsonDocuments.MembersHead | src/lib.rs:150-199 | the first member of an object's text is read and entered, and the object loop ends or goes on right after its delimiter |
| JsonDocuments.ElementsHead | src/lib.rs:221-251 | the first element of an array's text is read and appended, and the array loop ends or goes on right after its delimiter |
| JsonDocuments.ParsesBack | src/lib.rs:87-255 | round trip: the text of any document the parser accepts parses back to the document's tree and the parse ends right after the text |
| JsonDocuments.ArrayBack | src/lib.rs:218-255 | an array's text parses back to the array of its elements' trees |
| JsonDocuments.ObjectBack | src/lib.rs:147-216 | an object's text parses back to its members gathered in order |
| JsonDocuments.ElementsBack | src/lib.rs:221-252 | elements written out and closed by `]` are read back in order |
| JsonDocuments.MembersBack | src/lib.rs:150-213 | members written out and closed by `}` are read back and gathered in order |
| JsonDocuments.DocumentThenEof | src/lib.rs:295-340 | a document followed only by whitespace parses to its tree, and the next parse returns EOF |
| ParserFacts.ScalarNode | src/lib.rs:99-123 | the node of a scalar token holds no EOF |
| ParserFacts.ScalarValue | src/lib.rs:99-123 | a string, number or keyword token is a whole value and the parser remembers that token's places |
| ParserFacts.MisplacedValue | src/lib.rs:129-131 | `:` `,` `]` or `}` where a value must start is a syntax error at that token, at the top and as an array element |
| ParserFacts.LexFailure | src/lib.rs:135-145 | a failed read fails the parse with the lexer's error and leaves the remembered places as they were |
| ParserFacts.KeyNotString | src/lib.rs:211 | a member that does not start with a string key (or the end of input there) is a syntax error at that token |
| ParserFacts.ColonMissing | src/lib.rs:203-207 | a key not followed by `:` is a syntax error at the token after the key |
| ParserFacts.MemberValueFails | src/lib.rs:167 | a member's value that fails to read fails the object with the lexer's error |
| ParserFacts.ElementMissing | src/lib.rs:232 | input ending where an array element must come is a syntax error at the end place |
| ParserFacts.EmptyArray | src/lib.rs:218-232 | `[]` is refused: its `]` is reported where a value must start |
| ParserFacts.EmptyObject | src/lib.rs:147-211 | `{}` is refused: its `}` is reported where a key must come |
| ParserFacts.ElementThenStray | src/lib.rs:235-250 | any complete element followed by anything but `,` or `]`, or by the end, is the array-continuation syntax error at that token |
| ParserFacts.ElementUnfollowed | src/lib.rs:222-250 | a scalar element followed by anything but `,` or `]` is a syntax error at that token |
| ParserFacts.MemberThenStray | src/lib.rs:186-197 | any complete member value followed by anything but `,` or `}`, or by the end, is the object-continuation syntax error at that token |
| ParserFacts.MemberUnfollowed | src/lib.rs:150-197 | a key, `:` and a scalar value followed by anything but `,` or `}` is the object-continuation syntax error at that token |
| ParserFacts.MemberValueMissing | src/lib.rs:167-200 | input ending right after `key:` is the object-value syntax error at the place of the end |
| ParserFacts.ScalarMemberThenComma | src/lib.rs:150-191 | a member whose value is a scalar token, followed by `,`, is entered into the object (replacing an earlier value of its key) and the loop goes on after the comma |
| LexerCases.OneLine | src/lexer/mod.rs:456-458 | in text without newlines, character k is at line 1, column k + 1 |
| LexerCases.NumberAlone | src/lexer/mod.rs:237-275 | input that is one run of number characters is one number token over all of it if it converts, and one invalid-number error over all of it if not |
| LexerCases.PlainString | src/lexer/mod.rs:457 | `"boon"` reads as the string `boon` over columns 1..6 |
| LexerCases.EscapedQuotes | src/lexer/mod.rs:458 | backslash-escaped quotes are kept without their backslashes, over columns 1..13 |
| LexerCases.UnclosedString | src/lexer/mod.rs:549-561 | `"true` without a closing quote is an unclosed string over columns 1..5 |
| LexerCases.Integer | src/lexer/mod.rs:473 | `123` is a number over columns 1..3 |
| LexerCases.NegativeInteger | src/lexer/mod.rs:474 | `-123` is a number over columns 1..4 |
| LexerCases.Decimals | src/lexer/mod.rs:475 | `3.14` is a number over columns 1..4 |
| LexerCases.NegativeFraction | src/lexer/mod.rs:476 | `-0.01` is a number over columns 1..5 |
| LexerCases.PowerOfTen | src/lexer/mod.rs:477 | `1e6` is a number over columns 1..3 |
| LexerCases.Scientific | src/lexer/mod.rs:478 | `-2.5E-3` is a number over columns 1..7 |
| LexerCases.TwoDots | src/lexer/mod.rs:492-495 | `3.14.14` is one invalid-number error over columns 1..7 |
| LexerCases.TwoExponents | src/lexer/mod.rs:496-499 | `-3E14E1` is one invalid-number error over columns 1..7 |
| LexerCases.TwoSigns | src/lexer/mod.rs:500-503 | `--11223` is one invalid-number error over columns 1..7 |
| LexerCases.PlusExponent | src/lexer/mod.rs:248 | `1e+5` is an invalid-number error over columns 1..2, since `+` ends the run |
| LexerCases.TrueToken | src/lexer/mod.rs:517-526 | `true` is the keyword over columns 1..4 |
| LexerCases.FalseToken | src/lexer/mod.rs:528-536 | `false` is the keyword over columns 1..5 |
| LexerCases.NullToken | src/lexer/mod.rs:538-546 | `null` is the keyword over columns 1..4 |
| LexerCases.KeywordAlone | src/lexer/mod.rs:277-309 | `true`, `false` or `null` alone is that keyword's token from column 1 to its last letter |
| ParserCases.LoneBrace | src/lib.rs:344 | `{` alone is a syntax error expecting a string key |
| ParserCases.LoneBracket | src/lib.rs:345-348 | `[` alone is a syntax error expecting an array element |
| ParserCases.UnclosedString | src/lib.rs:349 | `"hello` fails with the lexer's unclosed-string error over columns 1..6 |
| ParserCases.ObjectOpen | src/lib.rs:88-98 | input opening with `{` parses as the object members read from the next character, the brace's places remembered |
| ParserCases.SemicolonForColon | src/lib.rs:350-353 | `{"hello"; "world"}` is a syntax error expecting `:`, at the string `"world"` (columns 11..17) |
| ParserCases.SemicolonMembers | src/lib.rs:203-207 | after a key, a skipped `;` and a string where `:` must come, the object fails with the syntax error at that string |
| ParserCases.KeyAt1 | src/lib.rs:150-158 | a quoted key right after `{` is one string token |
| ParserCases.CommaForColon | src/lib.rs:354-357 | `{"hello", "world"}` is a syntax error expecting `:`, at the comma (column 9) |
| ParserCases.CommaMembers | src/lib.rs:203-207 | after a key, a comma where `:` must come fails the object with the syntax error at that comma |
| ParserCases.RepeatedCommas | src/lib.rs:358-361 | `{"hello": "world",,,,}` is a syntax error expecting a key, at the second comma (column 19) |
| ParserCases.FirstMemberThenComma | src/lib.rs:358-361 | after the first member and its comma, the second comma is reported where a key must come |
| ParserCases.UnquotedKey | src/lib.rs:362-365 | `{hello: "world"}` is a syntax error expecting a key, at the `:` (column 7) |
| ParserCases.UnquotedMembers | src/lib.rs:211 | skipped letters and then a `:` where a key must come fail the object with the syntax error at that `:` |
| ParserCases.MisspeltKeyword | src/lib.rs:366 | `{"hello": truthy}` fails with the lexer's invalid-token error for `true`, ending at the first wrong letter (columns 11..14) |
| ParserCases.MisspeltMembers | src/lib.rs:167 | a key, `:` and a misspelt `true` fail the object with the lexer's invalid-token error ending at the first wrong letter |
| ParserCases.RepeatedKey | src/lib.rs:177-184 | `{"a":1,"a":2}` parses to an object with the single key `a` holding `2` |
| ParserCases.RepeatedKeyTree | src/lib.rs:177-184 | the tree of that document keeps only the last value of `a` |

## Left out

- Float values: number tokens and nodes keep their text (the lexeme). `FloatLiteral.IsFloatLiteral` models only whether Rust's `f64` conversion accepts the text, not the value it produces.
- Message texts: a syntax error carries an `Expectation` with one case per message of the source. A lexer error is kept as a value rather than its formatted string, and an invalid number does not carry the conversion's message.
- Character decoding: `src/char_reader` is not part of this model. The reader is given the decoded characters, and a flag that says whether the source fails once they are used up. A failure in the middle of the input is not modelled.
- `CharReader.Reader.Consume`: cannot fail in the model. It is called only for characters that were already peeked. The source's mapping of a consume error is left out.
- `JsonLexer.Lexer.Read`: after an invalid-token error or a reader failure, the contract makes no promise about where the reader is left, so reading on after those errors is not modelled. Parsing stops at them in any case.
- Panics: `discard_next` panics when the peeked character is gone, and `parse_static`/`parse_delimiter` are unreachable for other characters. These are preconditions of the model's methods.
- Lexer::peek_back: modelled by `CharReader.Reader.PeekBack`, which the number loop calls directly. Its error case cannot occur there, because a character has always just been peeked.
- `JsonParser.Parser.SyntaxErrorAt` (syntax_error, src/lib.rs:257-259) is a helper without a contract of its own. That its error carries the remembered places is stated by `JsonParser.Value`, `JsonParser.Members` and `JsonParser.Elements`.
- JsonParser.Fetch: its own contract does not say that the data and places are those of the token read. Attached to every use of the function, that clause puts the object round-trip proofs over the solver's resource limit. `ParserFacts.FetchReads` states it for every fetch.
- Key order: objects are maps. The sorted iteration order of Rust's `BTreeMap` is not modelled.
- The multi-line document tests (src/lexer/mod.rs:334-454 and src/lib.rs:266-341) are not restated character by character. No lemma gives the token sequence of a particular document.
- Indented documents: `LexerLayout.BlanksBetweenTokens` shows that blanks after a token leave the token kinds and payloads unchanged. `JsonDocuments.ParsesBack` and `JsonDocuments.DocumentThenEof` parse compact text only, with whitespace at most after the document. The model does not prove that indented text parses to the same tree as compact text, which would carry the first fact over to `JsonParser.Value`.
- LexerLayout.BlanksBetweenTokens: covers inserted whitespace only. Other characters that start no token are not harmless in general next to a number.
- JsonDocuments.ParsesBack: covers the documents the source accepts. Arrays and objects are not empty, and exponents carry no `+`.
- The derive macro, the `parser` example crate and the `node` crate are outside the JSON front end.
