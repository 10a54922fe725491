# rust_json_parser in Dafny

A model of the small JSON-subset reader in `src/tokenizer.rs` and `src/lib.rs`, and proofs about it. It has three stages:

- **Scanner** (`tokenize_json`). It turns a character string into tokens:
  - the six punctuation characters `[ ] { } : ,`;
  - quoted strings, which run to the next `"`;
  - maximal runs of ASCII digits.

  Every other character is dropped.
- **Bracket check** (`validate`). A stack of open brackets; each close bracket must pop an open bracket of its own kind.
- **Recursive-descent builder** (`get_next_token`, `parse_list`, `parse_object`, `parse`). It fills a map or a vector while advancing a token cursor it shares with its callers.

Each stage comes in two parts:

- an imperative method with the source's loops (`TokenizeJson`, `Validate`, `ParseList`, `ParseObject`, `Parse`);
- a recursive specification function on sequences (`Lex`, `Scan`, `ObjectAt`/`MembersAt`/`ListAt`/`ElementsAt`, `ParseTokens`).

Each method is proved equal to its specification function. The properties are lemmas about those functions.

How the source's mechanisms are represented:

- **Panics and process exit.** Every `panic!`, every `unwrap()` on `None` and the `process::exit(1)` become an `Err` of the `Abort` datatype, with one constructor per kind of abort.
- **The shared `&mut` iterator.** It becomes a token sequence plus a `nat` position. Each call takes the position in and hands the new position back.
- **The `&mut` container.** The container a call fills is passed in, and the filled one is handed back.
- **`BTreeMap<String, JsonValue>`.** It becomes a `map<string, JsonValue>`.

Modules:

- `Wrappers` (`wrappers.dfy`): `Option` and `Result`.
- `Tokenizer` (`tokenizer.dfy`): `Token`, the scanner, and its lemmas.
- `Validation` (`validation.dfy`): the bracket check and its lemmas.
- `Parser` (`parser.dfy`): `JsonValue`, `Abort`, the builder functions and the methods.
- `ParserProperties` (`parser_properties.dfy`):
  - suffix and prefix independence of the builder;
  - what each token yields in value position, and the grammar errors, for every token sequence;
  - the builder's quirks and error cases on concrete token sequences.
- `Containers` (`containers.dfy`):
  - what the member and element loops build from any run of values, nested containers included;
  - the nested examples `{"Image":{"Width":800,"Height":600,"IDs":[1,2,3]}}` and `{"a":[{"b":1}]}`.
- `FlatObjects` (`flat_objects.dfy`):
  - the end-to-end theorem for objects of scalar members, covering both tokens and text;
  - the member loop on such objects cut off before their `}`;
  - the element loop on arrays of scalar elements, inside a one-member object.

### Where the code departs from JSON (RFC 8259)

The model follows the code. Escapes and keywords are also on the TODO list at src/tokenizer.rs:16-21. Its item on commas after numbers is already handled by the code (`Tokenizer.NumberStopsAtComma`).

- **Escapes.** A backslash is an ordinary character. It does not stop the next `"` from closing a string (src/tokenizer.rs:41-48), so `"a\"b"` does not yield `a"b`.
- **Scan failure.** The scanner fails only on a string literal that runs off the end of the input (src/tokenizer.rs:42). That happens exactly when the input holds an odd number of `"`, because a backslash never escapes one (`Tokenizer.LexFailsIffOddQuotes`).
- **Numbers.** A number is a run of digits only. `.`, `-` and `e` end it: `1.5` scans as two numbers, `1` and `5`.
- **Keywords.** The scanner never produces `True`, `False` or `Null`. The letters of `true`, `false` and `null` are dropped one by one, and this is not a lexing failure.
- **Numbers inside objects.** An object member whose value is a number is stored as `JsonValue::String` (src/lib.rs:216). Inside arrays a number stays a `Number` (src/lib.rs:94). So `{"Image":{"Width":800,"Height":600,"IDs":[1,2,3]}}` gives `Width -> String("800")` and `Height -> String("600")`, not numbers, while `IDs` holds `Number("1")`, `Number("2")`, `Number("3")` (`Containers.ImageExampleParses`).
- **Empty containers.** An empty container's closing bracket is only peeked at and never consumed (src/lib.rs:64-73, 167-174). As a result:
  - `{"a": [], "b": {}}` does not parse to two empty containers;
  - `{"a": []}` aborts;
  - `{"a": {}, "b": 1}` ends after `a`.
- **Values nobody expects.** In value position a `:`, a `,` or a close bracket is consumed silently and adds nothing.
- **Errors.** The code has no typed error with positions; it panics. `Abort` records which kind of abort happened.

## Model

| member | source | states |
|---|---|---|
| Tokenizer.FirstQuote | src/tokenizer.rs:40-49 | where the string sub-loop stops is inside the input and holds a `"` |
| Tokenizer.FirstQuoteIsFirst | src/tokenizer.rs:40-49 | the string sub-loop stops at a quote with no quote before it, and finds none only when the rest of the input has no quote |
| Tokenizer.DigitRun | src/tokenizer.rs:55-62 | the digit run stays inside the input and, when it ends before the input does, ends at a non-digit |
| Tokenizer.DigitRunIsMaximal | src/tokenizer.rs:55-62 | the number sub-loop covers only digits and stops at the first non-digit |
| Tokenizer.LexPunctuationAt | src/tokenizer.rs:31-36 | each of `[ ] { } : ,` yields exactly its token, and scanning resumes at the next character |
| Tokenizer.LexStringAt | src/tokenizer.rs:37-50 | a string token's payload is exactly the characters strictly between the opening quote and the next quote; scanning resumes after the closing quote |
| Tokenizer.LexUnterminatedAt | src/tokenizer.rs:42 | an opening quote with no later quote makes the whole scan fail rather than produce a truncated token |
| Tokenizer.LexDigitsAt | src/tokenizer.rs:52-64 | a maximal digit run yields one number token, and scanning resumes at the character after the run, which is not skipped |
| Tokenizer.LexSkipAt | src/tokenizer.rs:66-70 | any other character yields no token |
| Tokenizer.LexOutputShape | src/tokenizer.rs:26-73 | the scanner never emits `True`/`False`/`Null`; string payloads contain no `"`; number payloads are non-empty digit runs; there are at most as many tokens as input characters |
| Tokenizer.LexWithoutQuoteSucceeds | src/tokenizer.rs:22-76 | input with no `"` always scans |
| Tokenizer.LexFailsIffOddQuotes | src/tokenizer.rs:22-76 | the scan fails if and only if the input holds an odd number of `"`: quotes pair up left to right as string delimiters, and only a last unpaired one runs off the end |
| Tokenizer.LexRenderToken | src/tokenizer.rs:30-72 | a scanner-producible token written out and followed by a space scans back to itself, in front of whatever follows |
| Tokenizer.LexRender | src/tokenizer.rs:26-73 | scanning the written-out form of producible tokens followed by any text gives those tokens, in order, followed by what the text gives |
| Tokenizer.LexRenderRoundTrip | src/tokenizer.rs:22-76 | round trip: scanning the written-out form of producible tokens gives exactly those tokens |
| Tokenizer.UnterminatedStringFails | src/tokenizer.rs:40-42 | an unclosed string after any well-formed tokens makes the whole scan fail |
| Tokenizer.NumberStopsAtComma | src/tokenizer.rs:52-64 | `12,3` scans as `Number("12")`, `Comma`, `Number("3")` |
| Tokenizer.FractionSplits | src/tokenizer.rs:52-64 | `1.5` scans as `Number("1")`, `Number("5")` |
| Tokenizer.KeywordsDropped | src/tokenizer.rs:66-70 | `[true]` scans as just the two brackets |
| Tokenizer.BackslashDoesNotEscape | src/tokenizer.rs:41-48 | the backslash in `"a\"b"` is kept verbatim; the second quote closes the string `a\`, and the final quote opens a string that never closes, so the scan fails |
| Tokenizer.ScanStringLiteral | src/tokenizer.rs:38-49 | the string sub-loop collects exactly the quote-free characters after the opening quote; it reports whether a closing quote was reached or the input ran out |
| Tokenizer.ScanDigits | src/tokenizer.rs:53-62 | the number sub-loop collects exactly the maximal digit run at the cursor |
| Tokenizer.TokenizeJson | src/tokenizer.rs:22-76 | the imperative scanner returns exactly `Lex(input)`: the same tokens in order, or the failure |
| Validation.Validate | src/lib.rs:304-333 | the stack loop with its early `break` returns exactly `IsValid(tokens)` |
| Validation.ScanStack | src/lib.rs:305-330 | the stack only ever holds open brackets and grows by at most one per token |
| Validation.IsValid | src/lib.rs:304-333 | a sequence whose first token is a close bracket never validates |
| Validation.ScanAppend | src/lib.rs:308-330 | checking a concatenation is checking the first part, then the second part from the stack the first part left |
| Validation.ScanIgnoresNonBrackets | src/lib.rs:328 | tokens other than brackets never affect the outcome |
| Validation.NoCloseAlwaysValid | src/lib.rs:308-332 | with no close brackets, every sequence validates, whatever is left open (there is no end-of-input check) |
| Validation.NonBracketsKeepStack | src/lib.rs:328 | tokens other than brackets leave the stack unchanged |
| Validation.UnclosedObjectValidates | src/lib.rs:304-333 | `[LeftCurlyBracket, String("a")]` validates |
| Validation.MismatchedCloseInvalid | src/lib.rs:312-327 | a close bracket that meets an empty stack or an open bracket of the other kind makes the whole input invalid, whatever follows |
| Validation.ScanFailsAtMismatch | src/lib.rs:308-332 | a failing check has a position where a close bracket meets an empty stack, or an open bracket of the other kind, on the stack the tokens before it left |
| Validation.InvalidIffMismatch | src/lib.rs:304-333 | a sequence fails the bracket check exactly when some close bracket meets an empty stack or an open bracket of the other kind: mismatches are the only way to fail, and every mismatch fails |
| Validation.NestedIsValid | src/lib.rs:304-333 | every properly nested sequence of brackets and other tokens validates |
| Parser.GetNextToken | src/lib.rs:45-57 | it succeeds exactly when a token is left, returns that token and advances the cursor by one, and otherwise aborts with `UnexpectedEnd` |
| Parser.ObjectAt | src/lib.rs:163-174 | with no token left, the peek aborts with `NothingToPeek`; an immediate `}` gives back the map unchanged with the cursor unmoved; on success the cursor stays inside the tokens, and when it moved the last consumed token is `}` |
| Parser.MembersAt | src/lib.rs:176-282 | on success the loop read a string key, then `:`, and ended on a consumed `}`; every earlier key is still present |
| Parser.MemberValue | src/lib.rs:199-270 | a member value consumes at least one token and stays inside the sequence |
| Parser.ListAt | src/lib.rs:60-73 | with no token left, the peek aborts with `NothingToPeek`; an immediate `]` gives back the vector unchanged with the cursor unmoved; on success the cursor stays inside the tokens, and when it moved the last consumed token is `]` |
| Parser.ElementsAt | src/lib.rs:75-160 | on success the loop ended on a consumed `]`, and the vector it was given is a prefix of the result (elements are only pushed) |
| Parser.ElementValue | src/lib.rs:76-148 | an element value consumes at least one token and stays inside the sequence |
| Parser.ParseTokens | src/lib.rs:285-302 | a failed bracket check aborts before any building; no tokens abort; a first token other than `{` gives the empty map; success implies the tokens validated |
| Parser.Document | src/lib.rs:285-302 | a successful parse means the text scanned and its tokens passed the bracket check; scanned tokens that fail the check abort with `InvalidJson` |
| Parser.ParseList | src/lib.rs:60-161 | the imperative `parse_list` returns exactly `ListAt`: the same vector and cursor, or the same abort |
| Parser.ParseObject | src/lib.rs:163-283 | the imperative `parse_object` returns exactly `ObjectAt`: the same map and cursor, or the same abort |
| Parser.Parse | src/lib.rs:285-302 | the imperative `parse` returns exactly `Document(input)`, the scanner and `ParseTokens` in sequence |
| ParserProperties.ObjectAtIgnoresSuffix | src/lib.rs:163-283 | tokens after a successfully built object are never inspected |
| ParserProperties.MembersAtIgnoresSuffix | src/lib.rs:176-282 | tokens after a successful member loop are never inspected |
| ParserProperties.MemberValueIgnoresSuffix | src/lib.rs:199-270 | tokens after a successful member value are never inspected |
| ParserProperties.ListAtIgnoresSuffix | src/lib.rs:60-161 | tokens after a successfully built array are never inspected |
| ParserProperties.ElementsAtIgnoresSuffix | src/lib.rs:75-160 | tokens after a successful element loop are never inspected |
| ParserProperties.ElementValueIgnoresSuffix | src/lib.rs:76-148 | tokens after a successful element value are never inspected |
| ParserProperties.ObjectAtIgnoresPrefix | src/lib.rs:163-283 | a successfully built object is the same wherever its tokens sit: tokens before the cursor are never inspected, and the end cursor moves with it |
| ParserProperties.MembersAtIgnoresPrefix | src/lib.rs:176-282 | the same for the member loop |
| ParserProperties.MemberValueIgnoresPrefix | src/lib.rs:199-270 | the same for a member value |
| ParserProperties.ListAtIgnoresPrefix | src/lib.rs:60-161 | the same for a built array |
| ParserProperties.ElementsAtIgnoresPrefix | src/lib.rs:75-160 | the same for the element loop |
| ParserProperties.ElementValueIgnoresPrefix | src/lib.rs:76-148 | the same for an element value |
| ParserProperties.MembersAtStep | src/lib.rs:176-281 | after a key, `:` and a value, the member is inserted (when there is a value); then `,` goes round again, `}` finishes, consuming it, and any other token aborts with `ExpectedComma` of that token |
| ParserProperties.ParseTokensIgnoresSuffix | src/lib.rs:294-299 | appending tokens that keep the sequence valid does not change a successful parse |
| ParserProperties.EmptyObjectParses | src/lib.rs:167-174 | top-level `{}` gives the empty map |
| ParserProperties.EmptyInnerObjectEndsOuter | src/lib.rs:167-174 | `{"a":{},"b":1}` gives only `a -> {}`, because the inner `}` ends the outer loop |
| ParserProperties.EmptyInnerObjectValid | src/lib.rs:304-333 | the token sequence of `{"a":{},"b":1}` passes the bracket check |
| ParserProperties.EnclosedKeepsStack | src/lib.rs:310-327 | a bracket pair around contents that leave the stack as they found it also leaves the stack as it found it |
| ParserProperties.BracedValid | src/lib.rs:304-333 | `{` + contents + `}` validates when the contents leave the stack as they found it |
| ParserProperties.ListMemberValid | src/lib.rs:304-333 | a one-member object whose value is an array of bracket-free tokens validates |
| ParserProperties.EmptyArrayMemberFails | src/lib.rs:64-73 | `{"a":[]}` aborts with `ExpectedComma(RightSquareBracket)`, because the unconsumed `]` is found where `,` or `}` must be |
| ParserProperties.CommaOnlyArrayIsEmpty | src/lib.rs:147 | `{"x":[,]}` gives `x -> []`: a comma in value position is consumed and adds nothing |
| ParserProperties.NumberInArrayStaysNumber | src/lib.rs:88-95 | `{"a":[1]}` gives `a -> [Number("1")]`: inside an array a number stays a number |
| ParserProperties.LoneOpenBraceFails | src/lib.rs:167 | a lone `{` passes the bracket check, and the peek inside `parse_object` then aborts |
| ParserProperties.MembersAtNeedsKey | src/lib.rs:176-183 | for every token sequence, where a member is expected: no token left aborts with `UnexpectedEnd`, and a token that is not a string aborts with `ExpectedString` of that token |
| ParserProperties.MembersAtNeedsColon | src/lib.rs:185-194 | for every token sequence, after a string key: no token left aborts with `UnexpectedEnd`, and a token other than `:` aborts with `ExpectedColon` of that token |
| ParserProperties.MembersAtNeedsSeparator | src/lib.rs:199-280 | for every token sequence, after a key and `:`: an abort inside the value is the loop's abort; after the value, no token left aborts with `UnexpectedEnd`, and a token other than `,` or `}` aborts with `ExpectedComma` of that token |
| ParserProperties.ElementsAtNeedsSeparator | src/lib.rs:75-158 | for every token sequence: an abort inside an element is the loop's abort; after the element, no token left aborts with `UnexpectedEnd`, and a token other than `,` or `]` aborts with `ExpectedComma` of that token |
| ParserProperties.MemberValueCases | src/lib.rs:199-270 | in an object's value position: no token left aborts with `UnexpectedEnd`; a string or a number gives a string value; each of `:`, `,`, `]`, `}` is consumed and gives no value, and nothing else gives no value |
| ParserProperties.ElementValueCases | src/lib.rs:76-148 | in an array's value position: no token left aborts with `UnexpectedEnd`; a string gives a string and a number a number; each of `:`, `,`, `]`, `}` is consumed and gives no value, and nothing else gives no value |
| ParserProperties.MissingKeyFails | src/lib.rs:176-183 | every validated sequence that opens with `{` followed by a token that is neither `}` nor a string aborts with `ExpectedString` of that token |
| ParserProperties.MissingColonFails | src/lib.rs:185-194 | every validated sequence that opens with `{` and a string key not followed by `:` aborts with `ExpectedColon` of that token |
| ParserProperties.MissingCommaFails | src/lib.rs:272-280 | every validated sequence that opens with `{`, a key and `:`, whose first value is followed by a token other than `,` or `}`, aborts with `ExpectedComma` of that token |
| ParserProperties.MissingKeyExample | src/lib.rs:176-183 | the tokens of `{:1}` abort with `ExpectedString(Colon)` |
| ParserProperties.MissingColonExample | src/lib.rs:185-194 | the tokens of `{"a" 1}` abort with `ExpectedColon(Number("1"))` |
| ParserProperties.MissingCommaExample | src/lib.rs:272-280 | the tokens of `{"a":1 "b":2}` abort with `ExpectedComma(String("b"))` |
| ParserProperties.TruncatedObjectExample | src/lib.rs:45-54 | the tokens of `{"a":1,` pass the bracket check and then abort with `UnexpectedEnd` |
| ParserProperties.StrayCloseIsInvalid | src/lib.rs:289-291 | a `}` with nothing open fails the bracket check, and `parse` aborts before building |
| Containers.InsertAllKeepsOthers | src/lib.rs:208-262 | inserting members leaves every key that no member mentions as it was |
| Containers.InsertAllLastWins | src/lib.rs:208-262 | when a key repeats, the last member that mentions it decides its value |
| Containers.MembersAtValues | src/lib.rs:176-282 | over any run of members, each a string key, `:` and tokens the value dispatch reads as a value, nested containers included, separated by `,` and closed by `}`, the member loop inserts the members in order and consumes the `}` |
| Containers.ElementsAtValues | src/lib.rs:75-160 | over any run of values separated by `,` and closed by `]`, the element loop pushes the values in order and consumes the `]` |
| Containers.NestedObjectValue | src/lib.rs:253-262 | `{` followed by such a run of members is one object value holding them inserted in order, in an object's value position and, by src/lib.rs:97-106, in an array's alike |
| Containers.NestedArrayValue | src/lib.rs:242-251 | `[` followed by such a run of values is one array value holding them in order, in an object's value position and, by src/lib.rs:109-118, in an array's alike |
| Containers.ObjectParses | src/lib.rs:285-302 | a validated sequence that opens with `{` and such a run of members parses to the members inserted in order |
| Containers.ArrayOfThreeValue | src/lib.rs:242-251 | `[x, y, z]` of numbers in value position is one array of three numbers, kept as numbers |
| Containers.ObjectOfThreeValue | src/lib.rs:253-262 | `{k1: a, k2: b, k3: <array>}` in value position is one object: the numbers stored as strings, the array as the third member's value |
| Containers.InnerObjectValue | src/lib.rs:199-263 | the inner object of the `Image` example, read on its own tokens, is that object |
| Containers.InnerObjectKeepsStack | src/lib.rs:308-330 | the inner object of the `Image` example leaves the bracket stack as it found it |
| Containers.ObjectInObjectParses | src/lib.rs:163-302 | an object holding an object of two numbers and an array of three numbers parses to the nested map: numbers of the inner object become strings, numbers in its array stay numbers |
| Containers.ImageExampleParses | src/lib.rs:163-302 | the tokens of `{"Image":{"Width":800,"Height":600,"IDs":[1,2,3]}}` parse to `Image -> Object(Width -> String("800"), Height -> String("600"), IDs -> Array([Number("1"), Number("2"), Number("3")]))` |
| Containers.ObjectInArrayParses | src/lib.rs:97-106 | the tokens of `{"k":[{"j":v}]}` parse to `k -> Array([Object(j -> String(v))])`: an object inside an array is one element |
| Containers.ObjectInArrayValid | src/lib.rs:304-333 | the tokens of `{"k":[{"j":v}]}` pass the bracket check |
| FlatObjects.ScalarMemberValue | src/lib.rs:199-241 | a scalar token in an object's value position is consumed and gives its value, a number as a string |
| FlatObjects.MemberStep | src/lib.rs:176-281 | after a key, `:` and a scalar value, the member is inserted; then no token left aborts with `UnexpectedEnd`, `,` goes round again and `}` finishes, consuming it |
| FlatObjects.MembersAtRun | src/lib.rs:176-282 | over scalar members laid out key, `:`, value, separator, the member loop inserts the members in order, numbers as strings, and consumes the `}` |
| FlatObjects.MembersAtFlat | src/lib.rs:176-282 | the member loop over a flat run of scalar members closed by `}` inserts the members in order (numbers as strings) and consumes the `}` |
| FlatObjects.FlatObjectValid | src/lib.rs:304-333 | a flat object of scalar members passes the bracket check |
| FlatObjects.FlatObjectParses | src/lib.rs:285-302 | the token sequence of a flat scalar object parses to its members inserted in order, the last duplicate key winning |
| FlatObjects.DocumentOfRender | src/lib.rs:285-302 | parsing the written-out text of producible tokens is parsing those tokens |
| FlatObjects.FlatObjectTextParses | src/lib.rs:285-302 | end to end: the text of a flat scalar object with quote-free keys and strings parses to its members inserted in order |
| FlatObjects.FlatObjectScannable | src/tokenizer.rs:22-76 | every token of a flat object with quote-free keys and strings can be produced by the scanner |
| FlatObjects.MembersAtOpen | src/lib.rs:176-282 | over scalar members laid out up to the end of the tokens, perhaps followed by one `,`, the member loop reads past the last token and aborts with `UnexpectedEnd` |
| FlatObjects.TruncatedObjectFails | src/lib.rs:176-282 | a flat object of scalar members cut off before its `}`, right after a member or after the comma that follows it, passes the bracket check and aborts with `UnexpectedEnd` |
| FlatObjects.ElementScalar | src/lib.rs:77-146 | the value a scalar token gives in an array: a number stays a number, everything else is as in an object |
| FlatObjects.ElementValuesAt | src/lib.rs:75-160 | the pushed values are one per element, each the element's own value |
| FlatObjects.ScalarElementValue | src/lib.rs:76-146 | a scalar token in an array's value position is consumed and gives its value |
| FlatObjects.ElementStep | src/lib.rs:75-152 | a scalar element followed by `,` is pushed and the loop goes round again |
| FlatObjects.LastElementStep | src/lib.rs:75-155 | a scalar element followed by `]` is pushed and the loop finishes, consuming the `]` |
| FlatObjects.ElementsAtFlat | src/lib.rs:75-160 | over scalar elements laid out value, separator, the element loop pushes exactly the elements' values, in order, and consumes the `]` |
| FlatObjects.ListAtElements | src/lib.rs:64-75 | an array that does not close at once is its element loop |
| FlatObjects.MemberValueList | src/lib.rs:242-251 | `[` in an object's value position makes the value the array read after it, with the same abort or cursor |
| FlatObjects.FlatArrayValue | src/lib.rs:242-251 | `[` followed by a flat run of scalar elements and `]` is one array value holding those elements' values |
| FlatObjects.SingleMemberParses | src/lib.rs:285-302 | a validated `{"k": v}` whose value ends right before the closing `}` parses to exactly `k -> v` |
| FlatObjects.FlatArrayMemberParses | src/lib.rs:60-161 | `{"k": [v0, v1, ...]}` with scalar elements parses to `k ->` the array of the element values in order, numbers kept as numbers |
| FlatObjects.DuplicateKeyLastWins | src/lib.rs:208-217 | the text `{ "a" : 1 , "a" : 2 }` parses to `a -> String("2")`: the later duplicate wins, stored as a string |

## Left out

- Console output (`ConsoleColors`, `print_colorize_string_for_console`, every `print!`/`println!`, and the `eprintln!` before exiting): it has no effect on results.
- Process behaviour: `process::exit(1)`, `panic!` and `unwrap()` on `None` are modelled only as `Err` values of `Abort`, not as termination.
- The `todo!()` at src/lib.rs:197: it is unreachable because src/lib.rs:179-183 has already required the key to be a string.
- `char::is_whitespace` in the scanner's default branch: both of its outcomes drop the character.
- The key order of `BTreeMap` and the derived `PartialOrd`/`Ord` of `JsonValue`: only lookup and insert are modelled.
- The `#[derive(Debug)]`-only `Token` compared with `==`: the Dafny datatype has structural equality.
- `example/main.rs` is not part of this model; it is a driver that prints tokens.
- Aliasing of the shared iterator: each call receives the cursor and returns the new cursor instead of advancing a shared `&mut` iterator in place.
- The cloned-iterator peek (`tokens.clone().peekable().peek()`): it is modelled as reading the token at the cursor without moving it.
- Recursion depth: native call-stack growth on deep nesting is not modelled.
- Parser.MemberValue: the contract states only that the cursor moves forward within bounds. What each token kind yields is stated by `ParserProperties.MemberValueCases`, which keeps these facts out of every proof that unfolds the builder.
- Parser.ElementValue: the contract states only that the cursor moves forward within bounds. What each token kind yields is stated by `ParserProperties.ElementValueCases`, for the same reason.
- Parser.ObjectAt: the contract does not state the built map. For `{` followed by any run of members it is stated by `Containers.NestedObjectValue`.
- Parser.ListAt: the contract does not state the built vector. For `[` followed by any run of values it is stated by `Containers.NestedArrayValue`.
- Parser.MembersAt: the contract does not state the built map. It is stated for any run of members, nested containers included, by `Containers.MembersAtValues`. The grammar errors are stated for every token sequence in `ParserProperties.MembersAtNeedsKey`, `MembersAtNeedsColon` and `MembersAtNeedsSeparator`.
- Parser.ElementsAt: the contract does not state the built vector, only that the given vector is a prefix of it. It is stated for any run of values, nested containers included, by `Containers.ElementsAtValues`. The separator rule is stated for every token sequence in `ParserProperties.ElementsAtNeedsSeparator`.
- Containers.MembersAtValues and Containers.ElementsAtValues: a run holds only members and elements that give a value. A `:`, `,`, `]` or `}` in value position is consumed and inserts nothing; such a member is covered one step at a time by `ParserProperties.MembersAtStep` and `ParserProperties.MemberValueCases`, not by these lemmas.
- FlatObjects.TruncatedObjectFails: it covers objects cut off after a complete scalar member or its comma. Other truncations abort differently; for example `{"a":{` aborts with `NothingToPeek` at the peek in `parse_object`.
- Tokenizer.Lex and Validation.Scan: the functions carry no contract of their own. Their properties are the lemmas about them (`LexOutputShape`, `LexWithoutQuoteSucceeds`, `ScanStack` and the rest), which keeps these facts out of the loop-invariant proofs that unfold the functions.
