/**
 * The character scanner of src/tokenizer.rs: one left-to-right pass over the input that
 * turns punctuation, quoted strings and digit runs into tokens and drops everything else.
 */
module Tokenizer {
  import opened Wrappers

  /** The token kinds of the reader. `True`, `False` and `Null` exist but are never produced by the scanner. */
  datatype Token =
    | LeftSquareBracket
    | RightSquareBracket
    | LeftCurlyBracket
    | RightCurlyBracket
    | Colon
    | Comma
    | String(text: string)
    | Number(text: string)
    | True
    | False
    | Null

  predicate IsDigit(c: char) { '0' <= c <= '9' }

  predicate IsPunctuation(c: char)
  {
    c == '[' || c == ']' || c == '{' || c == '}' || c == ':' || c == ','
  }

  function PunctuationToken(c: char): (t: Token)
    requires IsPunctuation(c)
  {
    match c
    case '[' => LeftSquareBracket
    case ']' => RightSquareBracket
    case '{' => LeftCurlyBracket
    case '}' => RightCurlyBracket
    case ':' => Colon
    case ',' => Comma
  }

  /** A token the scanner can produce: quote-free strings, non-empty digit runs and punctuation. */
  predicate Scannable(t: Token)
  {
    match t
    case String(s) => '"' !in s
    case Number(s) => s != [] && forall i | 0 <= i < |s| :: IsDigit(s[i])
    case True => false
    case False => false
    case Null => false
    case _ => true
  }

  /** The index of the first double quote in `s`, if there is one. */
  function FirstQuote(s: string): (r: Option<nat>)
    ensures r.Some? ==> r.value < |s| && s[r.value] == '"'
  {
    if s == [] then None
    else if s[0] == '"' then Some(0)
    else match FirstQuote(s[1..])
      case None => None
      case Some(n) => Some(n + 1)
  }

  /** `FirstQuote` finds a quote with none before it, and finds none only when there is none. */
  lemma {:induction false} FirstQuoteIsFirst(s: string)
    ensures FirstQuote(s).Some? ==> s[FirstQuote(s).value] == '"' && '"' !in s[..FirstQuote(s).value]
    ensures FirstQuote(s).None? ==> '"' !in s
  {
    if s != [] && s[0] != '"' {
      FirstQuoteIsFirst(s[1..]);
      if FirstQuote(s[1..]).Some? {
        var n := FirstQuote(s[1..]).value;
        assert s[..n + 1] == [s[0]] + s[1..][..n];
      }
    }
  }

  /** The length of the longest run of ASCII digits at the front of `s`. */
  function DigitRun(s: string): (n: nat)
    ensures n <= |s|
    ensures n < |s| ==> !IsDigit(s[n])
  {
    if s == [] || !IsDigit(s[0]) then 0 else 1 + DigitRun(s[1..])
  }

  /** `DigitRun` covers only digits and stops at the first non-digit. */
  lemma {:induction false} DigitRunIsMaximal(s: string)
    ensures forall i | 0 <= i < DigitRun(s) :: IsDigit(s[i])
    ensures DigitRun(s) < |s| ==> !IsDigit(s[DigitRun(s)])
  {
    if s != [] && IsDigit(s[0]) {
      DigitRunIsMaximal(s[1..]);
    }
  }

  /** Prefixes `ts` to a successful scan and propagates a failed one. */
  function Prepend(ts: seq<Token>, r: Option<seq<Token>>): Option<seq<Token>>
  {
    match r
    case None => None
    case Some(rest) => Some(ts + rest)
  }

  /**
   * What `tokenize_json` computes, one leading character at a time. `None` is the panic of the
   * `unwrap` on an exhausted input inside a string literal.
   */
  function Lex(s: string): (r: Option<seq<Token>>)
    decreases |s|
  {
    if s == [] then Some([])
    else if IsPunctuation(s[0]) then Prepend([PunctuationToken(s[0])], Lex(s[1..]))
    else if s[0] == '"' then
      match FirstQuote(s[1..])
      case None => None
      case Some(n) =>
        Prepend([String(s[1..n + 1])], Lex(s[n + 2..]))
    else if IsDigit(s[0]) then
      var n := DigitRun(s);
      Prepend([Number(s[..n])], Lex(s[n..]))
    else Lex(s[1..])
  }

  lemma {:induction false} FirstQuoteAt(s: string, n: nat)
    requires n < |s| && s[n] == '"' && '"' !in s[..n]
    ensures FirstQuote(s) == Some(n)
  {
    if n > 0 {
      assert s[0] == s[..n][0];
      assert s[1..][..n - 1] == s[..n][1..];
      FirstQuoteAt(s[1..], n - 1);
    }
  }

  lemma {:induction false} DigitRunAt(s: string, n: nat)
    requires n <= |s|
    requires forall i | 0 <= i < n :: IsDigit(s[i])
    requires n < |s| ==> !IsDigit(s[n])
    ensures DigitRun(s) == n
  {
    if n > 0 {
      DigitRunAt(s[1..], n - 1);
    }
  }

  lemma {:induction false} PrependTwice(ts: seq<Token>, us: seq<Token>, r: Option<seq<Token>>)
    ensures Prepend(ts, Prepend(us, r)) == Prepend(ts + us, r)
  {
    if r.Some? {
      assert ts + (us + r.value) == (ts + us) + r.value;
    }
  }

  /** One scanner step at position `i`: a punctuation character becomes its token. */
  lemma {:induction false} LexPunctuationAt(s: string, i: nat)
    requires i < |s| && IsPunctuation(s[i])
    ensures Lex(s[i..]) == Prepend([PunctuationToken(s[i])], Lex(s[i + 1..]))
  {
    assert s[i..][1..] == s[i + 1..];
  }

  /** One scanner step at position `i`: a closed string literal ending at the quote at `j`. */
  lemma {:induction false} LexStringAt(s: string, i: nat, j: nat)
    requires i < j < |s| && s[i] == '"' && s[j] == '"' && '"' !in s[i + 1..j]
    ensures Lex(s[i..]) == Prepend([String(s[i + 1..j])], Lex(s[j + 1..]))
  {
    assert s[i..][1..][..j - i - 1] == s[i + 1..j];
    FirstQuoteAt(s[i..][1..], j - i - 1);
    assert s[i..][1..j - i] == s[i + 1..j];
    assert s[i..][j - i + 1..] == s[j + 1..];
  }

  /** One scanner step at position `i`: a string literal that is never closed. */
  lemma {:induction false} LexUnterminatedAt(s: string, i: nat)
    requires i < |s| && s[i] == '"' && '"' !in s[i + 1..]
    ensures Lex(s[i..]) == None
  {
    assert s[i..][1..] == s[i + 1..];
    FirstQuoteIsFirst(s[i + 1..]);
  }

  /** One scanner step at position `i`: the digit run `s[i..j]`. */
  lemma {:induction false} LexDigitsAt(s: string, i: nat, j: nat)
    requires i < j <= |s|
    requires forall k | i <= k < j :: IsDigit(s[k])
    requires j < |s| ==> !IsDigit(s[j])
    ensures Lex(s[i..]) == Prepend([Number(s[i..j])], Lex(s[j..]))
  {
    DigitRunAt(s[i..], j - i);
    assert s[i..][..j - i] == s[i..j];
    assert s[i..][j - i..] == s[j..];
  }

  /** One scanner step at position `i`: any other character is dropped. */
  lemma {:induction false} LexSkipAt(s: string, i: nat)
    requires i < |s| && !IsPunctuation(s[i]) && s[i] != '"' && !IsDigit(s[i])
    ensures Lex(s[i..]) == Lex(s[i + 1..])
  {
    assert s[i..][1..] == s[i + 1..];
  }

  /** The scanner's invariant carried over one punctuation character. */
  lemma {:induction false} PunctuationStep(s: string, i: nat, tokens: seq<Token>, whole: Option<seq<Token>>)
    requires i < |s| && IsPunctuation(s[i])
    requires whole == Prepend(tokens, Lex(s[i..]))
    ensures whole == Prepend(tokens + [PunctuationToken(s[i])], Lex(s[i + 1..]))
  {
    LexPunctuationAt(s, i);
    PrependTwice(tokens, [PunctuationToken(s[i])], Lex(s[i + 1..]));
  }

  /** The scanner's invariant carried over a closed string literal. */
  lemma {:induction false} StringStep(s: string, i: nat, j: nat, text: string, tokens: seq<Token>, whole: Option<seq<Token>>)
    requires i < j < |s| && s[i] == '"' && s[j] == '"'
    requires text == s[i + 1..j] && '"' !in text
    requires whole == Prepend(tokens, Lex(s[i..]))
    ensures whole == Prepend(tokens + [String(text)], Lex(s[j + 1..]))
  {
    LexStringAt(s, i, j);
    PrependTwice(tokens, [String(text)], Lex(s[j + 1..]));
  }

  /** The scanner's invariant carried over a digit run. */
  lemma {:induction false} DigitsStep(s: string, i: nat, j: nat, text: string, tokens: seq<Token>, whole: Option<seq<Token>>)
    requires i < j <= |s| && text == s[i..j]
    requires forall k | i <= k < j :: IsDigit(s[k])
    requires j < |s| ==> !IsDigit(s[j])
    requires whole == Prepend(tokens, Lex(s[i..]))
    ensures whole == Prepend(tokens + [Number(text)], Lex(s[j..]))
  {
    LexDigitsAt(s, i, j);
    PrependTwice(tokens, [Number(text)], Lex(s[j..]));
  }

  /** The scanner's invariant carried over a dropped character. */
  lemma {:induction false} SkipStep(s: string, i: nat, tokens: seq<Token>, whole: Option<seq<Token>>)
    requires i < |s| && !IsPunctuation(s[i]) && s[i] != '"' && !IsDigit(s[i])
    requires whole == Prepend(tokens, Lex(s[i..]))
    ensures whole == Prepend(tokens, Lex(s[i + 1..]))
  {
    LexSkipAt(s, i);
  }

  /**
   * What the scanner can produce: never `True`, `False` or `Null`, string payloads without a
   * double quote, non-empty all-digit number payloads, and at most one token per input character.
   */
  lemma {:induction false} LexOutputShape(s: string)
    requires Lex(s).Some?
    ensures |Lex(s).value| <= |s|
    ensures forall i | 0 <= i < |Lex(s).value| :: Scannable(Lex(s).value[i])
    decreases |s|
  {
    if s == [] {
    } else if IsPunctuation(s[0]) {
      LexOutputShape(s[1..]);
    } else if s[0] == '"' {
      FirstQuoteIsFirst(s[1..]);
      var n := FirstQuote(s[1..]).value;
      assert s[1..n + 1] == s[1..][..n];
      LexOutputShape(s[n + 2..]);
    } else if IsDigit(s[0]) {
      DigitRunIsMaximal(s);
      var n := DigitRun(s);
      LexOutputShape(s[n..]);
    } else {
      LexOutputShape(s[1..]);
    }
  }

  /** Only a string literal can exhaust the input: text without a double quote always scans. */
  lemma {:induction false} LexWithoutQuoteSucceeds(s: string)
    requires '"' !in s
    ensures Lex(s).Some?
    decreases |s|
  {
    if s != [] {
      var n := if IsDigit(s[0]) && !IsPunctuation(s[0]) then DigitRun(s) else 1;
      if IsDigit(s[0]) {
        DigitRunIsMaximal(s);
      }
      LexWithoutQuoteSucceeds(s[n..]);
    }
  }

  /** How many double quotes `s` holds. */
  function Quotes(s: string): nat
  {
    if s == [] then 0 else (if s[0] == '"' then 1 else 0) + Quotes(s[1..])
  }

  lemma {:induction false} QuotesAppend(a: string, b: string)
    ensures Quotes(a + b) == Quotes(a) + Quotes(b)
  {
    if a == [] {
      assert a + b == b;
    } else {
      assert (a + b)[0] == a[0];
      assert (a + b)[1..] == a[1..] + b;
      QuotesAppend(a[1..], b);
    }
  }

  lemma {:induction false} QuoteFreeHasNone(a: string)
    requires '"' !in a
    ensures Quotes(a) == 0
  {
    if a != [] {
      assert a[0] in a;
      QuoteFreeHasNone(a[1..]);
    }
  }

  /** A punctuation mark or a dropped character is one step that holds no double quote. */
  lemma {:induction false} LexSkipStep(s: string)
    requires s != [] && s[0] != '"' && !IsDigit(s[0])
    ensures Lex(s).None? <==> Lex(s[1..]).None?
    ensures Quotes(s) == Quotes(s[1..])
  {
    QuotesAppend([s[0]], s[1..]);
    assert [s[0]] + s[1..] == s;
    QuoteFreeHasNone([s[0]]);
  }

  /** A digit run is one step that holds no double quote. */
  lemma {:induction false} LexDigitsStep(s: string)
    requires s != [] && IsDigit(s[0])
    ensures 0 < DigitRun(s)
    ensures Lex(s).None? <==> Lex(s[DigitRun(s)..]).None?
    ensures Quotes(s) == Quotes(s[DigitRun(s)..])
  {
    var n := DigitRun(s);
    assert !IsPunctuation(s[0]);
    DigitRunIsMaximal(s);
    assert '"' !in s[..n];
    QuoteFreeHasNone(s[..n]);
    QuotesAppend(s[..n], s[n..]);
    assert s == s[..n] + s[n..];
  }

  /** Counts the quotes of a string literal: the opening one, the closing one if any, and the rest. */
  lemma {:induction false} QuotesOfLiteral(s: string)
    requires s != [] && s[0] == '"'
    ensures FirstQuote(s[1..]).None? ==> Quotes(s) == 1
    ensures FirstQuote(s[1..]).Some? ==>
      FirstQuote(s[1..]).value + 2 <= |s| && Quotes(s) == 2 + Quotes(s[FirstQuote(s[1..]).value + 2..])
  {
    var t := s[1..];
    assert Quotes(s) == 1 + Quotes(t) by {
      QuotesAppend([s[0]], t);
      assert [s[0]] + t == s;
    }
    FirstQuoteIsFirst(t);
    if FirstQuote(t).None? {
      QuoteFreeHasNone(t);
    } else {
      var n := FirstQuote(t).value;
      var rest := s[n + 2..];
      assert Quotes(t) == 1 + Quotes(rest) by {
        QuotesAppend(t[..n], [t[n]] + rest);
        QuotesAppend([t[n]], rest);
        QuoteFreeHasNone(t[..n]);
        assert t == t[..n] + ([t[n]] + rest);
      }
    }
  }

  /**
   * A string literal either runs off the end, with an odd number of quotes left, or is one step
   * that holds exactly two.
   */
  lemma {:induction false} LexStringStep(s: string)
    requires s != [] && s[0] == '"'
    ensures FirstQuote(s[1..]).None? ==> Lex(s).None? && Quotes(s) == 1
    ensures FirstQuote(s[1..]).Some? ==>
      var k := FirstQuote(s[1..]).value + 2;
      k <= |s| && (Lex(s).None? <==> Lex(s[k..]).None?) && Quotes(s) == 2 + Quotes(s[k..])
  {
    QuotesOfLiteral(s);
  }

  /**
   * The scan fails exactly when the input holds an odd number of double quotes: quotes pair up
   * left to right as the delimiters of string literals, and a last unpaired one runs off the end.
   */
  lemma {:induction false} LexFailsIffOddQuotes(s: string)
    ensures Lex(s).None? <==> Quotes(s) % 2 == 1
    decreases |s|
  {
    if s == [] {
    } else if s[0] == '"' {
      LexStringStep(s);
      if FirstQuote(s[1..]).Some? {
        LexFailsIffOddQuotes(s[FirstQuote(s[1..]).value + 2..]);
      }
    } else if IsDigit(s[0]) {
      LexDigitsStep(s);
      LexFailsIffOddQuotes(s[DigitRun(s)..]);
    } else {
      LexSkipStep(s);
      LexFailsIffOddQuotes(s[1..]);
    }
  }

  /** The text of one token as the scanner reads it back; keywords are spelled out. */
  function RenderToken(t: Token): string
  {
    match t
    case LeftSquareBracket => "["
    case RightSquareBracket => "]"
    case LeftCurlyBracket => "{"
    case RightCurlyBracket => "}"
    case Colon => ":"
    case Comma => ","
    case String(s) => "\"" + s + "\""
    case Number(s) => s
    case True => "true"
    case False => "false"
    case Null => "null"
  }

  /** Tokens written out in order, each followed by a space. */
  function Render(ts: seq<Token>): string
  {
    if ts == [] then "" else RenderToken(ts[0]) + " " + Render(ts[1..])
  }

  lemma {:induction false} LexSpaceThen(rest: string)
    ensures Lex([' '] + rest) == Lex(rest)
  {
    var s := [' '] + rest;
    LexSkipAt(s, 0);
    assert s[0..] == s && s[1..] == rest;
  }

  lemma {:induction false} LexRenderString(p: string, rest: string)
    requires '"' !in p
    ensures Lex(['"'] + p + ['"'] + [' '] + rest) == Prepend([String(p)], Lex(rest))
  {
    var s := ['"'] + p + ['"'] + [' '] + rest;
    assert s[1..|p| + 1] == p;
    LexStringAt(s, 0, |p| + 1);
    assert s[0..] == s;
    assert s[|p| + 2..] == [' '] + rest;
    LexSpaceThen(rest);
  }

  lemma {:induction false} LexRenderNumber(p: string, rest: string)
    requires p != [] && forall i | 0 <= i < |p| :: IsDigit(p[i])
    ensures Lex(p + [' '] + rest) == Prepend([Number(p)], Lex(rest))
  {
    var s := p + [' '] + rest;
    LexDigitsAt(s, 0, |p|);
    assert s[0..] == s;
    assert s[0..|p|] == p;
    assert s[|p|..] == [' '] + rest;
    LexSpaceThen(rest);
  }

  lemma {:induction false} LexRenderPunctuation(c: char, rest: string)
    requires IsPunctuation(c)
    ensures Lex([c] + [' '] + rest) == Prepend([PunctuationToken(c)], Lex(rest))
  {
    var s := [c] + [' '] + rest;
    LexPunctuationAt(s, 0);
    assert s[0..] == s;
    assert s[1..] == [' '] + rest;
    LexSpaceThen(rest);
  }

  lemma {:induction false} LexRenderToken(t: Token, rest: string)
    requires Scannable(t)
    ensures Lex(RenderToken(t) + " " + rest) == Prepend([t], Lex(rest))
  {
    match t
    case String(p) =>
      assert RenderToken(t) + " " + rest == ['"'] + p + ['"'] + [' '] + rest;
      LexRenderString(p, rest);
    case Number(p) =>
      assert RenderToken(t) + " " + rest == p + [' '] + rest;
      LexRenderNumber(p, rest);
    case LeftSquareBracket | RightSquareBracket | LeftCurlyBracket | RightCurlyBracket | Colon | Comma =>
      var c := RenderToken(t)[0];
      assert RenderToken(t) == [c];
      assert RenderToken(t) + " " + rest == [c] + [' '] + rest;
      LexRenderPunctuation(c, rest);
  }

  /**
   * Round trip: scanning the rendering of scanner-producible tokens, followed by any text,
   * yields exactly those tokens, in order, before whatever the text yields.
   */
  lemma {:induction false} LexRender(ts: seq<Token>, rest: string)
    requires forall i | 0 <= i < |ts| :: Scannable(ts[i])
    ensures Lex(Render(ts) + rest) == Prepend(ts, Lex(rest))
  {
    if ts == [] {
      assert Render(ts) + rest == rest;
      if Lex(rest).Some? {
        assert ts + Lex(rest).value == Lex(rest).value;
      }
    } else {
      assert Render(ts) + rest == RenderToken(ts[0]) + " " + (Render(ts[1..]) + rest);
      LexRenderToken(ts[0], Render(ts[1..]) + rest);
      LexRender(ts[1..], rest);
      PrependTwice([ts[0]], ts[1..], Lex(rest));
      assert [ts[0]] + ts[1..] == ts;
    }
  }

  lemma {:induction false} LexRenderRoundTrip(ts: seq<Token>)
    requires forall i | 0 <= i < |ts| :: Scannable(ts[i])
    ensures Lex(Render(ts)) == Some(ts)
  {
    LexRender(ts, "");
    assert Render(ts) + "" == Render(ts);
    assert ts + [] == ts;
  }

  /**
   * An opening quote with no quote after it makes the whole scan fail, whatever well-formed
   * tokens came before; the payload is never truncated into a token.
   */
  lemma {:induction false} UnterminatedStringFails(ts: seq<Token>, tail: string)
    requires forall i | 0 <= i < |ts| :: Scannable(ts[i])
    requires '"' !in tail
    ensures Lex(Render(ts) + ['"'] + tail) == None
  {
    var u := ['"'] + tail;
    assert u[1..] == tail;
    LexUnterminatedAt(u, 0);
    assert u[0..] == u;
    assert Lex(u) == None;
    LexRender(ts, u);
    assert Render(ts) + ['"'] + tail == Render(ts) + u;
  }

  /** A digit run stops at the first non-digit, which is scanned afresh. */
  lemma {:induction false} NumberStopsAtComma(s: string)
    requires s == "12,3"
    ensures Lex(s) == Some([Number("12"), Comma, Number("3")])
  {
    assert s[4..] == [];
    LexDigitsAt(s, 3, 4);
    assert s[3..4] == "3";
    assert [Number("3")] + [] == [Number("3")];
    assert Lex(s[3..]) == Some([Number("3")]);
    LexPunctuationAt(s, 2);
    assert [Comma] + [Number("3")] == [Comma, Number("3")];
    assert Lex(s[2..]) == Some([Comma, Number("3")]);
    LexDigitsAt(s, 0, 2);
    assert s[0..2] == "12" && s[0..] == s;
    assert [Number("12")] + [Comma, Number("3")] == [Number("12"), Comma, Number("3")];
  }

  /** `.` is not part of a number: a decimal fraction scans as two numbers. */
  lemma {:induction false} FractionSplits(s: string)
    requires s == "1.5"
    ensures Lex(s) == Some([Number("1"), Number("5")])
  {
    assert s[3..] == [];
    LexDigitsAt(s, 2, 3);
    assert s[2..3] == "5";
    assert [Number("5")] + [] == [Number("5")];
    assert Lex(s[2..]) == Some([Number("5")]);
    LexSkipAt(s, 1);
    LexDigitsAt(s, 0, 1);
    assert s[0..1] == "1" && s[0..] == s;
    assert [Number("1")] + [Number("5")] == [Number("1"), Number("5")];
  }

  /** Keyword letters are dropped one by one: `true` produces no token. */
  lemma {:induction false} KeywordsDropped(s: string)
    requires s == "[true]"
    ensures Lex(s) == Some([LeftSquareBracket, RightSquareBracket])
  {
    assert s[6..] == [];
    LexPunctuationAt(s, 5);
    assert [RightSquareBracket] + [] == [RightSquareBracket];
    assert Lex(s[5..]) == Some([RightSquareBracket]);
    LexSkipAt(s, 4);
    LexSkipAt(s, 3);
    LexSkipAt(s, 2);
    LexSkipAt(s, 1);
    LexPunctuationAt(s, 0);
    assert s[0..] == s;
    assert [LeftSquareBracket] + [RightSquareBracket] == [LeftSquareBracket, RightSquareBracket];
  }

  /**
   * A backslash does not escape: in `"a\"b"` the second quote closes the literal after `a\`,
   * `b` is dropped, and the last quote opens a literal that never closes.
   */
  lemma {:induction false} BackslashDoesNotEscape(s: string)
    requires s == "\"a\\\"b\""
    ensures Lex(s[..4]) == Some([String("a\\")])
    ensures Lex(s) == None
  {
    var u := s[..4];
    assert u == "\"a\\\"";
    assert u[1..3] == "a\\";
    assert '"' !in u[1..3];
    LexStringAt(u, 0, 3);
    assert u[4..] == [] && u[0..] == u;
    assert [String("a\\")] + [] == [String("a\\")];
    assert s[6..] == [];
    LexUnterminatedAt(s, 5);
    LexSkipAt(s, 4);
    assert s[1..3] == "a\\" && s[0..] == s;
    LexStringAt(s, 0, 3);
  }

  /**
   * The string-literal sub-loop of `tokenize_json` (src/tokenizer.rs:38-49): starting after the
   * opening quote at `start`, collect characters up to the next quote, which is left unconsumed.
   * `closed` is false when the input runs out first (the `unwrap` at line 42 panics there).
   */
  method ScanStringLiteral(input: string, start: nat) returns (closed: bool, text: string, j: nat)
    requires start < |input| && input[start] == '"'
    ensures start < j <= |input| && text == input[start + 1..j] && '"' !in text
    ensures closed <==> j < |input|
    ensures closed ==> input[j] == '"'
  {
    text, j := [], start + 1;
    while true
      invariant start < j <= |input|
      invariant text == input[start + 1..j]
      invariant '"' !in text
      decreases |input| - j
    {
      if j == |input| {
        return false, text, j;
      }
      if input[j] == '"' {
        return true, text, j;
      }
      text := text + [input[j]];
      j := j + 1;
    }
  }

  /**
   * The number sub-loop of `tokenize_json` (src/tokenizer.rs:53-62): collect the maximal run of
   * ASCII digits that starts at `start`.
   */
  method ScanDigits(input: string, start: nat) returns (text: string, j: nat)
    requires start <= |input|
    ensures start <= j <= |input| && text == input[start..j]
    ensures forall k | start <= k < j :: IsDigit(input[k])
    ensures j < |input| ==> !IsDigit(input[j])
  {
    text, j := [], start;
    while j < |input| && IsDigit(input[j])
      invariant start <= j <= |input|
      invariant text == input[start..j]
      invariant forall k | start <= k < j :: IsDigit(input[k])
      decreases |input| - j
    {
      text := text + [input[j]];
      j := j + 1;
    }
  }

  /**
   * `tokenize_json` (src/tokenizer.rs:22-76): a peek-driven scan with a cursor `i` over the input,
   * pushing each recognised token onto `tokens`. The cursor advances past the current character at
   * the bottom of the loop, except after a digit run, which stops on the character after the run.
   */
  method TokenizeJson(input: string) returns (r: Option<seq<Token>>)
    ensures r == Lex(input)
  {
    var tokens: seq<Token> := [];
    var i := 0;
    ghost var whole := Lex(input);
    assert input[i..] == input;
    assert whole.Some? ==> [] + whole.value == whole.value;
    while i < |input|
      invariant i <= |input|
      invariant whole == Prepend(tokens, Lex(input[i..]))
      decreases |input| - i
    {
      var c := input[i];
      if IsPunctuation(c) {
        PunctuationStep(input, i, tokens, whole);
        tokens := tokens + [PunctuationToken(c)];
      } else if c == '"' {
        var closed, text, j := ScanStringLiteral(input, i);
        if !closed {
          assert text == input[i + 1..];
          LexUnterminatedAt(input, i);
          return None;
        }
        StringStep(input, i, j, text, tokens, whole);
        tokens := tokens + [String(text)];
        i := j;
      } else if IsDigit(c) {
        var text, j := ScanDigits(input, i);
        DigitsStep(input, i, j, text, tokens, whole);
        tokens := tokens + [Number(text)];
        i := j;
        continue;
      } else {
        SkipStep(input, i, tokens, whole);
      }
      i := i + 1;
    }
    assert Lex(input[i..]) == Some([]);
    assert tokens + [] == tokens;
    r := Some(tokens);
  }
}
