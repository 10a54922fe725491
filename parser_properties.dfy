/**
 * Properties of the recursive-descent builder: what it never looks at, how a flat object of
 * scalar members is built (later keys overwrite earlier ones), and the concrete behaviour of
 * its quirks around empty containers, numbers and stray punctuation.
 */
module ParserProperties {
  import opened Wrappers
  import opened Tokenizer
  import opened Validation
  import opened Parser

  // ---------------------------------------------------------------------------------------
  // Tokens after the end of a successfully built container are never inspected.
  // ---------------------------------------------------------------------------------------

  lemma {:induction false} ObjectAtIgnoresSuffix(ts: seq<Token>, extra: seq<Token>, pos: nat, parent: Members)
    requires pos <= |ts| && ObjectAt(ts, pos, parent).Ok?
    ensures ObjectAt(ts + extra, pos, parent) == ObjectAt(ts, pos, parent)
    decreases |ts| - pos, 2
  {
    assert (ts + extra)[pos] == ts[pos];
    if ts[pos] != RightCurlyBracket {
      MembersAtIgnoresSuffix(ts, extra, pos, parent);
    }
  }

  lemma {:induction false} MembersAtIgnoresSuffix(ts: seq<Token>, extra: seq<Token>, pos: nat, parent: Members)
    requires pos <= |ts| && MembersAt(ts, pos, parent).Ok?
    ensures MembersAt(ts + extra, pos, parent) == MembersAt(ts, pos, parent)
    decreases |ts| - pos, 1
  {
    var u := ts + extra;
    assert u[pos] == ts[pos] && u[pos + 1] == ts[pos + 1];
    MemberValueIgnoresSuffix(ts, extra, pos + 2);
    var value := MemberValue(ts, pos + 2).value.0;
    var p3 := MemberValue(ts, pos + 2).value.1;
    assert u[p3] == ts[p3];
    var members := if value.Some? then parent[ts[pos].text := value.value] else parent;
    if ts[p3] == Comma {
      MembersAtIgnoresSuffix(ts, extra, p3 + 1, members);
    }
  }

  lemma {:induction false} MemberValueIgnoresSuffix(ts: seq<Token>, extra: seq<Token>, pos: nat)
    requires pos <= |ts| && MemberValue(ts, pos).Ok?
    ensures MemberValue(ts + extra, pos) == MemberValue(ts, pos)
    decreases |ts| - pos, 0
  {
    assert (ts + extra)[pos] == ts[pos];
    if ts[pos] == LeftSquareBracket {
      ListAtIgnoresSuffix(ts, extra, pos + 1, []);
    } else if ts[pos] == LeftCurlyBracket {
      ObjectAtIgnoresSuffix(ts, extra, pos + 1, map[]);
    }
  }

  lemma {:induction false} ListAtIgnoresSuffix(ts: seq<Token>, extra: seq<Token>, pos: nat, parent: seq<JsonValue>)
    requires pos <= |ts| && ListAt(ts, pos, parent).Ok?
    ensures ListAt(ts + extra, pos, parent) == ListAt(ts, pos, parent)
    decreases |ts| - pos, 2
  {
    assert (ts + extra)[pos] == ts[pos];
    if ts[pos] != RightSquareBracket {
      ElementsAtIgnoresSuffix(ts, extra, pos, parent);
    }
  }

  lemma {:induction false} ElementsAtIgnoresSuffix(ts: seq<Token>, extra: seq<Token>, pos: nat, parent: seq<JsonValue>)
    requires pos <= |ts| && ElementsAt(ts, pos, parent).Ok?
    ensures ElementsAt(ts + extra, pos, parent) == ElementsAt(ts, pos, parent)
    decreases |ts| - pos, 1
  {
    var u := ts + extra;
    ElementValueIgnoresSuffix(ts, extra, pos);
    var value := ElementValue(ts, pos).value.0;
    var p1 := ElementValue(ts, pos).value.1;
    assert u[p1] == ts[p1];
    var items := if value.Some? then parent + [value.value] else parent;
    if ts[p1] == Comma {
      ElementsAtIgnoresSuffix(ts, extra, p1 + 1, items);
    }
  }

  lemma {:induction false} ElementValueIgnoresSuffix(ts: seq<Token>, extra: seq<Token>, pos: nat)
    requires pos <= |ts| && ElementValue(ts, pos).Ok?
    ensures ElementValue(ts + extra, pos) == ElementValue(ts, pos)
    decreases |ts| - pos, 0
  {
    assert (ts + extra)[pos] == ts[pos];
    if ts[pos] == LeftSquareBracket {
      ListAtIgnoresSuffix(ts, extra, pos + 1, []);
    } else if ts[pos] == LeftCurlyBracket {
      ObjectAtIgnoresSuffix(ts, extra, pos + 1, map[]);
    }
  }

  /**
   * Once the top-level object has been built, appending tokens changes nothing as long as the
   * bracket check still passes: `parse` never looks past the end of the top-level object.
   */
  lemma {:induction false} ParseTokensIgnoresSuffix(ts: seq<Token>, extra: seq<Token>)
    requires ParseTokens(ts).Ok? && IsValid(ts + extra)
    ensures ParseTokens(ts + extra) == ParseTokens(ts)
  {
    assert (ts + extra)[0] == ts[0];
    if ts[0] == LeftCurlyBracket {
      ObjectAtIgnoresSuffix(ts, extra, 1, map[]);
    }
  }

  // ---------------------------------------------------------------------------------------
  // Tokens before the cursor are never inspected: a successful build reads the same wherever
  // its tokens sit, and ends as many tokens further on.
  // ---------------------------------------------------------------------------------------

  /** A builder result whose end position is moved `n` tokens on. */
  function Shifted<T>(r: Result<(T, nat), Abort>, n: nat): Result<(T, nat), Abort>
  {
    match r
    case Err(e) => Err(e)
    case Ok((v, q)) => Ok((v, n + q))
  }

  lemma {:induction false} ObjectAtIgnoresPrefix(pre: seq<Token>, ts: seq<Token>, pos: nat, parent: Members)
    requires pos <= |ts| && ObjectAt(ts, pos, parent).Ok?
    ensures ObjectAt(pre + ts, |pre| + pos, parent) == Shifted(ObjectAt(ts, pos, parent), |pre|)
    decreases |ts| - pos, 2
  {
    assert (pre + ts)[|pre| + pos] == ts[pos];
    if ts[pos] != RightCurlyBracket {
      MembersAtIgnoresPrefix(pre, ts, pos, parent);
    }
  }

  lemma {:induction false} MembersAtIgnoresPrefix(pre: seq<Token>, ts: seq<Token>, pos: nat, parent: Members)
    requires pos <= |ts| && MembersAt(ts, pos, parent).Ok?
    ensures MembersAt(pre + ts, |pre| + pos, parent) == Shifted(MembersAt(ts, pos, parent), |pre|)
    decreases |ts| - pos, 1
  {
    var members, p3 := MemberIgnoresPrefix(pre, ts, pos, parent);
    if ts[p3] == Comma {
      MembersAtIgnoresPrefix(pre, ts, p3 + 1, members);
    }
  }

  /** One member of a successful member loop reads the same wherever its tokens sit. */
  lemma {:induction false} MemberIgnoresPrefix(pre: seq<Token>, ts: seq<Token>, pos: nat, parent: Members)
    returns (members: Members, p3: nat)
    requires pos <= |ts| && MembersAt(ts, pos, parent).Ok?
    ensures pos < p3 < |ts| && ts[p3] in {Comma, RightCurlyBracket}
    ensures ts[p3] == Comma ==> MembersAt(ts, pos, parent) == MembersAt(ts, p3 + 1, members)
    ensures ts[p3] == Comma ==> MembersAt(pre + ts, |pre| + pos, parent) == MembersAt(pre + ts, |pre| + p3 + 1, members)
    ensures ts[p3] == RightCurlyBracket ==> MembersAt(pre + ts, |pre| + pos, parent) == Shifted(MembersAt(ts, pos, parent), |pre|)
    decreases |ts| - pos, 0
  {
    var value: Option<JsonValue>;
    value, p3 := MemberValue(ts, pos + 2).value.0, MemberValue(ts, pos + 2).value.1;
    members := if value.Some? then parent[ts[pos].text := value.value] else parent;
    MembersAtStep(ts, pos, parent, value, p3);
    MemberValueIgnoresPrefix(pre, ts, pos + 2);
    MemberStepIgnoresPrefix(pre, ts, pos, parent, value, p3);
  }

  /** The step of `MembersAtStep` on `ts` is the same step on `pre + ts`, `|pre|` tokens on. */
  lemma {:induction false} MemberStepIgnoresPrefix(pre: seq<Token>, ts: seq<Token>, pos: nat, parent: Members, value: Option<JsonValue>, p3: nat)
    requires pos + 2 <= |ts| && ts[pos].String? && ts[pos + 1] == Colon && p3 < |ts|
    requires MemberValue(pre + ts, |pre| + pos + 2) == Ok((value, |pre| + p3))
    ensures var members := if value.Some? then parent[ts[pos].text := value.value] else parent;
      (ts[p3] == Comma ==> MembersAt(pre + ts, |pre| + pos, parent) == MembersAt(pre + ts, |pre| + p3 + 1, members)) &&
      (ts[p3] == RightCurlyBracket ==> MembersAt(pre + ts, |pre| + pos, parent) == Ok((members, |pre| + p3 + 1)))
  {
    var u, n := pre + ts, |pre|;
    assert u[n + pos] == ts[pos] && u[n + pos + 1] == ts[pos + 1] && u[n + p3] == ts[p3];
    MembersAtStep(u, n + pos, parent, value, n + p3);
  }

  /**
   * One member of the member loop: key, `:` and a value ending at `p3`, inserted into the map,
   * then `,` to go round again or `}` to finish.
   */
  lemma {:induction false} MembersAtStep(ts: seq<Token>, pos: nat, parent: Members, value: Option<JsonValue>, p3: nat)
    requires pos + 2 <= |ts| && ts[pos].String? && ts[pos + 1] == Colon
    requires MemberValue(ts, pos + 2) == Ok((value, p3)) && p3 < |ts|
    ensures var members := if value.Some? then parent[ts[pos].text := value.value] else parent;
      (ts[p3] == Comma ==> MembersAt(ts, pos, parent) == MembersAt(ts, p3 + 1, members)) &&
      (ts[p3] == RightCurlyBracket ==> MembersAt(ts, pos, parent) == Ok((members, p3 + 1))) &&
      (ts[p3] !in {Comma, RightCurlyBracket} ==> MembersAt(ts, pos, parent) == Err(ExpectedComma(ts[p3])))
  {
  }

  lemma {:induction false} MemberValueIgnoresPrefix(pre: seq<Token>, ts: seq<Token>, pos: nat)
    requires pos <= |ts| && MemberValue(ts, pos).Ok?
    ensures MemberValue(pre + ts, |pre| + pos) == Shifted(MemberValue(ts, pos), |pre|)
    decreases |ts| - pos, 0
  {
    assert (pre + ts)[|pre| + pos] == ts[pos];
    if ts[pos] == LeftSquareBracket {
      ListAtIgnoresPrefix(pre, ts, pos + 1, []);
    } else if ts[pos] == LeftCurlyBracket {
      ObjectAtIgnoresPrefix(pre, ts, pos + 1, map[]);
    }
  }

  lemma {:induction false} ListAtIgnoresPrefix(pre: seq<Token>, ts: seq<Token>, pos: nat, parent: seq<JsonValue>)
    requires pos <= |ts| && ListAt(ts, pos, parent).Ok?
    ensures ListAt(pre + ts, |pre| + pos, parent) == Shifted(ListAt(ts, pos, parent), |pre|)
    decreases |ts| - pos, 2
  {
    assert (pre + ts)[|pre| + pos] == ts[pos];
    if ts[pos] != RightSquareBracket {
      ElementsAtIgnoresPrefix(pre, ts, pos, parent);
    }
  }

  lemma {:induction false} ElementsAtIgnoresPrefix(pre: seq<Token>, ts: seq<Token>, pos: nat, parent: seq<JsonValue>)
    requires pos <= |ts| && ElementsAt(ts, pos, parent).Ok?
    ensures ElementsAt(pre + ts, |pre| + pos, parent) == Shifted(ElementsAt(ts, pos, parent), |pre|)
    decreases |ts| - pos, 1
  {
    var u, n := pre + ts, |pre|;
    ElementValueIgnoresPrefix(pre, ts, pos);
    var value := ElementValue(ts, pos).value.0;
    var p1 := ElementValue(ts, pos).value.1;
    assert u[n + p1] == ts[p1];
    var items := if value.Some? then parent + [value.value] else parent;
    if ts[p1] == Comma {
      ElementsAtIgnoresPrefix(pre, ts, p1 + 1, items);
    }
  }

  lemma {:induction false} ElementValueIgnoresPrefix(pre: seq<Token>, ts: seq<Token>, pos: nat)
    requires pos <= |ts| && ElementValue(ts, pos).Ok?
    ensures ElementValue(pre + ts, |pre| + pos) == Shifted(ElementValue(ts, pos), |pre|)
    decreases |ts| - pos, 0
  {
    assert (pre + ts)[|pre| + pos] == ts[pos];
    if ts[pos] == LeftSquareBracket {
      ListAtIgnoresPrefix(pre, ts, pos + 1, []);
    } else if ts[pos] == LeftCurlyBracket {
      ObjectAtIgnoresPrefix(pre, ts, pos + 1, map[]);
    }
  }

  // ---------------------------------------------------------------------------------------
  // The grammar the loops insist on, for every token sequence.
  // ---------------------------------------------------------------------------------------

  /** Where a member is expected: the end of the tokens, or anything but a string key, aborts. */
  lemma {:induction false} MembersAtNeedsKey(ts: seq<Token>, pos: nat, parent: Members)
    requires pos <= |ts|
    ensures pos == |ts| ==> MembersAt(ts, pos, parent) == Err(UnexpectedEnd)
    ensures pos < |ts| && !ts[pos].String? ==> MembersAt(ts, pos, parent) == Err(ExpectedString(ts[pos]))
  {
  }

  /**
   * In an object, a value position takes a string or a number as a string, and skips one of
   * `:`, `,`, `]` or `}` as "no value"; nothing else is "no value", and the end aborts.
   */
  lemma {:induction false} MemberValueCases(ts: seq<Token>, pos: nat)
    requires pos <= |ts|
    ensures pos == |ts| ==> MemberValue(ts, pos) == Err(UnexpectedEnd)
    ensures pos < |ts| && ts[pos].Number? ==> MemberValue(ts, pos) == Ok((Some(JsonValue.String(ts[pos].text)), pos + 1))
    ensures pos < |ts| && ts[pos].String? ==> MemberValue(ts, pos) == Ok((Some(JsonValue.String(ts[pos].text)), pos + 1))
    ensures pos < |ts| && ts[pos] in {Colon, Comma, RightSquareBracket, RightCurlyBracket} ==> MemberValue(ts, pos) == Ok((None, pos + 1))
    ensures MemberValue(ts, pos).Ok? && MemberValue(ts, pos).value.0.None? ==> ts[pos] in {Colon, Comma, RightSquareBracket, RightCurlyBracket}
  {
  }

  /** The same in an array, except that a number stays a number. */
  lemma {:induction false} ElementValueCases(ts: seq<Token>, pos: nat)
    requires pos <= |ts|
    ensures pos == |ts| ==> ElementValue(ts, pos) == Err(UnexpectedEnd)
    ensures pos < |ts| && ts[pos].Number? ==> ElementValue(ts, pos) == Ok((Some(JsonValue.Number(ts[pos].text)), pos + 1))
    ensures pos < |ts| && ts[pos].String? ==> ElementValue(ts, pos) == Ok((Some(JsonValue.String(ts[pos].text)), pos + 1))
    ensures pos < |ts| && ts[pos] in {Colon, Comma, RightSquareBracket, RightCurlyBracket} ==> ElementValue(ts, pos) == Ok((None, pos + 1))
    ensures ElementValue(ts, pos).Ok? && ElementValue(ts, pos).value.0.None? ==> ts[pos] in {Colon, Comma, RightSquareBracket, RightCurlyBracket}
  {
  }

  /** After a string key: the token sequence ending, or anything other than `:`, aborts. */
  lemma {:induction false} MembersAtNeedsColon(ts: seq<Token>, pos: nat, parent: Members)
    requires pos < |ts| && ts[pos].String?
    ensures pos + 1 == |ts| ==> MembersAt(ts, pos, parent) == Err(UnexpectedEnd)
    ensures pos + 1 < |ts| && ts[pos + 1] != Colon ==> MembersAt(ts, pos, parent) == Err(ExpectedColon(ts[pos + 1]))
  {
  }

  /**
   * After key and colon: an abort while reading the value is the member loop's abort; after the
   * value, the sequence ending or a token other than `,` or `}` aborts.
   */
  lemma {:induction false} MembersAtNeedsSeparator(ts: seq<Token>, pos: nat, parent: Members)
    requires pos + 1 < |ts| && ts[pos].String? && ts[pos + 1] == Colon
    ensures match MemberValue(ts, pos + 2)
      case Err(e) => MembersAt(ts, pos, parent) == Err(e)
      case Ok((_, p3)) =>
        (p3 == |ts| ==> MembersAt(ts, pos, parent) == Err(UnexpectedEnd)) &&
        (p3 < |ts| && ts[p3] != Comma && ts[p3] != RightCurlyBracket ==>
           MembersAt(ts, pos, parent) == Err(ExpectedComma(ts[p3])))
  {
  }

  /**
   * An abort while reading an element is the element loop's abort; after the element, the
   * sequence ending or a token other than `,` or `]` aborts.
   */
  lemma {:induction false} ElementsAtNeedsSeparator(ts: seq<Token>, pos: nat, parent: seq<JsonValue>)
    requires pos <= |ts|
    ensures match ElementValue(ts, pos)
      case Err(e) => ElementsAt(ts, pos, parent) == Err(e)
      case Ok((_, p1)) =>
        (p1 == |ts| ==> ElementsAt(ts, pos, parent) == Err(UnexpectedEnd)) &&
        (p1 < |ts| && ts[p1] != Comma && ts[p1] != RightSquareBracket ==>
           ElementsAt(ts, pos, parent) == Err(ExpectedComma(ts[p1])))
  {
  }

  /** A validated document whose first member does not start with a string aborts with that token. */
  lemma {:induction false} MissingKeyFails(ts: seq<Token>)
    requires IsValid(ts) && |ts| >= 2 && ts[0] == LeftCurlyBracket
    requires ts[1] != RightCurlyBracket && !ts[1].String?
    ensures ParseTokens(ts) == Err(ExpectedString(ts[1]))
  {
    MembersAtNeedsKey(ts, 1, map[]);
  }

  /** A validated document whose first key is not followed by `:` aborts with that token. */
  lemma {:induction false} MissingColonFails(ts: seq<Token>)
    requires IsValid(ts) && |ts| >= 3 && ts[0] == LeftCurlyBracket
    requires ts[1].String? && ts[2] != Colon
    ensures ParseTokens(ts) == Err(ExpectedColon(ts[2]))
  {
    MembersAtNeedsColon(ts, 1, map[]);
  }

  /** A validated document whose first member value is followed by neither `,` nor `}` aborts with that token. */
  lemma {:induction false} MissingCommaFails(ts: seq<Token>)
    requires IsValid(ts) && |ts| >= 3 && ts[0] == LeftCurlyBracket
    requires ts[1].String? && ts[2] == Colon
    requires MemberValue(ts, 3).Ok? && MemberValue(ts, 3).value.1 < |ts|
    requires var p := MemberValue(ts, 3).value.1; ts[p] != Comma && ts[p] != RightCurlyBracket
    ensures ParseTokens(ts) == Err(ExpectedComma(ts[MemberValue(ts, 3).value.1]))
  {
    MembersAtNeedsSeparator(ts, 1, map[]);
  }

  // ---------------------------------------------------------------------------------------
  // The builder's quirks, on token sequences.
  // ---------------------------------------------------------------------------------------

  /** A top-level `{}` is an empty map: the `}` is peeked at and never consumed. */
  lemma EmptyObjectParses(ts: seq<Token>)
    requires ts == [LeftCurlyBracket, RightCurlyBracket]
    ensures ParseTokens(ts) == Ok(map[])
  {
    var one := [LeftCurlyBracket];
    assert Scan(ts, []) == Some([]) by {
      assert ts[1..] == [RightCurlyBracket] && ts[1..][1..] == [];
      assert [] + one == one && one[..0] == [];
      assert Scan([RightCurlyBracket], one) == Some([]);
    }
  }

  /**
   * `{"a": {}, "b": 1}`: the inner `{}` leaves its `}` unconsumed, the outer loop takes it as
   * its own end, and `"b"` is never read.
   */
  lemma EmptyInnerObjectEndsOuter(ts: seq<Token>)
    requires ts == [LeftCurlyBracket, Token.String("a"), Colon, LeftCurlyBracket, RightCurlyBracket,
                    Comma, Token.String("b"), Colon, Token.Number("1"), RightCurlyBracket]
    ensures ParseTokens(ts) == Ok(map["a" := Object(map[])])
  {
    EmptyInnerObjectValid(ts);
    assert ObjectAt(ts, 4, map[]) == Ok((map[], 4));
    assert MemberValue(ts, 3) == Ok((Some(Object(map[])), 4));
    assert MembersAt(ts, 1, map[]) == Ok((map["a" := Object(map[])], 5));
  }

  /** The sequence of `EmptyInnerObjectEndsOuter` passes `validate`. */
  lemma EmptyInnerObjectValid(ts: seq<Token>)
    requires ts == [LeftCurlyBracket, Token.String("a"), Colon, LeftCurlyBracket, RightCurlyBracket,
                    Comma, Token.String("b"), Colon, Token.Number("1"), RightCurlyBracket]
    ensures IsValid(ts)
  {
    var a := [Token.String("a"), Colon];
    var b := [Comma, Token.String("b"), Colon, Token.Number("1")];
    var one := [LeftCurlyBracket];
    var pair := [LeftCurlyBracket, RightCurlyBracket];
    assert ts == one + a + pair + b + [RightCurlyBracket];
    assert Scan(one, []) == Some(one) by { assert one[1..] == [] && [] + one == one; }
    NonBracketsKeepStack(a, one);
    ScanAppend(one, a, []);
    assert Scan(pair, one) == Some(one) by {
      assert pair[1..] == [RightCurlyBracket] && pair[1..][1..] == [];
      assert (one + [LeftCurlyBracket])[..1] == one;
    }
    ScanAppend(one + a, pair, []);
    NonBracketsKeepStack(b, one);
    ScanAppend(one + a + pair, b, []);
    assert Scan([RightCurlyBracket], one) == Some([]) by {
      assert [RightCurlyBracket][1..] == [] && one[..0] == [];
    }
    ScanAppend(one + a + pair + b, [RightCurlyBracket], []);
  }

  /** An open bracket, contents that leave the stack as they found it, and the matching close bracket. */
  lemma {:induction false} EnclosedKeepsStack(close: Token, inner: seq<Token>, stack: seq<Token>)
    requires IsClose(close)
    requires Scan(inner, stack + [Opener(close)]) == Some(stack + [Opener(close)])
    ensures Scan([Opener(close)] + inner + [close], stack) == Some(stack)
  {
    var open := Opener(close);
    assert Scan([open], stack) == Some(stack + [open]) by { assert [open][1..] == []; }
    ScanAppend([open], inner, stack);
    assert Scan([close], stack + [open]) == Some(stack) by {
      assert [close][1..] == [] && (stack + [open])[..|stack|] == stack;
    }
    ScanAppend([open] + inner, [close], stack);
  }

  /** An object around contents that leave the stack as they found it passes `validate`. */
  lemma {:induction false} BracedValid(inner: seq<Token>)
    requires Scan(inner, [LeftCurlyBracket]) == Some([LeftCurlyBracket])
    ensures IsValid([LeftCurlyBracket] + inner + [RightCurlyBracket])
  {
    assert [] + [LeftCurlyBracket] == [LeftCurlyBracket];
    EnclosedKeepsStack(RightCurlyBracket, inner, []);
  }

  /** `{key: [items]}` passes `validate` when the items hold no brackets. */
  lemma {:induction false} ListMemberValid(ts: seq<Token>, key: string, items: seq<Token>)
    requires forall i | 0 <= i < |items| :: !IsOpen(items[i]) && !IsClose(items[i])
    requires ts == [LeftCurlyBracket, Token.String(key), Colon] + [LeftSquareBracket] + items
                   + [RightSquareBracket, RightCurlyBracket]
    ensures IsValid(ts)
  {
    var outer := [LeftCurlyBracket];
    var head := [Token.String(key), Colon];
    var list := [LeftSquareBracket] + items + [RightSquareBracket];
    NonBracketsKeepStack(items, outer + [LeftSquareBracket]);
    EnclosedKeepsStack(RightSquareBracket, items, outer);
    NonBracketsKeepStack(head, outer);
    ScanAppend(head, list, outer);
    BracedValid(head + list);
    assert ts == outer + (head + list) + [RightCurlyBracket];
  }

  /**
   * `{"a": []}`: the empty array leaves its `]` unconsumed, and the object loop finds it where
   * it wants a `,` or a `}`.
   */
  lemma EmptyArrayMemberFails(ts: seq<Token>)
    requires ts == [LeftCurlyBracket, Token.String("a"), Colon, LeftSquareBracket, RightSquareBracket,
                    RightCurlyBracket]
    ensures ParseTokens(ts) == Err(ExpectedComma(RightSquareBracket))
  {
    ListMemberValid(ts, "a", []);
    assert MemberValue(ts, 3) == Ok((Some(Array([])), 4));
    assert MembersAt(ts, 1, map[]) == Err(ExpectedComma(RightSquareBracket));
    assert ObjectAt(ts, 1, map[]) == Err(ExpectedComma(RightSquareBracket));
  }

  /** `{"x": [,]}`: a comma where an element belongs is consumed and adds nothing. */
  lemma CommaOnlyArrayIsEmpty(ts: seq<Token>)
    requires ts == [LeftCurlyBracket, Token.String("x"), Colon, LeftSquareBracket, Comma, RightSquareBracket,
                    RightCurlyBracket]
    ensures ParseTokens(ts) == Ok(map["x" := Array([])])
  {
    ListMemberValid(ts, "x", [Comma]);
    assert ElementsAt(ts, 4, []) == Ok(([], 6));
    assert MemberValue(ts, 3) == Ok((Some(Array([])), 6));
    assert MembersAt(ts, 1, map[]) == Ok((map["x" := Array([])], 7));
    assert ObjectAt(ts, 1, map[]) == Ok((map["x" := Array([])], 7));
  }

  /** `{"a": [1]}`: inside an array a number stays a number (as a member value it becomes a string). */
  lemma NumberInArrayStaysNumber(ts: seq<Token>)
    requires ts == [LeftCurlyBracket, Token.String("a"), Colon, LeftSquareBracket, Token.Number("1"),
                    RightSquareBracket, RightCurlyBracket]
    ensures ParseTokens(ts) == Ok(map["a" := Array([JsonValue.Number("1")])])
  {
    ListMemberValid(ts, "a", [Token.Number("1")]);
    assert ElementsAt(ts, 4, []) == Ok(([JsonValue.Number("1")], 6));
    assert MemberValue(ts, 3) == Ok((Some(Array([JsonValue.Number("1")])), 6));
    assert MembersAt(ts, 1, map[]) == Ok((map["a" := Array([JsonValue.Number("1")])], 7));
    assert ObjectAt(ts, 1, map[]) == Ok((map["a" := Array([JsonValue.Number("1")])], 7));
  }

  /** A lone `{` passes the bracket check, and `parse_object` then peeks past the end. */
  lemma LoneOpenBraceFails(ts: seq<Token>)
    requires ts == [LeftCurlyBracket]
    ensures ParseTokens(ts) == Err(NothingToPeek)
  {
    NoCloseAlwaysValid(ts, []);
  }

  /** `{"a" 1}`: the token after a key must be a `:`. */
  lemma MissingColonExample(ts: seq<Token>)
    requires ts == [LeftCurlyBracket, Token.String("a"), Token.Number("1"), RightCurlyBracket]
    ensures ParseTokens(ts) == Err(ExpectedColon(Token.Number("1")))
  {
    var inner := [Token.String("a"), Token.Number("1")];
    NonBracketsKeepStack(inner, [LeftCurlyBracket]);
    BracedValid(inner);
    assert ts == [LeftCurlyBracket] + inner + [RightCurlyBracket];
    assert MembersAt(ts, 1, map[]) == Err(ExpectedColon(Token.Number("1")));
    assert ObjectAt(ts, 1, map[]) == Err(ExpectedColon(Token.Number("1")));
  }

  /** `{: 1}`: a member must start with a string key. */
  lemma MissingKeyExample(ts: seq<Token>)
    requires ts == [LeftCurlyBracket, Colon, Token.Number("1"), RightCurlyBracket]
    ensures ParseTokens(ts) == Err(ExpectedString(Colon))
  {
    var inner := [Colon, Token.Number("1")];
    NonBracketsKeepStack(inner, [LeftCurlyBracket]);
    BracedValid(inner);
    assert ts == [LeftCurlyBracket] + inner + [RightCurlyBracket];
    assert MembersAt(ts, 1, map[]) == Err(ExpectedString(Colon));
    assert ObjectAt(ts, 1, map[]) == Err(ExpectedString(Colon));
  }

  /** `{"a": 1 "b": 2}`: after a member value comes a `,` or a `}`, nothing else. */
  lemma MissingCommaExample(ts: seq<Token>)
    requires ts == [LeftCurlyBracket, Token.String("a"), Colon, Token.Number("1"), Token.String("b"), Colon,
                    Token.Number("2"), RightCurlyBracket]
    ensures ParseTokens(ts) == Err(ExpectedComma(Token.String("b")))
  {
    var inner := ts[1..7];
    NonBracketsKeepStack(inner, [LeftCurlyBracket]);
    BracedValid(inner);
    assert ts == [LeftCurlyBracket] + inner + [RightCurlyBracket];
    assert MemberValue(ts, 3) == Ok((Some(JsonValue.String("1")), 4));
    assert MembersAt(ts, 1, map[]) == Err(ExpectedComma(Token.String("b")));
    assert ObjectAt(ts, 1, map[]) == Err(ExpectedComma(Token.String("b")));
  }

  /** `{"a": 1,`: the member loop reads past the last token. */
  lemma TruncatedObjectExample(ts: seq<Token>)
    requires ts == [LeftCurlyBracket, Token.String("a"), Colon, Token.Number("1"), Comma]
    ensures ParseTokens(ts) == Err(UnexpectedEnd)
  {
    NoCloseAlwaysValid(ts, []);
    assert MembersAt(ts, 5, map["a" := JsonValue.String("1")]) == Err(UnexpectedEnd);
    assert MembersAt(ts, 1, map[]) == Err(UnexpectedEnd);
    assert ObjectAt(ts, 1, map[]) == Err(UnexpectedEnd);
  }

  /** `}`: a close bracket with nothing open is rejected by the bracket check. */
  lemma StrayCloseIsInvalid(ts: seq<Token>)
    requires ts == [RightCurlyBracket]
    ensures ParseTokens(ts) == Err(InvalidJson)
  {
    MismatchedCloseInvalid([], RightCurlyBracket, []);
    assert [] + [RightCurlyBracket] + [] == ts;
  }
}
