/**
 * Objects and arrays whose members are all scalars, written out flat: what the member loop of
 * `parse_object` (src/lib.rs:163-283) and the element loop of `parse_list` (src/lib.rs:60-161)
 * build from them, duplicate keys included. These are the scalar special case of the run lemmas
 * of Containers (`MembersAtValues`, `ElementsAtValues`), kept because the flat layout fixes the
 * written-out text, which the text-level theorem `FlatObjectTextParses` needs.
 */
module FlatObjects {
  import opened Wrappers
  import opened Tokenizer
  import opened Validation
  import opened Parser
  import opened ParserProperties
  import opened Containers

  predicate IsScalar(t: Token)
  {
    t.String? || t.Number? || t == True || t == False || t == Token.Null
  }

  /** The value an object member gets for a scalar token; numbers become strings. */
  function MemberScalar(t: Token): JsonValue
    requires IsScalar(t)
  {
    match t
    case String(v) => JsonValue.String(v)
    case Number(v) => JsonValue.String(v)
    case True => Boolean(true)
    case False => Boolean(false)
    case Null => JsonValue.Null
  }

  predicate AllScalar(pairs: seq<(string, Token)>)
  {
    forall i | 0 <= i < |pairs| :: IsScalar(pairs[i].1)
  }

  /** `"k0" : v0 , "k1" : v1 , ...` as tokens, without the enclosing braces. */
  function FlatMembers(pairs: seq<(string, Token)>): seq<Token>
  {
    if pairs == [] then []
    else [Token.String(pairs[0].0), Colon, pairs[0].1]
         + (if |pairs| == 1 then [] else [Comma] + FlatMembers(pairs[1..]))
  }

  /** The members a flat run inserts: each key with its scalar's value. */
  function MemberScalars(pairs: seq<(string, Token)>): seq<(string, JsonValue)>
    requires AllScalar(pairs)
  {
    if pairs == [] then [] else [(pairs[0].0, MemberScalar(pairs[0].1))] + MemberScalars(pairs[1..])
  }

  /** Inserting the members of a flat run is inserting the first, then the others. */
  lemma {:induction false} InsertScalarsStep(parent: Members, pairs: seq<(string, Token)>)
    requires |pairs| > 0 && AllScalar(pairs)
    ensures InsertAll(parent, MemberScalars(pairs)) ==
            InsertAll(parent[pairs[0].0 := MemberScalar(pairs[0].1)], MemberScalars(pairs[1..]))
  {
    var members := MemberScalars(pairs);
    assert members[1..] == MemberScalars(pairs[1..]);
  }

  lemma {:induction false} FlatMembersShape(pairs: seq<(string, Token)>)
    requires AllScalar(pairs)
    ensures forall i | 0 <= i < |FlatMembers(pairs)| :: !IsOpen(FlatMembers(pairs)[i]) && !IsClose(FlatMembers(pairs)[i])
  {
    if |pairs| > 1 {
      FlatMembersShape(pairs[1..]);
    }
  }

  /** A slice equality, read index by index. */
  lemma {:induction false} SliceAt(ts: seq<Token>, pos: nat, f: seq<Token>)
    requires pos + |f| <= |ts|
    requires ts[pos..pos + |f|] == f
    ensures forall i | 0 <= i < |f| :: ts[pos + i] == f[i]
  {
    forall i | 0 <= i < |f|
      ensures ts[pos + i] == f[i]
    {
      assert ts[pos..pos + |f|][i] == ts[pos + i];
    }
  }

  /** The first member of a flat run sits at its start. */
  lemma {:induction false} FlatMembersHead(ts: seq<Token>, pos: nat, pairs: seq<(string, Token)>)
    requires |pairs| > 0
    requires pos + |FlatMembers(pairs)| <= |ts|
    requires ts[pos..pos + |FlatMembers(pairs)|] == FlatMembers(pairs)
    ensures ts[pos] == Token.String(pairs[0].0) && ts[pos + 1] == Colon && ts[pos + 2] == pairs[0].1
  {
    SliceAt(ts, pos, FlatMembers(pairs));
    var rest := if |pairs| == 1 then [] else [Comma] + FlatMembers(pairs[1..]);
    assert FlatMembers(pairs) == [Token.String(pairs[0].0), Colon, pairs[0].1] + rest;
  }

  /** After the first of several members come a comma and the flat run of the others. */
  lemma {:induction false} FlatMembersTail(ts: seq<Token>, pos: nat, pairs: seq<(string, Token)>)
    requires |pairs| > 1
    requires pos + |FlatMembers(pairs)| <= |ts|
    requires ts[pos..pos + |FlatMembers(pairs)|] == FlatMembers(pairs)
    ensures |FlatMembers(pairs)| == 4 + |FlatMembers(pairs[1..])|
    ensures ts[pos + 3] == Comma
    ensures ts[pos + 4..pos + |FlatMembers(pairs)|] == FlatMembers(pairs[1..])
  {
    var g := FlatMembers(pairs[1..]);
    assert FlatMembers(pairs) == [Token.String(pairs[0].0), Colon, pairs[0].1, Comma] + g;
    assert ts[pos + 4..pos + |FlatMembers(pairs)|] == ts[pos..pos + |FlatMembers(pairs)|][4..];
  }

  /** `pairs` laid out from `pos` on as `"k0" : v0 , "k1" : v1 , ... }`. */
  predicate ClosedMembers(ts: seq<Token>, pos: nat, pairs: seq<(string, Token)>)
    decreases |pairs|
  {
    |pairs| > 0 && pos + 3 < |ts| &&
    ts[pos] == Token.String(pairs[0].0) && ts[pos + 1] == Colon && ts[pos + 2] == pairs[0].1 &&
    if |pairs| == 1 then ts[pos + 3] == RightCurlyBracket
    else ts[pos + 3] == Comma && ClosedMembers(ts, pos + 4, pairs[1..])
  }

  /** A flat run of members followed by `}` is a closed run. */
  lemma {:induction false} FlatMembersClosed(ts: seq<Token>, pos: nat, pairs: seq<(string, Token)>)
    requires |pairs| > 0
    requires pos + |FlatMembers(pairs)| < |ts|
    requires ts[pos..pos + |FlatMembers(pairs)|] == FlatMembers(pairs)
    requires ts[pos + |FlatMembers(pairs)|] == RightCurlyBracket
    ensures ClosedMembers(ts, pos, pairs)
    ensures |FlatMembers(pairs)| + 1 == 4 * |pairs|
    decreases |pairs|
  {
    FlatMembersHead(ts, pos, pairs);
    if |pairs| == 1 {
      assert FlatMembers(pairs) == [Token.String(pairs[0].0), Colon, pairs[0].1];
    } else {
      FlatMembersTail(ts, pos, pairs);
      FlatMembersClosed(ts, pos + 4, pairs[1..]);
    }
  }

  /** The member loop builds exactly `InsertAll` over a closed run of scalar members. */
  lemma {:induction false} MembersAtRun(ts: seq<Token>, pos: nat, parent: Members, pairs: seq<(string, Token)>)
    requires AllScalar(pairs) && ClosedMembers(ts, pos, pairs)
    ensures MembersAt(ts, pos, parent) == Ok((InsertAll(parent, MemberScalars(pairs)), pos + 4 * |pairs|))
    decreases |pairs|
  {
    MemberStep(ts, pos, parent);
    InsertScalarsStep(parent, pairs);
    if |pairs| > 1 {
      MembersAtRun(ts, pos + 4, parent[pairs[0].0 := MemberScalar(pairs[0].1)], pairs[1..]);
    }
  }

  /** The member loop builds exactly `InsertAll` over a flat run of scalar members closed by `}`. */
  lemma {:induction false} MembersAtFlat(ts: seq<Token>, pos: nat, parent: Members, pairs: seq<(string, Token)>)
    requires |pairs| > 0 && AllScalar(pairs)
    requires pos + |FlatMembers(pairs)| < |ts|
    requires ts[pos..pos + |FlatMembers(pairs)|] == FlatMembers(pairs)
    requires ts[pos + |FlatMembers(pairs)|] == RightCurlyBracket
    ensures MembersAt(ts, pos, parent) == Ok((InsertAll(parent, MemberScalars(pairs)), pos + |FlatMembers(pairs)| + 1))
  {
    FlatMembersClosed(ts, pos, pairs);
    MembersAtRun(ts, pos, parent, pairs);
  }

  /** A scalar token in an object's value position is one value, a number becoming a string. */
  lemma {:induction false} ScalarMemberValue(ts: seq<Token>, pos: nat)
    requires pos < |ts| && IsScalar(ts[pos])
    ensures MemberValue(ts, pos) == Ok((Some(MemberScalar(ts[pos])), pos + 1))
  {
  }

  /** A key, `:` and a scalar value: insert it, then the end aborts, `,` goes round again and `}` finishes. */
  lemma {:induction false} MemberStep(ts: seq<Token>, pos: nat, parent: Members)
    requires pos + 2 < |ts| && ts[pos].String? && ts[pos + 1] == Colon && IsScalar(ts[pos + 2])
    ensures pos + 3 == |ts| ==> MembersAt(ts, pos, parent) == Err(UnexpectedEnd)
    ensures pos + 3 < |ts| && ts[pos + 3] == Comma ==>
      MembersAt(ts, pos, parent) == MembersAt(ts, pos + 4, parent[ts[pos].text := MemberScalar(ts[pos + 2])])
    ensures pos + 3 < |ts| && ts[pos + 3] == RightCurlyBracket ==>
      MembersAt(ts, pos, parent) == Ok((parent[ts[pos].text := MemberScalar(ts[pos + 2])], pos + 4))
  {
    ScalarMemberValue(ts, pos + 2);
  }

  /**
   * A flat object of scalar members, braces and all, parses to the members inserted in order:
   * the round trip of a flat object, with duplicate keys resolved by the last occurrence.
   */
  lemma {:induction false} FlatObjectParses(pairs: seq<(string, Token)>)
    requires |pairs| > 0 && AllScalar(pairs)
    ensures ParseTokens([LeftCurlyBracket] + FlatMembers(pairs) + [RightCurlyBracket]) == Ok(InsertAll(map[], MemberScalars(pairs)))
  {
    var f := FlatMembers(pairs);
    var ts := [LeftCurlyBracket] + f + [RightCurlyBracket];
    FlatObjectValid(pairs);
    assert ts[1..1 + |f|] == f;
    MembersAtFlat(ts, 1, map[], pairs);
  }

  lemma {:induction false} FlatObjectValid(pairs: seq<(string, Token)>)
    requires AllScalar(pairs)
    ensures IsValid([LeftCurlyBracket] + FlatMembers(pairs) + [RightCurlyBracket])
  {
    var f := FlatMembers(pairs);
    FlatMembersShape(pairs);
    NonBracketsKeepStack(f, [LeftCurlyBracket]);
    assert Scan([LeftCurlyBracket], []) == Some([LeftCurlyBracket]) by {
      assert [LeftCurlyBracket][1..] == [];
      assert [] + [LeftCurlyBracket] == [LeftCurlyBracket];
    }
    ScanAppend([LeftCurlyBracket], f, []);
    assert Scan([RightCurlyBracket], [LeftCurlyBracket]) == Some([]) by {
      assert [RightCurlyBracket][1..] == [];
      assert [LeftCurlyBracket][..0] == [];
    }
    ScanAppend([LeftCurlyBracket] + f, [RightCurlyBracket], []);
  }

  /** Parsing rendered text is parsing the tokens it was rendered from. */
  lemma {:induction false} DocumentOfRender(ts: seq<Token>)
    requires forall i | 0 <= i < |ts| :: Scannable(ts[i])
    ensures Document(Render(ts)) == ParseTokens(ts)
  {
    LexRenderRoundTrip(ts);
  }

  /**
   * The same for text: a flat object whose keys and string values contain no quote and whose
   * numbers are digit runs, written out with spaces, parses to the members inserted in order.
   */
  lemma {:induction false} FlatObjectTextParses(pairs: seq<(string, Token)>)
    requires |pairs| > 0 && AllScalar(pairs)
    requires forall i | 0 <= i < |pairs| :: '"' !in pairs[i].0 && Scannable(pairs[i].1)
    ensures Document(Render([LeftCurlyBracket] + FlatMembers(pairs) + [RightCurlyBracket])) == Ok(InsertAll(map[], MemberScalars(pairs)))
  {
    FlatObjectScannable(pairs);
    DocumentOfRender([LeftCurlyBracket] + FlatMembers(pairs) + [RightCurlyBracket]);
    FlatObjectParses(pairs);
  }

  lemma {:induction false} FlatObjectScannable(pairs: seq<(string, Token)>)
    requires forall i | 0 <= i < |pairs| :: '"' !in pairs[i].0 && Scannable(pairs[i].1)
    ensures forall i | 0 <= i < |FlatMembers(pairs)| + 2 ::
      Scannable(([LeftCurlyBracket] + FlatMembers(pairs) + [RightCurlyBracket])[i])
  {
    FlatMembersScannable(pairs);
  }

  lemma {:induction false} FlatMembersScannable(pairs: seq<(string, Token)>)
    requires forall i | 0 <= i < |pairs| :: '"' !in pairs[i].0 && Scannable(pairs[i].1)
    ensures forall i | 0 <= i < |FlatMembers(pairs)| :: Scannable(FlatMembers(pairs)[i])
  {
    if |pairs| > 1 {
      FlatMembersScannable(pairs[1..]);
    }
  }

  /** `{"a": 1, "a": 2}` gives `a` the second value, stored as a string. */
  lemma DuplicateKeyLastWins()
    ensures Document(Render([LeftCurlyBracket] + FlatMembers([("a", Token.Number("1")), ("a", Token.Number("2"))]) + [RightCurlyBracket]))
         == Ok(map["a" := JsonValue.String("2")])
  {
    var pairs := [("a", Token.Number("1")), ("a", Token.Number("2"))];
    FlatObjectTextParses(pairs);
    assert InsertAll(map[], MemberScalars(pairs)) == map["a" := JsonValue.String("2")] by {
      InsertScalarsStep(map[], pairs);
      InsertScalarsStep(map["a" := JsonValue.String("1")], pairs[1..]);
      assert pairs[1..][1..] == [];
    }
  }

  /** `pairs` laid out from `pos` on as `"k0" : v0 , ... "kn" : vn`, then the end or `,` and the end. */
  predicate OpenMembers(ts: seq<Token>, pos: nat, pairs: seq<(string, Token)>)
    decreases |pairs|
  {
    |pairs| > 0 && pos + 2 < |ts| &&
    ts[pos] == Token.String(pairs[0].0) && ts[pos + 1] == Colon && ts[pos + 2] == pairs[0].1 &&
    if |pairs| == 1 then |ts| == pos + 3 || (|ts| == pos + 4 && ts[pos + 3] == Comma)
    else pos + 3 < |ts| && ts[pos + 3] == Comma && OpenMembers(ts, pos + 4, pairs[1..])
  }

  /** A flat run of members that the tokens end with, perhaps after one more comma, is an open run. */
  lemma {:induction false} FlatMembersOpen(ts: seq<Token>, pos: nat, pairs: seq<(string, Token)>)
    requires |pairs| > 0
    requires pos + |FlatMembers(pairs)| <= |ts|
    requires ts[pos..pos + |FlatMembers(pairs)|] == FlatMembers(pairs)
    requires |ts| == pos + |FlatMembers(pairs)| || (|ts| == pos + |FlatMembers(pairs)| + 1 && ts[pos + |FlatMembers(pairs)|] == Comma)
    ensures OpenMembers(ts, pos, pairs)
    decreases |pairs|
  {
    FlatMembersHead(ts, pos, pairs);
    if |pairs| == 1 {
      assert FlatMembers(pairs) == [Token.String(pairs[0].0), Colon, pairs[0].1];
    } else {
      FlatMembersTail(ts, pos, pairs);
      FlatMembersOpen(ts, pos + 4, pairs[1..]);
    }
  }

  /**
   * An object cut off after a complete member, or after the comma that follows one, makes the
   * member loop read past the last token.
   */
  lemma {:induction false} MembersAtOpen(ts: seq<Token>, pos: nat, parent: Members, pairs: seq<(string, Token)>)
    requires AllScalar(pairs) && OpenMembers(ts, pos, pairs)
    ensures MembersAt(ts, pos, parent) == Err(UnexpectedEnd)
    decreases |pairs|
  {
    MemberStep(ts, pos, parent);
    var next := parent[pairs[0].0 := MemberScalar(pairs[0].1)];
    if |pairs| > 1 {
      MembersAtOpen(ts, pos + 4, next, pairs[1..]);
    } else if |ts| > pos + 3 {
      MembersAtNeedsKey(ts, pos + 4, next);
    }
  }

  /**
   * `{"a": 1` and `{"a": 1,` (any flat run of scalar members, optionally followed by a comma):
   * the bracket check passes, since nothing is closed, and the member loop then runs out of tokens.
   */
  lemma {:induction false} TruncatedObjectFails(pairs: seq<(string, Token)>, tail: seq<Token>)
    requires |pairs| > 0 && AllScalar(pairs)
    requires tail == [] || tail == [Comma]
    ensures ParseTokens([LeftCurlyBracket] + FlatMembers(pairs) + tail) == Err(UnexpectedEnd)
  {
    var f := FlatMembers(pairs);
    var ts := [LeftCurlyBracket] + f + tail;
    FlatMembersShape(pairs);
    assert forall i | 0 <= i < |ts| :: !IsClose(ts[i]) by {
      forall i | 0 <= i < |ts|
        ensures !IsClose(ts[i])
      {
        if 1 <= i < 1 + |f| {
          assert ts[i] == f[i - 1];
        }
      }
    }
    NoCloseAlwaysValid(ts, []);
    assert ts[1..1 + |f|] == f;
    FlatMembersOpen(ts, 1, pairs);
    MembersAtOpen(ts, 1, map[], pairs);
  }

  predicate AllScalarItems(items: seq<Token>)
  {
    forall i | 0 <= i < |items| :: IsScalar(items[i])
  }

  /** The value an array element gets for a scalar token; unlike in an object, numbers stay numbers. */
  function ElementScalar(t: Token): (v: JsonValue)
    requires IsScalar(t)
    ensures t.Number? ==> v == JsonValue.Number(t.text)
    ensures !t.Number? ==> v == MemberScalar(t)
  {
    match t
    case String(s) => JsonValue.String(s)
    case Number(s) => JsonValue.Number(s)
    case True => Boolean(true)
    case False => Boolean(false)
    case Null => JsonValue.Null
  }

  /** `v0 , v1 , ...` as tokens, without the enclosing brackets. */
  function FlatElements(items: seq<Token>): seq<Token>
  {
    if items == [] then []
    else [items[0]] + (if |items| == 1 then [] else [Comma] + FlatElements(items[1..]))
  }

  /** The values of scalar elements, in order. */
  function ElementValues(items: seq<Token>): seq<JsonValue>
    requires AllScalarItems(items)
  {
    if items == [] then [] else [ElementScalar(items[0])] + ElementValues(items[1..])
  }

  /** One value per element, each the element's own scalar value. */
  lemma {:induction false} ElementValuesAt(items: seq<Token>)
    requires AllScalarItems(items)
    ensures |ElementValues(items)| == |items|
    ensures forall i | 0 <= i < |items| :: ElementValues(items)[i] == ElementScalar(items[i])
  {
    if items != [] {
      ElementValuesAt(items[1..]);
    }
  }

  lemma {:induction false} FlatElementsShape(items: seq<Token>)
    requires AllScalarItems(items)
    ensures forall i | 0 <= i < |FlatElements(items)| :: !IsOpen(FlatElements(items)[i]) && !IsClose(FlatElements(items)[i])
  {
    if |items| > 1 {
      FlatElementsShape(items[1..]);
    }
  }

  /** After the first of several elements come a comma and the flat run of the others. */
  lemma {:induction false} FlatElementsTail(ts: seq<Token>, pos: nat, items: seq<Token>)
    requires |items| > 1
    requires pos + |FlatElements(items)| <= |ts|
    requires ts[pos..pos + |FlatElements(items)|] == FlatElements(items)
    ensures |FlatElements(items)| == 2 + |FlatElements(items[1..])|
    ensures ts[pos] == items[0] && ts[pos + 1] == Comma
    ensures ts[pos + 2..pos + |FlatElements(items)|] == FlatElements(items[1..])
  {
    var g := FlatElements(items[1..]);
    assert FlatElements(items) == [items[0], Comma] + g;
    SliceAt(ts, pos, FlatElements(items));
    assert ts[pos + 2..pos + |FlatElements(items)|] == ts[pos..pos + |FlatElements(items)|][2..];
  }

  /** `items` laid out from `pos` on as `v0 , v1 , ... ]`. */
  predicate ClosedRun(ts: seq<Token>, pos: nat, items: seq<Token>)
    decreases |items|
  {
    |items| > 0 && pos + 1 < |ts| && ts[pos] == items[0] &&
    if |items| == 1 then ts[pos + 1] == RightSquareBracket
    else ts[pos + 1] == Comma && ClosedRun(ts, pos + 2, items[1..])
  }

  /** A flat run followed by `]` is a closed run. */
  lemma {:induction false} FlatElementsClosed(ts: seq<Token>, pos: nat, items: seq<Token>)
    requires |items| > 0
    requires pos + |FlatElements(items)| < |ts|
    requires ts[pos..pos + |FlatElements(items)|] == FlatElements(items)
    requires ts[pos + |FlatElements(items)|] == RightSquareBracket
    ensures ClosedRun(ts, pos, items)
    ensures |FlatElements(items)| + 1 == 2 * |items|
    decreases |items|
  {
    if |items| == 1 {
      assert FlatElements(items) == [items[0]];
      assert ts[pos] == ts[pos..pos + 1][0];
    } else {
      FlatElementsTail(ts, pos, items);
      FlatElementsClosed(ts, pos + 2, items[1..]);
    }
  }

  /** The element loop pushes exactly the scalar values, in order, over a closed run. */
  lemma {:induction false} ElementsAtFlat(ts: seq<Token>, pos: nat, parent: seq<JsonValue>, items: seq<Token>)
    requires AllScalarItems(items) && ClosedRun(ts, pos, items)
    ensures ElementsAt(ts, pos, parent) == Ok((parent + ElementValues(items), pos + 2 * |items|))
    decreases |items|
  {
    var v := ElementScalar(items[0]);
    if |items| == 1 {
      LastElementStep(ts, pos, parent);
      assert ElementValues(items) == [v];
    } else {
      ElementValuesTail(parent, items);
      ElementStep(ts, pos, parent);
      ElementsAtFlat(ts, pos + 2, parent + [v], items[1..]);
    }
  }

  /** Pushing the first value and then the others is pushing them all. */
  lemma {:induction false} ElementValuesTail(parent: seq<JsonValue>, items: seq<Token>)
    requires |items| > 0 && AllScalarItems(items)
    ensures AllScalarItems(items[1..])
    ensures parent + [ElementScalar(items[0])] + ElementValues(items[1..]) == parent + ElementValues(items)
  {
    var rest := items[1..];
    assert AllScalarItems(rest) by {
      forall i | 0 <= i < |rest| ensures IsScalar(rest[i]) { assert rest[i] == items[i + 1]; }
    }
    assert ElementValues(items) == [ElementScalar(items[0])] + ElementValues(rest);
  }

  /** A scalar element followed by `,`: push it and go round again. */
  lemma {:induction false} ElementStep(ts: seq<Token>, pos: nat, parent: seq<JsonValue>)
    requires pos + 1 < |ts| && IsScalar(ts[pos]) && ts[pos + 1] == Comma
    ensures ElementsAt(ts, pos, parent) == ElementsAt(ts, pos + 2, parent + [ElementScalar(ts[pos])])
  {
    ScalarElementValue(ts, pos);
  }

  /** A scalar element followed by `]`: push it and finish. */
  lemma {:induction false} LastElementStep(ts: seq<Token>, pos: nat, parent: seq<JsonValue>)
    requires pos + 1 < |ts| && IsScalar(ts[pos]) && ts[pos + 1] == RightSquareBracket
    ensures ElementsAt(ts, pos, parent) == Ok((parent + [ElementScalar(ts[pos])], pos + 2))
  {
    ScalarElementValue(ts, pos);
  }

  /** A scalar token in element position is one element. */
  lemma {:induction false} ScalarElementValue(ts: seq<Token>, pos: nat)
    requires pos < |ts| && IsScalar(ts[pos])
    ensures ElementValue(ts, pos) == Ok((Some(ElementScalar(ts[pos])), pos + 1))
  {
  }

  /**
   * `{"k": [v0, v1, ...]}` with scalar elements: the member gets an array of the element values in
   * order, numbers kept as numbers.
   */
  lemma {:induction false} FlatArrayMemberParses(key: string, items: seq<Token>)
    requires |items| > 0 && AllScalarItems(items)
    ensures ParseTokens([LeftCurlyBracket, Token.String(key), Colon] + [LeftSquareBracket] + FlatElements(items)
                        + [RightSquareBracket, RightCurlyBracket])
         == Ok(map[key := Array(ElementValues(items))])
  {
    var f := FlatElements(items);
    var ts := [LeftCurlyBracket, Token.String(key), Colon] + [LeftSquareBracket] + f + [RightSquareBracket, RightCurlyBracket];
    FlatElementsShape(items);
    ListMemberValid(ts, key, f);
    assert ts[4..4 + |f|] == f;
    assert ts[4 + |f|] == RightSquareBracket && ts[5 + |f|] == RightCurlyBracket;
    FlatElementsClosed(ts, 4, items);
    FlatArrayValue(ts, 3, items);
    SingleMemberParses(ts, key, Array(ElementValues(items)), 5 + |f|);
  }

  /** A validated `{"k": v}` whose value ends just before the closing `}` parses to that one member. */
  lemma {:induction false} SingleMemberParses(ts: seq<Token>, key: string, v: JsonValue, end: nat)
    requires IsValid(ts) && end < |ts| && ts[end] == RightCurlyBracket
    requires 3 <= |ts| && ts[0] == LeftCurlyBracket && ts[1] == Token.String(key) && ts[2] == Colon
    requires MemberValue(ts, 3) == Ok((Some(v), end))
    ensures ParseTokens(ts) == Ok(map[key := v])
  {
    assert MembersAt(ts, 1, map[]) == Ok((map[key := v], end + 1));
  }

  /** `[v0, v1, ...]` with scalar elements in value position is an array of the element values. */
  lemma {:induction false} FlatArrayValue(ts: seq<Token>, pos: nat, items: seq<Token>)
    requires pos < |ts| && ts[pos] == LeftSquareBracket
    requires AllScalarItems(items) && ClosedRun(ts, pos + 1, items)
    ensures MemberValue(ts, pos) == Ok((Some(Array(ElementValues(items))), pos + 1 + 2 * |items|))
  {
    var end := pos + 1 + 2 * |items|;
    assert ListAt(ts, pos + 1, []) == Ok((ElementValues(items), end)) by {
      assert ts[pos + 1] == items[0] && IsScalar(items[0]);
      ListAtElements(ts, pos + 1, []);
      ElementsAtFlat(ts, pos + 1, [], items);
      assert [] + ElementValues(items) == ElementValues(items);
    }
    MemberValueList(ts, pos);
  }

  /** A list that does not close at once is its element loop. */
  lemma {:induction false} ListAtElements(ts: seq<Token>, pos: nat, parent: seq<JsonValue>)
    requires pos < |ts| && ts[pos] != RightSquareBracket
    ensures ListAt(ts, pos, parent) == ElementsAt(ts, pos, parent)
  {
  }

  /** `[` in an object's value position makes the value the list read after it. */
  lemma {:induction false} MemberValueList(ts: seq<Token>, pos: nat)
    requires pos < |ts| && ts[pos] == LeftSquareBracket
    ensures MemberValue(ts, pos) == match ListAt(ts, pos + 1, [])
      case Err(e) => Err(e)
      case Ok((items, q)) => Ok((Some(Array(items)), q))
  {
  }
}
