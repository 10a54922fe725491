/**
 * What the member loop of `parse_object` (src/lib.rs:176-282) and the element loop of
 * `parse_list` (src/lib.rs:75-160) build from any run of values the value dispatch accepts,
 * nested containers included, and the nested `Image` example, a reduced form of the document in
 * the test at src/tokenizer.rs:84-100.
 */
module Containers {
  import opened Wrappers
  import opened Tokenizer
  import opened Validation
  import opened Parser
  import opened ParserProperties

  /** Inserting the members into a map one after another, as `BTreeMap::insert` does. */
  function InsertAll(parent: Members, members: seq<(string, JsonValue)>): Members
    decreases |members|
  {
    if members == [] then parent
    else InsertAll(parent[members[0].0 := members[0].1], members[1..])
  }

  /** A key no member mentions keeps whatever value, or absence, it had. */
  lemma {:induction false} InsertAllKeepsOthers(parent: Members, members: seq<(string, JsonValue)>, k: string)
    requires forall j | 0 <= j < |members| :: members[j].0 != k
    ensures k in InsertAll(parent, members) <==> k in parent
    ensures k in parent ==> InsertAll(parent, members)[k] == parent[k]
    decreases |members|
  {
    if members != [] {
      InsertAllKeepsOthers(parent[members[0].0 := members[0].1], members[1..], k);
    }
  }

  /** Last write wins: a key maps to the value of the last member that mentions it. */
  lemma {:induction false} InsertAllLastWins(parent: Members, members: seq<(string, JsonValue)>, i: nat)
    requires i < |members|
    requires forall j | i < j < |members| :: members[j].0 != members[i].0
    ensures members[i].0 in InsertAll(parent, members)
    ensures InsertAll(parent, members)[members[i].0] == members[i].1
    decreases |members|
  {
    var next := parent[members[0].0 := members[0].1];
    if i == 0 {
      InsertAllKeepsOthers(next, members[1..], members[0].0);
    } else {
      InsertAllLastWins(next, members[1..], i - 1);
    }
  }

  /**
   * `members` laid out from `pos` on: each a string key, `:` and tokens the value dispatch reads
   * as that member's value, followed by `,`, or by the `}` that ends the run at `end`.
   */
  predicate MembersRun(ts: seq<Token>, pos: nat, members: seq<(string, JsonValue)>, end: nat)
    decreases |members|
  {
    |members| > 0 && pos + 2 <= |ts| && ts[pos] == Token.String(members[0].0) && ts[pos + 1] == Colon &&
    match MemberValue(ts, pos + 2)
    case Err(_) => false
    case Ok((v, q)) =>
      v == Some(members[0].1) && q < |ts| &&
      if |members| == 1 then ts[q] == RightCurlyBracket && end == q + 1
      else ts[q] == Comma && MembersRun(ts, q + 1, members[1..], end)
  }

  /** Over such a run the member loop inserts the members in order and consumes the `}`. */
  lemma {:induction false} MembersAtValues(ts: seq<Token>, pos: nat, parent: Members, members: seq<(string, JsonValue)>, end: nat)
    requires MembersRun(ts, pos, members, end)
    ensures MembersAt(ts, pos, parent) == Ok((InsertAll(parent, members), end))
    decreases |members|
  {
    var q := MemberValue(ts, pos + 2).value.1;
    if |members| > 1 {
      MembersAtValues(ts, q + 1, parent[members[0].0 := members[0].1], members[1..], end);
    }
  }

  /**
   * `values` laid out from `pos` on: each tokens the value dispatch reads as that value, followed
   * by `,`, or by the `]` that ends the run at `end`.
   */
  predicate ElementsRun(ts: seq<Token>, pos: nat, values: seq<JsonValue>, end: nat)
    decreases |values|
  {
    |values| > 0 && pos <= |ts| &&
    match ElementValue(ts, pos)
    case Err(_) => false
    case Ok((v, q)) =>
      v == Some(values[0]) && q < |ts| &&
      if |values| == 1 then ts[q] == RightSquareBracket && end == q + 1
      else ts[q] == Comma && ElementsRun(ts, q + 1, values[1..], end)
  }

  /** Over such a run the element loop pushes the values in order and consumes the `]`. */
  lemma {:induction false} ElementsAtValues(ts: seq<Token>, pos: nat, parent: seq<JsonValue>, values: seq<JsonValue>, end: nat)
    requires ElementsRun(ts, pos, values, end)
    ensures ElementsAt(ts, pos, parent) == Ok((parent + values, end))
    decreases |values|
  {
    var q := ElementValue(ts, pos).value.1;
    if |values| > 1 {
      ElementsAtValues(ts, q + 1, parent + [values[0]], values[1..], end);
      assert parent + [values[0]] + values[1..] == parent + values;
    } else {
      assert values == [values[0]];
    }
  }

  /**
   * `{` followed by a run of members is one object value, in an object or in an array alike,
   * holding those members inserted in order.
   */
  lemma {:induction false} NestedObjectValue(ts: seq<Token>, pos: nat, members: seq<(string, JsonValue)>, end: nat)
    requires pos < |ts| && ts[pos] == LeftCurlyBracket && MembersRun(ts, pos + 1, members, end)
    ensures MemberValue(ts, pos) == Ok((Some(Object(InsertAll(map[], members))), end))
    ensures ElementValue(ts, pos) == Ok((Some(Object(InsertAll(map[], members))), end))
  {
    MembersAtValues(ts, pos + 1, map[], members, end);
  }

  /**
   * `[` followed by a run of elements is one array value, in an object or in an array alike,
   * holding those values in order.
   */
  lemma {:induction false} NestedArrayValue(ts: seq<Token>, pos: nat, values: seq<JsonValue>, end: nat)
    requires pos < |ts| && ts[pos] == LeftSquareBracket && ElementsRun(ts, pos + 1, values, end)
    ensures MemberValue(ts, pos) == Ok((Some(Array(values)), end))
    ensures ElementValue(ts, pos) == Ok((Some(Array(values)), end))
  {
    ElementsAtValues(ts, pos + 1, [], values, end);
    assert [] + values == values;
  }

  /** A validated sequence that opens with `{` and a run of members parses to those members inserted in order. */
  lemma {:induction false} ObjectParses(ts: seq<Token>, members: seq<(string, JsonValue)>, end: nat)
    requires IsValid(ts) && 0 < |ts| && ts[0] == LeftCurlyBracket && MembersRun(ts, 1, members, end)
    ensures ParseTokens(ts) == Ok(InsertAll(map[], members))
  {
    MembersAtValues(ts, 1, map[], members, end);
  }

  /** Extending a run of members by one member in front. */
  lemma {:induction false} MembersRunCons(ts: seq<Token>, pos: nat, key: string, v: JsonValue, q: nat,
                                          rest: seq<(string, JsonValue)>, end: nat)
    requires pos + 2 <= |ts| && ts[pos] == Token.String(key) && ts[pos + 1] == Colon
    requires MemberValue(ts, pos + 2) == Ok((Some(v), q)) && q < |ts|
    requires |rest| == 0 ==> ts[q] == RightCurlyBracket && end == q + 1
    requires |rest| > 0 ==> ts[q] == Comma && MembersRun(ts, q + 1, rest, end)
    ensures MembersRun(ts, pos, [(key, v)] + rest, end)
  {
    assert ([(key, v)] + rest)[1..] == rest;
  }

  /** Extending a run of elements by one element in front. */
  lemma {:induction false} ElementsRunCons(ts: seq<Token>, pos: nat, v: JsonValue, q: nat, rest: seq<JsonValue>, end: nat)
    requires pos <= |ts| && ElementValue(ts, pos) == Ok((Some(v), q)) && q < |ts|
    requires |rest| == 0 ==> ts[q] == RightSquareBracket && end == q + 1
    requires |rest| > 0 ==> ts[q] == Comma && ElementsRun(ts, q + 1, rest, end)
    ensures ElementsRun(ts, pos, [v] + rest, end)
  {
    assert ([v] + rest)[1..] == rest;
  }

  /** A value read from `ts` reads the same with tokens before and after it, `|pre|` tokens on. */
  lemma {:induction false} MemberValueInContext(pre: seq<Token>, ts: seq<Token>, post: seq<Token>, pos: nat)
    requires pos <= |ts| && MemberValue(ts, pos).Ok?
    ensures MemberValue(pre + ts + post, |pre| + pos) == Shifted(MemberValue(ts, pos), |pre|)
  {
    MemberValueIgnoresSuffix(ts, post, pos);
    MemberValueIgnoresPrefix(pre, ts + post, pos);
    assert pre + ts + post == pre + (ts + post);
  }

  /**
   * An object inside an object, as in `{"Image":{"Width":800,"Height":600,"IDs":[1,2,3]}}`: the
   * inner object's numbers become strings, while the numbers inside its array stay numbers.
   */
  lemma {:induction false} ObjectInObjectParses(ts: seq<Token>, inner: seq<Token>, list: seq<Token>,
                                                k: string, k1: string, k2: string, k3: string,
                                                a: string, b: string, x: string, y: string, z: string)
    requires ts == [LeftCurlyBracket, Token.String(k), Colon] + inner + [RightCurlyBracket]
    requires inner == [LeftCurlyBracket, Token.String(k1), Colon, Token.Number(a), Comma,
                       Token.String(k2), Colon, Token.Number(b), Comma, Token.String(k3), Colon]
                      + list + [RightCurlyBracket]
    requires list == [LeftSquareBracket, Token.Number(x), Comma, Token.Number(y), Comma, Token.Number(z),
                      RightSquareBracket]
    ensures ParseTokens(ts) == Ok(map[k := Object(map[
              k1 := JsonValue.String(a),
              k2 := JsonValue.String(b),
              k3 := Array([JsonValue.Number(x), JsonValue.Number(y), JsonValue.Number(z)])])])
  {
    var ids := [JsonValue.Number(x), JsonValue.Number(y), JsonValue.Number(z)];
    var members := map[k1 := JsonValue.String(a), k2 := JsonValue.String(b), k3 := Array(ids)];
    InnerObjectValue(inner, list, k1, k2, k3, a, b, x, y, z);
    var head := [Token.String(k), Colon];
    assert IsValid(ts) by {
      InnerObjectKeepsStack(inner, list, k1, k2, k3, a, b, x, y, z);
      NonBracketsKeepStack(head, [LeftCurlyBracket]);
      ScanAppend(head, inner, [LeftCurlyBracket]);
      BracedValid(head + inner);
      assert ts == [LeftCurlyBracket] + (head + inner) + [RightCurlyBracket];
    }
    assert MembersRun(ts, 1, [(k, Object(members))], 23) by {
      MemberValueInContext([LeftCurlyBracket, Token.String(k), Colon], inner, [RightCurlyBracket], 0);
      assert ts[1] == Token.String(k) && ts[2] == Colon && ts[22] == RightCurlyBracket;
      MembersRunCons(ts, 1, k, Object(members), 22, [], 23);
      assert [(k, Object(members))] + [] == [(k, Object(members))];
    }
    ObjectParses(ts, [(k, Object(members))], 23);
    assert InsertAll(map[], [(k, Object(members))]) == InsertAll(map[k := Object(members)], []);
  }

  /** The inner object of `ObjectInObjectParses`, read on its own. */
  lemma {:induction false} InnerObjectValue(inner: seq<Token>, list: seq<Token>, k1: string, k2: string, k3: string,
                                            a: string, b: string, x: string, y: string, z: string)
    requires inner == [LeftCurlyBracket, Token.String(k1), Colon, Token.Number(a), Comma,
                       Token.String(k2), Colon, Token.Number(b), Comma, Token.String(k3), Colon]
                      + list + [RightCurlyBracket]
    requires list == [LeftSquareBracket, Token.Number(x), Comma, Token.Number(y), Comma, Token.Number(z),
                      RightSquareBracket]
    ensures |inner| == 19
    ensures MemberValue(inner, 0) == Ok((Some(Object(map[k1 := JsonValue.String(a), k2 := JsonValue.String(b),
                                          k3 := Array([JsonValue.Number(x), JsonValue.Number(y), JsonValue.Number(z)])])), 19))
  {
    var ids := [JsonValue.Number(x), JsonValue.Number(y), JsonValue.Number(z)];
    ArrayOfThreeValue(list, x, y, z);
    var fields := [LeftCurlyBracket, Token.String(k1), Colon, Token.Number(a), Comma,
                   Token.String(k2), Colon, Token.Number(b), Comma, Token.String(k3), Colon];
    MemberValueInContext(fields, list, [RightCurlyBracket], 0);
    ObjectOfThreeValue(inner, k1, k2, k3, a, b, ids);
  }

  /** The inner object of `ObjectInObjectParses` leaves the bracket stack as it found it. */
  lemma {:induction false} InnerObjectKeepsStack(inner: seq<Token>, list: seq<Token>, k1: string, k2: string, k3: string,
                                                 a: string, b: string, x: string, y: string, z: string)
    requires inner == [LeftCurlyBracket, Token.String(k1), Colon, Token.Number(a), Comma,
                       Token.String(k2), Colon, Token.Number(b), Comma, Token.String(k3), Colon]
                      + list + [RightCurlyBracket]
    requires list == [LeftSquareBracket, Token.Number(x), Comma, Token.Number(y), Comma, Token.Number(z),
                      RightSquareBracket]
    ensures Scan(inner, [LeftCurlyBracket]) == Some([LeftCurlyBracket])
  {
    var outer := [LeftCurlyBracket];
    var both := outer + [LeftCurlyBracket];
    assert Scan(list, both) == Some(both) by {
      var ids := [Token.Number(x), Comma, Token.Number(y), Comma, Token.Number(z)];
      NonBracketsKeepStack(ids, both + [LeftSquareBracket]);
      EnclosedKeepsStack(RightSquareBracket, ids, both);
      assert list == [LeftSquareBracket] + ids + [RightSquareBracket];
    }
    var fields := [Token.String(k1), Colon, Token.Number(a), Comma,
                   Token.String(k2), Colon, Token.Number(b), Comma, Token.String(k3), Colon];
    assert Scan(fields + list, both) == Some(both) by {
      NonBracketsKeepStack(fields, both);
      ScanAppend(fields, list, both);
    }
    assert Scan([LeftCurlyBracket] + (fields + list) + [RightCurlyBracket], outer) == Some(outer) by {
      EnclosedKeepsStack(RightCurlyBracket, fields + list, outer);
    }
    assert inner == [LeftCurlyBracket] + (fields + list) + [RightCurlyBracket];
  }

  /** `[x, y, z]` is one array value holding the three numbers as numbers. */
  lemma {:induction false} ArrayOfThreeValue(list: seq<Token>, x: string, y: string, z: string)
    requires list == [LeftSquareBracket, Token.Number(x), Comma, Token.Number(y), Comma, Token.Number(z),
                      RightSquareBracket]
    ensures MemberValue(list, 0) == Ok((Some(Array([JsonValue.Number(x), JsonValue.Number(y), JsonValue.Number(z)])), 7))
  {
    ElementValueCases(list, 1);
    ElementValueCases(list, 3);
    ElementValueCases(list, 5);
    ElementsRunCons(list, 5, JsonValue.Number(z), 6, [], 7);
    ElementsRunCons(list, 3, JsonValue.Number(y), 4, [JsonValue.Number(z)], 7);
    ElementsRunCons(list, 1, JsonValue.Number(x), 2, [JsonValue.Number(y)] + [JsonValue.Number(z)], 7);
    var ids := [JsonValue.Number(x)] + ([JsonValue.Number(y)] + [JsonValue.Number(z)]);
    assert ids == [JsonValue.Number(x), JsonValue.Number(y), JsonValue.Number(z)];
    NestedArrayValue(list, 0, ids, 7);
  }

  /** `{k1: a, k2: b, k3: <list>}` is one object value: the numbers become strings, the list its value. */
  lemma {:induction false} ObjectOfThreeValue(inner: seq<Token>, k1: string, k2: string, k3: string,
                                              a: string, b: string, ids: seq<JsonValue>)
    requires |inner| == 19 && inner[0] == LeftCurlyBracket
    requires inner[1] == Token.String(k1) && inner[2] == Colon && inner[3] == Token.Number(a) && inner[4] == Comma
    requires inner[5] == Token.String(k2) && inner[6] == Colon && inner[7] == Token.Number(b) && inner[8] == Comma
    requires inner[9] == Token.String(k3) && inner[10] == Colon && inner[18] == RightCurlyBracket
    requires MemberValue(inner, 11) == Ok((Some(Array(ids)), 18))
    ensures MemberValue(inner, 0) ==
            Ok((Some(Object(map[k1 := JsonValue.String(a), k2 := JsonValue.String(b), k3 := Array(ids)])), 19))
  {
    MemberValueCases(inner, 3);
    MemberValueCases(inner, 7);
    var members := ThreeMembersRun(inner, 1, k1, JsonValue.String(a), 4, k2, JsonValue.String(b), 8,
                                   k3, Array(ids), 18);
    NestedObjectValue(inner, 0, members, 19);
  }

  /** Three members in a row, the last closed by `}`, are a run that inserts them in that order. */
  lemma {:induction false} ThreeMembersRun(ts: seq<Token>, pos: nat, k1: string, v1: JsonValue, q1: nat,
                                           k2: string, v2: JsonValue, q2: nat, k3: string, v3: JsonValue, q3: nat)
    returns (members: seq<(string, JsonValue)>)
    requires pos + 2 <= |ts| && ts[pos] == Token.String(k1) && ts[pos + 1] == Colon
    requires MemberValue(ts, pos + 2) == Ok((Some(v1), q1)) && q1 + 3 <= |ts| && ts[q1] == Comma
    requires ts[q1 + 1] == Token.String(k2) && ts[q1 + 2] == Colon
    requires MemberValue(ts, q1 + 3) == Ok((Some(v2), q2)) && q2 + 3 <= |ts| && ts[q2] == Comma
    requires ts[q2 + 1] == Token.String(k3) && ts[q2 + 2] == Colon
    requires MemberValue(ts, q2 + 3) == Ok((Some(v3), q3)) && q3 < |ts| && ts[q3] == RightCurlyBracket
    ensures MembersRun(ts, pos, members, q3 + 1)
    ensures InsertAll(map[], members) == map[k1 := v1, k2 := v2, k3 := v3]
  {
    var last := [(k3, v3)];
    var middle := [(k2, v2)] + last;
    members := [(k1, v1)] + middle;
    MembersRunCons(ts, q2 + 1, k3, v3, q3, [], q3 + 1);
    MembersRunCons(ts, q1 + 1, k2, v2, q2, last, q3 + 1);
    MembersRunCons(ts, pos, k1, v1, q1, middle, q3 + 1);
    assert members[1..] == middle && middle[1..] == last && last[1..] == [];
    var m1 := map[k1 := v1];
    var m2 := m1[k2 := v2];
    assert InsertAll(map[], members) == InsertAll(m1, middle);
    assert InsertAll(m1, middle) == InsertAll(m2, last);
    assert InsertAll(m2, last) == InsertAll(m2[k3 := v3], []);
  }

  /**
   * `{"Image":{"Width":800,"Height":600,"IDs":[1,2,3]}}`, a reduced form of the `Image` document
   * in the test at src/tokenizer.rs:84-100.
   */
  lemma {:induction false} ImageExampleParses(ts: seq<Token>, inner: seq<Token>, list: seq<Token>)
    requires ts == [LeftCurlyBracket, Token.String("Image"), Colon] + inner + [RightCurlyBracket]
    requires inner == [LeftCurlyBracket, Token.String("Width"), Colon, Token.Number("800"), Comma,
                       Token.String("Height"), Colon, Token.Number("600"), Comma, Token.String("IDs"), Colon]
                      + list + [RightCurlyBracket]
    requires list == [LeftSquareBracket, Token.Number("1"), Comma, Token.Number("2"), Comma, Token.Number("3"),
                      RightSquareBracket]
    ensures ParseTokens(ts) == Ok(map["Image" := Object(map[
              "Width" := JsonValue.String("800"),
              "Height" := JsonValue.String("600"),
              "IDs" := Array([JsonValue.Number("1"), JsonValue.Number("2"), JsonValue.Number("3")])])])
  {
    ObjectInObjectParses(ts, inner, list, "Image", "Width", "Height", "IDs", "800", "600", "1", "2", "3");
  }

  /** An object inside an array, as in `{"a":[{"b":1}]}`: it is one object element, its number a string. */
  lemma {:induction false} ObjectInArrayParses(ts: seq<Token>, k: string, j: string, v: string)
    requires ts == [LeftCurlyBracket, Token.String(k), Colon, LeftSquareBracket,
                    LeftCurlyBracket, Token.String(j), Colon, Token.Number(v), RightCurlyBracket,
                    RightSquareBracket, RightCurlyBracket]
    ensures ParseTokens(ts) == Ok(map[k := Array([Object(map[j := JsonValue.String(v)])])])
  {
    ObjectInArrayValid(ts, k, j, v);
    MemberValueCases(ts, 7);
    MembersRunCons(ts, 5, j, JsonValue.String(v), 8, [], 9);
    NestedObjectValue(ts, 4, [(j, JsonValue.String(v))], 9);
    var item := Object(map[j := JsonValue.String(v)]);
    assert InsertAll(map[], [(j, JsonValue.String(v))]) == map[j := JsonValue.String(v)];
    ElementsRunCons(ts, 4, item, 9, [], 10);
    NestedArrayValue(ts, 3, [item], 10);
    MembersRunCons(ts, 1, k, Array([item]), 10, [], 11);
    ObjectParses(ts, [(k, Array([item]))], 11);
  }

  /** The sequence of `ObjectInArrayParses` passes `validate`. */
  lemma {:induction false} ObjectInArrayValid(ts: seq<Token>, k: string, j: string, v: string)
    requires ts == [LeftCurlyBracket, Token.String(k), Colon, LeftSquareBracket,
                    LeftCurlyBracket, Token.String(j), Colon, Token.Number(v), RightCurlyBracket,
                    RightSquareBracket, RightCurlyBracket]
    ensures IsValid(ts)
  {
    var outer := [LeftCurlyBracket];
    var braced := [LeftCurlyBracket, Token.String(j), Colon, Token.Number(v), RightCurlyBracket];
    var list := [LeftSquareBracket] + braced + [RightSquareBracket];
    assert Scan(list, outer) == Some(outer) by {
      var both := outer + [LeftSquareBracket];
      var member := [Token.String(j), Colon, Token.Number(v)];
      NonBracketsKeepStack(member, both + [LeftCurlyBracket]);
      EnclosedKeepsStack(RightCurlyBracket, member, both);
      assert braced == [LeftCurlyBracket] + member + [RightCurlyBracket];
      EnclosedKeepsStack(RightSquareBracket, braced, outer);
    }
    var head := [Token.String(k), Colon];
    assert Scan(head + list, outer) == Some(outer) by {
      NonBracketsKeepStack(head, outer);
      ScanAppend(head, list, outer);
    }
    BracedValid(head + list);
    assert ts == outer + (head + list) + [RightCurlyBracket];
  }
}
