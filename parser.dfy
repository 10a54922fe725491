/**
 * The recursive-descent builder of src/lib.rs: `parse_object` and `parse_list` fill a map or a
 * vector while advancing a token cursor they share with their caller, and `parse` runs the
 * tokenizer, the bracket check and then `parse_object` on an object-rooted document.
 *
 * Each routine is a method with the source's loops, proved equal to a recursive function over
 * `(tokens, position)` that returns the built container together with the new position. The
 * caller's `&mut` cursor and container are passed in and handed back.
 */
module Parser {
  import opened Wrappers
  import opened Tokenizer
  import opened Validation

  datatype JsonValue =
    | String(s: string)
    | Number(s: string)
    | Boolean(b: bool)
    | Null
    | Array(items: seq<JsonValue>)
    | Object(members: map<string, JsonValue>)

  type Members = map<string, JsonValue>

  /** Why a run aborts; one constructor per kind of `panic!`, `unwrap()` or `process::exit`. */
  datatype Abort =
    | UnterminatedString          // src/tokenizer.rs:42, `peek().unwrap()` past the end
    | InvalidJson                 // src/lib.rs:289-291, `validate` failed
    | NoTokens                    // src/lib.rs:296, `next().unwrap()` on no tokens
    | NothingToPeek               // src/lib.rs:64 and 167, `peek().unwrap()` past the end
    | UnexpectedEnd               // src/lib.rs:52, `get_next_token` past the end
    | ExpectedString(found: Token)  // src/lib.rs:182
    | ExpectedColon(found: Token)   // src/lib.rs:190-193
    | ExpectedComma(found: Token)   // src/lib.rs:157 and 279

  /** `get_next_token`: the token under the cursor and the cursor one step on, or a panic at the end. */
  function GetNextToken(ts: seq<Token>, pos: nat): (r: Result<(Token, nat), Abort>)
    ensures r.Ok? <==> pos < |ts|
    ensures r.Ok? ==> r.value.0 == ts[pos] && r.value.1 == pos + 1
    ensures r.Err? ==> r.error == UnexpectedEnd
  {
    if pos < |ts| then Ok((ts[pos], pos + 1)) else Err(UnexpectedEnd)
  }

  /**
   * `parse_object` from position `pos` into `parent`: the built map and the position after it.
   * An immediate `}` is only peeked at, so it is left for the caller to consume.
   */
  function ObjectAt(ts: seq<Token>, pos: nat, parent: Members): (r: Result<(Members, nat), Abort>)
    requires pos <= |ts|
    ensures r.Ok? ==> pos < |ts| && pos <= r.value.1 <= |ts|
    ensures r.Ok? && r.value.1 == pos ==> ts[pos] == RightCurlyBracket && r.value.0 == parent
    ensures r.Ok? && r.value.1 > pos ==> ts[r.value.1 - 1] == RightCurlyBracket
    ensures pos == |ts| ==> r == Err(NothingToPeek)
    ensures pos < |ts| && ts[pos] == RightCurlyBracket ==> r == Ok((parent, pos))
    decreases |ts| - pos, 2
  {
    if pos == |ts| then Err(NothingToPeek)
    else if ts[pos] == RightCurlyBracket then Ok((parent, pos))
    else MembersAt(ts, pos, parent)
  }

  /**
   * The member loop of `parse_object`: key, colon, value, then a comma to go round again or a
   * `}` to finish. Anything else in those places, or running out of tokens, aborts.
   */
  function MembersAt(ts: seq<Token>, pos: nat, parent: Members): (r: Result<(Members, nat), Abort>)
    requires pos <= |ts|
    ensures r.Ok? ==> pos + 4 <= r.value.1 <= |ts|
    ensures r.Ok? ==> ts[pos].String? && ts[pos + 1] == Colon
    ensures r.Ok? ==> ts[r.value.1 - 1] == RightCurlyBracket
    ensures r.Ok? ==> parent.Keys <= r.value.0.Keys
    decreases |ts| - pos, 1
  {
    match GetNextToken(ts, pos)
    case Err(e) => Err(e)
    case Ok((key, p1)) =>
      if !key.String? then Err(ExpectedString(key))
      else match GetNextToken(ts, p1)
        case Err(e) => Err(e)
        case Ok((colon, p2)) =>
          if colon != Colon then Err(ExpectedColon(colon))
          else match MemberValue(ts, p2)
            case Err(e) => Err(e)
            case Ok((value, p3)) =>
              var members := if value.Some? then parent[key.text := value.value] else parent;
              match GetNextToken(ts, p3)
              case Err(e) => Err(e)
              case Ok((separator, p4)) =>
                if separator == Comma then MembersAt(ts, p4, members)
                else if separator == RightCurlyBracket then Ok((members, p4))
                else Err(ExpectedComma(separator))
  }

  /**
   * The value dispatch of `parse_object`: the value to insert, if any, and the position after it.
   * A number is stored as a string here; punctuation is consumed and inserts nothing.
   */
  function MemberValue(ts: seq<Token>, pos: nat): (r: Result<(Option<JsonValue>, nat), Abort>)
    requires pos <= |ts|
    ensures r.Ok? ==> pos < r.value.1 <= |ts|
    decreases |ts| - pos, 0
  {
    match GetNextToken(ts, pos)
    case Err(e) => Err(e)
    case Ok((token, p)) =>
      match token
      case String(v) => Ok((Some(JsonValue.String(v)), p))
      case Number(v) => Ok((Some(JsonValue.String(v)), p))
      case True => Ok((Some(Boolean(true)), p))
      case False => Ok((Some(Boolean(false)), p))
      case Null => Ok((Some(JsonValue.Null), p))
      case LeftSquareBracket =>
        (match ListAt(ts, p, [])
         case Err(e) => Err(e)
         case Ok((items, q)) => Ok((Some(Array(items)), q)))
      case LeftCurlyBracket =>
        (match ObjectAt(ts, p, map[])
         case Err(e) => Err(e)
         case Ok((members, q)) => Ok((Some(Object(members)), q)))
      case _ => Ok((None, p))
  }

  /**
   * `parse_list` from position `pos`, appending to `parent`: the built vector and the position
   * after it. An immediate `]` is only peeked at, so it is left for the caller to consume.
   */
  function ListAt(ts: seq<Token>, pos: nat, parent: seq<JsonValue>): (r: Result<(seq<JsonValue>, nat), Abort>)
    requires pos <= |ts|
    ensures r.Ok? ==> pos < |ts| && pos <= r.value.1 <= |ts|
    ensures r.Ok? && r.value.1 == pos ==> ts[pos] == RightSquareBracket && r.value.0 == parent
    ensures r.Ok? && r.value.1 > pos ==> ts[r.value.1 - 1] == RightSquareBracket
    ensures pos == |ts| ==> r == Err(NothingToPeek)
    ensures pos < |ts| && ts[pos] == RightSquareBracket ==> r == Ok((parent, pos))
    decreases |ts| - pos, 2
  {
    if pos == |ts| then Err(NothingToPeek)
    else if ts[pos] == RightSquareBracket then Ok((parent, pos))
    else ElementsAt(ts, pos, parent)
  }

  /** The element loop of `parse_list`: a value, then a comma to go round again or a `]` to finish. */
  function ElementsAt(ts: seq<Token>, pos: nat, parent: seq<JsonValue>): (r: Result<(seq<JsonValue>, nat), Abort>)
    requires pos <= |ts|
    ensures r.Ok? ==> pos + 2 <= r.value.1 <= |ts|
    ensures r.Ok? ==> ts[r.value.1 - 1] == RightSquareBracket
    ensures r.Ok? ==> |parent| <= |r.value.0| && r.value.0[..|parent|] == parent
    decreases |ts| - pos, 1
  {
    match ElementValue(ts, pos)
    case Err(e) => Err(e)
    case Ok((value, p1)) =>
      var items := if value.Some? then parent + [value.value] else parent;
      match GetNextToken(ts, p1)
      case Err(e) => Err(e)
      case Ok((separator, p2)) =>
        if separator == Comma then ElementsAt(ts, p2, items)
        else if separator == RightSquareBracket then Ok((items, p2))
        else Err(ExpectedComma(separator))
  }

  /** The value dispatch of `parse_list`; unlike in an object, a number stays a number. */
  function ElementValue(ts: seq<Token>, pos: nat): (r: Result<(Option<JsonValue>, nat), Abort>)
    requires pos <= |ts|
    ensures r.Ok? ==> pos < r.value.1 <= |ts|
    decreases |ts| - pos, 0
  {
    match GetNextToken(ts, pos)
    case Err(e) => Err(e)
    case Ok((token, p)) =>
      match token
      case String(v) => Ok((Some(JsonValue.String(v)), p))
      case Number(v) => Ok((Some(JsonValue.Number(v)), p))
      case True => Ok((Some(Boolean(true)), p))
      case False => Ok((Some(Boolean(false)), p))
      case Null => Ok((Some(JsonValue.Null), p))
      case LeftSquareBracket =>
        (match ListAt(ts, p, [])
         case Err(e) => Err(e)
         case Ok((items, q)) => Ok((Some(Array(items)), q)))
      case LeftCurlyBracket =>
        (match ObjectAt(ts, p, map[])
         case Err(e) => Err(e)
         case Ok((members, q)) => Ok((Some(Object(members)), q)))
      case _ => Ok((None, p))
  }

  /** What `parse` does once the tokens exist. */
  function ParseTokens(ts: seq<Token>): (r: Result<Members, Abort>)
    ensures !IsValid(ts) ==> r == Err(InvalidJson)
    ensures IsValid(ts) && ts == [] ==> r == Err(NoTokens)
    ensures IsValid(ts) && ts != [] && ts[0] != LeftCurlyBracket ==> r == Ok(map[])
    ensures r.Ok? ==> IsValid(ts)
  {
    if !IsValid(ts) then Err(InvalidJson)
    else if ts == [] then Err(NoTokens)
    else if ts[0] != LeftCurlyBracket then Ok(map[])
    else match ObjectAt(ts, 1, map[])
      case Err(e) => Err(e)
      case Ok((members, _)) => Ok(members)
  }

  /** What `parse` does with its input text. */
  function Document(input: string): (r: Result<Members, Abort>)
    ensures r.Ok? ==> Lex(input).Some? && IsValid(Lex(input).value)
    ensures Lex(input).Some? && !IsValid(Lex(input).value) ==> r == Err(InvalidJson)
  {
    match Lex(input)
    case None => Err(UnterminatedString)
    case Some(ts) => ParseTokens(ts)
  }

  /**
   * `parse_list` (src/lib.rs:60-161): peek for an immediate `]`, then loop over elements,
   * pushing each value onto the vector and requiring `,` or `]` after it.
   */
  method ParseList(tokens: seq<Token>, pos: nat, parent: seq<JsonValue>)
    returns (r: Result<(seq<JsonValue>, nat), Abort>)
    requires pos <= |tokens|
    ensures r == ListAt(tokens, pos, parent)
    decreases |tokens| - pos
  {
    if pos == |tokens| {
      return Err(NothingToPeek);
    }
    if tokens[pos] == RightSquareBracket {
      return Ok((parent, pos));
    }
    var items, cursor := parent, pos;
    while true
      invariant pos <= cursor <= |tokens|
      invariant ElementsAt(tokens, cursor, items) == ElementsAt(tokens, pos, parent)
      decreases |tokens| - cursor
    {
      ghost var start, before := cursor, items;
      var next := GetNextToken(tokens, cursor);
      if next.Err? {
        return Err(next.error);
      }
      var value := next.value.0;
      cursor := next.value.1;
      match value {
        case String(v) => items := items + [JsonValue.String(v)];
        case Number(v) => items := items + [JsonValue.Number(v)];
        case LeftCurlyBracket =>
          var sub := ParseObject(tokens, cursor, map[]);
          if sub.Err? {
            return Err(sub.error);
          }
          items := items + [Object(sub.value.0)];
          cursor := sub.value.1;
        case LeftSquareBracket =>
          var sub := ParseList(tokens, cursor, []);
          if sub.Err? {
            return Err(sub.error);
          }
          items := items + [Array(sub.value.0)];
          cursor := sub.value.1;
        case True => items := items + [Boolean(true)];
        case False => items := items + [Boolean(false)];
        case Null => items := items + [JsonValue.Null];
        case _ =>
      }
      assert ElementValue(tokens, start).Ok?;
      assert cursor == ElementValue(tokens, start).value.1;
      next := GetNextToken(tokens, cursor);
      if next.Err? {
        return Err(next.error);
      }
      var separator := next.value.0;
      cursor := next.value.1;
      if separator == Comma {
      } else if separator == RightSquareBracket {
        return Ok((items, cursor));
      } else {
        return Err(ExpectedComma(separator));
      }
    }
  }

  /**
   * `parse_object` (src/lib.rs:163-283): peek for an immediate `}`, then loop over members,
   * inserting each key and value into the map and requiring `,` or `}` after it.
   */
  method ParseObject(tokens: seq<Token>, pos: nat, parent: Members)
    returns (r: Result<(Members, nat), Abort>)
    requires pos <= |tokens|
    ensures r == ObjectAt(tokens, pos, parent)
    decreases |tokens| - pos
  {
    if pos == |tokens| {
      return Err(NothingToPeek);
    }
    if tokens[pos] == RightCurlyBracket {
      return Ok((parent, pos));
    }
    var members, cursor := parent, pos;
    while true
      invariant pos <= cursor <= |tokens|
      invariant MembersAt(tokens, cursor, members) == MembersAt(tokens, pos, parent)
      decreases |tokens| - cursor
    {
      ghost var start, before := cursor, members;
      var next := GetNextToken(tokens, cursor);
      if next.Err? {
        return Err(next.error);
      }
      var key := next.value.0;
      cursor := next.value.1;
      if !key.String? {
        return Err(ExpectedString(key));
      }
      next := GetNextToken(tokens, cursor);
      if next.Err? {
        return Err(next.error);
      }
      var colon := next.value.0;
      cursor := next.value.1;
      if colon != Colon {
        return Err(ExpectedColon(colon));
      }
      var name := key.text;
      next := GetNextToken(tokens, cursor);
      if next.Err? {
        return Err(next.error);
      }
      var value := next.value.0;
      cursor := next.value.1;
      ghost var got: Option<JsonValue> := None;
      match value {
        case String(v) => members := members[name := JsonValue.String(v)]; got := Some(JsonValue.String(v));
        case Number(v) => members := members[name := JsonValue.String(v)]; got := Some(JsonValue.String(v));
        case True => members := members[name := Boolean(true)]; got := Some(Boolean(true));
        case False => members := members[name := Boolean(false)]; got := Some(Boolean(false));
        case Null => members := members[name := JsonValue.Null]; got := Some(JsonValue.Null);
        case LeftSquareBracket =>
          var sub := ParseList(tokens, cursor, []);
          if sub.Err? {
            return Err(sub.error);
          }
          members := members[name := Array(sub.value.0)];
          cursor := sub.value.1;
          got := Some(Array(sub.value.0));
        case LeftCurlyBracket =>
          var sub := ParseObject(tokens, cursor, map[]);
          if sub.Err? {
            return Err(sub.error);
          }
          members := members[name := Object(sub.value.0)];
          cursor := sub.value.1;
          got := Some(Object(sub.value.0));
        case _ =>
      }
      assert MemberValue(tokens, start + 2) == Ok((got, cursor));
      assert members == if got.Some? then before[name := got.value] else before;
      next := GetNextToken(tokens, cursor);
      if next.Err? {
        return Err(next.error);
      }
      var separator := next.value.0;
      cursor := next.value.1;
      if separator == Comma {
      } else if separator == RightCurlyBracket {
        return Ok((members, cursor));
      } else {
        return Err(ExpectedComma(separator));
      }
    }
  }

  /**
   * `parse` (src/lib.rs:285-302): tokenize, abort if the bracket check fails, take the first
   * token, and build the top-level object only when that token is `{`.
   */
  method Parse(input: string) returns (r: Result<Members, Abort>)
    ensures r == Document(input)
  {
    var lexed := TokenizeJson(input);
    if lexed.None? {
      return Err(UnterminatedString);
    }
    var tokens := lexed.value;
    var value: Members := map[];
    var isValid := Validate(tokens);
    if !isValid {
      return Err(InvalidJson);
    }
    if |tokens| == 0 {
      return Err(NoTokens);
    }
    if tokens[0] == LeftCurlyBracket {
      var built := ParseObject(tokens, 1, value);
      if built.Err? {
        return Err(built.error);
      }
      value := built.value.0;
    }
    return Ok(value);
  }
}
